/** The logger, `struct vcservice_log`: a message buffer with its cursor, the
    format word, the threshold and message levels, and the psock it owns and
    writes committed messages to. */
module Logger {
  import opened Status
  import opened CStrings
  import opened LogLevels
  import opened LogFormat
  import opened LogMessage
  import opened PsockSink

  /** The write callbacks a logger can hold; the library defines one, which
      writes to the psock kept as the logger's user context. */
  datatype WriteCallback = WritePsockCallback

  /** The status `resource_release` returns for a logger: a failure to release
      the psock takes priority, otherwise the status of reclaiming the memory. */
  function ReleaseStatus(contextStatus: int, reclaimStatus: int): (r: int)
    ensures r == SUCCESS <==> contextStatus == SUCCESS && reclaimStatus == SUCCESS
    ensures contextStatus != SUCCESS ==> r == contextStatus
    ensures r == contextStatus || r == reclaimStatus
  {
    if contextStatus != SUCCESS then contextStatus else reclaimStatus
  }

  class Log {
    var threshold: nat
    var userContext: Psock?
    var logLevel: nat
    const message: array<char>
    var idx: nat
    var bits: bv32
    var writeCb: WriteCallback
    /** Set when the logger has been released; nothing may use it after that. */
    ghost var released: bool

    ghost predicate Valid()
      reads this, userContext
    {
      && !released
      && message.Length == CAPACITY
      && idx <= CAPACITY
      && IsValidLevel(threshold)
      && (userContext != null ==> !userContext.released && userContext.owned)
    }

    /** The buffer and the cursor as a value. */
    ghost function Snapshot(): (m: Msg)
      reads this, message
    {
      Msg(message[..], idx)
    }

    /** A zeroed logger, as `memset` leaves the allocated struct, with the
        threshold, the psock and the write callback filled in. */
    constructor Init(sock: Psock, threshold: nat)
      ensures this.threshold == threshold && userContext == sock && writeCb == WritePsockCallback
      ensures logLevel == 0 && idx == 0 && bits == 0 && !released
      ensures fresh(message) && message[..] == Zeros(CAPACITY)
    {
      this.threshold := threshold;
      userContext := sock;
      logLevel := 0;
      message := new char[CAPACITY](_ => NUL);
      idx := 0;
      bits := 0;
      writeCb := WritePsockCallback;
      released := false;
    }

    /** `vcservice_log_create_from_psock`: allocate a logger that owns `sock`.
        `prior` is what the caller's `*log` held before the call. On an
        allocation failure its status is returned, no logger is made and
        `*log` is left as it was.
        The threshold is checked only by a model assertion in the source,
        hence a precondition here. */
    static method CreateFromPsock(allocStatus: int, sock: Psock, threshold: nat, prior: Log?)
      returns (status: int, log: Log?)
      requires !sock.released && !sock.owned
      requires IsValidLevel(threshold)
      modifies sock`owned
      ensures allocStatus != SUCCESS ==> status == allocStatus && log == prior && !sock.owned
      ensures allocStatus == SUCCESS ==>
        && status == SUCCESS && log != null && fresh(log) && fresh(log.message)
        && log.Valid() && sock.owned
        && log.threshold == threshold && log.userContext == sock && log.writeCb == WritePsockCallback
        && log.idx == 0 && log.bits == 0 && log.logLevel == 0
        && log.message[..] == Zeros(CAPACITY)
    {
      if allocStatus != SUCCESS {
        return allocStatus, prior;
      }
      log := new Log.Init(sock, threshold);
      sock.owned := true;
      status := SUCCESS;
    }

    /** `vcservice_log_threshold_level`: the threshold the logger was made with. */
    function ThresholdLevel(): (level: nat)
      reads this, userContext
      requires Valid()
      ensures IsValidLevel(level)
    {
      threshold
    }

    /** Copies `bytes` into the buffer at `at`, as `memcpy` does. */
    method Put(at: nat, bytes: seq<char>)
      requires at + |bytes| <= message.Length
      modifies message
      ensures message[..] == Overwrite(old(message[..]), at, bytes)
    {
      forall i | 0 <= i < |bytes| {
        message[at + i] := bytes[i];
      }
    }

    /** `vcservice_log_message_start`: zero the buffer, write the timestamp at
        its start and move the cursor past it. The format word and the levels
        are left as they were, so a hex mode set earlier is still in force. */
    method MessageStart(stamp: seq<char>)
      requires Valid()
      modifies this`idx, message
      ensures Valid()
      ensures Snapshot() == Started(stamp)
      ensures bits == old(bits) && logLevel == old(logLevel) && threshold == old(threshold)
    {
      forall i | 0 <= i < message.Length {
        message[i] := NUL;
      }
      idx := 0;
      var room := message.Length - idx;
      var adjsize := if |stamp| < room then |stamp| else 0;
      Put(idx, stamp[..adjsize]);
      idx := idx + adjsize;
      assert message[..] == Started(stamp).buf;
    }

    /** `vcservice_log_append_string`: copy as much of `val` as fits at the
        cursor and advance the cursor by that many bytes. */
    method AppendString(val: seq<char>)
      requires Valid()
      modifies this`idx, message
      ensures Valid()
      ensures Snapshot() == LogMessage.AppendString(old(Snapshot()), val)
    {
      var messageSize := message.Length - idx;
      var str := CString(val);
      var adjsize := |str|;
      if adjsize > messageSize {
        adjsize := messageSize;
      }
      Put(idx, str[..adjsize]);
      idx := idx + adjsize;
    }

    /** `vcservice_log_append_log_level`: append the level's name, cut to the
        room left exactly as a string append is. */
    method AppendLogLevel(level: nat)
      requires Valid()
      modifies this`idx, message
      ensures Valid()
      ensures Snapshot() == LogMessage.AppendString(old(Snapshot()), LevelName(level))
    {
      var str := LevelName(level);
      CStringOfNulFree(str);
      var messageSize := message.Length - idx;
      var adjsize := |str|;
      if adjsize > messageSize {
        adjsize := messageSize;
      }
      Put(idx, str[..adjsize]);
      idx := idx + adjsize;
    }

    /** `snprintf` of the text `t` at the cursor, and the cursor moved by the
        length `snprintf` reports, cut to the room left. */
    method Print(t: seq<char>)
      requires Valid()
      modifies this`idx, message
      ensures Valid()
      ensures Snapshot() == Printed(old(Snapshot()), t)
    {
      ghost var m := Snapshot();
      var messageSize := message.Length - idx;
      assert messageSize == Room(m);
      Put(idx, SnprintfBytes(t, messageSize));
      assert message[..] == Printed(m, t).buf;
      var adjsize := |t|;
      if adjsize > messageSize {
        adjsize := messageSize;
      }
      idx := idx + adjsize;
    }

    /** `vcservice_log_append_uint8`: print the value in the current format. */
    method AppendUint8(val: uint8)
      requires Valid()
      modifies this`idx, message
      ensures Valid() && bits == old(bits)
      ensures Snapshot() == Printed(old(Snapshot()), FormatUint8(bits, val))
    {
      Print(FormatUint8(bits, val));
    }

    /** `vcservice_log_append_uint64`: print the value in the current format. */
    method AppendUint64(val: uint64)
      requires Valid()
      modifies this`idx, message
      ensures Valid() && bits == old(bits)
      ensures Snapshot() == Printed(old(Snapshot()), FormatUint64(bits, val))
    {
      Print(FormatUint64(bits, val));
    }

    /** `vcservice_log_append_uuid`: `rendered` is the outcome of converting the
        UUID to a string (None when the conversion fails). On success the string
        is appended like any other; a failure leaves the buffer unchanged. The
        format word plays no part. */
    method AppendUuid(rendered: Option<string>)
      requires Valid()
      modifies this`idx, message
      ensures Valid()
      ensures rendered.None? ==> Snapshot() == old(Snapshot())
      ensures rendered.Some? ==> Snapshot() == LogMessage.AppendString(old(Snapshot()), rendered.value)
    {
      if rendered.Some? {
        AppendString(rendered.value);
      }
    }

    /** `vcservice_log_format_set_hex`: the format bits become the hex format. */
    method FormatSetHex()
      requires Valid()
      modifies this`bits
      ensures Valid()
      ensures bits == WithHexFormat(old(bits))
    {
      // clear the format bits, then set the hex bit
      bits := WithHexFormat(bits);
    }

    /** `vcservice_log_format_set_default`: the format bits are cleared. */
    method FormatSetDefault()
      requires Valid()
      modifies this`bits
      ensures Valid()
      ensures bits == WithDefaultFormat(old(bits))
    {
      // clear the format bits, then set the default ones
      bits := WithDefaultFormat(bits);
    }

    /** `vcservice_log_write_psock`: write the first `idx` bytes of the buffer
        to the psock in one call, whose outcome is `writeStatus`. The level is
        ignored and a failed write is swallowed. */
    method WritePsock(level: nat, context: Psock, writeStatus: int)
      requires Valid() && context == userContext
      modifies context`written
      ensures Valid()
      ensures context.written ==
        if writeStatus == SUCCESS then old(context.written) + [Text(Snapshot())]
        else old(context.written)
    {
      var status := context.WriteRawData(message[..idx], writeStatus);
    }

    /** `vcservice_log_message_commit`: append a newline, then hand the message
        to the write callback once; `writeStatus` is the outcome of its write.
        The buffer and the cursor are not reset. */
    method MessageCommit(writeStatus: int)
      requires Valid() && userContext != null
      modifies this`idx, message, userContext`written
      ensures Valid()
      ensures Snapshot() == LogMessage.AppendString(old(Snapshot()), "\n")
      ensures userContext.written ==
        if writeStatus == SUCCESS then old(userContext.written) + [Committed(old(Snapshot()))]
        else old(userContext.written)
    {
      AppendString("\n");
      match writeCb
      case WritePsockCallback => WritePsock(logLevel, userContext, writeStatus);
    }

    /** `vcservice_log_resource_release`: release the psock if there is one,
        zero the logger, reclaim its memory (whose outcome is `reclaimStatus`)
        and merge the two statuses. */
    method Release(reclaimStatus: int) returns (status: int)
      requires Valid()
      modifies this, message, userContext
      ensures released && userContext == null
      ensures old(userContext) != null ==>
        old(userContext).released && old(userContext).written == old(userContext.written)
      ensures status == ReleaseStatus(
        if old(userContext) != null then old(userContext).releaseStatus else SUCCESS, reclaimStatus)
      ensures threshold == 0 && logLevel == 0 && idx == 0 && bits == 0
      ensures message[..] == Zeros(CAPACITY)
    {
      var contextStatus := SUCCESS;
      if userContext != null {
        contextStatus := userContext.Release();
      }
      forall i | 0 <= i < message.Length {
        message[i] := NUL;
      }
      threshold, userContext, logLevel, idx, bits := 0, null, 0, 0, 0;
      released := true;
      status := ReleaseStatus(contextStatus, reclaimStatus);
    }
  }

  /** A line made of the timestamp, two strings and a printed number that all
      fit reads as their concatenation followed by the newline. */
  lemma LineOfPieces(stamp: seq<char>, name: seq<char>, word: seq<char>, num: seq<char>)
    requires |stamp| == STAMP_LENGTH && NulFree(name) && NulFree(word)
    requires STAMP_LENGTH + |name| + |word| + |num| < CAPACITY
    ensures var m2 := LogMessage.AppendString(LogMessage.AppendString(Started(stamp), name), word);
      Committed(Printed(m2, num)) == stamp + name + word + num + "\n"
  {
    CStringOfNulFree(name);
    CStringOfNulFree(word);
    var m1 := LogMessage.AppendString(Started(stamp), name);
    var m2 := LogMessage.AppendString(m1, word);
    PrintedFits(m2, num);
  }

  /** The example line of an informational message: the timestamp, the level
      name with no separator after it, a string and an 8-bit value in the
      default format, and the newline. */
  lemma InfoLineExample(stamp: seq<char>, name: seq<char>, word: seq<char>, num: seq<char>)
    requires |stamp| == STAMP_LENGTH
    requires name == LevelName(INFO) && word == "started" && num == FormatUint8(FORMAT_DEFAULT, 7)
    ensures var m2 := LogMessage.AppendString(LogMessage.AppendString(Started(stamp), name), word);
      Committed(Printed(m2, num)) == stamp + "INFOstarted7\n"
  {
    assert name == "INFO";
    assert num == "7";
    LineOfPieces(stamp, name, word, num);
    InfoLineText(stamp, name, word, num);
  }

  lemma InfoLineText(stamp: seq<char>, name: seq<char>, word: seq<char>, num: seq<char>)
    requires name == "INFO" && word == "started" && num == "7"
    ensures stamp + name + word + num + "\n" == stamp + "INFOstarted7\n"
  {
    assert stamp + name + word + num + "\n" == stamp + (name + word + num + "\n");
  }
}

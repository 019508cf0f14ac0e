/** The message buffer of a logger as a value: the 4096-byte `log_message`
    array and the `log_idx` cursor, and what each buffer operation of the
    logger does to them. The logger class in `Logger` is proved to follow
    these functions. */
module LogMessage {
  import opened CStrings

  /** `MAX_LOG_MESSAGE_SIZE`, the size of the message buffer. */
  const CAPACITY: nat := 4096

  /** The length of a "%Y-%m-%d %H:%M:%S " timestamp with a four-digit year. */
  const STAMP_LENGTH: nat := 20

  /** The buffer contents and the cursor. */
  datatype Msg = Msg(buf: seq<char>, idx: nat)

  /** The buffer has its fixed size and the cursor lies within it. */
  predicate Wf(m: Msg) {
    |m.buf| == CAPACITY && m.idx <= CAPACITY
  }

  /** The bytes written so far: what a commit hands to the sink. */
  function Text(m: Msg): seq<char>
    requires Wf(m)
  {
    m.buf[..m.idx]
  }

  /** The space left, `sizeof(log_message) - log_idx`. */
  function Room(m: Msg): nat
    requires Wf(m)
  {
    CAPACITY - m.idx
  }

  function Min(a: nat, b: nat): nat {
    if a < b then a else b
  }

  /** `buf` with `bytes` copied over it at position `at`, as `memcpy` does. */
  function Overwrite(buf: seq<char>, at: nat, bytes: seq<char>): (r: seq<char>)
    requires at + |bytes| <= |buf|
    ensures |r| == |buf|
    ensures forall i :: 0 <= i < |r| ==> r[i] == if at <= i < at + |bytes| then bytes[i - at] else buf[i]
  {
    buf[..at] + bytes + buf[at + |bytes|..]
  }

  /** `Overwrite` as three slices: before, the copied bytes, and after. */
  lemma OverwriteSlices(buf: seq<char>, at: nat, bytes: seq<char>)
    requires at + |bytes| <= |buf|
    ensures var r := Overwrite(buf, at, bytes);
      r[..at] == buf[..at] && r[at..at + |bytes|] == bytes && r[at + |bytes|..] == buf[at + |bytes|..]
  {
  }

  /** The buffer after `message_start`: zeroed, then the timestamp written at
      the start and the cursor moved past it. `strftime` writes nothing and
      returns 0 when the text and its terminator do not fit in the buffer.
      The result depends on the timestamp alone, not on the earlier buffer. */
  function Started(stamp: seq<char>): (m: Msg)
    ensures Wf(m)
    ensures m.idx == if |stamp| < CAPACITY then |stamp| else 0
    ensures Text(m) == if |stamp| < CAPACITY then stamp else []
    ensures forall i :: m.idx <= i < CAPACITY ==> m.buf[i] == NUL
  {
    if |stamp| < CAPACITY then Msg(stamp + Zeros(CAPACITY - |stamp|), |stamp|)
    else Msg(Zeros(CAPACITY), 0)
  }

  /** The buffer after `append_string(val)`: the C string `val` copied at the
      cursor, cut to the room left, no terminator written; the cursor moves by
      the number of bytes copied. */
  function AppendString(m: Msg, val: seq<char>): (r: Msg)
    requires Wf(m)
    ensures Wf(r)
    ensures r.idx == m.idx + Min(|CString(val)|, Room(m))
    ensures Text(r) == Text(m) + CString(val)[..r.idx - m.idx]
    ensures r.buf[r.idx..] == m.buf[r.idx..]
    ensures Room(m) == 0 ==> r == m
  {
    var n := Min(|CString(val)|, Room(m));
    var r := Msg(Overwrite(m.buf, m.idx, CString(val)[..n]), m.idx + n);
    OverwriteSlices(m.buf, m.idx, CString(val)[..n]);
    assert Text(r) == r.buf[..m.idx] + r.buf[m.idx..r.idx];
    r
  }

  /** The bytes `snprintf` stores into a buffer of `room` bytes for the text
      `t`: nothing when `room` is 0, otherwise as much of `t` as leaves space
      for the terminator, and the terminator. */
  function SnprintfBytes(t: seq<char>, room: nat): (w: seq<char>)
    ensures |w| == if room == 0 then 0 else Min(|t|, room - 1) + 1
    ensures room > 0 ==> w[|w| - 1] == NUL && w[..|w| - 1] == t[..|w| - 1]
  {
    if room == 0 then [] else t[..Min(|t|, room - 1)] + [NUL]
  }

  /** The buffer after an integer append prints the text `t` with `snprintf`
      at the cursor: the cursor moves by `min(|t|, room)`. What the bytes are
      is stated by the three lemmas below. */
  function Printed(m: Msg, t: seq<char>): (r: Msg)
    requires Wf(m)
    ensures Wf(r)
    ensures r.idx == m.idx + Min(|t|, Room(m))
  {
    Msg(Overwrite(m.buf, m.idx, SnprintfBytes(t, Room(m))), m.idx + Min(|t|, Room(m)))
  }

  /** A full buffer is left as it is. */
  lemma PrintedIntoFull(m: Msg, t: seq<char>)
    requires Wf(m) && Room(m) == 0
    ensures Printed(m, t) == m
  {
    assert Overwrite(m.buf, m.idx, []) == m.buf;
  }

  /** Text that fits is appended whole, followed by a terminator just past the
      cursor; the bytes after that are unchanged. */
  lemma PrintedFits(m: Msg, t: seq<char>)
    requires Wf(m) && |t| < Room(m)
    ensures var r := Printed(m, t);
      Text(r) == Text(m) + t && r.buf[r.idx] == NUL && r.buf[r.idx + 1..] == m.buf[r.idx + 1..]
  {
    var w := SnprintfBytes(t, Room(m));
    var r := Printed(m, t);
    OverwriteSlices(m.buf, m.idx, w);
    assert w == t + [NUL];
    assert r.buf[m.idx..r.idx] == t;
    assert Text(r) == r.buf[..m.idx] + r.buf[m.idx..r.idx];
    assert r.buf[r.idx] == r.buf[m.idx..m.idx + |w|][|t|];
  }

  /** Text that does not fit is cut one byte short of the room left and
      followed by the terminator: the cursor ends at the end of the buffer and
      the terminator is the last byte of the message. */
  lemma PrintedTruncates(m: Msg, t: seq<char>)
    requires Wf(m) && 0 < Room(m) <= |t|
    ensures var r := Printed(m, t);
      r.idx == CAPACITY && Text(r) == Text(m) + t[..Room(m) - 1] + [NUL]
  {
    var w := SnprintfBytes(t, Room(m));
    var r := Printed(m, t);
    OverwriteSlices(m.buf, m.idx, w);
    assert Text(r) == r.buf[..m.idx] + w;
  }

  /** Where an integer does not fit, the text is not the first `CAPACITY`
      bytes of the unbounded text: the last byte of the buffer is the
      terminator `snprintf` wrote, in place of the text's own character. */
  lemma PrintedTruncationEndsInNul(m: Msg, t: seq<char>)
    requires Wf(m) && 0 < Room(m) <= |t| && NulFree(t)
    ensures Text(Printed(m, t)) != Prefix(Text(m) + t, CAPACITY)
  {
    var r := Printed(m, t);
    var all := Text(m) + t;
    PrintedTruncates(m, t);
    assert all[CAPACITY - 1] == t[Room(m) - 1] != NUL;
    assert Text(r)[CAPACITY - 1] == NUL;
  }

  /** What a commit hands to the sink: the text with a newline appended by
      `append_string`, so the newline is dropped when the buffer is full. */
  function Committed(m: Msg): (out: seq<char>)
    requires Wf(m)
    ensures Room(m) > 0 ==> out == Text(m) + "\n"
    ensures Room(m) == 0 ==> out == Text(m)
    ensures |out| <= CAPACITY
  {
    Text(AppendString(m, "\n"))
  }

  // ---------------------------------------------------------------------
  // Sequences of string appends.

  /** The buffer after appending each string of `parts` in turn. */
  function AppendAll(m: Msg, parts: seq<seq<char>>): (r: Msg)
    requires Wf(m)
    ensures Wf(r)
    decreases |parts|
  {
    if parts == [] then m else AppendAll(AppendString(m, parts[0]), parts[1..])
  }

  /** The strings of `parts` one after the other. */
  function Concat(parts: seq<seq<char>>): seq<char> {
    if parts == [] then [] else parts[0] + Concat(parts[1..])
  }

  predicate AllNulFree(parts: seq<seq<char>>) {
    forall k :: 0 <= k < |parts| ==> NulFree(parts[k])
  }

  /** The first `n` bytes of `s`, or all of `s` when it is shorter. */
  function Prefix(s: seq<char>, n: nat): seq<char> {
    s[..Min(|s|, n)]
  }

  /** One string append keeps the same prefix of the unbounded text as
      appending it to the text without a bound would. */
  lemma AppendStringPrefix(m: Msg, p: seq<char>, rest: seq<char>)
    requires Wf(m) && NulFree(p)
    ensures Prefix(Text(AppendString(m, p)) + rest, CAPACITY) == Prefix(Text(m) + p + rest, CAPACITY)
  {
    CStringOfNulFree(p);
    var m1 := AppendString(m, p);
    if Room(m) < |p| {
      var all := Text(m) + p + rest;
      assert Text(m1) == Text(m) + p[..Room(m)];
      assert |Text(m1)| == CAPACITY;
      assert all[..CAPACITY] == Text(m) + p[..Room(m)];
    } else {
      assert Text(m1) == Text(m) + p;
    }
  }

  /** The text of a buffer is the first `CAPACITY` bytes of the unbounded
      concatenation: appending string after string keeps exactly as much of
      their concatenation as fits, never more and never out of order. */
  lemma {:induction false} AppendAllTruncates(m: Msg, parts: seq<seq<char>>)
    requires Wf(m) && AllNulFree(parts)
    ensures Text(AppendAll(m, parts)) == Prefix(Text(m) + Concat(parts), CAPACITY)
    decreases |parts|
  {
    if parts == [] {
      assert Text(m) + Concat(parts) == Text(m);
    } else {
      var m1 := AppendString(m, parts[0]);
      var tail := parts[1..];
      assert AllNulFree(tail) by {
        forall k | 0 <= k < |tail| ensures NulFree(tail[k]) {
          assert tail[k] == parts[k + 1];
        }
      }
      assert NulFree(parts[0]);
      calc {
        Text(AppendAll(m, parts));
        Text(AppendAll(m1, tail));
        { AppendAllTruncates(m1, tail); }
        Prefix(Text(m1) + Concat(tail), CAPACITY);
        { AppendStringPrefix(m, parts[0], Concat(tail)); }
        Prefix(Text(m) + parts[0] + Concat(tail), CAPACITY);
        { assert Text(m) + parts[0] + Concat(tail) == Text(m) + Concat(parts); }
        Prefix(Text(m) + Concat(parts), CAPACITY);
      }
    }
  }

  /** When everything fits, the committed line is the timestamp, each string
      in order with nothing inserted between them, and a newline. */
  lemma LineOfStrings(stamp: seq<char>, parts: seq<seq<char>>)
    requires AllNulFree(parts)
    requires |stamp| + |Concat(parts)| < CAPACITY
    ensures Committed(AppendAll(Started(stamp), parts)) == stamp + Concat(parts) + "\n"
  {
    var m := AppendAll(Started(stamp), parts);
    AppendAllTruncates(Started(stamp), parts);
    assert Text(m) == stamp + Concat(parts);
  }
}

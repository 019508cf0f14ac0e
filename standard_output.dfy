/** `vcservice_log_create_using_standard_output`: duplicate standard output,
    wrap the copy in a psock, and make a logger that owns the psock; on a
    failure part-way, release what was acquired and return the error. The
    outcomes of `dup`, of the psock creation, of the logger allocation and of
    releasing the psock are parameters. */
module StandardOutput {
  import opened Status
  import opened LogLevels
  import opened PsockSink
  import opened Logger

  /** The acquisitions and releases the sequence performs, in order. */
  datatype Action =
    | DupStdout(fd: int)          // `dup(1)` returned the descriptor `fd`
    | CreatePsock(fd: int)        // a psock now owns `fd`
    | CreateLog                   // a logger now owns the psock
    | ReleasePsock                // the psock (and its descriptor) was released
    | CloseDescriptor(fd: int)    // `fd` was closed directly

  /** The status returned and the actions taken. */
  datatype Outcome = Outcome(status: int, trace: seq<Action>)

  ghost function Count(trace: seq<Action>, a: Action): nat {
    |set i | 0 <= i < |trace| && trace[i] == a|
  }

  /** Every resource acquired is given away or released, exactly once. */
  ghost predicate Balanced(trace: seq<Action>) {
    && (forall fd :: DupStdout(fd) in trace ==>
          Count(trace, CreatePsock(fd)) + Count(trace, CloseDescriptor(fd)) == 1)
    && (forall fd :: CreatePsock(fd) in trace ==>
          Count(trace, CreateLog) + Count(trace, ReleasePsock) == 1)
  }

  /** What the sequence does for the given outcomes of `dup`, the psock
      creation, the logger allocation and the psock release. */
  function Setup(dupResult: int, psockStatus: int, allocStatus: int, releaseStatus: int): (r: Outcome)
    ensures dupResult < 0 ==> r == Outcome(ERROR_LOG_STDOUT_DUP, [])
    ensures r.status == SUCCESS <==> dupResult >= 0 && psockStatus == SUCCESS && allocStatus == SUCCESS
    ensures dupResult >= 0 && psockStatus != SUCCESS ==>
      r.status == psockStatus && CloseDescriptor(dupResult) in r.trace && ReleasePsock !in r.trace
    ensures CreatePsock(dupResult) in r.trace ==> CloseDescriptor(dupResult) !in r.trace
    ensures dupResult >= 0 && psockStatus == SUCCESS && allocStatus != SUCCESS ==>
      && r.status == (if releaseStatus != SUCCESS then releaseStatus else allocStatus)
      && Count(r.trace, ReleasePsock) == 1
    ensures r.status == SUCCESS ==> ReleasePsock !in r.trace && CloseDescriptor(dupResult) !in r.trace
  {
    if dupResult < 0 then Outcome(ERROR_LOG_STDOUT_DUP, [])
    else if psockStatus != SUCCESS then
      Outcome(psockStatus, [DupStdout(dupResult), CloseDescriptor(dupResult)])
    else if allocStatus != SUCCESS then
      var trace := [DupStdout(dupResult), CreatePsock(dupResult), ReleasePsock];
      assert Count(trace, ReleasePsock) == 1 by { OneCount(trace, 2); }
      Outcome(if releaseStatus != SUCCESS then releaseStatus else allocStatus, trace)
    else
      Outcome(SUCCESS, [DupStdout(dupResult), CreatePsock(dupResult), CreateLog])
  }

  /** Whatever the outcomes, every resource the sequence acquires is handed on
      or released exactly once: the descriptor `dup` returns goes to the psock
      or is closed, and the psock goes to the logger or is released. */
  lemma SetupBalanced(dupResult: int, psockStatus: int, allocStatus: int, releaseStatus: int)
    ensures Balanced(Setup(dupResult, psockStatus, allocStatus, releaseStatus).trace)
  {
    var trace := Setup(dupResult, psockStatus, allocStatus, releaseStatus).trace;
    if dupResult < 0 {
    } else if psockStatus != SUCCESS {
      OneCount(trace, 1);
    } else if allocStatus != SUCCESS {
      OneCount(trace, 1);
      OneCount(trace, 2);
    } else {
      OneCount(trace, 1);
      OneCount(trace, 2);
    }
  }

  /** An action that appears once, at `k`, is counted once. */
  lemma OneCount(trace: seq<Action>, k: nat)
    requires k < |trace|
    requires forall i :: 0 <= i < |trace| && i != k ==> trace[i] != trace[k]
    ensures Count(trace, trace[k]) == 1
  {
    assert (set i | 0 <= i < |trace| && trace[i] == trace[k]) == {k};
  }

  /** The sequence itself, following the source's `goto` structure: `done`
      returns at once, `cleanup_sock` releases the psock and falls through to
      `cleanup_stdout_dup_desc`, which closes the descriptor if it is still
      owned here. */
  method CreateUsingStandardOutput(
    dupResult: int, psockStatus: int, allocStatus: int,
    releaseStatus: int, threshold: nat, prior: Log?)
    returns (status: int, log: Log?, trace: seq<Action>)
    requires IsValidLevel(threshold)
    ensures Outcome(status, trace) == Setup(dupResult, psockStatus, allocStatus, releaseStatus)
    ensures status != SUCCESS ==> log == prior
    ensures status == SUCCESS ==> log != null
    ensures status == SUCCESS ==>
      && fresh(log) && log.Valid() && log.threshold == threshold
      && log.userContext != null && fresh(log.userContext)
      && log.userContext.desc == dupResult && log.userContext.owned && log.userContext.written == []
  {
    var stdoutDupDesc := dupResult;
    var sock: Psock? := null;
    log := prior;
    trace := [];
    if stdoutDupDesc < 0 {
      status := ERROR_LOG_STDOUT_DUP;
      return;
    }
    trace := trace + [DupStdout(stdoutDupDesc)];

    status := psockStatus;
    if status == SUCCESS {
      sock := new Psock(stdoutDupDesc, releaseStatus);
      trace := trace + [CreatePsock(stdoutDupDesc)];
      // the descriptor is now owned by the psock
      stdoutDupDesc := -1;

      status, log := Log.CreateFromPsock(allocStatus, sock, threshold, prior);
      if status == SUCCESS {
        trace := trace + [CreateLog];
        // the psock is now owned by the logger
        sock := null;
        return;
      }

      // cleanup_sock
      if sock != null {
        var releaseRetval := sock.Release();
        trace := trace + [ReleasePsock];
        if releaseRetval != SUCCESS {
          status := releaseRetval;
        }
      }
    }

    // cleanup_stdout_dup_desc
    if stdoutDupDesc >= 0 {
      trace := trace + [CloseDescriptor(stdoutDupDesc)];
    }
  }
}

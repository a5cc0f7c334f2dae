/**
 * Liveness probe and two-phase termination on Unix (`src/platform/unix.rs`).
 *
 * `kill(2)` is the only system call involved. Its outcome on each call is a
 * parameter (`KillResult`); `OsView` gives the kernel's rule for what a
 * `kill` call reaches, so that the probe can be related to the processes
 * that exist. The 500 ms grace period is the gap between the SIGTERM call
 * and the second probe and is not otherwise modelled.
 */
module PlatformUnix {
  import opened Common

  const SIGKILL: int := 9
  const SIGTERM: int := 15
  /** errno for "the process exists but you may not signal it". */
  const EPERM: int := 1
  /** errno for "no such process". */
  const ESRCH: int := 3

  /** `pid_t` is a signed 32-bit integer. */
  const PID_T_LIMIT: int := 0x8000_0000

  datatype KillResult = Delivered | Failed(errno: int)

  /** One `kill(pid, signal)` call; signal 0 only probes. */
  datatype KillCall = KillCall(pid: int, signal: int)

  /** What a `kill` call addresses, by the sign of its pid argument. */
  datatype Target = Process(pid: nat) | OwnGroup | Everyone | Group(pgid: nat)

  /** `pid as pid_t`: the u32 bit pattern read as a signed 32-bit value. */
  function AsPidT(pid: U32): (p: int)
    ensures -PID_T_LIMIT <= p < PID_T_LIMIT
    ensures (p - pid) % U32_LIMIT == 0
    ensures pid < PID_T_LIMIT <==> p == pid
  {
    if pid < PID_T_LIMIT then pid else pid - U32_LIMIT
  }

  /** The kernel's reading of kill's pid argument. */
  function TargetOf(p: int): Target {
    if p > 0 then Process(p)
    else if p == 0 then OwnGroup
    else if p == -1 then Everyone
    else Group(-p)
  }

  /**
   * The processes a call can see: those that exist, those the caller may
   * signal, the caller's own process group, and the other process groups.
   */
  datatype OsView = OsView(procs: set<nat>, permitted: set<nat>, ownGroup: set<nat>, groups: map<nat, set<nat>>)

  function Members(os: OsView, t: Target): set<nat> {
    match t
    case Process(p) => if p in os.procs then {p} else {}
    case OwnGroup => os.ownGroup
    case Everyone => os.procs
    case Group(g) => if g in os.groups then os.groups[g] else {}
  }

  /** kill(2): ESRCH if nothing is addressed, EPERM if nothing addressed may be signalled. */
  function Kill(os: OsView, p: int): KillResult {
    var reached := Members(os, TargetOf(p));
    if reached == {} then Failed(ESRCH)
    else if reached * os.permitted == {} then Failed(EPERM)
    else Delivered
  }

  /** `process_alive`: the probe succeeded, or failed only for lack of permission. */
  predicate ProcessAlive(probe: KillResult) {
    probe.Delivered? || probe.errno == EPERM
  }

  /** For a positive pid the probe reports exactly whether the process exists. */
  lemma AliveIffExists(os: OsView, p: int)
    requires p > 0
    ensures ProcessAlive(Kill(os, p)) <==> p in os.procs
  {
    if p in os.procs {
      assert p in Members(os, TargetOf(p));
    }
  }

  /**
   * `terminate_process`, as written: probe; if alive, SIGTERM; if that was
   * delivered, wait and probe again, stopping if the process is gone;
   * otherwise SIGKILL. Every call goes to `AsPidT(pid)`. `probe`, `term` and
   * `recheck` are what the first probe, the SIGTERM and the second probe
   * returned. Nothing is reported back to the caller.
   */
  method TerminateProcess(pid: U32, probe: KillResult, term: KillResult, recheck: KillResult)
    returns (calls: seq<KillCall>)
    ensures |calls| >= 1 && calls[0] == KillCall(AsPidT(pid), 0)
    ensures forall i :: 0 <= i < |calls| ==> calls[i].pid == AsPidT(pid)
    ensures !ProcessAlive(probe) ==> calls == [KillCall(AsPidT(pid), 0)]
    ensures ProcessAlive(probe) ==> |calls| >= 2 && calls[1] == KillCall(AsPidT(pid), SIGTERM)
    ensures KillCall(AsPidT(pid), SIGKILL) in calls <==> ProcessAlive(probe) && (term.Failed? || ProcessAlive(recheck))
    ensures SentOnce(calls, SIGTERM) && SentOnce(calls, SIGKILL)
  {
    var p := AsPidT(pid);
    calls := [KillCall(p, 0)];
    if !ProcessAlive(probe) {
      return;
    }
    calls := calls + [KillCall(p, SIGTERM)];
    if term.Delivered? {
      calls := calls + [KillCall(p, 0)];
      if !ProcessAlive(recheck) {
        return;
      }
    }
    calls := calls + [KillCall(p, SIGKILL)];
  }

  /** `signal` is sent in at most one call of `calls`. */
  predicate SentOnce(calls: seq<KillCall>, signal: int) {
    forall i, j :: 0 <= i < j < |calls| && calls[i].signal == signal ==> calls[j].signal != signal
  }

  /**
   * The cast makes pids that are not process ids address groups: pid 0
   * signals the caller's own process group and 4294967295 signals every
   * process the caller may signal. Both are valid registry keys, and the
   * sweep terminates the pid of a registry row.
   */
  lemma CastReachesGroups()
    ensures TargetOf(AsPidT(0)) == OwnGroup
    ensures TargetOf(AsPidT(0xFFFF_FFFF)) == Everyone
    ensures forall pid: U32 :: PID_T_LIMIT <= pid ==> !TargetOf(AsPidT(pid)).Process?
  {
  }

  /**
   * The input that shows it: a registry row keyed "0" is a valid row (pid 0),
   * and when the sweep terminates it, the probe `kill(0, 0)` reaches this
   * process's own group and succeeds, so the SIGTERM that follows goes to
   * every process in the caller's group instead of to one child.
   */
  method ZeroPidSignalsOwnGroup(os: OsView, term: KillResult, recheck: KillResult) returns (calls: seq<KillCall>)
    requires os.ownGroup * os.permitted != {}
    ensures |calls| >= 2 && calls[1] == KillCall(0, SIGTERM)
    ensures TargetOf(calls[1].pid) == OwnGroup
    ensures Members(os, TargetOf(calls[1].pid)) == os.ownGroup
  {
    var probe := Kill(os, AsPidT(0));
    assert ProcessAlive(probe);
    calls := TerminateProcess(0, probe, term, recheck);
  }

  /** The pids that name a single process once cast to `pid_t`. */
  predicate SingleProcessPid(pid: U32) {
    0 < pid < PID_T_LIMIT
  }

  /**
   * `terminate_process` with the pid checked before the cast: a pid that
   * would address a group is left alone, and every call it makes addresses
   * exactly that one process.
   */
  method TerminateProcessChecked(pid: U32, probe: KillResult, term: KillResult, recheck: KillResult)
    returns (calls: seq<KillCall>)
    ensures !SingleProcessPid(pid) <==> calls == []
    ensures forall i :: 0 <= i < |calls| ==> TargetOf(calls[i].pid) == Process(pid)
    ensures SingleProcessPid(pid) ==>
      && calls[0] == KillCall(pid, 0)
      && (KillCall(pid, SIGKILL) in calls <==> ProcessAlive(probe) && (term.Failed? || ProcessAlive(recheck)))
  {
    if !SingleProcessPid(pid) {
      return [];
    }
    calls := TerminateProcess(pid, probe, term, recheck);
  }
}

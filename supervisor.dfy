/**
 * Running one supervised child (`src/supervisor.rs`): the stale sweep, the
 * log file, the child, the copy of its two output streams into the log,
 * its registry row and the guard that removes that row again.
 *
 * Everything the operating system decides (the clock, process liveness, the
 * temporary directory, whether each call fails, what the child writes and
 * how it exits) is one `World` value. `execute_codex` is modelled as a
 * method over the registry object that also returns the trace of the
 * externally visible steps it took, in order.
 */
module Supervisor {
  import opened Common
  import opened TaskRecords
  import Registry
  import RecordCodec

  type Byte = bv8

  datatype IoError = AlreadyExists | OtherIo(code: int)

  datatype ProcessError = Io(io: IoError) | RegistryFailed(cause: Registry.RegistryError)

  /** How the child ended: its exit code, or none when a signal ended it. */
  datatype ExitStatus = ExitStatus(code: Option<int>)

  // ---------------------------------------------------------------------
  // Small decisions
  // ---------------------------------------------------------------------

  /** A run is tracked when its first argument is valid UTF-8 and is "exec" in any ASCII case. */
  predicate ShouldRegister(args: seq<OsArg>) {
    |args| > 0 && args[0].Text? && EqIgnoreAsciiCase(args[0].text, "exec")
  }

  /** Tracking depends on the first argument alone, which must spell e-x-e-c letter by letter in either case. */
  lemma ShouldRegisterSpelling(args: seq<OsArg>)
    ensures ShouldRegister(args) <==>
      && |args| > 0 && args[0].Text? && |args[0].text| == 4
      && (args[0].text[0] == 'e' || args[0].text[0] == 'E')
      && (args[0].text[1] == 'x' || args[0].text[1] == 'X')
      && (args[0].text[2] == 'e' || args[0].text[2] == 'E')
      && (args[0].text[3] == 'c' || args[0].text[3] == 'C')
  {
    if |args| > 0 && args[0].Text? {
      EqIgnoreAsciiCaseLower(args[0].text, "exec");
    }
  }

  /** Only the first argument counts: later arguments, and a non-UTF-8 first one, change nothing. */
  lemma ShouldRegisterExamples(rest: seq<OsArg>)
    ensures ShouldRegister([Text("EXEC")] + rest) && ShouldRegister([Text("Exec")] + rest)
    ensures !ShouldRegister([]) && !ShouldRegister([NotUnicode] + rest)
    ensures !ShouldRegister([Text("exec2")] + rest) && !ShouldRegister([Text("")] + rest)
  {
    ShouldRegisterSpelling([Text("EXEC")] + rest);
    ShouldRegisterSpelling([Text("Exec")] + rest);
  }

  /** The child's exit code, or 1 when it has none. */
  function ExtractExitCode(status: ExitStatus): (r: int)
    ensures status.code.Some? ==> r == status.code.value
    ensures status.code.None? ==> r == 1
  {
    status.code.GetOr(1)
  }

  /**
   * `Path::join` on Unix: an absolute component replaces the path; otherwise a
   * separator is inserted unless the path is empty or already ends in one.
   */
  function JoinPath(dir: string, name: string): string {
    if |name| > 0 && name[0] == '/' then name
    else if dir == [] || dir[|dir| - 1] == '/' then dir + name
    else dir + "/" + name
  }

  /** The log file of a run: `<log id>.txt` in the temporary directory. */
  function GenerateLogPath(tempDir: string, logId: string): Result<string, IoError> {
    Ok(JoinPath(tempDir, logId + ".txt"))
  }

  /** The separator `join` puts between a directory and a relative name. */
  function Separator(dir: string): (sep: string)
    ensures sep == "/" <==> dir != [] && dir[|dir| - 1] != '/'
    ensures sep == [] || sep == "/"
  {
    if dir == [] || dir[|dir| - 1] == '/' then [] else "/"
  }

  /**
   * For a log id that is not an absolute path (a UUID never is), the log
   * file is named `<log id>.txt` and sits directly in the temporary
   * directory, with exactly one separator between them.
   */
  lemma LogPathInTempDir(tempDir: string, logId: string)
    requires |logId| == 0 || logId[0] != '/'
    ensures GenerateLogPath(tempDir, logId) == Ok(tempDir + Separator(tempDir) + (logId + ".txt"))
  {
    var name := logId + ".txt";
    assert name[0] != '/' by {
      if |logId| == 0 {
        assert name[0] == '.';
      } else {
        assert name[0] == logId[0];
      }
    }
    if tempDir == [] || tempDir[|tempDir| - 1] == '/' {
      assert JoinPath(tempDir, name) == tempDir + name;
      assert tempDir + Separator(tempDir) == tempDir;
    } else {
      assert JoinPath(tempDir, name) == tempDir + "/" + name;
    }
  }

  // ---------------------------------------------------------------------
  // Copying one output stream into the log
  // ---------------------------------------------------------------------

  /**
   * One round of the copy loop: what `read` returned and, when it returned
   * bytes, what writing them to the log returned. A read of no bytes is the
   * end of the stream; a reader whose rounds run out is at its end.
   */
  datatype ReadOutcome = Bytes(data: seq<Byte>, write: Result<(), IoError>) | ReadFailed(error: IoError)

  /** What the reader delivered before its end or its first failure. */
  function Stream(rounds: seq<ReadOutcome>): seq<Byte> {
    if rounds == [] || rounds[0].ReadFailed? || |rounds[0].data| == 0 then []
    else rounds[0].data + Stream(rounds[1..])
  }

  /** What the copy loop appends to the log: it also stops at the first failed write. */
  function Copied(rounds: seq<ReadOutcome>): seq<Byte> {
    if rounds == [] || rounds[0].ReadFailed? || |rounds[0].data| == 0 || rounds[0].write.Err? then []
    else rounds[0].data + Copied(rounds[1..])
  }

  /** The copy loop's result: the first read or write error, if any comes before the end. */
  function CopyResult(rounds: seq<ReadOutcome>): Result<(), IoError> {
    if rounds == [] then Ok(())
    else if rounds[0].ReadFailed? then Err(rounds[0].error)
    else if |rounds[0].data| == 0 then Ok(())
    else if rounds[0].write.Err? then Err(rounds[0].write.error)
    else CopyResult(rounds[1..])
  }

  /**
   * The log receives the stream's bytes in the order they were read and
   * nothing else: a prefix of them, and all of them when the copy succeeds.
   */
  lemma {:induction false} CopiedIsStreamPrefix(rounds: seq<ReadOutcome>)
    ensures Copied(rounds) <= Stream(rounds)
    ensures CopyResult(rounds).Ok? ==> Copied(rounds) == Stream(rounds)
  {
    if rounds == [] || rounds[0].ReadFailed? || |rounds[0].data| == 0 || rounds[0].write.Err? {
    } else {
      CopiedIsStreamPrefix(rounds[1..]);
    }
  }

  /** The chunks of a stream, each read and written in turn, followed by end of stream. */
  function Delivered(chunks: seq<seq<Byte>>): (rounds: seq<ReadOutcome>)
    ensures |rounds| == |chunks|
  {
    if chunks == [] then [] else [Bytes(chunks[0], Ok(()))] + Delivered(chunks[1..])
  }

  function Concat(chunks: seq<seq<Byte>>): seq<Byte> {
    if chunks == [] then [] else chunks[0] + Concat(chunks[1..])
  }

  /** A stream of non-empty chunks that all write ends up in the log whole and in order. */
  lemma {:induction false} ChunksLandInOrder(chunks: seq<seq<Byte>>)
    requires forall i :: 0 <= i < |chunks| ==> |chunks[i]| > 0
    ensures Copied(Delivered(chunks) + [Bytes([], Ok(()))]) == Concat(chunks)
    ensures CopyResult(Delivered(chunks) + [Bytes([], Ok(()))]) == Ok(())
  {
    var rounds := Delivered(chunks) + [Bytes([], Ok(()))];
    if chunks != [] {
      ChunksLandInOrder(chunks[1..]);
      assert rounds[1..] == Delivered(chunks[1..]) + [Bytes([], Ok(()))];
    }
  }

  /** `spawn_copy`'s thread body: read, stop on an empty read, append, repeat. */
  method SpawnCopy(rounds: seq<ReadOutcome>) returns (r: Result<(), IoError>, appended: seq<Byte>)
    ensures r == CopyResult(rounds)
    ensures appended == Copied(rounds)
  {
    appended := [];
    var i := 0;
    while i < |rounds|
      invariant 0 <= i <= |rounds|
      invariant appended + Copied(rounds[i..]) == Copied(rounds)
      invariant CopyResult(rounds[i..]) == CopyResult(rounds)
    {
      assert rounds[i..][1..] == rounds[i + 1..];
      match rounds[i] {
        case ReadFailed(e) =>
          return Err(e), appended;
        case Bytes(data, write) =>
          if |data| == 0 {
            break;
          }
          if write.Err? {
            return Err(write.error), appended;
          }
          appended := appended + data;
      }
      i := i + 1;
    }
    r := Ok(());
  }

  // ---------------------------------------------------------------------
  // The registration guard
  // ---------------------------------------------------------------------

  /** While `active`, this run still owns its registry row and must remove it. */
  class RegistrationGuard {
    const registry: Registry.TaskRegistry
    const pid: U32
    var active: bool
    /** How many times the guard has called `remove`. */
    var removeCalls: nat

    constructor (registry: Registry.TaskRegistry, pid: U32)
      ensures this.registry == registry && this.pid == pid
      ensures active && removeCalls == 0
    {
      this.registry := registry;
      this.pid := pid;
      active := true;
      removeCalls := 0;
    }

    /**
     * Remove the row if still active and, only when that succeeded, become
     * inactive. The guard is consumed: `Drop` runs right after.
     */
    method Complete() returns (r: Result<(), Registry.RegistryError>)
      modifies this, registry
      ensures old(active) ==>
        && registry.rows == old(registry.rows) - {Registry.PidKey(pid)}
        && removeCalls == old(removeCalls) + 1
        && (Registry.RemoveResult(old(registry.rows), Registry.PidKey(pid)).Err? <==> r.Err?)
        && (active <==> r.Err?)
    ensures !old(active) ==>
        r == Ok(()) && !active && registry.rows == old(registry.rows) && removeCalls == old(removeCalls)
    {
      if active {
        var removed := registry.Remove(pid);
        removeCalls := removeCalls + 1;
        if removed.Err? {
          return Err(removed.error);
        }
        active := false;
      }
      r := Ok(());
    }

    /** The destructor: remove the row iff still active, ignoring the outcome. */
    method Drop()
      modifies this, registry
      ensures active == old(active)
      ensures removeCalls == old(removeCalls) + if old(active) then 1 else 0
      ensures registry.rows == if old(active) then old(registry.rows) - {Registry.PidKey(pid)} else old(registry.rows)
    {
      if active {
        var _ := registry.Remove(pid);
        removeCalls := removeCalls + 1;
      }
    }
  }

  /**
   * `complete` followed by the drop of the consumed guard: the row is gone
   * afterwards, removed once when the first removal succeeds and retried
   * exactly once by the drop when it fails.
   */
  method CompleteAndDrop(guard: RegistrationGuard) returns (r: Result<(), Registry.RegistryError>)
    requires guard.active && guard.removeCalls == 0
    modifies guard, guard.registry
    ensures Registry.PidKey(guard.pid) !in guard.registry.rows
    ensures guard.registry.rows == old(guard.registry.rows) - {Registry.PidKey(guard.pid)}
    ensures guard.removeCalls == if r.Ok? then 1 else 2
    ensures r.Err? <==> Registry.RemoveResult(old(guard.registry.rows), Registry.PidKey(guard.pid)).Err?
  {
    r := guard.Complete();
    guard.Drop();
  }

  /** A guard that has completed does nothing more when dropped, however often. */
  method CompletedGuardIsInert(guard: RegistrationGuard)
    requires !guard.active
    modifies guard, guard.registry
    ensures guard.registry.rows == old(guard.registry.rows) && guard.removeCalls == old(guard.removeCalls)
  {
    var _ := guard.Complete();
    guard.Drop();
    guard.Drop();
  }

  // ---------------------------------------------------------------------
  // One supervised run
  // ---------------------------------------------------------------------

  datatype StreamName = Stdout | Stderr

  /** The externally visible steps of a run. */
  datatype Action =
    | Sweep
    | OpenLog(path: string)
    | Spawn
    | InstallSignals(pid: U32)
    | StartCopy(stream: StreamName)
    | Register(pid: U32)
    | Terminate(pid: U32)
    | Wait
    | DropSignalGuard
    | Join(stream: StreamName)
    | FlushSync
    | RemoveRow(pid: U32)

  /**
   * Everything outside the program that a run observes: the clock and
   * liveness for the sweep, the temporary directory and the fresh log id,
   * the outcome of each fallible call (opening the log with create-new
   * fails with `AlreadyExists` when the file is there, or with any other
   * error of the file system),
   * this process's pid and the start time recorded, how the child exits, and
   * what each output stream delivers.
   */
  datatype World = World(
    now: int,
    alive: U32 -> bool,
    tempDir: string,
    logId: string,
    open: Result<(), IoError>,
    prepare: Result<(), IoError>,
    spawn: Result<U32, IoError>,
    afterSpawn: Result<(), IoError>,
    managerPid: U32,
    startedAt: int,
    wait: Result<ExitStatus, IoError>,
    stdoutReads: seq<ReadOutcome>,
    stderrReads: seq<ReadOutcome>,
    flush: Result<(), IoError>)

  function LogPathOf(w: World): string {
    JoinPath(w.tempDir, w.logId + ".txt")
  }

  /** The steps from opening the log to starting the copy threads. */
  function Launched(path: string, pid: U32): seq<Action> {
    [OpenLog(path), Spawn, InstallSignals(pid), StartCopy(Stdout), StartCopy(Stderr)]
  }

  /** The steps from the wait to the end of a run that succeeds; a tracked run then removes its row. */
  function FinishedSteps(track: bool, pid: U32): seq<Action> {
    [Wait, DropSignalGuard, Join(Stdout), Join(Stderr), FlushSync] + if track then [RemoveRow(pid)] else []
  }

  /** The steps after the copy threads start, in a run that succeeds. */
  function SupervisedSteps(track: bool, pid: U32): seq<Action> {
    (if track then [Register(pid)] else []) + FinishedSteps(track, pid)
  }

  /**
   * The steps from the wait onwards, on every path. An early return drops
   * the registration guard before the signal guard, which was declared
   * before it; once the signal guard has been dropped explicitly after the
   * wait, only the row's removal follows the error.
   */
  function FinishTrace(track: bool, pid: U32, w: World, stdoutResult: Result<(), IoError>, stderrResult: Result<(), IoError>): seq<Action> {
    var drop := if track then [RemoveRow(pid)] else [];
    if w.wait.Err? then [Wait] + drop + [DropSignalGuard]
    else if stdoutResult.Err? then [Wait, DropSignalGuard, Join(Stdout)] + drop
    else if stderrResult.Err? then [Wait, DropSignalGuard, Join(Stdout), Join(Stderr)] + drop
    else if w.flush.Err? then [Wait, DropSignalGuard, Join(Stdout), Join(Stderr), FlushSync] + drop
    else FinishedSteps(track, pid)
  }

  /** The outcome from the wait onwards: the first error of the wait, the joins and the flush, else the exit code. */
  function FinishResult(w: World, stdoutResult: Result<(), IoError>, stderrResult: Result<(), IoError>): Result<int, ProcessError> {
    if w.wait.Err? then Err(Io(w.wait.error))
    else if stdoutResult.Err? then Err(Io(stdoutResult.error))
    else if stderrResult.Err? then Err(Io(stderrResult.error))
    else if w.flush.Err? then Err(Io(w.flush.error))
    else Ok(ExtractExitCode(w.wait.value))
  }

  /**
   * On every path from the wait onwards the wait comes first. When the wait
   * succeeds the signal guard is dropped right after it, before any join,
   * and a tracked row's removal is the last step; when the wait fails the
   * row is removed before the signal guard is dropped. A run ends in
   * success exactly when no step failed.
   */
  lemma FinishTraceOrder(track: bool, pid: U32, w: World, stdoutResult: Result<(), IoError>, stderrResult: Result<(), IoError>)
    ensures var t := FinishTrace(track, pid, w, stdoutResult, stderrResult);
      && |t| >= 2 && t[0] == Wait
      && (w.wait.Ok? ==> t[1] == DropSignalGuard)
      && (w.wait.Ok? && track ==> t[|t| - 1] == RemoveRow(pid))
      && (w.wait.Err? ==> t == (if track then [Wait, RemoveRow(pid), DropSignalGuard] else [Wait, DropSignalGuard]))
    ensures FinishResult(w, stdoutResult, stderrResult).Ok? <==>
      w.wait.Ok? && stdoutResult.Ok? && stderrResult.Ok? && w.flush.Ok?
  {
  }

  /** `a` is one step of `t` and no other step of `t` is `a`. */
  predicate OccursOnce(t: seq<Action>, a: Action) {
    a in t && forall i, j :: 0 <= i < j < |t| && t[i] == a ==> t[j] != a
  }

  /** On every path from the wait onwards the signal guard is dropped exactly once, and the row is removed exactly once when tracked and never otherwise. */
  lemma FinishTraceDropsOnce(track: bool, pid: U32, w: World, stdoutResult: Result<(), IoError>, stderrResult: Result<(), IoError>)
    ensures OccursOnce(FinishTrace(track, pid, w, stdoutResult, stderrResult), DropSignalGuard)
    ensures track ==> OccursOnce(FinishTrace(track, pid, w, stdoutResult, stderrResult), RemoveRow(pid))
    ensures !track ==> RemoveRow(pid) !in FinishTrace(track, pid, w, stdoutResult, stderrResult)
  {
    var t := FinishTrace(track, pid, w, stdoutResult, stderrResult);
    var drop := if track then [RemoveRow(pid)] else [];
    var before: seq<Action>, after: seq<Action>;
    if w.wait.Err? {
      before, after := [Wait] + drop, [];
    } else if stdoutResult.Err? {
      before, after := [Wait], [Join(Stdout)] + drop;
    } else if stderrResult.Err? {
      before, after := [Wait], [Join(Stdout), Join(Stderr)] + drop;
    } else {
      before, after := [Wait], [Join(Stdout), Join(Stderr), FlushSync] + drop;
    }
    assert t == before + [DropSignalGuard] + after;
    OccursOnceBetween(before, DropSignalGuard, after);
    if track {
      if w.wait.Err? {
        assert t == [Wait] + [RemoveRow(pid)] + [DropSignalGuard];
        OccursOnceBetween([Wait], RemoveRow(pid), [DropSignalGuard]);
      } else {
        assert t == before + [DropSignalGuard] + after[..|after| - 1] + [RemoveRow(pid)] + [];
        OccursOnceBetween(before + [DropSignalGuard] + after[..|after| - 1], RemoveRow(pid), []);
      }
    }
  }

  /** A step that occurs neither before nor after one occurrence of it occurs once. */
  lemma OccursOnceBetween(before: seq<Action>, a: Action, after: seq<Action>)
    requires a !in before && a !in after
    ensures OccursOnce(before + [a] + after, a)
  {
    var t := before + [a] + after;
    assert forall k :: 0 <= k < |before| ==> t[k] == before[k];
    assert forall k :: |before| < k < |t| ==> t[k] == after[k - |before| - 1];
  }

  /** Opening the log, preparing, spawning and setting up the child all succeed. */
  predicate LaunchSucceeds(w: World) {
    w.open.Ok? && w.prepare.Ok? && w.spawn.Ok? && w.afterSpawn.Ok?
  }

  /** The record a tracked run registers for its child. */
  function RecordFor(w: World, path: string): TaskRecord {
    TaskRecord(w.startedAt, w.logId, path, Some(w.managerPid), None)
  }

  /**
   * `execute_codex`. The stale sweep runs first; the log file is created
   * before the child is spawned; when tracking, a failed registration
   * terminates the child and waits for it before returning the error; the
   * signal guard is dropped right after the wait and before the copy threads
   * are joined; the row is removed only after the joins and the flush. On
   * every path the registry ends as the sweep left it: a row this run
   * inserted is removed again, and a row it could not insert is not touched.
   */
  method ExecuteCodex(registry: Registry.TaskRegistry, args: seq<OsArg>, w: World)
    returns (r: Result<int, ProcessError>, trace: seq<Action>, ghost listed: seq<Registry.RegistryEntry>)
    modifies registry
    ensures Registry.IsListing(listed, old(registry.rows))
    ensures registry.rows == Registry.AfterSweep(old(registry.rows), listed, w.now, w.alive)
    ensures |trace| >= 2 && trace[0] == Sweep && trace[1] == OpenLog(LogPathOf(w))
    ensures w.open.Err? ==> trace[1..] == [OpenLog(LogPathOf(w))] && r == Err(Io(w.open.error))
    ensures w.prepare.Err? ==> trace[1..] == [OpenLog(LogPathOf(w))] && r.Err?
    ensures w.open.Ok? && w.prepare.Err? ==> r == Err(Io(w.prepare.error))
    ensures w.open.Ok? && w.prepare.Ok? ==> |trace| >= 3 && trace[2] == Spawn
    ensures w.open.Ok? && w.prepare.Ok? && !LaunchSucceeds(w) ==>
      && trace[1..] == [OpenLog(LogPathOf(w)), Spawn]
      && r == Err(Io(if w.spawn.Err? then w.spawn.error else w.afterSpawn.error))
    ensures r.Ok? ==> w.spawn.Ok? && w.wait.Ok? && r.value == ExtractExitCode(w.wait.value)
    ensures r.Ok? ==> trace[1..] == Launched(LogPathOf(w), w.spawn.value) + SupervisedSteps(ShouldRegister(args), w.spawn.value)
    ensures r.Err? && r.error.RegistryFailed? ==>
      && w.spawn.Ok? && ShouldRegister(args) && r.error.cause == Registry.KeyExists
      && trace[1..] == Launched(LogPathOf(w), w.spawn.value)
                       + [Register(w.spawn.value), Terminate(w.spawn.value), Wait, DropSignalGuard]
    ensures (LaunchSucceeds(w) && ShouldRegister(args) &&
             Registry.PidKey(w.spawn.value) in Registry.AfterSweep(old(registry.rows), listed, w.now, w.alive)) ==>
      && r == Err(RegistryFailed(Registry.KeyExists))
      && trace[1..] == Launched(LogPathOf(w), w.spawn.value)
                       + [Register(w.spawn.value), Terminate(w.spawn.value), Wait, DropSignalGuard]
    ensures LaunchSucceeds(w) && (ShouldRegister(args) ==>
      Registry.PidKey(w.spawn.value) !in Registry.AfterSweep(old(registry.rows), listed, w.now, w.alive)) ==>
      && r == FinishResult(w, CopyResult(w.stdoutReads), CopyResult(w.stderrReads))
      && trace[1..] == Launched(LogPathOf(w), w.spawn.value)
                       + (if ShouldRegister(args) then [Register(w.spawn.value)] else [])
                       + FinishTrace(ShouldRegister(args), w.spawn.value, w, CopyResult(w.stdoutReads), CopyResult(w.stderrReads))
  {
    var events, terminated;
    events, terminated, listed := registry.SweepStaleEntries(w.now, w.alive);
    var steps;
    r, steps := RunChild(registry, ShouldRegister(args), w);
    trace := [Sweep] + steps;
    assert trace[1..] == steps;
  }

  /**
   * `execute_codex` after the sweep, from the log file on. `track` says
   * whether the run is tracked; the registry ends as it began.
   */
  method RunChild(registry: Registry.TaskRegistry, track: bool, w: World)
    returns (r: Result<int, ProcessError>, steps: seq<Action>)
    modifies registry
    ensures registry.rows == old(registry.rows)
    ensures |steps| >= 1 && steps[0] == OpenLog(LogPathOf(w))
    ensures w.open.Err? ==> steps == [OpenLog(LogPathOf(w))] && r == Err(Io(w.open.error))
    ensures w.prepare.Err? ==> steps == [OpenLog(LogPathOf(w))] && r.Err?
    ensures w.open.Ok? && w.prepare.Err? ==> r == Err(Io(w.prepare.error))
    ensures w.open.Ok? && w.prepare.Ok? ==> |steps| >= 2 && steps[1] == Spawn
    ensures w.open.Ok? && w.prepare.Ok? && !LaunchSucceeds(w) ==>
      && steps == [OpenLog(LogPathOf(w)), Spawn]
      && r == Err(Io(if w.spawn.Err? then w.spawn.error else w.afterSpawn.error))
    ensures r.Ok? ==> w.spawn.Ok? && w.wait.Ok? && r.value == ExtractExitCode(w.wait.value)
    ensures r.Ok? ==> steps == Launched(LogPathOf(w), w.spawn.value) + SupervisedSteps(track, w.spawn.value)
    ensures r.Err? && r.error.RegistryFailed? ==>
      && w.spawn.Ok? && track && r.error.cause == Registry.KeyExists
      && steps == Launched(LogPathOf(w), w.spawn.value) + [Register(w.spawn.value), Terminate(w.spawn.value), Wait, DropSignalGuard]
    ensures LaunchSucceeds(w) && track && Registry.PidKey(w.spawn.value) in old(registry.rows) ==>
      && r == Err(RegistryFailed(Registry.KeyExists))
      && steps == Launched(LogPathOf(w), w.spawn.value) + [Register(w.spawn.value), Terminate(w.spawn.value), Wait, DropSignalGuard]
    ensures LaunchSucceeds(w) && (track ==> Registry.PidKey(w.spawn.value) !in old(registry.rows)) ==>
      && r == FinishResult(w, CopyResult(w.stdoutReads), CopyResult(w.stderrReads))
      && steps == Launched(LogPathOf(w), w.spawn.value)
                  + (if track then [Register(w.spawn.value)] else [])
                  + FinishTrace(track, w.spawn.value, w, CopyResult(w.stdoutReads), CopyResult(w.stderrReads))
  {
    var launched, launchSteps := Launch(w);
    if launched.Err? {
      return Err(Io(launched.error)), launchSteps;
    }
    var pid := launched.value;
    var stdoutResult, _ := SpawnCopy(w.stdoutReads);
    var stderrResult, _ := SpawnCopy(w.stderrReads);
    var rest;
    r, rest := Supervise(registry, track, pid, RecordFor(w, LogPathOf(w)), w, stdoutResult, stderrResult);
    steps := launchSteps + rest;
  }

  /**
   * From the log file to the copy threads: create the log, prepare and spawn
   * the child, set up its platform resources and the signal relay, and
   * start copying both output streams.
   */
  method Launch(w: World) returns (r: Result<U32, IoError>, steps: seq<Action>)
    ensures |steps| >= 1 && steps[0] == OpenLog(LogPathOf(w))
    ensures w.open.Err? ==> steps == [OpenLog(LogPathOf(w))] && r == Err(w.open.error)
    ensures w.prepare.Err? ==> steps == [OpenLog(LogPathOf(w))] && r.Err?
    ensures w.open.Ok? && w.prepare.Ok? ==> |steps| >= 2 && steps[1] == Spawn
    ensures w.open.Ok? && w.prepare.Err? ==> r == Err(w.prepare.error)
    ensures w.open.Ok? && w.prepare.Ok? && !LaunchSucceeds(w) ==>
      steps == [OpenLog(LogPathOf(w)), Spawn] && r == Err(if w.spawn.Err? then w.spawn.error else w.afterSpawn.error)
    ensures r.Ok? <==> LaunchSucceeds(w)
    ensures r.Ok? ==> w.spawn == Ok(r.value) && steps == Launched(LogPathOf(w), r.value)
  {
    // Joining a path cannot fail, so the `?` after it never returns.
    var path := GenerateLogPath(w.tempDir, w.logId).value;
    steps := [OpenLog(path)];
    if w.open.Err? {
      return Err(w.open.error), steps;
    }
    if w.prepare.Err? {
      return Err(w.prepare.error), steps;
    }
    steps := steps + [Spawn];
    if w.spawn.Err? {
      return Err(w.spawn.error), steps;
    }
    var pid := w.spawn.value;
    if w.afterSpawn.Err? {
      return Err(w.afterSpawn.error), steps;
    }
    steps := steps + [InstallSignals(pid), StartCopy(Stdout), StartCopy(Stderr)];
    r := Ok(pid);
  }

  /**
   * The part of `execute_codex` after the copy threads are started:
   * register when tracking, then wait and finish. The registry ends as it started.
   */
  method Supervise(registry: Registry.TaskRegistry, track: bool, pid: U32, record: TaskRecord, w: World,
                   stdoutResult: Result<(), IoError>, stderrResult: Result<(), IoError>)
    returns (r: Result<int, ProcessError>, steps: seq<Action>)
    modifies registry
    ensures registry.rows == old(registry.rows)
    ensures r.Ok? ==> w.wait.Ok? && r.value == ExtractExitCode(w.wait.value)
    ensures r.Ok? ==> steps == SupervisedSteps(track, pid)
    ensures r.Err? && r.error.RegistryFailed? ==>
      && track && r.error.cause == Registry.KeyExists
      && steps == [Register(pid), Terminate(pid), Wait, DropSignalGuard]
    ensures track && Registry.PidKey(pid) in old(registry.rows) ==> r == Err(RegistryFailed(Registry.KeyExists))
    ensures !(track && Registry.PidKey(pid) in old(registry.rows)) ==>
      && r == FinishResult(w, stdoutResult, stderrResult)
      && steps == (if track then [Register(pid)] else []) + FinishTrace(track, pid, w, stdoutResult, stderrResult)
  {
    var guard: RegistrationGuard? := null;
    steps := [];
    var key := Registry.PidKey(pid);
    if track {
      var registered := registry.Register(pid, record);
      steps := [Register(pid)];
      if registered.Err? {
        steps := steps + [Terminate(pid), Wait, DropSignalGuard];
        return Err(RegistryFailed(registered.error)), steps;
      }
      Registry.RegisterThenRemove(old(registry.rows), pid, record);
      guard := new RegistrationGuard(registry, pid);
    }
    var rest;
    r, rest := Finish(guard, w, stdoutResult, stderrResult);
    steps := steps + rest;
    if track {
      assert key !in old(registry.rows);
      assert registry.rows == old(registry.rows)[key := RecordCodec.Encode(record)] - {key};
      assert registry.rows == old(registry.rows);
    }
  }

  /**
   * Wait for the child, drop the signal guard, join the copy threads, flush,
   * and complete the registration. An error on the way returns early, and
   * the guard's drop then removes the row.
   */
  method Finish(guard: RegistrationGuard?, w: World, stdoutResult: Result<(), IoError>, stderrResult: Result<(), IoError>)
    returns (r: Result<int, ProcessError>, steps: seq<Action>)
    requires guard != null ==> guard.active
    requires guard != null ==> Registry.RemoveResult(guard.registry.rows, Registry.PidKey(guard.pid)).Ok?
    modifies if guard != null then {guard, guard.registry} else {}
    ensures guard != null ==> guard.registry.rows == old(guard.registry.rows) - {Registry.PidKey(guard.pid)}
    ensures r.Err? ==> r.error.Io?
    ensures r.Ok? ==> w.wait.Ok? && r.value == ExtractExitCode(w.wait.value)
    ensures r.Ok? ==> steps == FinishedSteps(guard != null, if guard != null then guard.pid else 0)
    ensures r == FinishResult(w, stdoutResult, stderrResult)
    ensures steps == FinishTrace(guard != null, if guard != null then guard.pid else 0, w, stdoutResult, stderrResult)
  {
    steps := [Wait];
    if w.wait.Err? {
      var dropped := DropRegistration(guard);
      steps := steps + dropped + [DropSignalGuard];
      return Err(Io(w.wait.error)), steps;
    }
    var status := w.wait.value;
    steps := steps + [DropSignalGuard];

    steps := steps + [Join(Stdout)];
    if stdoutResult.Err? {
      var dropped := DropRegistration(guard);
      return Err(Io(stdoutResult.error)), steps + dropped;
    }
    steps := steps + [Join(Stderr)];
    if stderrResult.Err? {
      var dropped := DropRegistration(guard);
      return Err(Io(stderrResult.error)), steps + dropped;
    }
    steps := steps + [FlushSync];
    if w.flush.Err? {
      var dropped := DropRegistration(guard);
      return Err(Io(w.flush.error)), steps + dropped;
    }

    if guard != null {
      var completed := guard.Complete();
      guard.Drop();
      steps := steps + [RemoveRow(guard.pid)];
    }
    r := Ok(ExtractExitCode(status));
  }

  /** Dropping the registration guard on an early return: one removal if there is a guard. */
  method DropRegistration(guard: RegistrationGuard?) returns (steps: seq<Action>)
    requires guard != null ==> guard.active
    modifies if guard != null then {guard, guard.registry} else {}
    ensures guard != null ==>
      steps == [RemoveRow(guard.pid)] && guard.registry.rows == old(guard.registry.rows) - {Registry.PidKey(guard.pid)}
    ensures guard == null ==> steps == []
  {
    steps := [];
    if guard != null {
      guard.Drop();
      steps := [RemoveRow(guard.pid)];
    }
  }
}

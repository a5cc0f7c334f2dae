/**
 * The entry point (`src/main.rs`): which of the three modes the command-line
 * arguments select, and how the outcome becomes the process exit code.
 *
 * The modes themselves are other modules; here their outcomes are
 * parameters: the version probe's result, wait mode's result, connecting to
 * the registry, and the supervised run's result.
 */
module Cli {
  import opened Common
  import Registry
  import Supervisor

  /** The command word of wait mode, compared ignoring ASCII case. */
  const WAIT_COMMAND: string := "wait"

  datatype Mode = VersionProbe | Wait | Supervise

  /** `WorkerError`: every way `run` can fail. */
  datatype WorkerError =
    | Message(text: string)
    | Io(io: Supervisor.IoError)
    | RegistryFailed(cause: Registry.RegistryError)
    | Process(process: Supervisor.ProcessError)
    | WaitFailed(wait: Registry.RegistryError)
    | VersionCheck(text: string)

  /** An argument names wait mode: it is valid Unicode and "wait" in any ASCII case. */
  predicate IsWaitCommand(arg: OsArg) {
    arg.Text? && EqIgnoreAsciiCase(arg.text, WAIT_COMMAND)
  }

  /** `run`'s dispatch: no arguments probe the version, a lone "wait" waits, anything else is supervised. */
  function SelectMode(args: seq<OsArg>): Mode {
    if args == [] then VersionProbe
    else if |args| == 1 && IsWaitCommand(args[0]) then Wait
    else Supervise
  }

  /**
   * `run`: the selected mode's outcome. Wait mode's success is exit code 0;
   * the supervisor runs only once the registry is connected, and its exit
   * code is the worker's.
   */
  function RunWorker(args: seq<OsArg>, probe: Result<int, WorkerError>, wait: Result<(), Registry.RegistryError>,
                     connect: Result<(), Registry.RegistryError>, execute: Result<int, Supervisor.ProcessError>)
    : Result<int, WorkerError>
  {
    match SelectMode(args)
    case VersionProbe => probe
    case Wait => if wait.Ok? then Ok(0) else Err(WaitFailed(wait.error))
    case Supervise =>
      if connect.Err? then Err(RegistryFailed(connect.error))
      else if execute.Err? then Err(Process(execute.error))
      else Ok(execute.value)
  }

  /**
   * `code & 0xFF` on an `i32`: its low byte. On two's complement this is
   * the remainder modulo 256 that is never negative, which is what `%` is
   * here.
   */
  function LowByte(code: int): (b: nat)
    ensures b < 256
    ensures (code - b) % 256 == 0
  {
    code % 256
  }

  /** `main`: the low byte of the code on success, 1 on any error. */
  function ExitCode(r: Result<int, WorkerError>): (code: nat)
    ensures code < 256
    ensures r.Err? ==> code == 1
    ensures r.Ok? ==> (code - r.value) % 256 == 0
  {
    match r
    case Ok(c) => LowByte(c)
    case Err(_) => 1
  }

  /** The modes partition the argument vectors: version probe iff none, wait iff one that is the wait command. */
  lemma ModeCases(args: seq<OsArg>)
    ensures SelectMode(args) == VersionProbe <==> |args| == 0
    ensures SelectMode(args) == Wait <==> |args| == 1 && IsWaitCommand(args[0])
    ensures SelectMode(args) == Supervise <==> |args| >= 2 || (|args| == 1 && !IsWaitCommand(args[0]))
  {
  }

  /** "wait" is recognised in any mix of cases, and only those four letters. */
  lemma {:induction false} WaitSpellings(s: string)
    ensures SelectMode([Text(s)]) == Wait <==>
      |s| == 4 && (s[0] == 'w' || s[0] == 'W') && (s[1] == 'a' || s[1] == 'A')
               && (s[2] == 'i' || s[2] == 'I') && (s[3] == 't' || s[3] == 'T')
  {
    EqIgnoreAsciiCaseLower(s, WAIT_COMMAND);
    if |s| == 4 {
      assert (forall i :: 0 <= i < |s| ==> s[i] == WAIT_COMMAND[i] || s[i] as int == WAIT_COMMAND[i] as int - 32) <==>
        (s[0] == 'w' || s[0] == 'W') && (s[1] == 'a' || s[1] == 'A') && (s[2] == 'i' || s[2] == 'I') && (s[3] == 't' || s[3] == 'T');
    }
  }

  /**
   * The wait command followed by anything goes to the supervisor, as does
   * an argument that is not valid Unicode.
   */
  lemma WaitNeedsToStandAlone(rest: seq<OsArg>)
    requires rest != []
    ensures SelectMode([Text("WAIT")] + rest) == Supervise
    ensures SelectMode([NotUnicode]) == Supervise
    ensures SelectMode([Text("Wait")]) == Wait
  {
    WaitSpellings("Wait");
  }

  /** Every failure exits with 1, whatever the mode; a wait that finishes exits with 0. */
  lemma ExitCodes(args: seq<OsArg>, probe: Result<int, WorkerError>, wait: Result<(), Registry.RegistryError>,
                  connect: Result<(), Registry.RegistryError>, execute: Result<int, Supervisor.ProcessError>)
    ensures SelectMode(args) == Wait ==>
      ExitCode(RunWorker(args, probe, wait, connect, execute)) == if wait.Ok? then 0 else 1
    ensures SelectMode(args) == Supervise ==>
      ExitCode(RunWorker(args, probe, wait, connect, execute)) ==
        if connect.Err? || execute.Err? then 1 else LowByte(execute.value)
    ensures SelectMode(args) == VersionProbe ==>
      ExitCode(RunWorker(args, probe, wait, connect, execute)) == ExitCode(probe)
  {
  }

  /**
   * The low byte is the code itself for 0 to 255 and wraps outside it:
   * 256 exits with 0 and -1 with 255.
   */
  lemma LowByteWraps(code: int)
    ensures 0 <= code < 256 ==> LowByte(code) == code
    ensures LowByte(code + 256) == LowByte(code)
    ensures LowByte(256) == 0 && LowByte(-1) == 255
  {
    assert (code + 256) % 256 == code % 256;
  }
}

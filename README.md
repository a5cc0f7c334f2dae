# codex-warden task registry and supervisor, modelled in Dafny

codex-warden wraps the `codex` command-line tool. An invocation whose first
argument is `exec` runs `codex` as a tracked child: it registers the child in a
task registry and removes it again when the child finishes. The registry is a
hash map that lives in a named shared-memory segment, so every invocation on
the host sees it. Each row is keyed by the child's decimal pid and holds the
child's encoded task record. Any invocation may sweep stale rows: rows whose
child has exited, whose managing invocation has died, or that are older than
twelve hours. `wait` mode polls the registry until no tracked task is running,
then reports what finished.

This project models that core, one Dafny module per source file:

| module | file | source |
|---|---|---|
| `Common` | common.dfy | Rust library behaviour: `Option`, `Result`, `u32`, decimal `to_string`/`parse`, `eq_ignore_ascii_case`, `OsString` |
| `TaskRecords` | task_record.dfy | `src/task_record.rs` |
| `RecordCodec` | record_codec.dfy | a text format that stands in for the JSON serde derives for `TaskRecord` |
| `SharedMap` | shared_map.dfy | `src/shared_map.rs` |
| `Registry` | registry.dfy | `src/registry.rs` |
| `PlatformUnix` | platform_unix.dfy | `src/platform/unix.rs` |
| `Signal` | signal.dfy | `src/signal.rs` |
| `Supervisor` | supervisor.dfy | `src/supervisor.rs` |
| `WaitReport` | wait_report.dfy | `TaskCompletion` and `TaskReport` in `src/wait_mode.rs` |
| `Durations` | durations.dfy | `format_human_duration` in `src/wait_mode.rs` |
| `WaitMode` | wait_mode.dfy | `run`, `read_interval` and `read_env_interval` in `src/wait_mode.rs` |
| `Cli` | cli.dfy | `src/main.rs` |

How the model treats the outside world:

- The shared map is the `rows: map<string, string>` field of a
  `Registry.TaskRegistry` object. `register`, `remove` and `remove_keys` update
  that field, and every registry call is one atomic step.
- Timestamps are whole seconds. The constants from `src/config.rs` appear as
  numbers: 43200 s (maximum record age), 30 s (default poll interval) and
  86400 s (maximum wait).
- Process liveness is an oracle `U32 -> bool` that stays fixed for one sweep.
  A `terminate` call is recorded as an entry in a returned sequence.
- In wait mode, a completion without its own time is stamped with the current
  time. Each round has a clock `U32 -> int` that gives that reading for each
  pid. A completion is built only the first time its pid is processed, so no
  pid needs two readings.
- Every operating-system call whose outcome matters is a parameter holding
  what that call returned. This covers opening and creating the segment,
  creating the lock, `kill(2)`, spawning, waiting, reading a stream and
  writing the log. In `Supervisor`, all of these outcomes for one run are
  gathered in a single `World` value.
- A supervised run returns a trace of abstract `Action`s, so the order of its
  steps can be stated and proved.
- serde's JSON is replaced by a small self-describing text format
  (`RecordCodec`). Decoding it follows serde's derived rules:
  - unknown fields are ignored;
  - a known field given twice is an error;
  - a missing required field is an error;
  - a missing or null `#[serde(default)]` field decodes as `None`.

  Because the format is concrete, the round trip is proved rather than
  assumed.

## Model

| member | source | states |
|---|---|---|
| `TaskRecords.WithCleanupReason` | src/task_record.rs:16-19 | the result has `cleanup_reason = Some(reason)` and the same `started_at`, `log_id`, `log_path` and `manager_pid` |
| `TaskRecords.WithCleanupReasonOverwrites` | src/task_record.rs:16-19 | nothing guards an earlier reason: setting two reasons in turn is the same as setting only the second |
| `RecordCodec.RoundTrip` | src/task_record.rs:4-13 | decoding an encoded record gives back every field exactly, with absent options still absent |
| `RecordCodec.MissingOptionalFieldsDecodeToNone` | src/task_record.rs:10-13 | stored text without `manager_pid` and `cleanup_reason` decodes with both `None`, and the three required fields are read as written |
| `RecordCodec.RequiredFieldsMissing` | src/task_record.rs:6-8 | text that lacks `started_at`, `log_id` or `log_path` does not decode |
| `RecordCodec.UnknownFieldIgnored` | src/task_record.rs:4-13 | an extra field with an unknown name does not change what a field list decodes to, wherever it stands among the other fields |
| `RecordCodec.EmptyTextRejected` | src/task_record.rs:6 | the empty text is rejected because `started_at` is missing |
| `Registry.TaskRegistry.Register` | src/registry.rs:62-69 | if the pid's decimal key exists, the call fails with KeyExists and the map is unchanged; otherwise it succeeds and the map gains exactly that key, mapped to the encoded record |
| `Registry.TaskRegistry.Remove` | src/registry.rs:71-78 | the key is deleted whatever happens; the result is `None` for an absent key, the decoded record for a readable one, and an error for an undecodable one (whose row is deleted anyway) |
| `Registry.TaskRegistry.RemoveKeys` | src/registry.rs:177-187 | the new map is the old one without the listed keys; absent keys are ignored |
| `Registry.ReadSnapshot` | src/registry.rs:81-103 | the reading loop lists every readable row of the snapshot once, each as read, and collects exactly the keys of the unreadable rows |
| `Registry.TaskRegistry.Entries` | src/registry.rs:80-110 | returns a listing of exactly the rows whose key parses as a `u32` and whose value decodes; afterwards the map holds exactly those rows, with their values unchanged |
| `Registry.ValidRows` | src/registry.rs:89-107 | the healed map keeps exactly the readable rows, with their values unchanged |
| `Registry.ValidRowsIdempotent` | src/registry.rs:105-107 | a second self-healing read deletes nothing |
| `Registry.CorruptKeyHealed` | src/registry.rs:90-101 | a row keyed "abc" is never listed and is deleted by the read |
| `Registry.RegisteredRowReads` | src/registry.rs:62-69 | the row `register` writes reads back as the registered pid and record |
| `Registry.RegisterThenRemove` | src/registry.rs:71-78 | removing a freshly registered pid returns the registered record |
| `Registry.RegisteredIsListed` | src/registry.rs:80-110 | every listing contains a registered row, with its pid and record |
| `Registry.RemovedIsNotListed` | src/registry.rs:80-110 | no listing reports a removed key |
| `Registry.DecidePass` | src/registry.rs:121-168 | the decision loop's events, terminations and removals are those of the per-row decision, row by row, in listing order |
| `Registry.TaskRegistry.SweepStaleEntries` | src/registry.rs:112-175 | reads a listing of the old rows, returns that listing's events and terminations, and leaves the healed rows minus the matched keys, deleted after the pass |
| `Registry.DecideCases` | src/registry.rs:125-154 | gives the condition for each outcome, in both directions: ProcessExited iff the child is dead; ManagerMissing iff the child is alive and a distinct manager is dead; Timeout iff the child is alive, no manager is missing and the age exceeds 43200 s; otherwise nothing |
| `Registry.SelfManagedNeverManagerMissing` | src/registry.rs:130-133 | a row whose manager is its own pid is never ManagerMissing |
| `Registry.EventsFromRows` | src/registry.rs:156-167 | every event comes from one listed row with the row's decided reason, and its record is the row's record tagged with that reason's text |
| `Registry.RemovalsAreMatched` | src/registry.rs:156-172 | a key is removed iff its listed row was matched |
| `Registry.TerminationsAreMatched` | src/registry.rs:127-153 | a pid is terminated iff its row was ManagerMissing or Timeout; ProcessExited never terminates |
| `Registry.SweepCounts` | src/registry.rs:125-168 | there is at most one event per row, events and removals correspond one to one, and every termination belongs to an event |
| `Registry.SecondSweepQuiet` | src/registry.rs:156-174 | a second sweep at the same time and with the same liveness produces no events or terminations and leaves the map unchanged |
| `Registry.DeadChildIsProcessExited` | src/registry.rs:127-128 | a registered row with a dead child gives one ProcessExited event and no termination, and the row is gone afterwards |
| `Registry.OrphanIsManagerMissing` | src/registry.rs:130-141 | a live child whose distinct manager is dead is terminated exactly once and gives one ManagerMissing event, whatever its age |
| `Registry.OldRowIsTimeout` | src/registry.rs:142-153 | a live, managed child older than 43200 s is terminated exactly once and gives one Timeout event |
| `Registry.FreshRowIsKept` | src/registry.rs:142-153 | a live, managed row no older than 43200 s is left untouched |
| `Registry.ProcessExitedTakesPriority` | src/registry.rs:126-154 | a row with a dead child, a dead manager and an age over the limit gives exactly one event, ProcessExited, and no termination |
| `SharedMap.DataSize` | src/shared_map.rs:77-83 | fails with RegionTooSmall iff `total_len < lock_region + header_size`; otherwise returns `total_len - lock_region` |
| `SharedMap.TooSmallRefused` | src/shared_map.rs:79-81 | the size check comes first: a region too small for the lock and header is refused whatever the lock calls return |
| `SharedMap.MappedLayout` | src/shared_map.rs:79-84 | a mapped map's data starts after the lock region, runs to the end of the segment and holds at least the header |
| `SharedMap.MapFromShmem` | src/shared_map.rs:72-127 | an attach changes nothing in the segment. An init creates the lock once and writes the header `(0, 0, data size)`, unless the size check or a lock call fails first |
| `SharedMap.AttachIgnoresGuard` | src/shared_map.rs:86-124 | an attach never creates a lock or writes the header, so the header lock's outcome cannot affect it |
| `SharedMap.OpenExisting` | src/shared_map.rs:47-54 | an open error is returned wrapped; an opened segment is attached without change |
| `SharedMap.CreateOrRetry` | src/shared_map.rs:56-70 | a created segment is marked not-owned and then initialised; MappingIdExists falls back to an attach; any other create error is returned |
| `SharedMap.LostRaceAttaches` | src/shared_map.rs:61-69 | when create fails, the result is the attach's outcome for MappingIdExists and the wrapped error otherwise |
| `SharedMap.OpenOrCreate` | src/shared_map.rs:34-45 | the whole fallback chain, with what each path does to the segments involved |
| `SharedMap.OpenedIsUsed` | src/shared_map.rs:38-39 | a segment that opens is attached as it is, and create is never consulted |
| `SharedMap.OtherOpenErrorsPropagate` | src/shared_map.rs:38-44 | only MapOpenFailed, LinkDoesNotExist and NoLinkOrOsId lead to creation; every other open error is returned unchanged |
| `SharedMap.RaceForFreshSegment` | src/shared_map.rs:34-70 | two processes racing on a new name: the lock is created once and the header written once, and both end with the same map |
| `PlatformUnix.AsPidT` | src/platform/unix.rs:28 | the `u32` to `pid_t` cast keeps pids below 2^31 and wraps the others to negative values |
| `PlatformUnix.AliveIffExists` | src/platform/unix.rs:27-31 | for a positive pid, the probe (success, or failure with EPERM) reports exactly whether the process exists |
| `PlatformUnix.TerminateProcess` | src/platform/unix.rs:33-53 | a dead pid gets only the probe. Otherwise SIGTERM is sent first, and SIGKILL is sent iff SIGTERM failed or the process is still alive at the recheck. Each signal is sent at most once, and nothing is reported back |
| `PlatformUnix.CastReachesGroups` | src/platform/unix.rs:28-29 | pid 0 addresses the caller's own process group, 4294967295 addresses every process, and no pid of 2^31 or more addresses a single process |
| `PlatformUnix.ZeroPidSignalsOwnGroup` | src/platform/unix.rs:33-45 | as written, terminating pid 0 sends SIGTERM to the caller's own process group |
| `PlatformUnix.TerminateProcessChecked` | src/platform/unix.rs:33-53 | corrected: a pid that would address a group is left alone, and every call addresses that one process |
| `Signal.SignalRelay.constructor` | src/signal.rs:6-7 | at program start the slot is 0 and no handler is installed |
| `Signal.SignalRelay.Install` | src/signal.rs:17-30 | stores the pid in the slot and never fails; handlers are installed only on the first call, so there is at most one installation |
| `Signal.SignalRelay.DropGuard` | src/signal.rs:11-15 | dropping the guard sets the slot to 0 unconditionally and changes nothing else |
| `Signal.SignalRelay.UnixHandler` | src/signal.rs:34-44 | terminates the slot's pid iff the signal is SIGINT or SIGTERM and the slot is nonzero |
| `Signal.SignalRelay.WindowsHandler` | src/signal.rs:57-68 | CTRL_C, CTRL_BREAK and CTRL_CLOSE are handled (TRUE) and terminate the slot's pid iff it is nonzero; any other event returns FALSE and terminates nothing |
| `Signal.TwoRunsThenInterrupt` | src/signal.rs:11-44 | two installs register the handlers once, and after the guard is dropped an interrupt terminates nothing |
| `Supervisor.ShouldRegisterSpelling` | src/supervisor.rs:35-39 | a run is tracked iff its first argument is valid Unicode spelling e-x-e-c, each letter in either case |
| `Supervisor.ShouldRegisterExamples` | src/supervisor.rs:35-39 | "EXEC" and "Exec" are tracked; no arguments, a non-Unicode first argument, "exec2" and "" are not |
| `Supervisor.ExtractExitCode` | src/supervisor.rs:151-153 | the numeric exit code if there is one, else 1 |
| `Supervisor.LogPathInTempDir` | src/supervisor.rs:122-125 | the log path is the temporary directory, one separator, then `<log_id>.txt` |
| `Supervisor.SpawnCopy` | src/supervisor.rs:127-149 | the loop appends exactly what `Copied` describes and returns the first read or write error |
| `Supervisor.CopiedIsStreamPrefix` | src/supervisor.rs:134-148 | the log receives a prefix of the stream's bytes in read order, and the whole stream when the copy succeeds |
| `Supervisor.ChunksLandInOrder` | src/supervisor.rs:134-148 | non-empty chunks followed by a read of 0 reach the log whole, concatenated in order |
| `Supervisor.RegistrationGuard.constructor` | src/supervisor.rs:162-168 | a new guard is active and has made no removal |
| `Supervisor.RegistrationGuard.Complete` | src/supervisor.rs:170-176 | an active guard removes its row once and becomes inactive only if the removal succeeded; an inactive guard does nothing |
| `Supervisor.RegistrationGuard.Drop` | src/supervisor.rs:179-185 | removes the row iff the guard is still active and ignores the outcome |
| `Supervisor.CompleteAndDrop` | src/supervisor.rs:170-185 | after `complete` and the drop of the consumed guard the row is gone; there is one removal if `complete` succeeded and exactly one retry if it failed |
| `Supervisor.CompletedGuardIsInert` | src/supervisor.rs:170-185 | an inactive guard never removes anything, however often it is completed or dropped |
| `Supervisor.Launch` | src/supervisor.rs:41-75 | the log file is opened before the spawn, and a failed open (the file exists, or any other error) returns that error before anything is spawned; each later failure returns its own error; it succeeds iff every set-up step does, and then the steps are open, spawn, install signals, start both copies |
| `Supervisor.Supervise` | src/supervisor.rs:77-120 | registration fails iff the pid's key is present; that is followed by terminate, wait and the signal guard's drop, and then the error; otherwise the result and steps are the registration followed by `FinishResult` and `FinishTrace`; on every path the registry ends as it began |
| `Supervisor.Finish` | src/supervisor.rs:95-120 | the result is the first error of the wait, the joins and the flush, else the exit code, and the steps are `FinishTrace` on every path: after a failed wait the registration guard drops before the signal guard; after a failed join or flush only the row's removal follows |
| `Supervisor.FinishTraceOrder` | src/supervisor.rs:77-120 | every path starts with the wait; after a successful wait the signal guard is dropped next, before any join, and a tracked row's removal is the last step; after a failed wait the row is removed before the signal guard is dropped; success iff no step failed |
| `Supervisor.FinishTraceDropsOnce` | src/supervisor.rs:77-120 | on every path the signal guard is dropped exactly once, and the row is removed exactly once when tracked and never otherwise |
| `Supervisor.DropRegistration` | src/supervisor.rs:179-185 | an early return with a guard removes the row once |
| `Supervisor.ExecuteCodex` | src/supervisor.rs:26-120 | the sweep comes before the log file and the spawn; a failed open of the log, `prepare_command`, spawn or set-up after the spawn returns that error with the steps up to it; once the child is set up, the result and the whole trace are given on every path: if the pid's key is present after the sweep, `KeyExists` after register, terminate, wait and the signal guard's drop; otherwise the registration followed by `FinishTrace` and `FinishResult`; the registry ends as the sweep left it |
| `Supervisor.RunChild` | src/supervisor.rs:41-120 | from the log file on: each failed set-up step returns its error with the steps up to it; once the child is set up: if the pid's key is present, `KeyExists` after register, terminate, wait and the signal guard's drop; otherwise the registration followed by `FinishTrace` and `FinishResult`; the registry ends as it began |
| `WaitReport.FromRecord` | src/wait_mode.rs:153-165 | copies pid, log path, start time and cleanup reason; uses the current time when no completion time is given |
| `WaitReport.SuccessCases` | src/wait_mode.rs:167-169 | success iff there is no cleanup reason and the exit code is absent or 0 |
| `WaitReport.SummaryText` | src/wait_mode.rs:190-200 | uses the result first, then the cleanup-reason text, then the success default, then the failure default |
| `WaitReport.SummaryMatchesOutcome` | src/wait_mode.rs:190-200 | without a result, the success default appears iff the task succeeded, and a cleaned-up task always shows its reason |
| `WaitReport.EarliestStartIsMinimum` | src/wait_mode.rs:218-224 | the earliest start is the minimum start over the completions, and some completion has it |
| `WaitReport.LatestCompletionIsMaximum` | src/wait_mode.rs:225-231 | the latest completion is the maximum completion time, and some completion has it |
| `WaitReport.TaskReport.constructor` | src/wait_mode.rs:210-216 | a new report is empty and consistent |
| `WaitReport.TaskReport.AddCompletion` | src/wait_mode.rs:218-232 | appends the completion and keeps both bounds equal to the minimum start and maximum completion over everything added |
| `WaitReport.TaskReport.SuccessfulCount` | src/wait_mode.rs:238-240 | the count of successes is at most the total |
| `WaitReport.TaskReport.FailedCount` | src/wait_mode.rs:242-244 | failures plus successes equal the total, so the subtraction cannot underflow |
| `WaitReport.TaskReport.TotalDuration` | src/wait_mode.rs:246-251 | present iff both bounds are, and then equal to the latest completion minus the earliest start |
| `WaitReport.ReportSpan` | src/wait_mode.rs:218-251 | a non-empty report's total duration covers every completion's start and end |
| `WaitReport.AddCounts` | src/wait_mode.rs:218-244 | adding a completion adds one to the total and one to exactly one of the successful and failed counts |
| `Durations.FormatHumanDuration` | src/wait_mode.rs:402-423 | the formatter produces `HumanDuration`, with negative durations clamped to 0, `h = s/3600`, `m = (s%3600)/60`, `sec = s%60` and zero parts omitted |
| `Durations.PushParts` | src/wait_mode.rs:411-420 | pushes a part per nonzero unit, and the seconds also when nothing else was pushed |
| `Durations.SplitSeconds` | src/wait_mode.rs:407-409 | hours, minutes and seconds add back up to the clamped duration |
| `Durations.HumanDurationShape` | src/wait_mode.rs:402-423 | the text is never empty, and any duration of 0 or less gives "0秒" |
| `Durations.HumanPartsReadBack` | src/wait_mode.rs:402-423 | reading the pushed parts back gives the clamped number of seconds, so the parts determine the duration |
| `Durations.HumanDurationReadBack` | src/wait_mode.rs:402-423 | reading the joined text back, number by number and unit by unit, gives the clamped number of seconds |
| `Durations.HumanDurationInjective` | src/wait_mode.rs:402-423 | two durations of at least zero with the same text are equal, so the text determines the duration |
| `WaitMode.ReadEnvInterval` | src/wait_mode.rs:81-94 | returns Some only for a set, valid-Unicode variable that parses as a positive `u64` |
| `WaitMode.ZeroIntervalIgnored` | src/wait_mode.rs:83-84 | any spelling of zero gives None |
| `WaitMode.ReadInterval` | src/wait_mode.rs:75-79 | the interval is always positive |
| `WaitMode.IntervalPrecedence` | src/wait_mode.rs:75-79 | the primary variable wins, then the legacy one, then 30 s |
| `WaitMode.PrimaryIntervalExample` | src/wait_mode.rs:440-449 | a primary variable of "45" gives 45 s |
| `WaitMode.LegacyIntervalExample` | src/wait_mode.rs:451-460 | with only the legacy variable set to "90", the interval is 90 s |
| `WaitMode.InvalidIntervalExample` | src/wait_mode.rs:462-471 | a primary variable of "not-a-number" gives the 30 s default |
| `WaitMode.TimeoutEventsIgnored` | src/wait_mode.rs:35-38 | Timeout events offer nothing to the report, wherever they stand among a sweep's events |
| `WaitMode.EventStamps` | src/wait_mode.rs:153-154 | every completion offered for an event carries the clock's reading for its pid, since sweep records carry no completion time |
| `WaitMode.TaskStamps` | src/wait_mode.rs:153-154 | the completed tasks offer one completion each, with the task's own completion time when it has one and the clock's reading for its pid otherwise |
| `WaitMode.Offer` | src/wait_mode.rs:40-44 | a completion enters the report iff its pid was not processed before, and the pid is processed afterwards |
| `WaitMode.OfferEvents` | src/wait_mode.rs:35-45 | the event loop admits the non-Timeout events whose pids are new, in order, each stamped by the clock's reading for its pid |
| `WaitMode.OfferCompleted` | src/wait_mode.rs:47-54 | the completed-task loop admits tasks with new pids, each stamped with its own completion time or else the clock's reading for its pid, and removes every task's row by pid, and no other row |
| `WaitMode.RemoveTaskRow` | src/wait_mode.rs:53 | each call removes one more completed task's row |
| `WaitMode.AdmittedFresh` | src/wait_mode.rs:40-52 | admitted completions have pids not seen before and never share a pid |
| `WaitMode.Run` | src/wait_mode.rs:21-73 | each round sweeps the registry with `SweepStaleEntries` at that round's time and liveness, offers the sweep's events, then the completed tasks, stamping each completion by that round's clock, and removes the completed tasks' rows; the registry states and events of every round are those of the sweep (`SweptRound`). The report holds the first completion offered for each pid over all rounds. The loop stops after the first round in which nothing is running, or else the first in which the elapsed time has reached 86400 s |
| `WaitMode.RecordedRound` | src/wait_mode.rs:28-58 | one more round keeps the run's history: the recorded sweeps and registry states still satisfy `SweptRounds`, and the report and processed set are those of all candidates offered so far |
| `WaitMode.Round` | src/wait_mode.rs:29-58 | one round sweeps the registry at the round's time (`SweptRound`), admits the sweep's non-Timeout events and then the completed tasks, each only with a new pid and stamped by the round's clock, and removes the completed tasks' rows |
| `WaitMode.ReportedOnce` | src/wait_mode.rs:40-53 | across all rounds, each pid enters the report at most once |
| `WaitMode.RoundsBounded` | src/wait_mode.rs:56-71 | when every round before the last kept waiting, `(rounds - 1) * interval < 86400 + interval`, so there are fewer than 86400 / interval + 2 rounds |
| `Cli.ModeCases` | src/main.rs:31-52 | version probe iff there are no arguments; wait iff there is exactly one argument and it is the wait command; supervise otherwise |
| `Cli.WaitSpellings` | src/main.rs:40-47 | a lone argument selects wait iff it spells w-a-i-t, each letter in either case |
| `Cli.WaitNeedsToStandAlone` | src/main.rs:40-51 | "WAIT" followed by anything goes to the supervisor, and so does a non-Unicode argument |
| `Cli.LowByte` | src/main.rs:23 | `code & 0xFF` is below 256 and congruent to the code modulo 256 |
| `Cli.ExitCode` | src/main.rs:21-29 | any error exits 1; Ok exits with the low byte of the code |
| `Cli.ExitCodes` | src/main.rs:21-52 | wait exits 0 when it finishes and 1 when it fails. The supervisor exits 1 on a connect or run failure and otherwise with the low byte of the child's code. The version probe exits with its own code |
| `Cli.LowByteWraps` | src/main.rs:23 | codes 0 to 255 are kept, 256 exits 0, and -1 exits 255 |

## Left out

- Windows process control (`src/platform/windows.rs`) is not part of this model: its OpenProcess, TerminateProcess and job-object calls are thin foreign calls. Only the Windows console handler's decision is modelled.
- `prepare_command` (`pre_exec`, `setpgid`, `PR_SET_PDEATHSIG`) and `after_spawn`: only their success or failure enters the supervised run, as fallible steps.
- `src/platform/mod.rs` is not part of this model. It only dispatches on the target platform.
- The raw shared-memory layout (the `transmute`, pointer arithmetic and `ptr::write`) is not modelled. The header is an abstract `Header` value on the `Region` object, and the lock's size is a parameter.
- The cross-process lock, the process-local `Mutex` and the poisoned-lock errors are not modelled. Each registry call is one atomic step, and `entries` reads its snapshot and deletes in sequence.
- `TaskRegistry::connect` is not modelled as one operation. Opening the segment is `SharedMap.OpenOrCreate`, and the registry object starts from a given map.
- `serde_json` is replaced by `RecordCodec`, and `chrono` by integer seconds. A JSON text written by another program is not covered; only the codec's own text is.
- Threads, `sleep`, `Instant`, `BufWriter` flushing and `sync_all` are not modelled. The two copy loops run one after the other, so how the two streams interleave in the log is not modelled. Only each stream's own order is.
- The debug and warning messages, the floating-point hour display in the sweep's debug line, and all report rendering are left out. Rendering covers `render`, `print_report`, `emit_realtime_update`, `status_icon`, `summary_label`, `completed_time_local` and local-time formatting. All of these are output only.
- `verify_codex` is not modelled, because it spawns an external process. Its result is a parameter of `Cli.RunWorker`.
- `src/logging.rs` and `src/config.rs` are not part of this model. The three time constants are copied as numbers.
- Wait mode relies on items that `src/task_record.rs`, `src/registry.rs` and `src/config.rs` do not define. These are the record fields `status`, `result`, `completed_at` and `exit_code`, the registry methods `get_completed_unread_tasks` and `remove_by_pid`, and `LEGACY_WAIT_INTERVAL_ENV`. They are modelled only as stated assumptions:
  - the three optional completion fields form a `RecordExtension`, absent for records the registry stores;
  - each round's completed unread tasks and its "is anything Running" answer are observations;
  - `remove_by_pid` is the registry's `Remove` of the pid's row; its error result is ignored rather than returned by `?`;
  - the legacy variable's name is a parameter.
- `Registry.TaskRegistry.Register`: the only failure modelled is KeyExists. The shared hash map's capacity failures are not modelled.
- `Registry.TaskRegistry.SweepStaleEntries`: the source probes liveness row by row, after earlier rows' `terminate_process` calls; the model uses one liveness oracle for the whole pass. So a row whose manager was terminated earlier in the same pass, or two keys such as "10" and "010" that parse to the same pid, may be probed differently by the source than by the model.
- `Registry.TaskRegistry.Entries`: the listing's order is the map's iteration order, which the source does not specify; the contract fixes contents, not order.
- `WaitMode.Run`: the interval only constrains how the elapsed time between rounds grows (`SleepsBetweenRounds`), and each round's sweep time and completion clock are observations. Writes by other processes to the shared registry between rounds are not modelled: each round starts from the registry the previous round left.

## Findings

| source | as written | input that shows it | evidently intended | confidence | as-written member | corrected member |
|---|---|---|---|---|---|---|
| src/platform/unix.rs:33-45 | `terminate_process` casts the `u32` pid to `pid_t` and probes and signals it unchecked; `entries` accepts key "0" as pid 0 | a registry row keyed "0" whose `started_at` is more than 12 h old. `kill(0, 0)` succeeds (`PlatformUnix.CastReachesGroups`), so the sweep sees pid 0 as alive, takes the Timeout path (`Registry.OldRowIsTimeout`) and calls `terminate_process(0)`, which sends SIGTERM to the sweeping process's own process group | terminate only a single process, `0 < pid < 2^31`, and leave other pids alone | low; not executed | `PlatformUnix.ZeroPidSignalsOwnGroup` | `PlatformUnix.TerminateProcessChecked` |

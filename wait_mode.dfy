/**
 * Wait mode's polling (`src/wait_mode.rs`, `run` and `read_interval`): poll
 * the registry until no tracked task is running, offering each finished task
 * to the report once.
 *
 * Each round sweeps the registry with `SweepStaleEntries` and offers the
 * events to the report. Wait mode also calls a registry operation that the
 * registry does not have (listing completed unread tasks) and reads a status
 * field the record type does not have. They are taken as ASSUMPTIONS: the
 * completed unread tasks and whether any task is running are observation
 * parameters (`Observations`); removal by pid is the registry's `Remove`.
 */
module WaitMode {
  import opened Common
  import opened TaskRecords
  import opened WaitReport
  import Registry

  const WAIT_INTERVAL_ENV: string := "CODEX_WORKER_WAIT_INTERVAL_SEC"
  const WAIT_INTERVAL_DEFAULT: nat := 30
  const MAX_WAIT_DURATION: nat := 24 * 60 * 60

  // ---------------------------------------------------------------------
  // The polling interval
  // ---------------------------------------------------------------------

  /**
   * `read_env_interval`: a variable that is set, valid Unicode and a
   * positive u64 gives that many seconds; anything else gives nothing.
   */
  function ReadEnvInterval(env: map<string, OsArg>, name: string): (r: Option<nat>)
    ensures r.Some? ==> 0 < r.value < U64_LIMIT
    ensures r.Some? ==> name in env && env[name].Text? && ParseUnsigned(env[name].text, U64_LIMIT) == r
  {
    if name !in env || env[name].NotUnicode? then None
    else
      match ParseUnsigned(env[name].text, U64_LIMIT)
      case Some(seconds) => if seconds > 0 then Some(seconds) else None
      case None => None
  }

  /** `read_interval`: the primary variable, then the legacy one, then 30 seconds. */
  function ReadInterval(env: map<string, OsArg>, legacyName: string): (seconds: nat)
    ensures seconds > 0
  {
    match ReadEnvInterval(env, WAIT_INTERVAL_ENV)
    case Some(s) => s
    case None => ReadEnvInterval(env, legacyName).GetOr(WAIT_INTERVAL_DEFAULT)
  }

  /** The primary variable wins whenever it is valid; the legacy one counts only when it is not. */
  lemma IntervalPrecedence(env: map<string, OsArg>, legacyName: string)
    ensures ReadEnvInterval(env, WAIT_INTERVAL_ENV).Some? ==>
      ReadInterval(env, legacyName) == ReadEnvInterval(env, WAIT_INTERVAL_ENV).value
    ensures ReadEnvInterval(env, WAIT_INTERVAL_ENV).None? && ReadEnvInterval(env, legacyName).Some? ==>
      ReadInterval(env, legacyName) == ReadEnvInterval(env, legacyName).value
    ensures ReadEnvInterval(env, WAIT_INTERVAL_ENV).None? && ReadEnvInterval(env, legacyName).None? ==>
      ReadInterval(env, legacyName) == WAIT_INTERVAL_DEFAULT
  {
  }

  /** Zero is not an interval: a variable set to any spelling of zero is ignored. */
  lemma ZeroIntervalIgnored(env: map<string, OsArg>, name: string, text: string)
    requires ParseUnsigned(text, U64_LIMIT) == Some(0)
    ensures ReadEnvInterval(env[name := Text(text)], name) == None
  {
  }

  /** Set to 45, the primary variable gives 45 seconds. */
  lemma PrimaryIntervalExample(legacyName: string)
    ensures ReadInterval(map[WAIT_INTERVAL_ENV := Text("45")], legacyName) == 45
  {
    var env := map[WAIT_INTERVAL_ENV := Text("45")];
    ParseDecimal(45, U64_LIMIT);
    assert Decimal(45) == "45";
    assert env[WAIT_INTERVAL_ENV] == Text("45");
    assert ReadEnvInterval(env, WAIT_INTERVAL_ENV) == Some(45);
  }

  /** With only the legacy variable set to 90, the interval is 90 seconds. */
  lemma LegacyIntervalExample(legacyName: string)
    requires legacyName != WAIT_INTERVAL_ENV
    ensures ReadInterval(map[legacyName := Text("90")], legacyName) == 90
  {
    var env := map[legacyName := Text("90")];
    ParseDecimal(90, U64_LIMIT);
    assert Decimal(90) == "90";
    assert WAIT_INTERVAL_ENV !in env;
    assert ReadEnvInterval(env, WAIT_INTERVAL_ENV) == None;
    assert env[legacyName] == Text("90");
    assert ReadEnvInterval(env, legacyName) == Some(90);
  }

  /** A primary variable that is not a number falls back to the default. */
  lemma InvalidIntervalExample(legacyName: string)
    requires legacyName != WAIT_INTERVAL_ENV
    ensures ReadInterval(map[WAIT_INTERVAL_ENV := Text("not-a-number")], legacyName) == WAIT_INTERVAL_DEFAULT
  {
    ParseRejectsNonDigit("not-a-number", U64_LIMIT, 0);
  }

  // ---------------------------------------------------------------------
  // The polling loop
  // ---------------------------------------------------------------------

  /**
   * What a cleanup event offers: nothing for Timeout, else its record
   * completed at `clock(pid)`, the time the clock reads when that pid's
   * completion is built.
   */
  function EventOffer(event: Registry.CleanupEvent, clock: U32 -> int): seq<TaskCompletion> {
    if event.reason == Registry.Timeout then []
    else [FromRecord(event.pid, event.record, NO_EXTENSION, clock(event.pid))]
  }

  /** The cleanup events of one sweep that may enter the report, in order. */
  function EventCandidates(events: seq<Registry.CleanupEvent>, clock: U32 -> int): seq<TaskCompletion> {
    if events == [] then []
    else EventCandidates(events[..|events| - 1], clock) + EventOffer(events[|events| - 1], clock)
  }

  /** Assumed: a completed unread task as the registry would list it. */
  datatype CompletedTask = CompletedTask(pid: U32, record: TaskRecord, ext: RecordExtension)

  /** What a completed unread task offers: its record, completed at `clock(pid)` unless it says when. */
  function TaskOffer(task: CompletedTask, clock: U32 -> int): TaskCompletion {
    FromRecord(task.pid, task.record, task.ext, clock(task.pid))
  }

  /** The completed unread tasks of one round, as candidates, in order. */
  function CompletedCandidates(tasks: seq<CompletedTask>, clock: U32 -> int): seq<TaskCompletion> {
    if tasks == [] then []
    else CompletedCandidates(tasks[..|tasks| - 1], clock) + [TaskOffer(tasks[|tasks| - 1], clock)]
  }

  /** The processed pids after offering `cs` when those in `seen` were already processed. */
  function Processed(seen: set<U32>, cs: seq<TaskCompletion>): set<U32> {
    if cs == [] then seen else Processed(seen, cs[..|cs| - 1]) + {cs[|cs| - 1].pid}
  }

  /** What one candidate adds to the report when the pids in `processed` are already processed. */
  function Admit(processed: set<U32>, c: TaskCompletion): seq<TaskCompletion> {
    if c.pid in processed then [] else [c]
  }

  /** What enters the report from `cs` when the pids in `seen` are already processed. */
  function Admitted(seen: set<U32>, cs: seq<TaskCompletion>): seq<TaskCompletion> {
    if cs == [] then []
    else
      var prev := cs[..|cs| - 1];
      Admitted(seen, prev) + Admit(Processed(seen, prev), cs[|cs| - 1])
  }

  /** A pid is processed after `cs` exactly when it was before or one of `cs` carries it. */
  lemma {:induction false} ProcessedMembers(seen: set<U32>, cs: seq<TaskCompletion>, p: U32)
    ensures p in Processed(seen, cs) <==> p in seen || exists i :: 0 <= i < |cs| && cs[i].pid == p
  {
    if cs != [] {
      var prev := cs[..|cs| - 1];
      ProcessedMembers(seen, prev, p);
      if exists i :: 0 <= i < |prev| && prev[i].pid == p {
        var i :| 0 <= i < |prev| && prev[i].pid == p;
        assert cs[i].pid == p;
      }
      if exists i :: 0 <= i < |cs| && cs[i].pid == p {
        var i :| 0 <= i < |cs| && cs[i].pid == p;
        if i < |prev| {
          assert prev[i].pid == p;
        }
      }
    }
  }

  /**
   * One step of a loop that offers candidates: if the processed pids and the
   * report so far are those of `cs`, then after offering `c` they are those
   * of `cs + [c]`.
   */
  lemma OfferStep(seen: set<U32>, cs: seq<TaskCompletion>, c: TaskCompletion, start: seq<TaskCompletion>,
                  processed: set<U32>, completions: seq<TaskCompletion>)
    requires processed == Processed(seen, cs)
    requires completions == start + Admitted(seen, cs)
    ensures processed + {c.pid} == Processed(seen, cs + [c])
    ensures completions + Admit(processed, c) == start + Admitted(seen, cs + [c])
  {
    assert (cs + [c])[..|cs|] == cs;
  }

  /** The candidates of one more event. */
  lemma EventCandidatesPush(events: seq<Registry.CleanupEvent>, i: nat, clock: U32 -> int)
    requires i < |events|
    ensures EventCandidates(events[..i + 1], clock) == EventCandidates(events[..i], clock) + EventOffer(events[i], clock)
  {
    assert events[..i + 1][..i] == events[..i];
  }

  /** The pids of some completed tasks, in order: what the second loop removes. */
  function TaskPids(tasks: seq<CompletedTask>): seq<U32> {
    if tasks == [] then [] else TaskPids(tasks[..|tasks| - 1]) + [tasks[|tasks| - 1].pid]
  }

  /** The removed pids are the tasks' pids, one per task. */
  lemma {:induction false} TaskPidsMeaning(tasks: seq<CompletedTask>)
    ensures |TaskPids(tasks)| == |tasks|
    ensures forall i :: 0 <= i < |tasks| ==> TaskPids(tasks)[i] == tasks[i].pid
  {
    if tasks != [] {
      TaskPidsMeaning(tasks[..|tasks| - 1]);
    }
  }

  /** The candidates and removed pids of one more completed task. */
  lemma CompletedCandidatesPush(tasks: seq<CompletedTask>, i: nat, clock: U32 -> int)
    requires i < |tasks|
    ensures CompletedCandidates(tasks[..i + 1], clock) == CompletedCandidates(tasks[..i], clock) + [TaskOffer(tasks[i], clock)]
    ensures TaskPids(tasks[..i + 1]) == TaskPids(tasks[..i]) + [tasks[i].pid]
  {
    assert tasks[..i + 1][..i] == tasks[..i];
  }

  /** An admitted completion has a pid not processed before and processed after, and no two admitted completions share a pid. */
  lemma {:induction false} AdmittedFresh(seen: set<U32>, cs: seq<TaskCompletion>)
    ensures forall i :: 0 <= i < |Admitted(seen, cs)| ==>
      Admitted(seen, cs)[i].pid !in seen && Admitted(seen, cs)[i].pid in Processed(seen, cs)
    ensures forall i, j :: 0 <= i < j < |Admitted(seen, cs)| ==> Admitted(seen, cs)[i].pid != Admitted(seen, cs)[j].pid
  {
    if cs != [] {
      var prev := cs[..|cs| - 1];
      var last := cs[|cs| - 1];
      AdmittedFresh(seen, prev);
      var before := Admitted(seen, prev);
      if last.pid !in Processed(seen, prev) {
        assert Admitted(seen, cs) == before + [last];
        ProcessedIncludesSeen(seen, prev);
      } else {
        assert Admitted(seen, cs) == before;
      }
    }
  }

  /** The pids processed earlier stay processed. */
  lemma {:induction false} ProcessedIncludesSeen(seen: set<U32>, cs: seq<TaskCompletion>)
    ensures seen <= Processed(seen, cs)
  {
    if cs != [] {
      ProcessedIncludesSeen(seen, cs[..|cs| - 1]);
    }
  }

  /** Processing two batches one after the other is processing their concatenation. */
  lemma {:induction false} ProcessedConcat(seen: set<U32>, a: seq<TaskCompletion>, b: seq<TaskCompletion>)
    ensures Processed(seen, a + b) == Processed(Processed(seen, a), b)
    decreases |b|
  {
    if b == [] {
      assert a + b == a;
    } else {
      var prev := b[..|b| - 1];
      ProcessedConcat(seen, a, prev);
      assert (a + b)[..|a + b| - 1] == a + prev;
    }
  }

  /** Admitting two batches one after the other is admitting their concatenation. */
  lemma {:induction false} AdmittedConcat(seen: set<U32>, a: seq<TaskCompletion>, b: seq<TaskCompletion>)
    ensures Admitted(seen, a + b) == Admitted(seen, a) + Admitted(Processed(seen, a), b)
    decreases |b|
  {
    if b == [] {
      assert a + b == a;
    } else {
      var prev := b[..|b| - 1];
      AdmittedConcat(seen, a, prev);
      ProcessedConcat(seen, a, prev);
      assert (a + b)[..|a + b| - 1] == a + prev;
    }
  }

  /** The candidates of two runs of events one after the other. */
  lemma {:induction false} EventCandidatesConcat(a: seq<Registry.CleanupEvent>, b: seq<Registry.CleanupEvent>, clock: U32 -> int)
    ensures EventCandidates(a + b, clock) == EventCandidates(a, clock) + EventCandidates(b, clock)
    decreases |b|
  {
    if b == [] {
      assert a + b == a;
    } else {
      var prev := b[..|b| - 1];
      var last := b[|b| - 1];
      EventCandidatesConcat(a, prev, clock);
      assert EventCandidates(a + b, clock) == EventCandidates(a + prev, clock) + EventOffer(last, clock) by {
        assert (a + b)[..|a + b| - 1] == a + prev;
        assert (a + b)[|a + b| - 1] == last;
      }
      assert EventCandidates(b, clock) == EventCandidates(prev, clock) + EventOffer(last, clock);
    }
  }

  /** Timeout events offer nothing. */
  lemma {:induction false} TimeoutsOfferNothing(timeouts: seq<Registry.CleanupEvent>, clock: U32 -> int)
    requires forall i :: 0 <= i < |timeouts| ==> timeouts[i].reason == Registry.Timeout
    ensures EventCandidates(timeouts, clock) == []
    decreases |timeouts|
  {
    if timeouts != [] {
      TimeoutsOfferNothing(timeouts[..|timeouts| - 1], clock);
    }
  }

  /** Timeout events never reach the report: wherever they stand in a sweep's events, they change nothing that is offered. */
  lemma TimeoutEventsIgnored(a: seq<Registry.CleanupEvent>, timeouts: seq<Registry.CleanupEvent>, b: seq<Registry.CleanupEvent>, clock: U32 -> int)
    requires forall i :: 0 <= i < |timeouts| ==> timeouts[i].reason == Registry.Timeout
    ensures EventCandidates(a + timeouts + b, clock) == EventCandidates(a + b, clock)
  {
    EventCandidatesConcat(a, timeouts, clock);
    TimeoutsOfferNothing(timeouts, clock);
    assert EventCandidates(a + timeouts, clock) == EventCandidates(a, clock);
    EventCandidatesConcat(a + timeouts, b, clock);
    EventCandidatesConcat(a, b, clock);
  }

  /** Each completion a sweep's events offer is stamped with the clock's reading for its pid. */
  lemma {:induction false} EventStamps(events: seq<Registry.CleanupEvent>, clock: U32 -> int)
    ensures forall i :: 0 <= i < |EventCandidates(events, clock)| ==>
      EventCandidates(events, clock)[i].completedAt == clock(EventCandidates(events, clock)[i].pid)
    decreases |events|
  {
    if events != [] {
      EventStamps(events[..|events| - 1], clock);
    }
  }

  /** Each completed task offered keeps its own completion time, else gets the clock's reading for its pid. */
  lemma {:induction false} TaskStamps(tasks: seq<CompletedTask>, clock: U32 -> int)
    ensures |CompletedCandidates(tasks, clock)| == |tasks|
    ensures forall i :: 0 <= i < |tasks| ==>
      CompletedCandidates(tasks, clock)[i].completedAt == tasks[i].ext.completedAt.GetOr(clock(tasks[i].pid))
    decreases |tasks|
  {
    if tasks != [] {
      TaskStamps(tasks[..|tasks| - 1], clock);
    }
  }

  /** Offer one candidate: it enters the report iff its pid is new (`processed_pids.insert`). */
  method Offer(report: TaskReport, processed: set<U32>, c: TaskCompletion) returns (processedAfter: set<U32>)
    requires report.Valid()
    modifies report
    ensures report.Valid()
    ensures processedAfter == processed + {c.pid}
    ensures report.completions == old(report.completions) + Admit(processed, c)
  {
    processedAfter := processed;
    if c.pid !in processedAfter {
      processedAfter := processedAfter + {c.pid};
      report.AddCompletion(c);
    }
  }

  /** The first loop of a round: offer every cleanup event except Timeout ones. */
  method OfferEvents(report: TaskReport, processed: set<U32>, events: seq<Registry.CleanupEvent>, clock: U32 -> int)
    returns (processedAfter: set<U32>)
    requires report.Valid()
    modifies report
    ensures report.Valid()
    ensures processedAfter == Processed(processed, EventCandidates(events, clock))
    ensures report.completions == old(report.completions) + Admitted(processed, EventCandidates(events, clock))
  {
    processedAfter := processed;
    ghost var cs: seq<TaskCompletion> := [];
    for i := 0 to |events|
      invariant report.Valid()
      invariant cs == EventCandidates(events[..i], clock)
      invariant processedAfter == Processed(processed, cs)
      invariant report.completions == old(report.completions) + Admitted(processed, cs)
    {
      var event := events[i];
      EventCandidatesPush(events, i, clock);
      if event.reason == Registry.Timeout {
        assert cs + EventOffer(event, clock) == cs;
        continue;
      }
      var c := FromRecord(event.pid, event.record, NO_EXTENSION, clock(event.pid));
      OfferStep(processed, cs, c, old(report.completions), processedAfter, report.completions);
      processedAfter := Offer(report, processedAfter, c);
      cs := cs + [c];
    }
    assert events[..|events|] == events;
  }

  /** The row keys of some pids. */
  function PidKeys(pids: seq<U32>): set<string> {
    if pids == [] then {} else PidKeys(pids[..|pids| - 1]) + {Registry.PidKey(pids[|pids| - 1])}
  }

  lemma PidKeysPush(pids: seq<U32>, p: U32)
    ensures PidKeys(pids + [p]) == PidKeys(pids) + {Registry.PidKey(p)}
  {
    assert (pids + [p])[..|pids|] == pids;
  }

  /** `remove_by_pid` inside the second loop: one more task's row removed. */
  method RemoveTaskRow(registry: Registry.TaskRegistry, ghost start: map<string, string>, removed: seq<U32>, pid: U32)
    returns (removedAfter: seq<U32>)
    requires registry.rows == start - PidKeys(removed)
    modifies registry
    ensures removedAfter == removed + [pid]
    ensures registry.rows == start - PidKeys(removedAfter)
  {
    var _ := registry.Remove(pid);
    PidKeysPush(removed, pid);
    removedAfter := removed + [pid];
  }

  /** The second loop of a round: offer every completed unread task, and remove each task's row by pid. */
  method OfferCompleted(report: TaskReport, registry: Registry.TaskRegistry, processed: set<U32>, tasks: seq<CompletedTask>, clock: U32 -> int)
    returns (processedAfter: set<U32>, removed: seq<U32>)
    requires report.Valid()
    modifies report, registry
    ensures report.Valid()
    ensures processedAfter == Processed(processed, CompletedCandidates(tasks, clock))
    ensures report.completions == old(report.completions) + Admitted(processed, CompletedCandidates(tasks, clock))
    ensures removed == TaskPids(tasks)
    ensures registry.rows == old(registry.rows) - PidKeys(removed)
  {
    processedAfter := processed;
    removed := [];
    ghost var cs: seq<TaskCompletion> := [];
    for i := 0 to |tasks|
      invariant report.Valid()
      invariant cs == CompletedCandidates(tasks[..i], clock)
      invariant processedAfter == Processed(processed, cs)
      invariant report.completions == old(report.completions) + Admitted(processed, cs)
      invariant removed == TaskPids(tasks[..i])
      invariant registry.rows == old(registry.rows) - PidKeys(removed)
    {
      var task := tasks[i];
      CompletedCandidatesPush(tasks, i, clock);
      var c := FromRecord(task.pid, task.record, task.ext, clock(task.pid));
      OfferStep(processed, cs, c, old(report.completions), processedAfter, report.completions);
      processedAfter := Offer(report, processedAfter, c);
      cs := cs + [c];
      removed := RemoveTaskRow(registry, old(registry.rows), removed, task.pid);
    }
    assert tasks[..|tasks|] == tasks;
  }

  /**
   * What each polling round observes, by round number: the current time
   * and process liveness for the sweep, the completed unread tasks, the
   * clock's reading when a pid's completion is built (`clock(k)(pid)`),
   * whether any listed task is still running, and the seconds elapsed since
   * the wait began. A completion is built only for a pid processed for the
   * first time, so within a round each reading belongs to one pid.
   */
  datatype Observations = Observations(
    alive: nat -> (U32 -> bool),
    completed: nat -> seq<CompletedTask>,
    now: nat -> int,
    clock: nat -> (U32 -> int),
    running: nat -> bool,
    elapsed: nat -> nat)

  /** Everything offered to the report in round `k`, whose sweep reported `events`, in order. */
  function RoundCandidates(obs: Observations, events: seq<Registry.CleanupEvent>, k: nat): seq<TaskCompletion> {
    EventCandidates(events, obs.clock(k)) + CompletedCandidates(obs.completed(k), obs.clock(k))
  }

  /** Everything offered in the rounds whose sweeps reported `sweeps`, round by round. */
  function CandidatesOf(obs: Observations, sweeps: seq<seq<Registry.CleanupEvent>>): seq<TaskCompletion> {
    if sweeps == [] then []
    else CandidatesOf(obs, sweeps[..|sweeps| - 1]) + RoundCandidates(obs, sweeps[|sweeps| - 1], |sweeps| - 1)
  }

  /**
   * Round `k` took the registry from `before` to `after`: it swept a
   * listing of `before` with the round's time and liveness, which reported
   * `events` and removed the matched rows, then removed the rows of the
   * round's completed tasks, then listed the registry again.
   */
  ghost predicate SweptRound(obs: Observations, k: nat, before: map<string, string>, after: map<string, string>,
                             events: seq<Registry.CleanupEvent>) {
    exists es :: Registry.IsListing(es, before)
      && events == Registry.SweepEvents(es, obs.now(k), obs.alive(k))
      && after == Registry.ValidRows(Registry.AfterSweep(before, es, obs.now(k), obs.alive(k)) - PidKeys(TaskPids(obs.completed(k))))
  }
  /** Every recorded round `k` took the registry from `states[k]` to `states[k + 1]` and reported `sweeps[k]`. */
  ghost predicate SweptRounds(obs: Observations, states: seq<map<string, string>>, sweeps: seq<seq<Registry.CleanupEvent>>) {
    && |states| == |sweeps| + 1
    && forall k :: 0 <= k < |sweeps| ==> SweptRound(obs, k, states[k], states[k + 1], sweeps[k])
  }


  /**
   * One round of `run`: if the processed pids and the report before it are
   * those of `offered`, then after offering the round's events `e` and then its
   * completed tasks `c` they are those of `offered + (e + c)`.
   */
  lemma RoundStep(offered: seq<TaskCompletion>, e: seq<TaskCompletion>, c: seq<TaskCompletion>)
    ensures Processed(Processed(Processed({}, offered), e), c) == Processed({}, offered + (e + c))
    ensures Admitted({}, offered) + Admitted(Processed({}, offered), e) + Admitted(Processed(Processed({}, offered), e), c)
      == Admitted({}, offered + (e + c))
  {
    ProcessedConcat({}, offered, e + c);
    ProcessedConcat(Processed({}, offered), e, c);
    AdmittedConcat({}, offered, e + c);
    AdmittedConcat(Processed({}, offered), e, c);
  }

  datatype StopReason = NothingRunning | MaxWaitReached

  /** Each round sleeps the interval before the next one is observed. */
  ghost predicate SleepsBetweenRounds(obs: Observations, interval: nat) {
    forall k: nat, next: nat :: next == k + 1 ==> obs.elapsed(k) + interval <= obs.elapsed(next)
  }

  /** Rounds `0 .. rounds-1` each found a task running before the maximum wait had elapsed. */
  ghost predicate KeptWaiting(obs: Observations, rounds: nat) {
    forall k: nat :: k < rounds ==> obs.running(k) && obs.elapsed(k) < MAX_WAIT_DURATION
  }

  /**
   * `run`'s loop. Each round sweeps the registry and offers the sweep's
   * events, then offers the completed unread tasks and removes their rows.
   * The loop returns after the first round in which nothing is running, or
   * else in which the maximum wait has elapsed; the report then holds, in
   * order, the first completion offered for each pid over all rounds.
   * `sweeps` and `states` are each round's events and the registry before
   * each round and at the end.
   */
  method Run(registry: Registry.TaskRegistry, env: map<string, OsArg>, legacyName: string, obs: Observations)
    returns (report: TaskReport, rounds: nat, stop: StopReason,
             ghost sweeps: seq<seq<Registry.CleanupEvent>>, ghost states: seq<map<string, string>>)
    requires SleepsBetweenRounds(obs, ReadInterval(env, legacyName))
    modifies registry
    ensures report.Valid()
    ensures |sweeps| == rounds && SweptRounds(obs, states, sweeps)
    ensures states[0] == old(registry.rows) && states[rounds] == registry.rows
    ensures report.completions == Admitted({}, CandidatesOf(obs, sweeps))
    ensures rounds >= 1
    ensures KeptWaiting(obs, rounds - 1)
    ensures stop == NothingRunning <==> !obs.running(rounds - 1)
    ensures stop == MaxWaitReached ==> obs.elapsed(rounds - 1) >= MAX_WAIT_DURATION
  {
    var interval := ReadInterval(env, legacyName);
    var processed: set<U32> := {};
    report := new TaskReport();
    rounds := 0;
    sweeps, states := [], [registry.rows];
    ghost var offered: seq<TaskCompletion> := [];
    while true
      invariant report.Valid()
      invariant |sweeps| == rounds && SweptRounds(obs, states, sweeps)
      invariant states[0] == old(registry.rows) && states[rounds] == registry.rows
      invariant offered == CandidatesOf(obs, sweeps)
      invariant processed == Processed({}, offered)
      invariant report.completions == Admitted({}, offered)
      invariant KeptWaiting(obs, rounds)
      decreases MAX_WAIT_DURATION - obs.elapsed(rounds)
    {
      processed, sweeps, states, offered := RecordedRound(registry, report, processed, obs, rounds, sweeps, states, offered);
      var hasRunning := obs.running(rounds);
      var elapsed := obs.elapsed(rounds);
      rounds := rounds + 1;
      if !hasRunning {
        stop := NothingRunning;
        break;
      }
      if elapsed >= MAX_WAIT_DURATION {
        stop := MaxWaitReached;
        break;
      }
      KeptWaitingStep(obs, rounds - 1);
      ElapsedStep(obs, interval, rounds - 1);
    }
  }

  /** Between one round and the next at least the interval elapses. */
  lemma ElapsedStep(obs: Observations, interval: nat, k: nat)
    requires SleepsBetweenRounds(obs, interval)
    ensures obs.elapsed(k) + interval <= obs.elapsed(k + 1)
  {
    var next := k + 1;
    assert obs.elapsed(k) + interval <= obs.elapsed(next);
  }

  /** A round that found a task running before the maximum wait had elapsed extends the rounds kept waiting. */
  lemma KeptWaitingStep(obs: Observations, k: nat)
    requires KeptWaiting(obs, k)
    requires obs.running(k) && obs.elapsed(k) < MAX_WAIT_DURATION
    ensures KeptWaiting(obs, k + 1)
  {
  }

  /** One more round of `run`, with the rounds so far and what they offered recorded. */
  method RecordedRound(registry: Registry.TaskRegistry, report: TaskReport, processed: set<U32>, obs: Observations, k: nat,
                       ghost sweeps: seq<seq<Registry.CleanupEvent>>, ghost states: seq<map<string, string>>,
                       ghost offered: seq<TaskCompletion>)
    returns (processedAfter: set<U32>, ghost sweepsAfter: seq<seq<Registry.CleanupEvent>>,
             ghost statesAfter: seq<map<string, string>>, ghost offeredAfter: seq<TaskCompletion>)
    requires report.Valid()
    requires k == |sweeps|
    requires SweptRounds(obs, states, sweeps) && states[k] == registry.rows
    requires offered == CandidatesOf(obs, sweeps)
    requires processed == Processed({}, offered)
    requires report.completions == Admitted({}, offered)
    modifies registry, report
    ensures report.Valid()
    ensures |sweepsAfter| == |sweeps| + 1 && SweptRounds(obs, statesAfter, sweepsAfter)
    ensures statesAfter[0] == states[0] && statesAfter[|sweepsAfter|] == registry.rows
    ensures offeredAfter == CandidatesOf(obs, sweepsAfter)
    ensures processedAfter == Processed({}, offeredAfter)
    ensures report.completions == Admitted({}, offeredAfter)
  {
    var events;
    processedAfter, events := Round(registry, report, processed, obs, k);
    ghost var fromEvents := EventCandidates(events, obs.clock(k));
    ghost var fromCompleted := CompletedCandidates(obs.completed(k), obs.clock(k));
    RoundStep(offered, fromEvents, fromCompleted);
    RoundRecorded(obs, sweeps, states, events, registry.rows);
    offeredAfter := offered + (fromEvents + fromCompleted);
    sweepsAfter, statesAfter := sweeps + [events], states + [registry.rows];
  }

  /**
   * The body of `run`'s loop up to the running check: sweep, offer the
   * sweep's events, offer the completed unread tasks and remove their rows,
   * then list the registry.
   */
  method Round(registry: Registry.TaskRegistry, report: TaskReport, processed: set<U32>, obs: Observations, k: nat)
    returns (processedAfter: set<U32>, events: seq<Registry.CleanupEvent>)
    requires report.Valid()
    modifies registry, report
    ensures report.Valid()
    ensures SweptRound(obs, k, old(registry.rows), registry.rows, events)
    ensures processedAfter ==
      Processed(Processed(processed, EventCandidates(events, obs.clock(k))), CompletedCandidates(obs.completed(k), obs.clock(k)))
    ensures report.completions == old(report.completions)
      + Admitted(processed, EventCandidates(events, obs.clock(k)))
      + Admitted(Processed(processed, EventCandidates(events, obs.clock(k))), CompletedCandidates(obs.completed(k), obs.clock(k)))
  {
    var terminated;
    ghost var listed;
    events, terminated, listed := registry.SweepStaleEntries(obs.now(k), obs.alive(k));
    processedAfter := OfferEvents(report, processed, events, obs.clock(k));
    var removed;
    processedAfter, removed := OfferCompleted(report, registry, processedAfter, obs.completed(k), obs.clock(k));
    var entries := registry.Entries();
    assert SweptRound(obs, k, old(registry.rows), registry.rows, events) by {
      assert Registry.IsListing(listed, old(registry.rows));
    }
  }

  /** Recording one more round keeps the earlier rounds and adds its candidates at the end. */
  lemma RoundRecorded(obs: Observations, sweeps: seq<seq<Registry.CleanupEvent>>, states: seq<map<string, string>>,
                      events: seq<Registry.CleanupEvent>, after: map<string, string>)
    requires SweptRounds(obs, states, sweeps)
    requires SweptRound(obs, |sweeps|, states[|sweeps|], after, events)
    ensures SweptRounds(obs, states + [after], sweeps + [events])
    ensures CandidatesOf(obs, sweeps + [events]) == CandidatesOf(obs, sweeps) + RoundCandidates(obs, events, |sweeps|)
  {
    assert (sweeps + [events])[..|sweeps|] == sweeps;
    forall k | 0 <= k < |sweeps| + 1
      ensures SweptRound(obs, k, (states + [after])[k], (states + [after])[k + 1], (sweeps + [events])[k])
    {
      if k < |sweeps| {
        assert (states + [after])[k] == states[k] && (states + [after])[k + 1] == states[k + 1];
      }
    }
  }

  /** After `k` rounds at least `k` intervals have elapsed. */
  lemma {:induction false} ElapsedGrows(obs: Observations, interval: nat, k: nat)
    requires SleepsBetweenRounds(obs, interval)
    ensures obs.elapsed(0) + k * interval <= obs.elapsed(k)
  {
    if k > 0 {
      ElapsedGrows(obs, interval, k - 1);
      assert obs.elapsed(k - 1) + interval <= obs.elapsed(k);
      assert k * interval == (k - 1) * interval + interval;
    }
  }

  /** The wait is bounded: when every round but the last began within the maximum wait, there were fewer than one more than the maximum wait over the interval. */
  lemma RoundsBounded(obs: Observations, interval: nat, rounds: nat)
    requires SleepsBetweenRounds(obs, interval)
    requires rounds >= 1
    requires KeptWaiting(obs, rounds - 1)
    ensures (rounds - 1) * interval < MAX_WAIT_DURATION + interval
  {
    if rounds >= 2 {
      ElapsedGrows(obs, interval, rounds - 2);
      assert obs.elapsed(rounds - 2) < MAX_WAIT_DURATION;
      assert (rounds - 1) * interval == (rounds - 2) * interval + interval;
    }
  }

  /** Across all rounds a pid enters the report at most once. */
  lemma ReportedOnce(obs: Observations, sweeps: seq<seq<Registry.CleanupEvent>>, cs: seq<TaskCompletion>)
    requires cs == Admitted({}, CandidatesOf(obs, sweeps))
    ensures forall i, j :: 0 <= i < j < |cs| ==> cs[i].pid != cs[j].pid
  {
    AdmittedFresh({}, CandidatesOf(obs, sweeps));
  }
}

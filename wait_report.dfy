/**
 * The completions wait mode collects and the report it keeps of them
 * (`src/wait_mode.rs`, `TaskCompletion` and `TaskReport`).
 *
 * The record type has no completion time, exit code or result of its own;
 * wait mode reads them all the same. They are taken as an ASSUMPTION: the
 * three optional fields form a `RecordExtension` that defaults to absent.
 */
module WaitReport {
  import opened Common
  import opened TaskRecords

  const CLEANED_PREFIX: string := "任务被清理: "
  const SUCCESS_DEFAULT: string := "任务成功完成，但未提供摘要。"
  const FAILURE_DEFAULT: string := "任务失败，未提供错误摘要。"

  /** Assumed: the completion fields wait mode reads from a record. */
  datatype RecordExtension = RecordExtension(completedAt: Option<int>, exitCode: Option<int>, result: Option<string>)

  /** Assumed: a record as the registry stores it carries none of them. */
  const NO_EXTENSION := RecordExtension(None, None, None)

  datatype TaskCompletion = TaskCompletion(
    pid: U32,
    logPath: string,
    startedAt: int,
    completedAt: int,
    exitCode: Option<int>,
    result: Option<string>,
    cleanupReason: Option<string>)

  // ---------------------------------------------------------------------
  // One completion
  // ---------------------------------------------------------------------

  /** `from_record`: a missing completion time is the current time. */
  function FromRecord(pid: U32, record: TaskRecord, ext: RecordExtension, now: int): (c: TaskCompletion)
    ensures c.pid == pid && c.logPath == record.logPath && c.startedAt == record.startedAt
    ensures c.completedAt == if ext.completedAt.Some? then ext.completedAt.value else now
    ensures c.exitCode == ext.exitCode && c.result == ext.result && c.cleanupReason == record.cleanupReason
  {
    TaskCompletion(pid, record.logPath, record.startedAt, ext.completedAt.GetOr(now),
                   ext.exitCode, ext.result, record.cleanupReason)
  }

  /** A task succeeded when nothing cleaned it up and it reported no nonzero exit code. */
  predicate IsSuccess(c: TaskCompletion) {
    c.cleanupReason.None? && c.exitCode.GetOr(0) == 0
  }

  /** The summary: the task's own result, else the cleanup reason, else a default by outcome. */
  function SummaryText(c: TaskCompletion): (text: string)
    ensures c.result.Some? ==> text == c.result.value
    ensures c.result.None? && c.cleanupReason.Some? ==> text == CLEANED_PREFIX + c.cleanupReason.value
    ensures c.result.None? && c.cleanupReason.None? ==> text == if IsSuccess(c) then SUCCESS_DEFAULT else FAILURE_DEFAULT
  {
    if c.result.Some? then c.result.value
    else if c.cleanupReason.Some? then CLEANED_PREFIX + c.cleanupReason.value
    else if IsSuccess(c) then SUCCESS_DEFAULT
    else FAILURE_DEFAULT
  }

  /**
   * Without a result of its own, the summary never claims success for a
   * task that failed, and a cleaned-up task always shows why.
   */
  lemma SummaryMatchesOutcome(c: TaskCompletion)
    requires c.result.None?
    ensures SummaryText(c) == SUCCESS_DEFAULT <==> IsSuccess(c)
    ensures SummaryText(c) == FAILURE_DEFAULT <==> !IsSuccess(c) && c.cleanupReason.None?
    ensures c.cleanupReason.Some? ==> SummaryText(c)[..|CLEANED_PREFIX|] == CLEANED_PREFIX
  {
    if c.cleanupReason.Some? {
      var text := CLEANED_PREFIX + c.cleanupReason.value;
      assert text[..|CLEANED_PREFIX|] == CLEANED_PREFIX;
      assert text[2] != SUCCESS_DEFAULT[2];
      assert text[2] != FAILURE_DEFAULT[2];
    }
  }

  /** A cleaned-up task is a failure whatever its exit code; a clean exit 0 or no code is a success. */
  lemma SuccessCases(c: TaskCompletion)
    ensures c.cleanupReason.Some? ==> !IsSuccess(c)
    ensures c.cleanupReason.None? ==> (IsSuccess(c) <==> c.exitCode == None || c.exitCode == Some(0))
  {
  }

  // ---------------------------------------------------------------------
  // The report
  // ---------------------------------------------------------------------

  /** The earliest start among the completions, if there are any. */
  function EarliestStart(cs: seq<TaskCompletion>): Option<int> {
    if cs == [] then None
    else
      var rest := EarliestStart(cs[1..]);
      if rest.None? || cs[0].startedAt <= rest.value then Some(cs[0].startedAt) else rest
  }

  /** The latest completion among the completions, if there are any. */
  function LatestCompletion(cs: seq<TaskCompletion>): Option<int> {
    if cs == [] then None
    else
      var rest := LatestCompletion(cs[1..]);
      if rest.None? || cs[0].completedAt >= rest.value then Some(cs[0].completedAt) else rest
  }

  /** How many completions succeeded. */
  function SuccessCount(cs: seq<TaskCompletion>): (n: nat)
    ensures n <= |cs|
  {
    if cs == [] then 0 else (if IsSuccess(cs[0]) then 1 else 0) + SuccessCount(cs[1..])
  }

  /** `EarliestStart` is the minimum: no start is earlier, and some completion started then. */
  lemma {:induction false} EarliestStartIsMinimum(cs: seq<TaskCompletion>)
    ensures EarliestStart(cs).None? <==> cs == []
    ensures EarliestStart(cs).Some? ==>
      && (forall i :: 0 <= i < |cs| ==> EarliestStart(cs).value <= cs[i].startedAt)
      && StartedAt(cs, EarliestStart(cs).value)
  {
    if cs != [] {
      EarliestStartIsMinimum(cs[1..]);
      var m := EarliestStart(cs).value;
      forall i | 0 <= i < |cs|
        ensures m <= cs[i].startedAt
      {
        if i > 0 {
          assert cs[i] == cs[1..][i - 1];
        }
      }
      if m != cs[0].startedAt {
        var j :| 0 <= j < |cs[1..]| && cs[1..][j].startedAt == m;
        assert cs[j + 1].startedAt == m;
      }
    }
  }

  /** `LatestCompletion` is the maximum: no completion is later, and some completion ended then. */
  lemma {:induction false} LatestCompletionIsMaximum(cs: seq<TaskCompletion>)
    ensures LatestCompletion(cs).None? <==> cs == []
    ensures LatestCompletion(cs).Some? ==>
      && (forall i :: 0 <= i < |cs| ==> cs[i].completedAt <= LatestCompletion(cs).value)
      && CompletedAt(cs, LatestCompletion(cs).value)
  {
    if cs != [] {
      LatestCompletionIsMaximum(cs[1..]);
      var m := LatestCompletion(cs).value;
      forall i | 0 <= i < |cs|
        ensures cs[i].completedAt <= m
      {
        if i > 0 {
          assert cs[i] == cs[1..][i - 1];
        }
      }
      if m != cs[0].completedAt {
        var j :| 0 <= j < |cs[1..]| && cs[1..][j].completedAt == m;
        assert cs[j + 1].completedAt == m;
      }
    }
  }

  ghost predicate StartedAt(cs: seq<TaskCompletion>, t: int) {
    exists i :: 0 <= i < |cs| && cs[i].startedAt == t
  }

  ghost predicate CompletedAt(cs: seq<TaskCompletion>, t: int) {
    exists i :: 0 <= i < |cs| && cs[i].completedAt == t
  }

  /** Appending a completion moves the earliest start only to an earlier start. */
  lemma {:induction false} EarliestStartAppend(cs: seq<TaskCompletion>, c: TaskCompletion)
    ensures EarliestStart(cs + [c]) ==
      if EarliestStart(cs).None? || c.startedAt < EarliestStart(cs).value then Some(c.startedAt) else EarliestStart(cs)
  {
    if cs != [] {
      assert (cs + [c])[1..] == cs[1..] + [c];
      EarliestStartAppend(cs[1..], c);
    }
  }

  /** Appending a completion moves the latest completion only to a later one. */
  lemma {:induction false} LatestCompletionAppend(cs: seq<TaskCompletion>, c: TaskCompletion)
    ensures LatestCompletion(cs + [c]) ==
      if LatestCompletion(cs).None? || c.completedAt > LatestCompletion(cs).value then Some(c.completedAt) else LatestCompletion(cs)
  {
    if cs != [] {
      assert (cs + [c])[1..] == cs[1..] + [c];
      LatestCompletionAppend(cs[1..], c);
    }
  }

  /** Appending a completion adds one success exactly when it succeeded. */
  lemma {:induction false} SuccessCountAppend(cs: seq<TaskCompletion>, c: TaskCompletion)
    ensures SuccessCount(cs + [c]) == SuccessCount(cs) + if IsSuccess(c) then 1 else 0
  {
    if cs != [] {
      assert (cs + [c])[1..] == cs[1..] + [c];
      SuccessCountAppend(cs[1..], c);
    }
  }

  /** `TaskReport`: the completions in the order they were added, with their time span. */
  class TaskReport {
    var completions: seq<TaskCompletion>
    var earliestStart: Option<int>
    var latestCompletion: Option<int>

    /** The two bounds are the minimum start and maximum completion over everything added. */
    ghost predicate Valid()
      reads this
    {
      earliestStart == EarliestStart(completions) && latestCompletion == LatestCompletion(completions)
    }

    constructor ()
      ensures Valid() && completions == []
    {
      completions := [];
      earliestStart := None;
      latestCompletion := None;
    }

    /** Append a completion, widening the time span to cover it. */
    method AddCompletion(c: TaskCompletion)
      requires Valid()
      modifies this
      ensures Valid()
      ensures completions == old(completions) + [c]
    {
      EarliestStartAppend(completions, c);
      LatestCompletionAppend(completions, c);
      if earliestStart.None? || c.startedAt < earliestStart.value {
        earliestStart := Some(c.startedAt);
      }
      if latestCompletion.None? || c.completedAt > latestCompletion.value {
        latestCompletion := Some(c.completedAt);
      }
      completions := completions + [c];
    }

    function TotalCount(): nat
      reads this
    {
      |completions|
    }

    function SuccessfulCount(): (n: nat)
      reads this
      ensures n <= TotalCount()
    {
      SuccessCount(completions)
    }

    /** The failures are the rest; the subtraction cannot underflow. */
    function FailedCount(): (n: nat)
      reads this
      ensures n + SuccessfulCount() == TotalCount()
    {
      TotalCount() - SuccessfulCount()
    }

    /** From the earliest start to the latest completion, when both are known. */
    function TotalDuration(): (d: Option<int>)
      reads this
      ensures d.Some? <==> earliestStart.Some? && latestCompletion.Some?
      ensures d.Some? ==> d.value + earliestStart.value == latestCompletion.value
    {
      if earliestStart.Some? && latestCompletion.Some? then Some(latestCompletion.value - earliestStart.value) else None
    }
  }

  /**
   * For a valid report with completions, the total duration spans from the
   * earliest start to the latest completion of the completions themselves.
   */
  lemma ReportSpan(report: TaskReport)
    requires report.Valid() && report.completions != []
    ensures report.TotalDuration().Some?
    ensures forall i :: 0 <= i < |report.completions| ==>
      report.earliestStart.value <= report.completions[i].startedAt &&
      report.completions[i].completedAt <= report.latestCompletion.value
  {
    EarliestStartIsMinimum(report.completions);
    LatestCompletionIsMaximum(report.completions);
  }

  /** Adding a completion adds one to the total and one to exactly one of the two counts. */
  method AddCounts(report: TaskReport, c: TaskCompletion)
    requires report.Valid()
    modifies report
    ensures report.Valid()
    ensures report.TotalCount() == old(report.TotalCount()) + 1
    ensures IsSuccess(c) ==>
      report.SuccessfulCount() == old(report.SuccessfulCount()) + 1 && report.FailedCount() == old(report.FailedCount())
    ensures !IsSuccess(c) ==>
      report.FailedCount() == old(report.FailedCount()) + 1 && report.SuccessfulCount() == old(report.SuccessfulCount())
  {
    SuccessCountAppend(report.completions, c);
    report.AddCompletion(c);
  }

}

/**
 * The task record stored, encoded, as the value of one registry row
 * (`src/task_record.rs`). Timestamps are whole seconds.
 */
module TaskRecords {
  import opened Common

  /**
   * The five fields of a record. `managerPid` and `cleanupReason` carry
   * serde's `default` attribute: a stored record that lacks them decodes
   * with `None` (see RecordCodec).
   */
  datatype TaskRecord = TaskRecord(
    startedAt: int,
    logId: string,
    logPath: string,
    managerPid: Option<U32>,
    cleanupReason: Option<string>)

  /** The record with its cleanup reason set to `reason`; every other field is kept. */
  function WithCleanupReason(record: TaskRecord, reason: string): (r: TaskRecord)
    ensures r.cleanupReason == Some(reason)
    ensures r.startedAt == record.startedAt && r.logId == record.logId
    ensures r.logPath == record.logPath && r.managerPid == record.managerPid
  {
    record.(cleanupReason := Some(reason))
  }

  /**
   * There is no guard against replacing an earlier reason: the last call wins,
   * and a reason set twice is the same as the second one set once.
   */
  lemma WithCleanupReasonOverwrites(record: TaskRecord, first: string, second: string)
    ensures WithCleanupReason(WithCleanupReason(record, first), second) == WithCleanupReason(record, second)
    ensures WithCleanupReason(WithCleanupReason(record, first), second).cleanupReason == Some(second)
  {
  }
}

/**
 * The task registry (`src/registry.rs`): rows of the shared hash map, keyed
 * by the decimal pid of a supervised child, each holding an encoded task
 * record. The shared map is a `map<string, string>` field that the methods
 * reassign; every registry call is one atomic step. Liveness is an oracle
 * fixed for the duration of one call.
 */
module Registry {
  import opened Common
  import opened TaskRecords
  import RecordCodec

  /** A record older than twelve hours is stale (`MAX_RECORD_AGE`, `src/config.rs`). */
  const MAX_RECORD_AGE_SECS: int := 12 * 60 * 60

  datatype CleanupReason = ProcessExited | Timeout | ManagerMissing

  /** A row whose key parsed as a pid and whose value decoded. */
  datatype RegistryEntry = RegistryEntry(pid: U32, key: string, record: TaskRecord)

  /** One row matched by a sweep, its record tagged with the reason. */
  datatype CleanupEvent = CleanupEvent(pid: U32, record: TaskRecord, reason: CleanupReason)

  /**
   * The registry's failures that survive in a sequential model: a key that is
   * already present (`try_insert`) and a stored value that does not decode.
   */
  datatype RegistryError = KeyExists | Serialize(cause: RecordCodec.DecodeError)

  /** The row key of a pid: its decimal text. */
  function PidKey(pid: U32): string {
    Decimal(pid)
  }

  /** The text each reason writes into `cleanup_reason`. */
  function ReasonTag(reason: CleanupReason): string {
    match reason
    case ProcessExited => "process_exited"
    case Timeout => "timeout_cleanup"
    case ManagerMissing => "manager_missing"
  }

  // ---------------------------------------------------------------------
  // Rows and listings
  // ---------------------------------------------------------------------

  /** Reading one row: the key must parse as a `u32`, then the value must decode. */
  function ParseRow(key: string, value: string): Option<RegistryEntry> {
    match ParseUnsigned(key, U32_LIMIT)
    case None => None
    case Some(pid) =>
      match RecordCodec.Decode(value)
      case Ok(record) => Some(RegistryEntry(pid, key, record))
      case Err(_) => None
  }

  /** The rows that survive a self-healing read: the readable ones, unmodified. */
  function ValidRows(rows: map<string, string>): (r: map<string, string>)
    ensures r.Keys <= rows.Keys
    ensures forall k :: k in r ==> r[k] == rows[k] && ParseRow(k, rows[k]).Some?
    ensures forall k :: k in rows && ParseRow(k, rows[k]).Some? ==> k in r
  {
    map k | k in rows && ParseRow(k, rows[k]).Some? :: rows[k]
  }

  /**
   * `es` lists the readable rows of `rows`: one entry per readable row, each
   * the row as read, and nothing else.
   */
  ghost predicate IsListing(es: seq<RegistryEntry>, rows: map<string, string>) {
    && (forall i, j :: 0 <= i < j < |es| ==> es[i].key != es[j].key)
    && (forall i :: 0 <= i < |es| ==> es[i].key in rows && ParseRow(es[i].key, rows[es[i].key]) == Some(es[i]))
    && (forall k :: k in rows && ParseRow(k, rows[k]).Some? ==> KeyListed(k, es))
  }

  /** Some entry of `es` has key `k`. */
  ghost predicate KeyListed(k: string, es: seq<RegistryEntry>) {
    exists i :: 0 <= i < |es| && es[i].key == k
  }

  /** The value `remove` reports for a key, given the rows before the removal. */
  function RemoveResult(rows: map<string, string>, key: string): Result<Option<TaskRecord>, RegistryError> {
    if key !in rows then Ok(None)
    else
      match RecordCodec.Decode(rows[key])
      case Ok(record) => Ok(Some(record))
      case Err(e) => Err(Serialize(e))
  }

  // ---------------------------------------------------------------------
  // The per-row decision and the sweep, as functions of the listing
  // ---------------------------------------------------------------------

  /** The manager of the row is recorded, is not the row's own pid, and is not alive. */
  predicate ManagerGone(e: RegistryEntry, alive: U32 -> bool) {
    e.record.managerPid.Some? && e.record.managerPid.value != e.pid && !alive(e.record.managerPid.value)
  }

  function Age(e: RegistryEntry, now: int): int {
    now - e.record.startedAt
  }

  /** The reason a sweep matches a row, in priority order; `None` leaves the row alone. */
  function Decide(e: RegistryEntry, now: int, alive: U32 -> bool): Option<CleanupReason> {
    if !alive(e.pid) then Some(ProcessExited)
    else if ManagerGone(e, alive) then Some(ManagerMissing)
    else if Age(e, now) > MAX_RECORD_AGE_SECS then Some(Timeout)
    else None
  }

  /** Reasons for which the sweep terminates the child before removing its row. */
  predicate Terminates(reason: Option<CleanupReason>) {
    reason == Some(ManagerMissing) || reason == Some(Timeout)
  }

  function EventFor(e: RegistryEntry, reason: CleanupReason): CleanupEvent {
    CleanupEvent(e.pid, WithCleanupReason(e.record, ReasonTag(reason)), reason)
  }

  /** The events a pass over `es` produces, in listing order. */
  function SweepEvents(es: seq<RegistryEntry>, now: int, alive: U32 -> bool): seq<CleanupEvent>
    decreases |es|
  {
    if es == [] then []
    else
      var last := es[|es| - 1];
      SweepEvents(es[..|es| - 1], now, alive) +
        match Decide(last, now, alive)
        case Some(reason) => [EventFor(last, reason)]
        case None => []
  }

  /** The pids a pass over `es` terminates, in listing order. */
  function SweepTerminations(es: seq<RegistryEntry>, now: int, alive: U32 -> bool): seq<U32>
    decreases |es|
  {
    if es == [] then []
    else
      var last := es[|es| - 1];
      SweepTerminations(es[..|es| - 1], now, alive) +
        if Terminates(Decide(last, now, alive)) then [last.pid] else []
  }

  /** The keys a pass over `es` removes after the pass. */
  function SweepRemovals(es: seq<RegistryEntry>, now: int, alive: U32 -> bool): seq<string>
    decreases |es|
  {
    if es == [] then []
    else
      var last := es[|es| - 1];
      SweepRemovals(es[..|es| - 1], now, alive) +
        if Decide(last, now, alive).Some? then [last.key] else []
  }

  /** The rows left after a sweep that read `es` from `rows`. */
  function AfterSweep(rows: map<string, string>, es: seq<RegistryEntry>, now: int, alive: U32 -> bool): map<string, string> {
    ValidRows(rows) - (set k | k in SweepRemovals(es, now, alive))
  }

  // ---------------------------------------------------------------------
  // The registry object
  // ---------------------------------------------------------------------

  class TaskRegistry {
    /** The shared hash map: row key to encoded record. */
    var rows: map<string, string>

    constructor (initial: map<string, string>)
      ensures rows == initial
    {
      rows := initial;
    }

    /** Insert the encoded record under the pid's key; an existing row is never replaced. */
    method Register(pid: U32, record: TaskRecord) returns (r: Result<(), RegistryError>)
      modifies this
      ensures PidKey(pid) in old(rows) ==> r == Err(KeyExists) && rows == old(rows)
      ensures PidKey(pid) !in old(rows) ==> r == Ok(()) && rows == old(rows)[PidKey(pid) := RecordCodec.Encode(record)]
    {
      var key := PidKey(pid);
      var value := RecordCodec.Encode(record);
      if key in rows {
        r := Err(KeyExists);
      } else {
        rows := rows[key := value];
        r := Ok(());
      }
    }

    /** Delete the pid's row, then decode what was deleted; a decode failure happens after the deletion. */
    method Remove(pid: U32) returns (r: Result<Option<TaskRecord>, RegistryError>)
      modifies this
      ensures rows == old(rows) - {PidKey(pid)}
      ensures r == RemoveResult(old(rows), PidKey(pid))
    {
      var key := PidKey(pid);
      var removed: Option<string> := None;
      if key in rows {
        removed := Some(rows[key]);
        rows := rows - {key};
      }
      match removed {
        case None =>
          r := Ok(None);
        case Some(text) =>
          match RecordCodec.Decode(text) {
            case Ok(record) => r := Ok(Some(record));
            case Err(e) => r := Err(Serialize(e));
          }
      }
    }

    /** Delete every listed key (absent keys are ignored). */
    method RemoveKeys(keys: seq<string>)
      modifies this
      ensures rows == old(rows) - (set k | k in keys)
    {
      if |keys| == 0 {
        return;
      }
      for i := 0 to |keys|
        invariant rows == old(rows) - (set j | 0 <= j < i :: keys[j])
      {
        rows := rows - {keys[i]};
        assert (set j | 0 <= j < i + 1 :: keys[j]) == (set j | 0 <= j < i :: keys[j]) + {keys[i]};
      }
      assert (set j | 0 <= j < |keys| :: keys[j]) == (set k | k in keys);
    }

    /**
     * List the readable rows of a snapshot and delete every unreadable one;
     * the order of the listing is the map's (unspecified) iteration order.
     */
    method Entries() returns (es: seq<RegistryEntry>)
      modifies this
      ensures IsListing(es, old(rows))
      ensures rows == ValidRows(old(rows))
    {
      var snapshot := rows;
      var invalid;
      es, invalid := ReadSnapshot(snapshot);
      if |invalid| > 0 {
        RemoveKeys(invalid);
      }
      assert rows == ValidRows(snapshot);
    }

    /**
     * One cleanup pass: list the rows, decide each one, terminate the
     * children of ManagerMissing and Timeout rows as they are decided, and
     * delete the matched keys in one batch after the pass. `terminated` is
     * the sequence of `terminate` calls; `listed` is the listing the pass read.
     */
    method SweepStaleEntries(now: int, alive: U32 -> bool)
      returns (events: seq<CleanupEvent>, terminated: seq<U32>, ghost listed: seq<RegistryEntry>)
      modifies this
      ensures IsListing(listed, old(rows))
      ensures events == SweepEvents(listed, now, alive)
      ensures terminated == SweepTerminations(listed, now, alive)
      ensures rows == AfterSweep(old(rows), listed, now, alive)
    {
      var entries := Entries();
      listed := entries;
      var removals;
      events, terminated, removals := DecidePass(entries, now, alive);
      if |removals| > 0 {
        RemoveKeys(removals);
      }
    }
  }

  /** A way of reading a row; `ParseRow` is the one the registry uses. */
  type Reader = (string, string) -> Option<RegistryEntry>

  /** A reader that reports, for a row it accepts, the row's own key. */
  ghost predicate KeepsKey(read: Reader) {
    forall k, v :: read(k, v).Some? ==> read(k, v).value.key == k
  }

  lemma ParseRowKeepsKey()
    ensures KeepsKey(ParseRow)
  {
  }

  /** The entries read from the rows under `keys`, in that order, unreadable rows skipped. */
  function ListingOf(keys: seq<string>, rows: map<string, string>, read: Reader): seq<RegistryEntry>
    requires forall i :: 0 <= i < |keys| ==> keys[i] in rows
    decreases |keys|
  {
    if keys == [] then []
    else
      var k := keys[|keys| - 1];
      ListingOf(keys[..|keys| - 1], rows, read) +
        match read(k, rows[k])
        case Some(e) => [e]
        case None => []
  }

  /** The keys among `keys` whose rows are unreadable, in that order. */
  function UnreadableOf(keys: seq<string>, rows: map<string, string>, read: Reader): seq<string>
    requires forall i :: 0 <= i < |keys| ==> keys[i] in rows
    decreases |keys|
  {
    if keys == [] then []
    else
      var k := keys[|keys| - 1];
      UnreadableOf(keys[..|keys| - 1], rows, read) + if read(k, rows[k]).None? then [k] else []
  }

  /** Every entry read from `keys` is the reading of one of those rows. */
  lemma {:induction false} ListingOfSound(keys: seq<string>, rows: map<string, string>, read: Reader)
    requires forall i :: 0 <= i < |keys| ==> keys[i] in rows
    requires KeepsKey(read)
    ensures forall i :: 0 <= i < |ListingOf(keys, rows, read)| ==>
      ListingOf(keys, rows, read)[i].key in keys &&
      read(ListingOf(keys, rows, read)[i].key, rows[ListingOf(keys, rows, read)[i].key]) == Some(ListingOf(keys, rows, read)[i])
    decreases |keys|
  {
    if keys != [] {
      var init := keys[..|keys| - 1];
      var k := keys[|keys| - 1];
      ListingOfSound(init, rows, read);
      var before := ListingOf(init, rows, read);
      var es := ListingOf(keys, rows, read);
      assert forall x :: x in init ==> x in keys;
      match read(k, rows[k]) {
        case Some(e) =>
          assert es == before + [e];
        case None =>
          assert es == before;
      }
    }
  }

  /** Reading distinct keys lists each row at most once. */
  lemma {:induction false} ListingOfDistinct(keys: seq<string>, rows: map<string, string>, read: Reader)
    requires forall i :: 0 <= i < |keys| ==> keys[i] in rows
    requires KeepsKey(read)
    requires forall i, j :: 0 <= i < j < |keys| ==> keys[i] != keys[j]
    ensures forall i, j :: 0 <= i < j < |ListingOf(keys, rows, read)| ==>
      ListingOf(keys, rows, read)[i].key != ListingOf(keys, rows, read)[j].key
    decreases |keys|
  {
    if keys != [] {
      var init := keys[..|keys| - 1];
      var k := keys[|keys| - 1];
      ListingOfDistinct(init, rows, read);
      ListingOfSound(init, rows, read);
      var before := ListingOf(init, rows, read);
      assert forall j :: 0 <= j < |init| ==> init[j] == keys[j] && keys[j] != k;
      assert k !in init;
      var es := ListingOf(keys, rows, read);
      match read(k, rows[k]) {
        case Some(e) =>
          assert es == before + [e];
          assert forall i :: 0 <= i < |before| ==> before[i].key in init;
        case None =>
          assert es == before;
      }
    }
  }

  /** Every readable row among `keys` is listed. */
  lemma {:induction false} ListingOfComplete(keys: seq<string>, rows: map<string, string>, read: Reader)
    requires forall i :: 0 <= i < |keys| ==> keys[i] in rows
    requires KeepsKey(read)
    ensures forall k :: k in keys && read(k, rows[k]).Some? ==> KeyListed(k, ListingOf(keys, rows, read))
    decreases |keys|
  {
    if keys != [] {
      var init := keys[..|keys| - 1];
      var last := keys[|keys| - 1];
      ListingOfComplete(init, rows, read);
      var before := ListingOf(init, rows, read);
      var es := ListingOf(keys, rows, read);
      assert keys == init + [last];
      forall k | k in keys && read(k, rows[k]).Some?
        ensures KeyListed(k, es)
      {
        if k == last {
          var e := read(k, rows[k]).value;
          assert es == before + [e];
          assert es[|es| - 1].key == k;
        } else {
          assert k in init;
          var i :| 0 <= i < |before| && before[i].key == k;
          assert es[i] == before[i];
        }
      }
    }
  }

  /** The unreadable keys are exactly the listed keys whose rows do not read. */
  lemma {:induction false} UnreadableOfFacts(keys: seq<string>, rows: map<string, string>, read: Reader)
    requires forall i :: 0 <= i < |keys| ==> keys[i] in rows
    requires KeepsKey(read)
    ensures forall k :: k in UnreadableOf(keys, rows, read) <==> k in keys && read(k, rows[k]).None?
    decreases |keys|
  {
    if keys != [] {
      var init := keys[..|keys| - 1];
      UnreadableOfFacts(init, rows, read);
      assert forall k :: k in keys <==> k in init || k == keys[|keys| - 1];
    }
  }

  /**
   * The reading loop of `entries`: go through the snapshot's keys in some
   * order, collecting the readable rows and the keys of the unreadable ones
   * (a key that is not a `u32`, or a value that does not decode).
   */
  method ReadSnapshot(snapshot: map<string, string>) returns (es: seq<RegistryEntry>, invalid: seq<string>)
    ensures IsListing(es, snapshot)
    ensures forall k :: k in invalid <==> k in snapshot && ParseRow(k, snapshot[k]).None?
  {
    var pending := snapshot.Keys;
    ghost var visited: seq<string> := [];
    es := [];
    invalid := [];
    while pending != {}
      invariant pending <= snapshot.Keys
      invariant forall i :: 0 <= i < |visited| ==> visited[i] in snapshot && visited[i] !in pending
      invariant forall k :: k in snapshot ==> k in pending || k in visited
      invariant forall i, j :: 0 <= i < j < |visited| ==> visited[i] != visited[j]
      invariant es == ListingOf(visited, snapshot, ParseRow)
      invariant invalid == UnreadableOf(visited, snapshot, ParseRow)
      decreases pending
    {
      var key :| key in pending;
      pending := pending - {key};
      var value := snapshot[key];
      visited := visited + [key];
      assert visited[..|visited| - 1] == visited[..|visited| - 1];
      match ParseUnsigned(key, U32_LIMIT) {
        case Some(pid) =>
          match RecordCodec.Decode(value) {
            case Ok(record) =>
              es := es + [RegistryEntry(pid, key, record)];
            case Err(_) =>
              invalid := invalid + [key];
          }
        case None =>
          invalid := invalid + [key];
      }
    }
    ParseRowKeepsKey();
    ListingOfSound(visited, snapshot, ParseRow);
    ListingOfDistinct(visited, snapshot, ParseRow);
    ListingOfComplete(visited, snapshot, ParseRow);
    UnreadableOfFacts(visited, snapshot, ParseRow);
  }

  /**
   * The decision loop of `sweep_stale_entries`: decide each listed row in
   * order, recording a termination as soon as a ManagerMissing or Timeout
   * row is decided, and collecting the events and the keys to remove.
   */
  method DecidePass(entries: seq<RegistryEntry>, now: int, alive: U32 -> bool)
    returns (events: seq<CleanupEvent>, terminated: seq<U32>, removals: seq<string>)
    ensures events == SweepEvents(entries, now, alive)
    ensures terminated == SweepTerminations(entries, now, alive)
    ensures removals == SweepRemovals(entries, now, alive)
  {
    removals := [];
    events := [];
    terminated := [];
    for i := 0 to |entries|
      invariant events == SweepEvents(entries[..i], now, alive)
      invariant terminated == SweepTerminations(entries[..i], now, alive)
      invariant removals == SweepRemovals(entries[..i], now, alive)
    {
      var entry := entries[i];
      assert entries[..i + 1][..i] == entries[..i];
      var reason: Option<CleanupReason> := None;
      if !alive(entry.pid) {
        reason := Some(ProcessExited);
      } else {
        if entry.record.managerPid.Some? && entry.record.managerPid.value != entry.pid
          && !alive(entry.record.managerPid.value)
        {
          terminated := terminated + [entry.pid];
          reason := Some(ManagerMissing);
        }
        if reason.None? {
          var age := now - entry.record.startedAt;
          if age > MAX_RECORD_AGE_SECS {
            terminated := terminated + [entry.pid];
            reason := Some(Timeout);
          }
        }
      }
      assert reason == Decide(entry, now, alive);
      if reason.Some? {
        removals := removals + [entry.key];
        events := events + [CleanupEvent(entry.pid, WithCleanupReason(entry.record, ReasonTag(reason.value)), reason.value)];
      }
    }
    assert entries[..|entries|] == entries;
  }

  // ---------------------------------------------------------------------
  // Properties
  // ---------------------------------------------------------------------

  /** The key of a pid parses back to that pid. */
  lemma PidKeyParses(pid: U32)
    ensures ParseUnsigned(PidKey(pid), U32_LIMIT) == Some(pid)
  {
    ParseDecimal(pid, U32_LIMIT);
  }

  /** A row written by `register` is read back as the registered pid and record. */
  lemma RegisteredRowReads(pid: U32, record: TaskRecord)
    ensures ParseRow(PidKey(pid), RecordCodec.Encode(record)) == Some(RegistryEntry(pid, PidKey(pid), record))
  {
    PidKeyParses(pid);
    RecordCodec.RoundTrip(record);
  }

  /** Removing a freshly registered pid gives back the registered record. */
  lemma RegisterThenRemove(rows: map<string, string>, pid: U32, record: TaskRecord)
    ensures RemoveResult(rows[PidKey(pid) := RecordCodec.Encode(record)], PidKey(pid)) == Ok(Some(record))
  {
    RecordCodec.RoundTrip(record);
  }

  /** A registered row appears in every listing of the map, with its pid and record. */
  lemma RegisteredIsListed(rows: map<string, string>, pid: U32, record: TaskRecord, es: seq<RegistryEntry>)
    requires PidKey(pid) in rows && rows[PidKey(pid)] == RecordCodec.Encode(record)
    requires IsListing(es, rows)
    ensures RegistryEntry(pid, PidKey(pid), record) in es
  {
    RegisteredRowReads(pid, record);
    var i :| 0 <= i < |es| && es[i].key == PidKey(pid);
    assert es[i] == RegistryEntry(pid, PidKey(pid), record);
  }

  /** A removed key is never listed. */
  lemma RemovedIsNotListed(rows: map<string, string>, key: string, es: seq<RegistryEntry>)
    requires key !in rows
    requires IsListing(es, rows)
    ensures forall i :: 0 <= i < |es| ==> es[i].key != key
  {
  }

  /** Healing is idempotent: a second read of the healed map deletes nothing. */
  lemma ValidRowsIdempotent(rows: map<string, string>)
    ensures ValidRows(ValidRows(rows)) == ValidRows(rows)
  {
  }

  /**
   * A row keyed "abc" is corrupted whatever it holds: no listing reports it,
   * a self-healing read deletes it, and so a later read does not see it either.
   */
  lemma CorruptKeyHealed(rows: map<string, string>, es: seq<RegistryEntry>)
    requires IsListing(es, rows)
    ensures forall i :: 0 <= i < |es| ==> es[i].key != "abc"
    ensures "abc" !in ValidRows(rows)
  {
    ParseRejectsNonDigit("abc", U32_LIMIT, 0);
  }

  /** The decision, case by case: each reason holds exactly under its condition. */
  lemma DecideCases(e: RegistryEntry, now: int, alive: U32 -> bool)
    ensures Decide(e, now, alive) == Some(ProcessExited) <==> !alive(e.pid)
    ensures Decide(e, now, alive) == Some(ManagerMissing) <==> alive(e.pid) && ManagerGone(e, alive)
    ensures Decide(e, now, alive) == Some(Timeout) <==>
      alive(e.pid) && !ManagerGone(e, alive) && now - e.record.startedAt > MAX_RECORD_AGE_SECS
    ensures Decide(e, now, alive) == None <==>
      alive(e.pid) && !ManagerGone(e, alive) && now - e.record.startedAt <= MAX_RECORD_AGE_SECS
  {
  }

  /** A row that names itself as its manager is never ManagerMissing. */
  lemma SelfManagedNeverManagerMissing(e: RegistryEntry, now: int, alive: U32 -> bool)
    requires e.record.managerPid == Some(e.pid)
    ensures Decide(e, now, alive) != Some(ManagerMissing)
  {
  }

  /** Every event comes from one listed row: same pid, the row's reason, the row's record tagged. */
  lemma {:induction false} EventsFromRows(es: seq<RegistryEntry>, now: int, alive: U32 -> bool)
    ensures forall ev :: ev in SweepEvents(es, now, alive) ==>
      ev.record.cleanupReason == Some(ReasonTag(ev.reason)) &&
      exists i :: 0 <= i < |es| && ev == EventFor(es[i], ev.reason) && Decide(es[i], now, alive) == Some(ev.reason)
    decreases |es|
  {
    if es != [] {
      var init := es[..|es| - 1];
      EventsFromRows(init, now, alive);
      forall ev | ev in SweepEvents(es, now, alive)
        ensures exists i :: 0 <= i < |es| && ev == EventFor(es[i], ev.reason) && Decide(es[i], now, alive) == Some(ev.reason)
      {
        if ev in SweepEvents(init, now, alive) {
          var i :| 0 <= i < |init| && ev == EventFor(init[i], ev.reason) && Decide(init[i], now, alive) == Some(ev.reason);
          assert es[i] == init[i];
        } else {
          assert ev == EventFor(es[|es| - 1], ev.reason);
        }
      }
    }
  }

  /** A key is removed by the sweep exactly when its listed row was matched. */
  lemma {:induction false} RemovalsAreMatched(es: seq<RegistryEntry>, now: int, alive: U32 -> bool)
    ensures forall k :: k in SweepRemovals(es, now, alive) <==>
      exists i :: 0 <= i < |es| && es[i].key == k && Decide(es[i], now, alive).Some?
    decreases |es|
  {
    if es != [] {
      var init := es[..|es| - 1];
      RemovalsAreMatched(init, now, alive);
      forall k
        ensures k in SweepRemovals(es, now, alive) <==>
          exists i :: 0 <= i < |es| && es[i].key == k && Decide(es[i], now, alive).Some?
      {
        if exists i :: 0 <= i < |es| && es[i].key == k && Decide(es[i], now, alive).Some? {
          var i :| 0 <= i < |es| && es[i].key == k && Decide(es[i], now, alive).Some?;
          if i < |init| {
            assert init[i] == es[i];
          }
        }
        if k in SweepRemovals(init, now, alive) {
          var i :| 0 <= i < |init| && init[i].key == k && Decide(init[i], now, alive).Some?;
          assert es[i] == init[i];
        }
      }
    }
  }

  /**
   * A pid is terminated by the sweep exactly when some listed row with that
   * pid was matched as ManagerMissing or Timeout; a ProcessExited row never
   * causes a termination.
   */
  lemma {:induction false} TerminationsAreMatched(es: seq<RegistryEntry>, now: int, alive: U32 -> bool)
    ensures forall p :: p in SweepTerminations(es, now, alive) <==>
      exists i :: 0 <= i < |es| && es[i].pid == p && Terminates(Decide(es[i], now, alive))
    decreases |es|
  {
    if es != [] {
      var init := es[..|es| - 1];
      TerminationsAreMatched(init, now, alive);
      forall p
        ensures p in SweepTerminations(es, now, alive) <==>
          exists i :: 0 <= i < |es| && es[i].pid == p && Terminates(Decide(es[i], now, alive))
      {
        if exists i :: 0 <= i < |es| && es[i].pid == p && Terminates(Decide(es[i], now, alive)) {
          var i :| 0 <= i < |es| && es[i].pid == p && Terminates(Decide(es[i], now, alive));
          if i < |init| {
            assert init[i] == es[i];
          }
        }
        if p in SweepTerminations(init, now, alive) {
          var i :| 0 <= i < |init| && init[i].pid == p && Terminates(Decide(init[i], now, alive));
          assert es[i] == init[i];
        }
      }
    }
  }

  /**
   * Each row yields at most one event and at most one termination, every
   * termination belongs to an event, and events and removed keys match one
   * to one.
   */
  lemma {:induction false} SweepCounts(es: seq<RegistryEntry>, now: int, alive: U32 -> bool)
    ensures |SweepEvents(es, now, alive)| == |SweepRemovals(es, now, alive)| <= |es|
    ensures |SweepTerminations(es, now, alive)| <= |SweepEvents(es, now, alive)|
    decreases |es|
  {
    if es != [] {
      SweepCounts(es[..|es| - 1], now, alive);
    }
  }

  /** A pass over rows none of which is matched produces nothing. */
  lemma {:induction false} QuietPass(es: seq<RegistryEntry>, now: int, alive: U32 -> bool)
    requires forall i :: 0 <= i < |es| ==> Decide(es[i], now, alive) == None
    ensures SweepEvents(es, now, alive) == []
    ensures SweepTerminations(es, now, alive) == []
    ensures SweepRemovals(es, now, alive) == []
    decreases |es|
  {
    if es != [] {
      QuietPass(es[..|es| - 1], now, alive);
    }
  }

  /** A row still present after a sweep, read with the same time and liveness, is not matched. */
  lemma SurvivorsUnmatched(rows: map<string, string>, first: seq<RegistryEntry>, second: seq<RegistryEntry>,
                           now: int, alive: U32 -> bool)
    requires IsListing(first, rows)
    requires IsListing(second, AfterSweep(rows, first, now, alive))
    ensures forall i :: 0 <= i < |second| ==> Decide(second[i], now, alive) == None
  {
    var after := AfterSweep(rows, first, now, alive);
    RemovalsAreMatched(first, now, alive);
    forall i | 0 <= i < |second|
      ensures Decide(second[i], now, alive) == None
    {
      var e := second[i];
      assert e.key in after && ParseRow(e.key, after[e.key]) == Some(e);
      assert e.key in ValidRows(rows) && e.key !in SweepRemovals(first, now, alive);
      var j :| 0 <= j < |first| && first[j].key == e.key;
      assert first[j] == e;
    }
  }

  /** Every row left by a sweep is readable. */
  lemma AfterSweepReadable(rows: map<string, string>, es: seq<RegistryEntry>, now: int, alive: U32 -> bool)
    ensures ValidRows(AfterSweep(rows, es, now, alive)) == AfterSweep(rows, es, now, alive)
  {
  }

  /**
   * Only matched rows are removed, so a second sweep at the same time and
   * with the same liveness finds nothing to do and deletes nothing.
   */
  lemma SecondSweepQuiet(rows: map<string, string>, first: seq<RegistryEntry>, second: seq<RegistryEntry>,
                         now: int, alive: U32 -> bool)
    requires IsListing(first, rows)
    requires IsListing(second, AfterSweep(rows, first, now, alive))
    ensures SweepEvents(second, now, alive) == []
    ensures SweepTerminations(second, now, alive) == []
    ensures AfterSweep(AfterSweep(rows, first, now, alive), second, now, alive) == AfterSweep(rows, first, now, alive)
  {
    SurvivorsUnmatched(rows, first, second, now, alive);
    QuietPass(second, now, alive);
    AfterSweepReadable(rows, first, now, alive);
  }

  /** A listing of a map with a single readable row is exactly that row. */
  lemma SingleRowListing(key: string, value: string, entry: RegistryEntry, es: seq<RegistryEntry>)
    requires ParseRow(key, value) == Some(entry)
    requires IsListing(es, map[key := value])
    ensures es == [entry]
  {
    var rows := map[key := value];
    assert key in rows && rows[key] == value;
    var i :| 0 <= i < |es| && es[i].key == key;
    assert forall j :: 0 <= j < |es| ==> es[j].key == key;
    var j := if i == 0 then |es| - 1 else 0;
    assert es[j].key == key;
    assert j == i;
    assert |es| == 1;
    assert es[0] == entry;
  }

  /** The sweep of a map holding one registered row, in terms of that row's decision. */
  lemma SweepOneRegisteredRow(pid: U32, record: TaskRecord, es: seq<RegistryEntry>, now: int, alive: U32 -> bool)
    requires IsListing(es, map[PidKey(pid) := RecordCodec.Encode(record)])
    ensures es == [RegistryEntry(pid, PidKey(pid), record)]
    ensures var e := RegistryEntry(pid, PidKey(pid), record);
      && SweepEvents(es, now, alive) == (if Decide(e, now, alive).Some? then [EventFor(e, Decide(e, now, alive).value)] else [])
      && SweepTerminations(es, now, alive) == (if Terminates(Decide(e, now, alive)) then [pid] else [])
      && SweepRemovals(es, now, alive) == (if Decide(e, now, alive).Some? then [PidKey(pid)] else [])
  {
    RegisteredRowReads(pid, record);
    SingleRowListing(PidKey(pid), RecordCodec.Encode(record), RegistryEntry(pid, PidKey(pid), record), es);
    assert es[..0] == [];
  }

  /** A dead child's row is ProcessExited: one event, no termination, the row deleted. */
  lemma DeadChildIsProcessExited(pid: U32, record: TaskRecord, es: seq<RegistryEntry>, now: int, alive: U32 -> bool)
    requires !alive(pid)
    requires IsListing(es, map[PidKey(pid) := RecordCodec.Encode(record)])
    ensures SweepEvents(es, now, alive) ==
      [CleanupEvent(pid, WithCleanupReason(record, "process_exited"), ProcessExited)]
    ensures SweepTerminations(es, now, alive) == []
    ensures AfterSweep(map[PidKey(pid) := RecordCodec.Encode(record)], es, now, alive) == map[]
  {
    SweepOneRegisteredRow(pid, record, es, now, alive);
  }

  /**
   * A live child whose distinct manager is gone is terminated once and its
   * row is ManagerMissing, however old it is.
   */
  lemma OrphanIsManagerMissing(pid: U32, manager: U32, record: TaskRecord, es: seq<RegistryEntry>,
                               now: int, alive: U32 -> bool)
    requires record.managerPid == Some(manager) && manager != pid
    requires alive(pid) && !alive(manager)
    requires IsListing(es, map[PidKey(pid) := RecordCodec.Encode(record)])
    ensures SweepEvents(es, now, alive) ==
      [CleanupEvent(pid, WithCleanupReason(record, "manager_missing"), ManagerMissing)]
    ensures SweepTerminations(es, now, alive) == [pid]
    ensures AfterSweep(map[PidKey(pid) := RecordCodec.Encode(record)], es, now, alive) == map[]
  {
    SweepOneRegisteredRow(pid, record, es, now, alive);
  }

  /** A live, managed child older than twelve hours is terminated once and its row is Timeout. */
  lemma OldRowIsTimeout(pid: U32, record: TaskRecord, es: seq<RegistryEntry>, now: int, alive: U32 -> bool)
    requires alive(pid)
    requires record.managerPid.None? || record.managerPid == Some(pid) || alive(record.managerPid.value)
    requires now - record.startedAt > MAX_RECORD_AGE_SECS
    requires IsListing(es, map[PidKey(pid) := RecordCodec.Encode(record)])
    ensures SweepEvents(es, now, alive) ==
      [CleanupEvent(pid, WithCleanupReason(record, "timeout_cleanup"), Timeout)]
    ensures SweepTerminations(es, now, alive) == [pid]
    ensures AfterSweep(map[PidKey(pid) := RecordCodec.Encode(record)], es, now, alive) == map[]
  {
    SweepOneRegisteredRow(pid, record, es, now, alive);
  }

  /** A live, managed row no older than twelve hours is left untouched. */
  lemma FreshRowIsKept(pid: U32, record: TaskRecord, es: seq<RegistryEntry>, now: int, alive: U32 -> bool)
    requires alive(pid)
    requires record.managerPid.None? || record.managerPid == Some(pid) || alive(record.managerPid.value)
    requires now - record.startedAt <= MAX_RECORD_AGE_SECS
    requires IsListing(es, map[PidKey(pid) := RecordCodec.Encode(record)])
    ensures SweepEvents(es, now, alive) == []
    ensures SweepTerminations(es, now, alive) == []
    ensures AfterSweep(map[PidKey(pid) := RecordCodec.Encode(record)], es, now, alive) ==
      map[PidKey(pid) := RecordCodec.Encode(record)]
  {
    SweepOneRegisteredRow(pid, record, es, now, alive);
    RegisteredRowReads(pid, record);
    UntouchedRowStays(PidKey(pid), RecordCodec.Encode(record), es, now, alive);
  }

  /** A single readable row that the sweep does not remove stays as it is. */
  lemma UntouchedRowStays(key: string, value: string, es: seq<RegistryEntry>, now: int, alive: U32 -> bool)
    requires ParseRow(key, value).Some?
    requires SweepRemovals(es, now, alive) == []
    ensures AfterSweep(map[key := value], es, now, alive) == map[key := value]
  {
    var rows := map[key := value];
    assert (set k | k in SweepRemovals(es, now, alive)) == {};
    assert ValidRows(rows) == rows;
  }

  /**
   * Priority: a row whose child is dead, whose manager is dead and which is
   * past the age limit gets exactly one event, ProcessExited, and no termination.
   */
  lemma ProcessExitedTakesPriority(pid: U32, manager: U32, record: TaskRecord, es: seq<RegistryEntry>,
                                   now: int, alive: U32 -> bool)
    requires record.managerPid == Some(manager) && manager != pid
    requires !alive(pid) && !alive(manager)
    requires now - record.startedAt > MAX_RECORD_AGE_SECS
    requires IsListing(es, map[PidKey(pid) := RecordCodec.Encode(record)])
    ensures SweepEvents(es, now, alive) ==
      [CleanupEvent(pid, WithCleanupReason(record, "process_exited"), ProcessExited)]
    ensures SweepTerminations(es, now, alive) == []
  {
    SweepOneRegisteredRow(pid, record, es, now, alive);
  }
}

/**
 * The text form of a task record, standing in for the JSON that serde
 * derives for `TaskRecord` (`src/task_record.rs`). The text is a sequence of
 * named fields, as a JSON object is:
 *
 *   field := str value          str   := <decimal length> ':' <characters>
 *   value := 'n'                (null)
 *          | 'i' ['-'] <digits> ';'
 *          | 's' str
 *
 * Decoding follows what serde's derived `Deserialize` does with such an
 * object: unknown fields are ignored, a known field given twice is an error,
 * a missing required field is an error, and a missing `#[serde(default)]`
 * field (or one given as null) is `None`.
 */
module RecordCodec {
  import opened Common
  import opened TaskRecords

  datatype Value = Null | Int(i: int) | Str(s: string)

  /** A field name, read as one of the record's five fields or as an unknown name. */
  datatype Key = StartedAt | LogId | LogPath | ManagerPid | CleanupReason | Unknown(name: string)

  datatype Field = Field(key: Key, value: Value)

  datatype DecodeError =
    | Syntax
    | MissingField(missing: Key)
    | DuplicateField(duplicate: Key)
    | WrongType(field: Key)

  /** The serialised name of each field (serde uses the Rust field names). */
  function NameOf(k: Key): string {
    match k
    case StartedAt => "started_at"
    case LogId => "log_id"
    case LogPath => "log_path"
    case ManagerPid => "manager_pid"
    case CleanupReason => "cleanup_reason"
    case Unknown(name) => name
  }

  /** Reading a field name. */
  function KeyOf(name: string): (k: Key)
    ensures k.Unknown? ==> k.name == name
  {
    if name == "started_at" then StartedAt
    else if name == "log_id" then LogId
    else if name == "log_path" then LogPath
    else if name == "manager_pid" then ManagerPid
    else if name == "cleanup_reason" then CleanupReason
    else Unknown(name)
  }

  /** A field whose name reads back as its key (an unknown name is not one of the five). */
  predicate WellNamed(f: Field) {
    KeyOf(NameOf(f.key)) == f.key
  }

  // ---------------------------------------------------------------------
  // Encoding
  // ---------------------------------------------------------------------

  function EncodeStr(s: string): string {
    Decimal(|s|) + ":" + s
  }

  function EncodeInt(i: int): string {
    if i < 0 then "-" + Decimal(-i) + ";" else Decimal(i) + ";"
  }

  function EncodeValue(v: Value): string {
    match v
    case Null => "n"
    case Int(i) => "i" + EncodeInt(i)
    case Str(s) => "s" + EncodeStr(s)
  }

  function EncodeField(f: Field): string {
    EncodeStr(NameOf(f.key)) + EncodeValue(f.value)
  }

  function EncodeFields(fs: seq<Field>): string
    decreases |fs|
  {
    if fs == [] then "" else EncodeField(fs[0]) + EncodeFields(fs[1..])
  }

  /** The serialised fields, in declaration order; `None` is written as null. */
  function RecordFields(r: TaskRecord): seq<Field> {
    [ Field(StartedAt, Int(r.startedAt)),
      Field(LogId, Str(r.logId)),
      Field(LogPath, Str(r.logPath)),
      Field(ManagerPid, if r.managerPid.Some? then Int(r.managerPid.value) else Null),
      Field(CleanupReason, if r.cleanupReason.Some? then Str(r.cleanupReason.value) else Null) ]
  }

  /** `serde_json::to_string` on a record (it cannot fail for this type). */
  function Encode(r: TaskRecord): string {
    EncodeFields(RecordFields(r))
  }

  // ---------------------------------------------------------------------
  // Decoding
  // ---------------------------------------------------------------------

  function ParseStr(s: string): (r: Option<(string, string)>)
    ensures r.Some? ==> |r.value.1| < |s|
  {
    var k := DigitRun(s);
    if k == 0 || k >= |s| || s[k] != ':' then None
    else
      var n := DigitsValue(s[..k]);
      if |s| - (k + 1) < n then None
      else Some((s[k + 1..k + 1 + n], s[k + 1 + n..]))
  }

  /** Digits closed by ';', read as a magnitude. */
  function ParseMagnitude(s: string): (r: Option<(nat, string)>)
    ensures r.Some? ==> |r.value.1| < |s|
  {
    var k := DigitRun(s);
    if k == 0 || k >= |s| || s[k] != ';' then None
    else Some((DigitsValue(s[..k]), s[k + 1..]))
  }

  function ParseInt(s: string): (r: Option<(int, string)>)
    ensures r.Some? ==> |r.value.1| < |s|
  {
    if |s| > 0 && s[0] == '-' then
      match ParseMagnitude(s[1..])
      case None => None
      case Some((m, rest)) => Some((-(m as int), rest))
    else
      match ParseMagnitude(s)
      case None => None
      case Some((m, rest)) => Some((m as int, rest))
  }

  function ParseValue(s: string): (r: Option<(Value, string)>)
    ensures r.Some? ==> |r.value.1| < |s|
  {
    if |s| == 0 then None
    else if s[0] == 'n' then Some((Null, s[1..]))
    else if s[0] == 'i' then
      match ParseInt(s[1..])
      case None => None
      case Some((i, rest)) => Some((Int(i), rest))
    else if s[0] == 's' then
      match ParseStr(s[1..])
      case None => None
      case Some((t, rest)) => Some((Str(t), rest))
    else None
  }

  function ParseField(s: string): (r: Option<(Field, string)>)
    ensures r.Some? ==> |r.value.1| < |s|
  {
    match ParseStr(s)
    case None => None
    case Some((name, rest)) =>
      match ParseValue(rest)
      case None => None
      case Some((v, rest')) => Some((Field(KeyOf(name), v), rest'))
  }

  function ParseFields(s: string): Option<seq<Field>>
    decreases |s|
  {
    if s == [] then Some([])
    else
      match ParseField(s)
      case None => None
      case Some((f, rest)) =>
        match ParseFields(rest)
        case None => None
        case Some(fs) => Some([f] + fs)
  }

  datatype Lookup = Missing | Found(v: Value) | Duplicate

  /** How often, and with what value, a field occurs. */
  function LookupField(fs: seq<Field>, key: Key): Lookup
    decreases |fs|
  {
    if fs == [] then Missing
    else
      var tail := LookupField(fs[1..], key);
      if fs[0].key != key then tail
      else if tail.Missing? then Found(fs[0].value)
      else Duplicate
  }

  function RequiredInt(fs: seq<Field>, key: Key): Result<int, DecodeError> {
    match LookupField(fs, key)
    case Missing => Err(MissingField(key))
    case Duplicate => Err(DuplicateField(key))
    case Found(Int(i)) => Ok(i)
    case Found(_) => Err(WrongType(key))
  }

  function RequiredStr(fs: seq<Field>, key: Key): Result<string, DecodeError> {
    match LookupField(fs, key)
    case Missing => Err(MissingField(key))
    case Duplicate => Err(DuplicateField(key))
    case Found(Str(s)) => Ok(s)
    case Found(_) => Err(WrongType(key))
  }

  /** `#[serde(default)] Option<u32>`: absent or null is `None`. */
  function OptionalU32(fs: seq<Field>, key: Key): Result<Option<U32>, DecodeError> {
    match LookupField(fs, key)
    case Missing => Ok(None)
    case Duplicate => Err(DuplicateField(key))
    case Found(Null) => Ok(None)
    case Found(Int(i)) => if 0 <= i < U32_LIMIT then Ok(Some(i)) else Err(WrongType(key))
    case Found(_) => Err(WrongType(key))
  }

  /** `#[serde(default)] Option<String>`: absent or null is `None`. */
  function OptionalStr(fs: seq<Field>, key: Key): Result<Option<string>, DecodeError> {
    match LookupField(fs, key)
    case Missing => Ok(None)
    case Duplicate => Err(DuplicateField(key))
    case Found(Null) => Ok(None)
    case Found(Str(s)) => Ok(Some(s))
    case Found(_) => Err(WrongType(key))
  }

  /** The record held by a parsed field list; fields with unknown names are ignored. */
  function DecodeFields(fs: seq<Field>): Result<TaskRecord, DecodeError> {
    var startedAt :- RequiredInt(fs, StartedAt);
    var logId :- RequiredStr(fs, LogId);
    var logPath :- RequiredStr(fs, LogPath);
    var managerPid :- OptionalU32(fs, ManagerPid);
    var cleanupReason :- OptionalStr(fs, CleanupReason);
    Ok(TaskRecord(startedAt, logId, logPath, managerPid, cleanupReason))
  }

  /** `serde_json::from_str::<TaskRecord>`. */
  function Decode(s: string): Result<TaskRecord, DecodeError> {
    match ParseFields(s)
    case None => Err(Syntax)
    case Some(fs) => DecodeFields(fs)
  }

  // ---------------------------------------------------------------------
  // Round trip
  // ---------------------------------------------------------------------

  lemma EncodeStrParses(s: string, rest: string)
    ensures ParseStr(EncodeStr(s) + rest) == Some((s, rest))
  {
    var d := Decimal(|s|);
    var t := EncodeStr(s) + rest;
    assert t == d + (":" + s + rest);
    DigitRunOfDigits(d, ":" + s + rest);
    assert t[..|d|] == d;
    DecimalValue(|s|);
    assert t[|d| + 1..|d| + 1 + |s|] == s;
    assert t[|d| + 1 + |s|..] == rest;
  }

  lemma MagnitudeParses(n: nat, rest: string)
    ensures ParseMagnitude(Decimal(n) + ";" + rest) == Some((n, rest))
  {
    var d := Decimal(n);
    var t := d + ";" + rest;
    assert t == d + (";" + rest);
    DigitRunOfDigits(d, ";" + rest);
    assert t[..|d|] == d;
    DecimalValue(n);
    assert t[|d| + 1..] == rest;
  }

  lemma EncodeIntParses(i: int, rest: string)
    ensures ParseInt(EncodeInt(i) + rest) == Some((i, rest))
  {
    if i < 0 {
      var m := Decimal(-i) + ";" + rest;
      assert EncodeInt(i) + rest == "-" + m;
      assert ("-" + m)[1..] == m;
      MagnitudeParses(-i, rest);
    } else {
      var d := Decimal(i);
      var t := d + ";" + rest;
      assert EncodeInt(i) + rest == t;
      assert t[0] == d[0] && IsDigit(d[0]);
      MagnitudeParses(i, rest);
    }
  }

  lemma IntValueParses(i: int, rest: string)
    ensures ParseValue(EncodeValue(Int(i)) + rest) == Some((Int(i), rest))
  {
    var t := EncodeValue(Int(i)) + rest;
    assert t == "i" + (EncodeInt(i) + rest);
    assert t[0] == 'i' && t[1..] == EncodeInt(i) + rest;
    EncodeIntParses(i, rest);
  }

  lemma StrValueParses(x: string, rest: string)
    ensures ParseValue(EncodeValue(Str(x)) + rest) == Some((Str(x), rest))
  {
    var t := EncodeValue(Str(x)) + rest;
    assert t == "s" + (EncodeStr(x) + rest);
    assert t[0] == 's' && t[1..] == EncodeStr(x) + rest;
    EncodeStrParses(x, rest);
  }

  lemma EncodeValueParses(v: Value, rest: string)
    ensures ParseValue(EncodeValue(v) + rest) == Some((v, rest))
  {
    match v
    case Null =>
      var t := EncodeValue(v) + rest;
      assert t[0] == 'n' && t[1..] == rest;
    case Int(i) => IntValueParses(i, rest);
    case Str(x) => StrValueParses(x, rest);
  }

  lemma EncodeFieldParses(f: Field, rest: string)
    requires WellNamed(f)
    ensures ParseField(EncodeField(f) + rest) == Some((f, rest))
  {
    assert EncodeField(f) + rest == EncodeStr(NameOf(f.key)) + (EncodeValue(f.value) + rest);
    EncodeStrParses(NameOf(f.key), EncodeValue(f.value) + rest);
    EncodeValueParses(f.value, rest);
  }

  /** Parsing a field and then the rest of the text parses the fields of the whole text. */
  lemma ParseFieldsStep(s: string, f: Field, rest: string, fs: seq<Field>)
    requires s != []
    requires ParseField(s) == Some((f, rest))
    requires ParseFields(rest) == Some(fs)
    ensures ParseFields(s) == Some([f] + fs)
  {
  }

  /** The text of a non-empty field list starts with its first field, which is never empty. */
  lemma EncodeFieldsCons(fs: seq<Field>)
    requires fs != []
    ensures EncodeFields(fs) == EncodeField(fs[0]) + EncodeFields(fs[1..])
    ensures EncodeField(fs[0]) != []
  {
    assert |EncodeStr(NameOf(fs[0].key))| > 0;
  }

  predicate AllWellNamed(fs: seq<Field>) {
    forall i :: 0 <= i < |fs| ==> WellNamed(fs[i])
  }

  lemma AllWellNamedTail(fs: seq<Field>)
    requires fs != [] && AllWellNamed(fs)
    ensures WellNamed(fs[0]) && AllWellNamed(fs[1..])
  {
    forall i | 0 <= i < |fs[1..]|
      ensures WellNamed(fs[1..][i])
    {
      assert fs[1..][i] == fs[i + 1];
    }
  }

  /** A list of well-named fields is parsed back from its text. */
  lemma {:induction false} EncodeFieldsParses(fs: seq<Field>)
    requires AllWellNamed(fs)
    ensures ParseFields(EncodeFields(fs)) == Some(fs)
    decreases |fs|
  {
    if fs != [] {
      AllWellNamedTail(fs);
      EncodeFieldsParses(fs[1..]);
      EncodeFieldsCons(fs);
      EncodeFieldParses(fs[0], EncodeFields(fs[1..]));
      ParseFieldsStep(EncodeFields(fs), fs[0], EncodeFields(fs[1..]), fs[1..]);
      assert [fs[0]] + fs[1..] == fs;
    }
  }

  /** A key carried by no field is missing. */
  lemma {:induction false} LookupAbsent(fs: seq<Field>, key: Key)
    requires forall j :: 0 <= j < |fs| ==> fs[j].key != key
    ensures LookupField(fs, key) == Missing
    decreases |fs|
  {
    if fs != [] {
      assert forall j :: 0 <= j < |fs[1..]| ==> fs[1..][j] == fs[j + 1];
      LookupAbsent(fs[1..], key);
    }
  }

  /** A key carried by exactly one field is found with that field's value. */
  lemma {:induction false} LookupUnique(fs: seq<Field>, i: nat, key: Key)
    requires i < |fs| && fs[i].key == key
    requires forall j :: 0 <= j < |fs| && j != i ==> fs[j].key != key
    ensures LookupField(fs, key) == Found(fs[i].value)
    decreases |fs|
  {
    assert forall j :: 0 <= j < |fs[1..]| ==> fs[1..][j] == fs[j + 1];
    if i > 0 {
      LookupUnique(fs[1..], i - 1, key);
    } else {
      LookupAbsent(fs[1..], key);
    }
  }

  /** Each of the five field names reads back as its own key. */
  lemma NameReadsBack(k: Key)
    requires !k.Unknown?
    ensures KeyOf(NameOf(k)) == k
  {
    match k
    case StartedAt =>
    case LogId => assert NameOf(k) != "started_at";
    case LogPath => assert |NameOf(k)| == 8;
    case ManagerPid => assert |NameOf(k)| == 11;
    case CleanupReason => assert |NameOf(k)| == 14;
  }

  /** The five names of a record's fields read back as their keys. */
  lemma RecordFieldsWellNamed(r: TaskRecord)
    ensures forall i :: 0 <= i < |RecordFields(r)| ==> WellNamed(RecordFields(r)[i])
  {
    NameReadsBack(StartedAt);
    NameReadsBack(LogId);
    NameReadsBack(LogPath);
    NameReadsBack(ManagerPid);
    NameReadsBack(CleanupReason);
  }

  /** A field list decodes to `r` when each of the five fields reads as `r` has it. */
  lemma DecodeFieldsOk(fs: seq<Field>, r: TaskRecord)
    requires RequiredInt(fs, StartedAt) == Ok(r.startedAt)
    requires RequiredStr(fs, LogId) == Ok(r.logId)
    requires RequiredStr(fs, LogPath) == Ok(r.logPath)
    requires OptionalU32(fs, ManagerPid) == Ok(r.managerPid)
    requires OptionalStr(fs, CleanupReason) == Ok(r.cleanupReason)
    ensures DecodeFields(fs) == Ok(r)
  {
  }

  lemma StartedAtRead(r: TaskRecord)
    ensures RequiredInt(RecordFields(r), StartedAt) == Ok(r.startedAt)
  {
    LookupUnique(RecordFields(r), 0, StartedAt);
  }

  lemma LogIdRead(r: TaskRecord)
    ensures RequiredStr(RecordFields(r), LogId) == Ok(r.logId)
  {
    LookupUnique(RecordFields(r), 1, LogId);
  }

  lemma LogPathRead(r: TaskRecord)
    ensures RequiredStr(RecordFields(r), LogPath) == Ok(r.logPath)
  {
    LookupUnique(RecordFields(r), 2, LogPath);
  }

  lemma ManagerPidRead(r: TaskRecord)
    ensures OptionalU32(RecordFields(r), ManagerPid) == Ok(r.managerPid)
  {
    LookupUnique(RecordFields(r), 3, ManagerPid);
  }

  lemma CleanupReasonRead(r: TaskRecord)
    ensures OptionalStr(RecordFields(r), CleanupReason) == Ok(r.cleanupReason)
  {
    LookupUnique(RecordFields(r), 4, CleanupReason);
  }

  /** The encoded fields hold the record's field list, each key once, in order. */
  lemma DecodeRecordFields(r: TaskRecord)
    ensures DecodeFields(RecordFields(r)) == Ok(r)
  {
    StartedAtRead(r);
    LogIdRead(r);
    LogPathRead(r);
    ManagerPidRead(r);
    CleanupReasonRead(r);
    DecodeFieldsOk(RecordFields(r), r);
  }

  /** Decoding an encoded record reproduces every field exactly. */
  lemma RoundTrip(r: TaskRecord)
    ensures Decode(Encode(r)) == Ok(r)
  {
    RecordFieldsWellNamed(r);
    EncodeFieldsParses(RecordFields(r));
    DecodeRecordFields(r);
  }

  /**
   * A stored record that lacks `manager_pid` and `cleanup_reason` decodes
   * with both fields `None`; the three other fields are read as usual.
   */
  lemma MissingOptionalFieldsDecodeToNone(s: string)
    requires ParseFields(s).Some?
    requires var fs := ParseFields(s).value;
      && LookupField(fs, ManagerPid).Missing? && LookupField(fs, CleanupReason).Missing?
      && RequiredInt(fs, StartedAt).Ok? && RequiredStr(fs, LogId).Ok? && RequiredStr(fs, LogPath).Ok?
    ensures var fs := ParseFields(s).value;
      Decode(s) == Ok(TaskRecord(RequiredInt(fs, StartedAt).value, RequiredStr(fs, LogId).value,
                                 RequiredStr(fs, LogPath).value, None, None))
  {
  }

  /**
   * A field with a name that is not one of the five does not change what a
   * field list decodes to, wherever it stands among the others.
   */
  lemma UnknownFieldIgnored(a: seq<Field>, name: string, v: Value, b: seq<Field>)
    requires KeyOf(name).Unknown?
    ensures DecodeFields(a + [Field(Unknown(name), v)] + b) == DecodeFields(a + b)
  {
    var extra := Field(Unknown(name), v);
    LookupInsertOther(a, extra, b, StartedAt);
    LookupInsertOther(a, extra, b, LogId);
    LookupInsertOther(a, extra, b, LogPath);
    LookupInsertOther(a, extra, b, ManagerPid);
    LookupInsertOther(a, extra, b, CleanupReason);
    SameLookupsSameRecord(a + [extra] + b, a + b);
  }

  /** What a field list decodes to depends only on how its five fields are found. */
  lemma SameLookupsSameRecord(fs: seq<Field>, gs: seq<Field>)
    requires LookupField(fs, StartedAt) == LookupField(gs, StartedAt)
    requires LookupField(fs, LogId) == LookupField(gs, LogId)
    requires LookupField(fs, LogPath) == LookupField(gs, LogPath)
    requires LookupField(fs, ManagerPid) == LookupField(gs, ManagerPid)
    requires LookupField(fs, CleanupReason) == LookupField(gs, CleanupReason)
    ensures DecodeFields(fs) == DecodeFields(gs)
  {
    assert RequiredInt(fs, StartedAt) == RequiredInt(gs, StartedAt);
    assert RequiredStr(fs, LogId) == RequiredStr(gs, LogId);
    assert RequiredStr(fs, LogPath) == RequiredStr(gs, LogPath);
    assert OptionalU32(fs, ManagerPid) == OptionalU32(gs, ManagerPid);
    assert OptionalStr(fs, CleanupReason) == OptionalStr(gs, CleanupReason);
  }

  /** Inserting a field with a different key anywhere does not change a lookup. */
  lemma {:induction false} LookupInsertOther(a: seq<Field>, extra: Field, b: seq<Field>, key: Key)
    requires extra.key != key
    ensures LookupField(a + [extra] + b, key) == LookupField(a + b, key)
    decreases |a|
  {
    if a == [] {
      assert a + [extra] + b == [extra] + b;
      assert ([extra] + b)[1..] == b;
      assert a + b == b;
    } else {
      assert (a + [extra] + b)[1..] == a[1..] + [extra] + b;
      assert (a + b)[1..] == a[1..] + b;
      assert (a + [extra] + b)[0] == (a + b)[0];
      LookupInsertOther(a[1..], extra, b, key);
    }
  }

  /** `started_at`, `log_id` and `log_path` are required: text without one of them is rejected. */
  lemma RequiredFieldsMissing(s: string)
    requires ParseFields(s).Some?
    requires var fs := ParseFields(s).value;
      LookupField(fs, StartedAt).Missing? || LookupField(fs, LogId).Missing? || LookupField(fs, LogPath).Missing?
    ensures Decode(s).Err?
  {
  }

  /** The empty text is not a record. */
  lemma EmptyTextRejected()
    ensures Decode("") == Err(MissingField(StartedAt))
  {
  }
}

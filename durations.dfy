/**
 * `format_human_duration` (`src/wait_mode.rs`): a whole number of seconds as
 * hours, minutes and seconds, with the Chinese unit after each number.
 *
 * Its partner is a reader for the same text (`ReadText`): reading the
 * joined text back gives the number of seconds, so the text determines the
 * duration.
 */
module Durations {
  import opened Common

  /** The three units a duration is written in. */
  datatype Unit = Hours | Minutes | Seconds

  /** The unit as written after its number: 小时, 分 and 秒. */
  function UnitText(u: Unit): (text: string)
    ensures 1 <= |text| <= 2
  {
    match u
    case Hours => "小时"
    case Minutes => "分"
    case Seconds => "秒"
  }

  /** `n` of unit `u`, in seconds. */
  function InSeconds(n: nat, u: Unit): nat {
    match u
    case Hours => n * 3600
    case Minutes => n * 60
    case Seconds => n
  }

  /** Negative durations count as zero. */
  function Clamp(seconds: int): nat {
    if seconds < 0 then 0 else seconds
  }

  /** `format_human_duration`: hours, minutes and seconds, each omitted when zero, except that seconds stand alone. */
  method FormatHumanDuration(duration: int) returns (text: string)
    ensures text == HumanDuration(duration)
  {
    var seconds := duration;
    if seconds < 0 {
      seconds := 0;
    }
    var hours := seconds / 3600;
    var minutes := (seconds % 3600) / 60;
    var remainingSeconds := seconds % 60;

    var parts := PushParts(hours, minutes, remainingSeconds);
    JoinPushedParts(hours, minutes, remainingSeconds);
    text := JoinParts(parts);
  }

  /** The pushes of `format_human_duration`, in order. */
  method PushParts(hours: nat, minutes: nat, remainingSeconds: nat) returns (parts: seq<string>)
    ensures parts == PushedParts(hours, minutes, remainingSeconds)
  {
    parts := [];
    if hours > 0 {
      parts := parts + [Decimal(hours) + UnitText(Hours)];
    }
    if minutes > 0 {
      parts := parts + [Decimal(minutes) + UnitText(Minutes)];
    }
    if remainingSeconds > 0 || parts == [] {
      parts := parts + [Decimal(remainingSeconds) + UnitText(Seconds)];
    }
  }

  /** `parts.join("")`. */
  function JoinParts(parts: seq<string>): string {
    if parts == [] then [] else JoinParts(parts[..|parts| - 1]) + parts[|parts| - 1]
  }

  /** Whether the seconds are written: when nonzero, or when nothing else is. */
  predicate SecondsShown(h: nat, m: nat, sec: nat) {
    sec > 0 || (h == 0 && m == 0)
  }

  /** The part pushed for `n` of unit `u`, or none when it is omitted. */
  function PartList(shown: bool, n: nat, u: Unit): seq<string> {
    if shown then [Decimal(n) + UnitText(u)] else []
  }

  /** One part of a duration: its number and unit, or nothing when it is omitted. */
  function Part(shown: bool, n: nat, u: Unit): string {
    if shown then Decimal(n) + UnitText(u) else []
  }

  /** The parts pushed for `h` hours, `m` minutes and `sec` seconds. */
  function PushedParts(h: nat, m: nat, sec: nat): seq<string> {
    PartList(h > 0, h, Hours) + PartList(m > 0, m, Minutes) + PartList(SecondsShown(h, m, sec), sec, Seconds)
  }

  /** The text for `h` hours, `m` minutes and `sec` seconds, part by part. */
  function HumanText(h: nat, m: nat, sec: nat): string {
    Part(h > 0, h, Hours) + (Part(m > 0, m, Minutes) + Part(SecondsShown(h, m, sec), sec, Seconds))
  }

  /** The parts `format_human_duration` pushes. */
  function HumanParts(duration: int): seq<string> {
    var s := Clamp(duration);
    PushedParts(s / 3600, (s % 3600) / 60, s % 60)
  }

  /** The text `format_human_duration` produces. */
  function HumanDuration(duration: int): string {
    var s := Clamp(duration);
    HumanText(s / 3600, (s % 3600) / 60, s % 60)
  }

  /** Gathering the pushed parts gives the text part by part. */
  lemma {:induction false} JoinPushedParts(h: nat, m: nat, sec: nat)
    ensures JoinParts(PushedParts(h, m, sec)) == HumanText(h, m, sec)
  {
    var a := PartList(h > 0, h, Hours);
    var b := PartList(m > 0, m, Minutes);
    var c := PartList(SecondsShown(h, m, sec), sec, Seconds);
    JoinPartsConcat(a, b);
    JoinPartsConcat(a + b, c);
  }

  /** Gathering two lists of parts one after the other. */
  lemma {:induction false} JoinPartsConcat(a: seq<string>, b: seq<string>)
    ensures JoinParts(a + b) == JoinParts(a) + JoinParts(b)
    decreases |b|
  {
    if b == [] {
      assert a + b == a;
    } else {
      assert (a + b)[..|a + b| - 1] == a + b[..|b| - 1];
      JoinPartsConcat(a, b[..|b| - 1]);
    }
  }

  /** The text is never empty, and every zero or negative duration reads "0秒". */
  lemma HumanDurationShape(duration: int)
    ensures HumanDuration(duration) != []
    ensures duration <= 0 ==> HumanDuration(duration) == "0秒"
  {
    var s := Clamp(duration);
    if SecondsShown(s / 3600, (s % 3600) / 60, s % 60) {
      assert |Part(true, s % 60, Seconds)| > 0;
    } else if s / 3600 > 0 {
      assert |Part(true, s / 3600, Hours)| > 0;
    } else {
      assert |Part(true, (s % 3600) / 60, Minutes)| > 0;
    }
  }

  /** The unit a text consists of, if it is one of the three. */
  function UnitOf(text: string): (u: Option<Unit>)
    ensures u.Some? ==> text == UnitText(u.value)
  {
    if |text| == 2 && text[0] == '小' && text[1] == '时' then Some(Hours)
    else if |text| == 1 && text[0] == '分' then Some(Minutes)
    else if |text| == 1 && text[0] == '秒' then Some(Seconds)
    else None
  }

  /** Reading one part back: its digits, then exactly one unit; the seconds it stands for. */
  function ReadPart(part: string): Option<nat> {
    var k := DigitRun(part);
    if k == 0 then None
    else
      match UnitOf(part[k..])
      case None => None
      case Some(u) => Some(InSeconds(DigitsValue(part[..k]), u))
  }

  /** Reading every part back with `read` and adding them up; `None` if any part does not read. */
  function ReadAll(read: string -> Option<nat>, parts: seq<string>): Option<nat> {
    if parts == [] then Some(0)
    else
      match read(parts[|parts| - 1])
      case None => None
      case Some(last) =>
        match ReadAll(read, parts[..|parts| - 1])
        case None => None
        case Some(total) => Some(total + last)
  }

  /** Each pushed part reads back as its number in its unit. */
  lemma {:induction false} ReadPushedPart(n: nat, u: Unit)
    ensures ReadPart(Decimal(n) + UnitText(u)) == Some(InSeconds(n, u))
  {
    var d := Decimal(n);
    var part := d + UnitText(u);
    DigitRunOfDigits(d, UnitText(u));
    assert part[..|d|] == d;
    assert part[|d|..] == UnitText(u);
    DecimalValue(n);
  }

  /** Reading the part pushed for `n` of unit `u`; an omitted part reads as nothing. */
  lemma {:induction false} ReadPartList(shown: bool, n: nat, u: Unit)
    requires shown || n == 0
    ensures ReadAll(ReadPart, PartList(shown, n, u)) == Some(InSeconds(n, u))
  {
    if shown {
      var part := Decimal(n) + UnitText(u);
      ReadPushedPart(n, u);
      assert [part][..0] == [];
      assert ReadAll(ReadPart, [part]) == Some(0 + InSeconds(n, u));
    }
  }

  /** Reading two lists of parts one after the other adds up what each reads as. */
  lemma {:induction false} ReadAllConcat(read: string -> Option<nat>, a: seq<string>, b: seq<string>, x: nat, y: nat)
    requires ReadAll(read, a) == Some(x) && ReadAll(read, b) == Some(y)
    ensures ReadAll(read, a + b) == Some(x + y)
    decreases |b|
  {
    if b == [] {
      assert a + b == a;
    } else {
      var prev := b[..|b| - 1];
      var last := read(b[|b| - 1]).value;
      ReadAllConcat(read, a, prev, x, y - last);
      assert (a + b)[..|a + b| - 1] == a + prev;
      assert (a + b)[|a + b| - 1] == b[|b| - 1];
    }
  }

  /** Hours, minutes and seconds make up the seconds they were taken from. */
  lemma SplitSeconds(s: nat) returns (h: nat, m: nat, sec: nat)
    ensures h == s / 3600 && m == (s % 3600) / 60 && sec == s % 60
    ensures h * 3600 + m * 60 + sec == s
  {
    h, m, sec := s / 3600, (s % 3600) / 60, s % 60;
    var r := s % 3600;
    var t := r % 60;
    assert s == 3600 * h + r;
    assert r == 60 * m + t;
    assert s == 60 * (60 * h + m) + t && 0 <= t < 60;
    assert s == 60 * (s / 60) + sec && 0 <= sec < 60;
    assert 60 * (s / 60 - 60 * h - m) == t - sec;
  }

  /**
   * The parts determine the duration: reading them back gives the clamped
   * number of seconds, so different durations of at least zero never
   * produce the same parts.
   */
  lemma {:induction false} HumanPartsReadBack(duration: int)
    ensures ReadAll(ReadPart, HumanParts(duration)) == Some(Clamp(duration))
  {
    var h, m, sec := SplitSeconds(Clamp(duration));
    PushedPartsReadBack(h, m, sec);
  }

  /** Reading back the parts pushed for `h` hours, `m` minutes and `sec` seconds. */
  lemma {:induction false} PushedPartsReadBack(h: nat, m: nat, sec: nat)
    ensures ReadAll(ReadPart, PushedParts(h, m, sec)) == Some(h * 3600 + m * 60 + sec)
  {
    ReadPartList(h > 0, h, Hours);
    ReadPartList(m > 0, m, Minutes);
    ReadPartList(SecondsShown(h, m, sec), sec, Seconds);
    ReadThree(ReadPart, PartList(h > 0, h, Hours), PartList(m > 0, m, Minutes), PartList(SecondsShown(h, m, sec), sec, Seconds),
              InSeconds(h, Hours), InSeconds(m, Minutes), InSeconds(sec, Seconds));
  }

  /** Reading three lists of parts one after the other. */
  lemma {:induction false} ReadThree(read: string -> Option<nat>, a: seq<string>, b: seq<string>, c: seq<string>, x: nat, y: nat, z: nat)
    requires ReadAll(read, a) == Some(x) && ReadAll(read, b) == Some(y) && ReadAll(read, c) == Some(z)
    ensures ReadAll(read, a + b + c) == Some(x + y + z)
  {
    ReadAllConcat(read, a, b, x, y);
    ReadAllConcat(read, a + b, c, x + y, z);
  }

  // ---------------------------------------------------------------------
  // Reading the joined text back
  // ---------------------------------------------------------------------

  /** The unit a text starts with, if it starts with one of the three. */
  function UnitPrefix(text: string): (u: Option<Unit>)
    ensures u.Some? ==> |UnitText(u.value)| <= |text| && text[..|UnitText(u.value)|] == UnitText(u.value)
  {
    if |text| >= 2 && text[0] == '小' && text[1] == '时' then Some(Hours)
    else if |text| >= 1 && text[0] == '分' then Some(Minutes)
    else if |text| >= 1 && text[0] == '秒' then Some(Seconds)
    else None
  }

  /**
   * Reading a whole text as numbers each followed by a unit, adding up the
   * seconds they stand for; `None` if the text is not of that form.
   */
  function ReadText(text: string): Option<nat>
    decreases |text|
  {
    if text == [] then Some(0)
    else
      var k := DigitRun(text);
      if k == 0 then None
      else
        match UnitPrefix(text[k..])
        case None => None
        case Some(u) =>
          match ReadText(text[k + |UnitText(u)|..])
          case None => None
          case Some(rest) => Some(InSeconds(DigitsValue(text[..k]), u) + rest)
  }

  /** A number and its unit in front of a readable text add their seconds to it. */
  lemma ReadTextPart(n: nat, u: Unit, rest: string, x: nat)
    requires ReadText(rest) == Some(x)
    ensures ReadText(Decimal(n) + UnitText(u) + rest) == Some(InSeconds(n, u) + x)
  {
    var d := Decimal(n);
    var tail := UnitText(u) + rest;
    var text := d + tail;
    assert Decimal(n) + UnitText(u) + rest == text;
    DigitRunOfDigits(d, tail);
    assert text[..|d|] == d;
    assert text[|d|..] == tail;
    assert UnitPrefix(tail) == Some(u);
    assert text[|d| + |UnitText(u)|..] == rest;
    DecimalValue(n);
  }

  /** A part, or nothing when it is omitted, in front of a readable text adds its seconds to it. */
  lemma ReadTextShownPart(shown: bool, n: nat, u: Unit, rest: string, x: nat)
    requires shown || n == 0
    requires ReadText(rest) == Some(x)
    ensures ReadText(Part(shown, n, u) + rest) == Some(InSeconds(n, u) + x)
  {
    if shown {
      ReadTextPart(n, u, rest, x);
    } else {
      assert Part(shown, n, u) + rest == rest;
    }
  }

  /**
   * The text determines the duration: reading the text that
   * `format_human_duration` returns gives the clamped number of seconds.
   */
  lemma HumanDurationReadBack(duration: int)
    ensures ReadText(HumanDuration(duration)) == Some(Clamp(duration))
  {
    var h, m, sec := SplitSeconds(Clamp(duration));
    var secPart := Part(SecondsShown(h, m, sec), sec, Seconds);
    assert ReadText([]) == Some(0);
    ReadTextShownPart(SecondsShown(h, m, sec), sec, Seconds, [], 0);
    assert secPart + [] == secPart;
    ReadTextShownPart(m > 0, m, Minutes, secPart, sec);
    ReadTextShownPart(h > 0, h, Hours, Part(m > 0, m, Minutes) + secPart, m * 60 + sec);
  }

  /** Two durations of at least zero with the same text are equal. */
  lemma HumanDurationInjective(a: int, b: int)
    requires a >= 0 && b >= 0
    requires HumanDuration(a) == HumanDuration(b)
    ensures a == b
  {
    HumanDurationReadBack(a);
    HumanDurationReadBack(b);
  }
}

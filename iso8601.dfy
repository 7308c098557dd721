/**
 * The date-time string format of ECMA-262 section 21.4.1.32: what
 * `Date.prototype.toISOString` produces, and the same format read back by
 * `Date.parse`. Only the full UTC form `YYYY-MM-DDTHH:mm:ss.sssZ` (and its
 * six-digit signed-year variant) is read.
 */
module Iso8601 {
  import opened Wrappers
  import opened Decimal
  import opened LocalTime

  /** The calendar and clock fields after the year. */
  datatype Fields = Fields(month: int, day: int, hour: int, minute: int, second: int, millis: int)

  predicate InRange(f: Fields)
  {
    1 <= f.month <= 12 && 1 <= f.day <= 31 && 0 <= f.hour < 24
    && 0 <= f.minute < 60 && 0 <= f.second < 60 && 0 <= f.millis < 1000
  }

  function YearText(y: int): (r: string)
    requires -999999 <= y <= 999999
    ensures |r| == if 0 <= y <= 9999 then 4 else 7
  {
    if 0 <= y <= 9999 then FixedWidth(y, 4)
    else if y < 0 then "-" + FixedWidth(-y, 6)
    else "+" + FixedWidth(y, 6)
  }

  /** `-MM-DDTHH:mm:ss.sssZ`. */
  function FieldsText(f: Fields): (r: string)
    requires InRange(f)
    ensures |r| == 20
  {
    "-" + FixedWidth(f.month, 2) + "-" + FixedWidth(f.day, 2) + "T" + FixedWidth(f.hour, 2)
    + ":" + FixedWidth(f.minute, 2) + ":" + FixedWidth(f.second, 2) + "." + FixedWidth(f.millis, 3) + "Z"
  }

  function FieldsOf(t: int): (f: Fields)
    ensures InRange(f)
  {
    Fields(MonthIndex(t) + 1, DateOfMonth(t), Hour(t), Minute(t), Second(t), Millisecond(t))
  }

  /** `new Date(t).toISOString()` for a valid time value. */
  function Format(t: JsTime): (r: string)
    ensures |r| == 24 || |r| == 27
  {
    YearBound(Day(t));
    YearText(FullYear(t)) + FieldsText(FieldsOf(t))
  }

  /** Two (or three) digits at `s[i..i+w]`, as a number. */
  function Digits(s: string, i: nat, w: nat): Option<nat>
    requires i + w <= |s|
  {
    if AllDigits(s[i..i + w]) then Some(DigitsValue(s[i..i + w])) else None
  }

  function ParseFields(u: string): (r: Option<Fields>)
    ensures r.Some? ==> InRange(r.value)
  {
    if |u| != 20 || u[0] != '-' || u[3] != '-' || u[6] != 'T' || u[9] != ':' || u[12] != ':'
       || u[15] != '.' || u[19] != 'Z' then None
    else
      match (Digits(u, 1, 2), Digits(u, 4, 2), Digits(u, 7, 2), Digits(u, 10, 2), Digits(u, 13, 2), Digits(u, 16, 3))
      case (Some(mo), Some(d), Some(h), Some(mi), Some(sec), Some(ms)) =>
        var f := Fields(mo, d, h, mi, sec, ms);
        if 1 <= mo <= 12 && 1 <= d <= 31 && h < 24 && mi < 60 && sec < 60 then Some(f) else None
      case _ => None
  }

  /** The time value a year and fields denote; a day past the end of its month runs into the next. */
  function TimeOf(year: int, f: Fields): int
  {
    MakeDay(year, f.month - 1, f.day) * DayMs + f.hour * HourMs + f.minute * MinuteMs + f.second * SecondMs + f.millis
  }

  /** The year of an ISO string and the text after it; `-000000` is not a year. */
  function ParseYear(s: string): Option<(int, string)>
  {
    if |s| >= 4 && AllDigits(s[..4]) then Some((DigitsValue(s[..4]), s[4..]))
    else if |s| >= 7 && (s[0] == '+' || s[0] == '-') && AllDigits(s[1..7]) then
      var y: int := DigitsValue(s[1..7]);
      var year: int := if s[0] == '-' then -y else y;
      if s[0] == '-' && y == 0 then None else Some((year, s[7..]))
    else None
  }

  /** `Date.parse(s)` on the ISO format; `None` stands for NaN. */
  function Parse(s: string): (r: Option<JsTime>)
  {
    match ParseYear(s)
    case None => None
    case Some((year, u)) =>
      match ParseFields(u)
      case None => None
      case Some(f) =>
        var t := TimeOf(year, f);
        if -MaxTimeMs <= t <= MaxTimeMs then Some(t) else None
  }

  // ---- the round trip ----

  lemma DigitsOf(s: string, i: nat, w: nat, n: nat)
    requires i + w <= |s| && n < Pow10(w)
    requires s[i..i + w] == FixedWidth(n, w)
    ensures Digits(s, i, w) == Some(n)
  {
    FixedWidthRoundTrip(n, w);
  }

  lemma ParseFieldsText(f: Fields)
    requires InRange(f)
    ensures ParseFields(FieldsText(f)) == Some(f)
  {
    var u := FieldsText(f);
    assert u[1..3] == FixedWidth(f.month, 2);
    assert u[4..6] == FixedWidth(f.day, 2);
    assert u[7..9] == FixedWidth(f.hour, 2);
    assert u[10..12] == FixedWidth(f.minute, 2);
    assert u[13..15] == FixedWidth(f.second, 2);
    assert u[16..19] == FixedWidth(f.millis, 3);
    DigitsOf(u, 1, 2, f.month);
    DigitsOf(u, 4, 2, f.day);
    DigitsOf(u, 7, 2, f.hour);
    DigitsOf(u, 10, 2, f.minute);
    DigitsOf(u, 13, 2, f.second);
    DigitsOf(u, 16, 3, f.millis);
  }

  lemma ParseYearText(y: int, u: string)
    requires -999999 <= y <= 999999
    ensures ParseYear(YearText(y) + u) == Some((y, u))
  {
    var s := YearText(y) + u;
    if 0 <= y <= 9999 {
      assert s[..4] == FixedWidth(y, 4) && s[4..] == u;
      FixedWidthRoundTrip(y, 4);
    } else {
      var n := if y < 0 then -y else y;
      assert s[1..7] == FixedWidth(n, 6) && s[7..] == u;
      FixedWidthRoundTrip(n, 6);
      assert !AllDigits(s[..4]) by { assert !IsDigit(s[..4][0]); }
    }
  }

  /** The fields of `t`, put back together, give `t`. */
  lemma TimeOfFields(t: int)
    ensures TimeOf(FullYear(t), FieldsOf(t)) == t
  {
    MakeDayOfOwnDate(t);
    Decompose(t);
  }

  /** `Date.parse(d.toISOString())` is `d`'s time value. */
  lemma ParseFormat(t: JsTime)
    ensures Parse(Format(t)) == Some(t)
  {
    YearBound(Day(t));
    ParseYearText(FullYear(t), FieldsText(FieldsOf(t)));
    ParseFieldsText(FieldsOf(t));
    TimeOfFields(t);
  }

  /** Two valid time values with the same ISO string are equal. */
  lemma FormatInjective(t1: JsTime, t2: JsTime)
    requires Format(t1) == Format(t2)
    ensures t1 == t2
  {
    ParseFormat(t1);
    ParseFormat(t2);
  }
}

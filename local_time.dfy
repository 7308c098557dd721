/**
 * JavaScript `Date` arithmetic (ECMAScript 262, section 21.4.1) over a time
 * value `t` in milliseconds since 1970-01-01T00:00:00Z. Local time is taken
 * at a fixed offset, here zero, so local and UTC fields coincide and there
 * is no daylight-saving shift. Dafny's `/` and `%` floor for a positive
 * divisor, exactly as the ECMAScript `Day` and `TimeWithinDay` operations do.
 */
module LocalTime {
  import Wrappers
  import Decimal

  const SecondMs: int := 1000
  const MinuteMs: int := 60000
  const HourMs: int := 3600000
  const DayMs: int := 86400000
  /** The largest magnitude a valid time value can have (section 21.4.1.31, TimeClip). */
  const MaxTimeMs: int := 8640000000000000

  /** A time value a valid `Date` object can hold. */
  type JsTime = t: int | -MaxTimeMs <= t <= MaxTimeMs

  function Day(t: int): int { t / DayMs }

  function TimeInDay(t: int): (r: int)
    ensures 0 <= r < DayMs
  {
    t % DayMs
  }

  function Hour(t: int): (r: int)
    ensures 0 <= r < 24
  {
    TimeInDay(t) / HourMs
  }

  function Minute(t: int): (r: int)
    ensures 0 <= r < 60
  {
    (t % HourMs) / MinuteMs
  }

  /** The seconds and milliseconds of `t`, as milliseconds into its minute. */
  function SubMinute(t: int): (r: int)
    ensures 0 <= r < MinuteMs
  {
    t % MinuteMs
  }

  function Second(t: int): (r: int)
    ensures 0 <= r < 60
  {
    SubMinute(t) / SecondMs
  }

  function Millisecond(t: int): (r: int)
    ensures 0 <= r < 1000
  {
    t % SecondMs
  }

  /** The instant on day `d` at `h`:`m` plus `sub` milliseconds; out-of-range fields carry over. */
  function Compose(d: int, h: int, m: int, sub: int): int
  {
    d * DayMs + h * HourMs + m * MinuteMs + sub
  }

  lemma {:induction false} MulAtLeast(a: int, m: int)
    requires a >= 1 && m >= 0
    ensures a * m >= m
  {
    if a > 1 {
      MulAtLeast(a - 1, m);
      assert a * m == (a - 1) * m + m;
    }
  }

  /** Euclidean division by a positive divisor has one quotient and one remainder. */
  lemma DivMod(t: int, q: int, r: int, m: int)
    requires 0 < m && 0 <= r < m && t == q * m + r
    ensures t / m == q && t % m == r
  {
    var q', r' := t / m, t % m;
    assert t == q' * m + r' && 0 <= r' < m;
    assert (q - q') * m == r' - r;
    if q' < q {
      MulAtLeast(q - q', m);
    } else if q' > q {
      MulAtLeast(q' - q, m);
    }
  }

  /** Every instant is the composition of its own fields. */
  lemma Decompose(t: int)
    ensures t == Compose(Day(t), Hour(t), Minute(t), SubMinute(t))
    ensures SubMinute(t) == Second(t) * SecondMs + Millisecond(t)
  {
    var q, x := t / DayMs, t % DayMs;
    var h, y := x / HourMs, x % HourMs;
    var m, s := y / MinuteMs, y % MinuteMs;
    assert x == h * HourMs + y;
    assert y == m * MinuteMs + s;
    DivMod(t, q * 24 + h, y, HourMs);
    DivMod(t, (q * 24 + h) * 60 + m, s, MinuteMs);
    DivMod(t, ((q * 24 + h) * 60 + m) * 60 + s / SecondMs, s % SecondMs, SecondMs);
  }

  /** Composing in-range fields yields an instant with exactly those fields. */
  lemma ComposeFields(d: int, h: int, m: int, sub: int)
    requires 0 <= h < 24 && 0 <= m < 60 && 0 <= sub < MinuteMs
    ensures var t := Compose(d, h, m, sub);
      Day(t) == d && Hour(t) == h && Minute(t) == m && SubMinute(t) == sub
  {
    var t := Compose(d, h, m, sub);
    var x := h * HourMs + m * MinuteMs + sub;
    DivMod(t, d, x, DayMs);
    DivMod(x, h, m * MinuteMs + sub, HourMs);
    DivMod(t, d * 24 + h, m * MinuteMs + sub, HourMs);
    DivMod(m * MinuteMs + sub, m, sub, MinuteMs);
    DivMod(t, (d * 24 + h) * 60 + m, sub, MinuteMs);
  }

  /** Instants ordered by whole minutes: the minute `t` falls in. */
  function MinuteIndex(t: int): int { t / MinuteMs }

  lemma MinuteIndexOfCompose(d: int, h: int, m: int, sub: int)
    requires 0 <= sub < MinuteMs
    ensures MinuteIndex(Compose(d, h, m, sub)) == d * 1440 + h * 60 + m
  {
    assert Compose(d, h, m, sub) == (d * 1440 + h * 60 + m) * MinuteMs + sub;
  }

  /** `date.setHours(h)`: the hour changes; minutes, seconds and milliseconds stay. */
  function SetHours(t: int, h: int): int
  {
    Compose(Day(t), h, Minute(t), SubMinute(t))
  }

  /** `date.setMinutes(m)`: the minute changes; hour, seconds and milliseconds stay. */
  function SetMinutes(t: int, m: int): int
  {
    Compose(Day(t), Hour(t), m, SubMinute(t))
  }

  /** `setHours(h)` followed by `setMinutes(m)`, for in-range `h` and `m`. */
  lemma SetHoursThenMinutes(t: int, h: int, m: int)
    requires 0 <= h < 24 && 0 <= m < 60
    ensures SetMinutes(SetHours(t, h), m) == Compose(Day(t), h, m, SubMinute(t))
  {
    ComposeFields(Day(t), h, Minute(t), SubMinute(t));
  }

  // ---- the proleptic Gregorian calendar ----

  /** A calendar date; `month` runs from 1 to 12 and `day` from 1 to 31. */
  datatype Date = Date(year: int, month: int, day: int)

  function Min(a: int, b: int): int { if a < b then a else b }

  /** Year of era and day of year, for a day counted from 1 March of a 400-year era. */
  datatype EraPos = EraPos(yoe: int, doy: int)

  function EraPosition(doe: int): (r: EraPos)
    requires 0 <= doe < 146097
    ensures 0 <= r.yoe < 400 && 0 <= r.doy <= 365
    ensures r.yoe * 365 + r.yoe / 4 - r.yoe / 100 + r.doy == doe
  {
    var cen := Min(doe / 36524, 3);
    var doc := doe - cen * 36524;
    var qd := doc / 1461;
    var doq := doc - qd * 1461;
    var yiq := Min(doq / 365, 3);
    var yoe := cen * 100 + qd * 4 + yiq;
    assert yoe / 4 == cen * 25 + qd;
    assert yoe / 100 == cen;
    EraPos(yoe, doq - yiq * 365)
  }

  /** The month, counted from March as 0, that day `doy` of a March-based year falls in. */
  function ShiftedMonth(doy: int): (mp: int)
    requires 0 <= doy <= 365
    ensures 0 <= mp < 12 && MonthStart(mp) <= doy <= MonthStart(mp) + 30
  {
    (5 * doy + 2) / 153
  }

  /** The first day, counted from 1 March, of March-based month `mp`. */
  function MonthStart(mp: int): int
  {
    (153 * mp + 2) / 5
  }

  /** The calendar date of day number `z` (days since 1970-01-01). */
  function CivilFromDays(z: int): (r: Date)
    ensures 1 <= r.month <= 12 && 1 <= r.day <= 31
  {
    var zz := z + 719468;
    var era := zz / 146097;
    var p := EraPosition(zz % 146097);
    var mp := ShiftedMonth(p.doy);
    var m := if mp < 10 then mp + 3 else mp - 9;
    Date(p.yoe + era * 400 + (if m <= 2 then 1 else 0), m, p.doy - MonthStart(mp) + 1)
  }

  /**
   * The day number of `d` of month `m` in year `y`; a `d` beyond the end of
   * the month (or below 1) counts on into the following (or back into the
   * preceding) months, as ECMAScript's MakeDay does.
   */
  function DaysFromCivil(y: int, m: int, d: int): int
    requires 1 <= m <= 12
  {
    var y' := y - (if m <= 2 then 1 else 0);
    var era := y' / 400;
    var yoe := y' % 400;
    var doy := MonthStart(if m > 2 then m - 3 else m + 9) + d - 1;
    era * 146097 + (yoe * 365 + yoe / 4 - yoe / 100 + doy) - 719468
  }

  /** DaysFromCivil of a year given as era and year of era, and a day given as day of era. */
  lemma DaysFromCivilParts(y: int, m: int, d: int, era: int, yoe: int, doe: int)
    requires 1 <= m <= 12
    requires 0 <= yoe < 400
    requires y - (if m <= 2 then 1 else 0) == yoe + era * 400
    requires yoe * 365 + yoe / 4 - yoe / 100 + MonthStart(if m > 2 then m - 3 else m + 9) + d - 1 == doe
    ensures DaysFromCivil(y, m, d) == era * 146097 + doe - 719468
  {
    DivMod(yoe + era * 400, era, yoe, 400);
  }

  /** Day numbers and calendar dates correspond one to one. */
  lemma CivilRoundTrip(z: int)
    ensures var c := CivilFromDays(z); DaysFromCivil(c.year, c.month, c.day) == z
  {
    var era, doe := (z + 719468) / 146097, (z + 719468) % 146097;
    var p := EraPosition(doe);
    RoundTripParts(z, era, doe, p.yoe, p.doy, ShiftedMonth(p.doy));
    CivilParts(z, era, doe, p, ShiftedMonth(p.doy));
  }

  /** CivilFromDays, with its intermediate values named. */
  lemma CivilParts(z: int, era: int, doe: int, p: EraPos, mp: int)
    requires era == (z + 719468) / 146097 && doe == (z + 719468) % 146097
    requires p == EraPosition(doe) && mp == ShiftedMonth(p.doy)
    ensures var m := if mp < 10 then mp + 3 else mp - 9;
      CivilFromDays(z) == Date(p.yoe + era * 400 + (if m <= 2 then 1 else 0), m, p.doy - MonthStart(mp) + 1)
  {
  }

  /** DaysFromCivil of the date CivilFromDays assembles from its parts. */
  lemma RoundTripParts(z: int, era: int, doe: int, yoe: int, doy: int, mp: int)
    requires z + 719468 == era * 146097 + doe && 0 <= yoe < 400 && 0 <= mp < 12
    requires yoe * 365 + yoe / 4 - yoe / 100 + doy == doe
    ensures var m := if mp < 10 then mp + 3 else mp - 9;
      DaysFromCivil(yoe + era * 400 + (if m <= 2 then 1 else 0), m, doy - MonthStart(mp) + 1) == z
  {
    var m := if mp < 10 then mp + 3 else mp - 9;
    DaysFromCivilParts(yoe + era * 400 + (if m <= 2 then 1 else 0), m, doy - MonthStart(mp) + 1, era, yoe, doe);
  }

  /** A day number within the range of valid time values has a year of at most six digits. */
  lemma YearBound(z: int)
    requires -100000000 <= z <= 100000000
    ensures -999999 <= CivilFromDays(z).year <= 999999
  {
  }

  predicate IsLeapYear(y: int)
  {
    y % 4 == 0 && (y % 100 != 0 || y % 400 == 0)
  }

  /** The number of days of month `m` (1 to 12) of year `y`. */
  function DaysInMonth(y: int, m: int): (r: int)
    requires 1 <= m <= 12
    ensures 28 <= r <= 31
  {
    if m == 2 then (if IsLeapYear(y) then 29 else 28)
    else if m == 4 || m == 6 || m == 9 || m == 11 then 30
    else 31
  }

  /** March-based year `yoe` of an era has 366 days: the February it ends with is a leap one. */
  predicate LongEraYear(yoe: int)
  {
    yoe % 4 == 3 && (yoe % 100 != 99 || yoe == 399)
  }

  /** Day `doy` of year `yoe` of an era, read back from its day of era. */
  lemma EraPositionOf(yoe: int, doy: int)
    requires 0 <= yoe < 400 && 0 <= doy && (doy <= 364 || (doy == 365 && LongEraYear(yoe)))
    ensures EraPosition(yoe * 365 + yoe / 4 - yoe / 100 + doy) == EraPos(yoe, doy)
  {
    var cen, qd, yiq := yoe / 100, (yoe % 100) / 4, yoe % 4;
    YearOfEraParts(yoe);
    var doq := yiq * 365 + doy;
    var rest := qd * 1461 + doq;
    var doe := cen * 36524 + rest;
    assert doy == 365 ==> yiq == 3 && (cen == 3 || qd < 24);
    CenturyOfEra(doe, cen, rest);
    DivMod(rest, qd, doq, 1461);
    YearOfQuad(doq, yiq, doy);
    EraPositionSteps(doe, cen, rest, qd, doq, yiq);
  }

  /** A year of era as centuries, quads and years. */
  lemma YearOfEraParts(yoe: int)
    requires 0 <= yoe < 400
    ensures var cen, qd, yiq := yoe / 100, (yoe % 100) / 4, yoe % 4;
      yoe == cen * 100 + qd * 4 + yiq && 0 <= cen <= 3 && 0 <= qd <= 24
      && yoe * 365 + yoe / 4 - yoe / 100 == cen * 36524 + qd * 1461 + yiq * 365
      && (qd == 24 && yiq == 3 ==> yoe % 100 == 99)
  {
  }

  /** EraPosition, given the outcome of each of its divisions. */
  lemma EraPositionSteps(doe: int, cen: int, rest: int, qd: int, doq: int, yiq: int)
    requires 0 <= doe < 146097
    requires Min(doe / 36524, 3) == cen && rest == doe - cen * 36524
    requires rest / 1461 == qd && doq == rest - qd * 1461
    requires Min(doq / 365, 3) == yiq
    ensures EraPosition(doe) == EraPos(cen * 100 + qd * 4 + yiq, doq - yiq * 365)
  {
  }

  /** The century step of EraPosition: the last century of an era takes its extra day. */
  lemma CenturyOfEra(doe: int, cen: int, rest: int)
    requires 0 <= cen <= 3 && 0 <= rest <= 36524 && (cen < 3 ==> rest < 36524) && doe == cen * 36524 + rest
    ensures Min(doe / 36524, 3) == cen
  {
    if rest < 36524 {
      DivMod(doe, cen, rest, 36524);
    } else {
      DivMod(doe, 4, 0, 36524);
    }
  }

  /** The year step of EraPosition: the last year of a quad takes its extra day. */
  lemma YearOfQuad(doq: int, yiq: int, doy: int)
    requires 0 <= yiq < 4 && 0 <= doy && (doy <= 364 || (doy == 365 && yiq == 3)) && doq == yiq * 365 + doy
    ensures Min(doq / 365, 3) == yiq
  {
    if doy <= 364 {
      DivMod(doq, yiq, doy, 365);
    }
  }

  /** A day of a March-based year inside month `mp` is in month `mp`. */
  lemma ShiftedMonthOf(mp: int, doy: int)
    requires 0 <= mp < 12 && MonthStart(mp) <= doy <= 365 && (mp < 11 ==> doy < MonthStart(mp + 1))
    ensures ShiftedMonth(doy) == mp
  {
  }

  /** Where a date that exists falls in its March-based year: only 29 February is day 365. */
  lemma MonthDays(y: int, m: int, d: int)
    requires 1 <= m <= 12 && 1 <= d <= DaysInMonth(y, m)
    ensures var mp := if m > 2 then m - 3 else m + 9;
      var doy := MonthStart(mp) + d - 1;
      MonthStart(mp) <= doy <= 365 && (mp < 11 ==> doy < MonthStart(mp + 1))
      && (doy == 365 ==> m == 2 && IsLeapYear(y))
  {
    if m == 1 {
      assert MonthStart(10) == 306 && MonthStart(11) == 337;
    } else if m == 2 {
      assert MonthStart(11) == 337;
    } else {
      assert MonthStart(m - 3) + DaysInMonth(y, m) <= MonthStart(m - 2) <= 306;
    }
  }

  /** The March-based year that ends with February of a leap year `y` is a long one. */
  lemma LeapEraYear(y: int, era: int, yoe: int)
    requires 0 <= yoe < 400 && y - 1 == era * 400 + yoe && IsLeapYear(y)
    ensures LongEraYear(yoe)
  {
    DivMod(y, era * 100 + (yoe + 1) / 4, (yoe + 1) % 4, 4);
    DivMod(y, era * 4 + (yoe + 1) / 100, (yoe + 1) % 100, 100);
    DivMod(y, era + (yoe + 1) / 400, (yoe + 1) % 400, 400);
  }

  /** The last day of an era is day 146096. */
  lemma EraDayBound(yoe: int, doy: int)
    requires 0 <= yoe < 400 && 0 <= doy <= 365
    ensures yoe * 365 + yoe / 4 - yoe / 100 + doy < 146097
  {
  }

  /** CivilFromDays of a day number given by its era, year of era and day of year. */
  lemma CivilFromParts(z: int, era: int, yoe: int, doy: int, mp: int)
    requires 0 <= yoe < 400 && 0 <= doy <= 365
    requires var doe := yoe * 365 + yoe / 4 - yoe / 100 + doy;
      z + 719468 == era * 146097 + doe && 0 <= doe < 146097 && EraPosition(doe) == EraPos(yoe, doy)
    requires ShiftedMonth(doy) == mp
    ensures var m := if mp < 10 then mp + 3 else mp - 9;
      CivilFromDays(z) == Date(yoe + era * 400 + (if m <= 2 then 1 else 0), m, doy - MonthStart(mp) + 1)
  {
    DivMod(z + 719468, era, yoe * 365 + yoe / 4 - yoe / 100 + doy, 146097);
  }

  /** A date that exists is the date of its own day number. */
  lemma CivilOfDays(y: int, m: int, d: int)
    requires 1 <= m <= 12 && 1 <= d <= DaysInMonth(y, m)
    ensures CivilFromDays(DaysFromCivil(y, m, d)) == Date(y, m, d)
  {
    var y' := y - (if m <= 2 then 1 else 0);
    var era := y' / 400;
    var yoe := y' % 400;
    DivMod(y', era, yoe, 400);
    var mp := if m > 2 then m - 3 else m + 9;
    var doy := MonthStart(mp) + d - 1;
    MonthDays(y, m, d);
    if doy == 365 {
      LeapEraYear(y, era, yoe);
    }
    ShiftedMonthOf(mp, doy);
    EraPositionOf(yoe, doy);
    var doe := yoe * 365 + yoe / 4 - yoe / 100 + doy;
    EraDayBound(yoe, doy);
    DaysFromCivilParts(y, m, d, era, yoe, doe);
    CivilFromParts(DaysFromCivil(y, m, d), era, yoe, doy, mp);
  }

  /** MakeDay of a date that exists lands on exactly that date. */
  lemma MakeDayDate(y: int, mi: int, d: int)
    requires 0 <= mi < 12 && 1 <= d <= DaysInMonth(y, mi + 1)
    ensures CivilFromDays(MakeDay(y, mi, d)) == Date(y, mi + 1, d)
  {
    assert mi / 12 == 0 && mi % 12 + 1 == mi + 1;
    assert MakeDay(y, mi, d) == DaysFromCivil(y, mi + 1, d);
    CivilOfDays(y, mi + 1, d);
  }

  // ---- the `Date` getters and the calendar setters ----

  function FullYear(t: int): int { CivilFromDays(Day(t)).year }

  /** `getMonth()`: 0 for January up to 11 for December. */
  function MonthIndex(t: int): (r: int)
    ensures 0 <= r < 12
  {
    CivilFromDays(Day(t)).month - 1
  }

  /** `getDate()`: the day of the month. */
  function DateOfMonth(t: int): (r: int)
    ensures 1 <= r <= 31
  {
    CivilFromDays(Day(t)).day
  }

  /** ECMAScript MakeDay(year, month, date): `month` may lie outside 0..11 and `date` outside the month. */
  function MakeDay(year: int, month: int, date: int): int
  {
    DaysFromCivil(year + month / 12, month % 12 + 1, 1) + date - 1
  }

  /** `date.setFullYear(y)`: month, day of month and time of day are kept. */
  function SetFullYear(t: int, y: int): int
  {
    MakeDay(y, MonthIndex(t), DateOfMonth(t)) * DayMs + TimeInDay(t)
  }

  /** `date.setMonth(m)`: year, day of month and time of day are kept. */
  function SetMonth(t: int, m: int): int
  {
    MakeDay(FullYear(t), m, DateOfMonth(t)) * DayMs + TimeInDay(t)
  }

  /** `date.setDate(d)`: year, month and time of day are kept. */
  function SetDate(t: int, d: int): int
  {
    MakeDay(FullYear(t), MonthIndex(t), d) * DayMs + TimeInDay(t)
  }

  /** `date.setFullYear(y, m, d)`: the whole calendar date is replaced at once. */
  function SetFullYearMonthDate(t: int, y: int, m: int, d: int): int
  {
    MakeDay(y, m, d) * DayMs + TimeInDay(t)
  }

  /** The calendar date of `t`, read and written back through MakeDay, is `t`'s day. */
  lemma MakeDayOfOwnDate(t: int)
    ensures MakeDay(FullYear(t), MonthIndex(t), DateOfMonth(t)) == Day(t)
  {
    var c := CivilFromDays(Day(t));
    CivilRoundTrip(Day(t));
    assert MonthIndex(t) / 12 == 0 && MonthIndex(t) % 12 + 1 == c.month;
    assert DaysFromCivil(c.year, c.month, c.day) == DaysFromCivil(c.year, c.month, 1) + c.day - 1;
  }

  /** Writing a date that exists: the getters read back what was written, and the time of day is kept. */
  lemma ValidDateFields(t: int, y: int, mi: int, d: int)
    requires 0 <= mi < 12 && 1 <= d <= DaysInMonth(y, mi + 1)
    ensures var r := MakeDay(y, mi, d) * DayMs + TimeInDay(t);
      FullYear(r) == y && MonthIndex(r) == mi && DateOfMonth(r) == d && TimeInDay(r) == TimeInDay(t)
  {
    MakeDayDate(y, mi, d);
    DayOfCompose(MakeDay(y, mi, d), TimeInDay(t));
  }

  /** `setFullYear(y)` when the day of month exists in that month of year `y`: only the year changes. */
  lemma SetFullYearFields(t: int, y: int)
    requires DateOfMonth(t) <= DaysInMonth(y, MonthIndex(t) + 1)
    ensures var r := SetFullYear(t, y);
      FullYear(r) == y && MonthIndex(r) == MonthIndex(t) && DateOfMonth(r) == DateOfMonth(t)
      && TimeInDay(r) == TimeInDay(t)
  {
    ValidDateFields(t, y, MonthIndex(t), DateOfMonth(t));
  }

  /** `setMonth(m)` when the day of month exists in month `m`: only the month changes. */
  lemma SetMonthFields(t: int, m: int)
    requires 0 <= m < 12 && DateOfMonth(t) <= DaysInMonth(FullYear(t), m + 1)
    ensures var r := SetMonth(t, m);
      FullYear(r) == FullYear(t) && MonthIndex(r) == m && DateOfMonth(r) == DateOfMonth(t)
      && TimeInDay(r) == TimeInDay(t)
  {
    var y, d := FullYear(t), DateOfMonth(t);
    assert SetMonth(t, m) == MakeDay(y, m, d) * DayMs + TimeInDay(t);
    ValidDateFields(t, y, m, d);
  }

  lemma DayOfCompose(d: int, x: int)
    requires 0 <= x < DayMs
    ensures Day(d * DayMs + x) == d && TimeInDay(d * DayMs + x) == x
  {
  }

  // ---- Date.prototype.toString (section 21.4.4.41) ----

  /** `getDay()`: 0 for Sunday; 1970-01-01 was a Thursday. */
  function WeekDay(t: int): (r: int)
    ensures 0 <= r < 7
  {
    (Day(t) + 4) % 7
  }

  /** A number below 100 as two digits, zero-padded (`padStart(2, "0")`). */
  function TwoDigits(n: nat): (r: string)
    requires n < 100
    ensures r == Decimal.FixedWidth(n, 2)
  {
    Decimal.PaddedTwoDigits(n);
    Decimal.PadStart(Decimal.ShowNat(n), 2, '0')
  }

  /**
   * `String(date)` at offset zero: "Www Mmm DD YYYY HH:mm:ss GMT+0000", or
   * "Invalid Date" (`None` is a Date whose time value is NaN). The
   * implementation-defined time-zone name that may follow is taken as empty.
   */
  function DateToString(t: Wrappers.Option<int>): string
  {
    match t
    case None => "Invalid Date"
    case Some(tv) =>
      var y := FullYear(tv);
      ["Sun", "Mon", "Tue", "Wed", "Thu", "Fri", "Sat"][WeekDay(tv)] + " "
      + ["Jan", "Feb", "Mar", "Apr", "May", "Jun", "Jul", "Aug", "Sep", "Oct", "Nov", "Dec"][MonthIndex(tv)] + " "
      + TwoDigits(DateOfMonth(tv)) + " "
      + (if y < 0 then "-" else "") + Decimal.PadStart(Decimal.ShowNat(if y < 0 then -y else y), 4, '0') + " "
      + TwoDigits(Hour(tv)) + ":" + TwoDigits(Minute(tv)) + ":" + TwoDigits(Second(tv)) + " GMT+0000"
  }
}

/**
 * The finish-time picker: a "now + 10 minutes" bound, a calendar day picked
 * by the user combined with an hour and a minute typed into two text fields,
 * and the clamps that move an instant picked too early forward. `now` is a
 * parameter of every operation that reads the clock.
 */
module DateTimePicker {
  import opened Wrappers
  import opened Decimal
  import opened LocalTime
  import Iso8601

  /** How far ahead of now the earliest allowed finish time lies. */
  const MinLeadMs: int := 10 * MinuteMs
  /** How far past the bound an instant picked too early is moved. */
  const AdjustLeadMs: int := 5 * MinuteMs
  /** On the first pick, the clock time comes from now + 30 minutes. */
  const DefaultLeadMs: int := 30 * MinuteMs

  const HoursMessage: string := "Hours must be between 0-23"
  const MinutesMessage: string := "Minutes must be between 0-59"
  const AdjustedMessage: string := "Adjusted to future time"

  /** `getMinimumAllowedDateTime()` at clock reading `now`. */
  function MinimumAllowedDateTime(now: int): (r: int)
    ensures r - now == 600000
  {
    now + MinLeadMs
  }

  /** `isValidFutureDate(d)`: strictly after the bound. */
  predicate IsValidFutureDate(d: int, now: int)
  {
    d > MinimumAllowedDateTime(now)
  }

  /** An instant exactly at the bound is not a valid finish time; one millisecond later is. */
  lemma BoundIsExclusive(now: int)
    ensures !IsValidFutureDate(now + 600000, now)
    ensures IsValidFutureDate(now + 600001, now)
  {
  }

  // ---- toValidISOString and validateAndFormatDate ----

  /** What these helpers may be handed: a `Date`, a number, a string, or nothing. */
  datatype DateInput = DateObject(time: int) | Number(n: int) | Text(s: string) | Absent

  /** The time value `new Date(v)` holds, or `None` for an invalid date. */
  function TimeValue(v: DateInput): (r: Option<JsTime>)
  {
    match v
    case DateObject(t) => if -MaxTimeMs <= t <= MaxTimeMs then Some(t) else None
    case Number(n) => if -MaxTimeMs <= n <= MaxTimeMs then Some(n) else None
    case Text(s) => Iso8601.Parse(s)
    case Absent => None
  }

  /** `toValidISOString(v)`; `None` where it throws "Invalid date". */
  function ToValidIsoString(v: DateInput): (r: Option<string>)
    ensures r.Some? <==> TimeValue(v).Some?
    ensures r.Some? ==> Iso8601.Parse(r.value) == TimeValue(v) && r.value != []
  {
    match TimeValue(v)
    case None => None
    case Some(t) =>
      Iso8601.ParseFormat(t);
      Some(Iso8601.Format(t))
  }

  predicate Falsy(v: DateInput)
  {
    v == Absent || v == Number(0) || v == Text("")
  }

  /** `validateAndFormatDate(v)`: a falsy or invalid input gives `undefined` (`None`). */
  function ValidateAndFormatDate(v: DateInput): (r: Option<JsTime>)
    ensures Falsy(v) ==> r.None?
    ensures !Falsy(v) ==> r == TimeValue(v)
  {
    if Falsy(v) then None else TimeValue(v)
  }

  /** An ISO string made by `toValidISOString` is read back by `validateAndFormatDate` as the same instant. */
  lemma ValidateFormattedDate(t: JsTime)
    ensures ToValidIsoString(DateObject(t)).Some?
    ensures ValidateAndFormatDate(Text(ToValidIsoString(DateObject(t)).value)) == Some(t)
  {
    ValidateParsed(ToValidIsoString(DateObject(t)).value, t);
  }

  /** A non-empty string that parses as an instant is validated as that instant. */
  lemma ValidateParsed(s: string, t: JsTime)
    requires Iso8601.Parse(s) == Some(t) && s != []
    ensures ValidateAndFormatDate(Text(s)) == Some(t)
  {
  }

  /** The epoch as a number is falsy and so is not validated, although it is a valid instant. */
  lemma EpochNumberIsDropped()
    ensures ValidateAndFormatDate(Number(0)).None? && ToValidIsoString(Number(0)).Some?
  {
  }

  // ---- picking a day earlier than the bound ----

  /**
   * Moving `base` onto the bound's calendar day as the component writes it:
   * `setFullYear`, then `setMonth`, then `setDate`, each a separate step.
   */
  function BoundDayAsWritten(base: int, bound: int): int
  {
    SetDate(SetMonth(SetFullYear(base, FullYear(bound)), MonthIndex(bound)), DateOfMonth(bound))
  }

  lemma Civil20119()
    ensures CivilFromDays(20119) == Date(2025, 1, 31)
  {
    assert (20119 + 719468) / 146097 == 5 && 20119 + 719468 - 5 * 146097 == 9102;
    assert EraPosition(9102) == EraPos(24, 336) by {
      assert 9102 / 36524 == 0 && 9102 / 1461 == 6 && (9102 - 6 * 1461) / 365 == 0;
    }
    assert (5 * 336 + 2) / 153 == 10 && (153 * 10 + 2) / 5 == 306;
  }

  lemma Civil20134()
    ensures CivilFromDays(20134) == Date(2025, 2, 15)
  {
    assert (20134 + 719468) / 146097 == 5 && 20134 + 719468 - 5 * 146097 == 9117;
    assert EraPosition(9117) == EraPos(24, 351) by {
      assert 9117 / 36524 == 0 && 9117 / 1461 == 6 && (9117 - 6 * 1461) / 365 == 0;
    }
    assert (5 * 351 + 2) / 153 == 11 && (153 * 11 + 2) / 5 == 337;
  }

  lemma Civil20150()
    ensures CivilFromDays(20150) == Date(2025, 3, 3)
  {
    assert (20150 + 719468) / 146097 == 5 && 20150 + 719468 - 5 * 146097 == 9133;
    assert EraPosition(9133) == EraPos(25, 2) by {
      assert 9133 / 36524 == 0 && 9133 / 1461 == 6 && (9133 - 6 * 1461) / 365 == 1;
    }
    assert (5 * 2 + 2) / 153 == 0 && (153 * 0 + 2) / 5 == 0;
  }

  lemma Civil20120()
    ensures CivilFromDays(20120) == Date(2025, 2, 1)
  {
    assert (20120 + 719468) / 146097 == 5 && 20120 + 719468 - 5 * 146097 == 9103;
    assert EraPosition(9103) == EraPos(24, 337) by {
      assert 9103 / 36524 == 0 && 9103 / 1461 == 6 && (9103 - 6 * 1461) / 365 == 0;
    }
    assert (5 * 337 + 2) / 153 == 11 && (153 * 11 + 2) / 5 == 337;
  }

  /** 2025-02-01T08:00:00.000Z is the first of its month. */
  lemma FebruaryFirstFields()
    ensures DateOfMonth(1738396800000) == 1
  {
    assert Day(1738396800000) == 20120;
    Civil20120();
  }

  lemma BoundFields()
    ensures Day(1739621400000) == 20134
    ensures FullYear(1739621400000) == 2025 && MonthIndex(1739621400000) == 1 && DateOfMonth(1739621400000) == 15
  {
    assert Day(1739621400000) == 20134;
    Civil20134();
  }

  /** The fields of 2025-01-31T12:00:00.000Z. */
  lemma JanuaryFields()
    ensures Day(1738324800000) == 20119 && TimeInDay(1738324800000) == 43200000
    ensures FullYear(1738324800000) == 2025 && MonthIndex(1738324800000) == 0
    ensures DateOfMonth(1738324800000) == 31
  {
    assert Day(1738324800000) == 20119;
    Civil20119();
  }

  /** The fields of 2025-03-03T12:00:00.000Z. */
  lemma MarchFields()
    ensures Day(20150 * DayMs + 43200000) == 20150 && TimeInDay(20150 * DayMs + 43200000) == 43200000
    ensures FullYear(20150 * DayMs + 43200000) == 2025 && MonthIndex(20150 * DayMs + 43200000) == 2
  {
    DayOfCompose(20150, 43200000);
    Civil20150();
  }

  lemma MakeDayJanuary31()
    ensures MakeDay(2025, 0, 31) == 20119
  {
    assert DaysFromCivil(2025, 1, 1) == 20089 by {
      assert 2024 / 400 == 5 && (153 * 10 + 2) / 5 == 306 && 24 / 4 == 6 && 24 / 100 == 0;
    }
  }

  lemma MakeDayFebruary31()
    ensures MakeDay(2025, 1, 31) == 20150
  {
    assert DaysFromCivil(2025, 2, 1) == 20120 by {
      assert 2024 / 400 == 5 && (153 * 11 + 2) / 5 == 337 && 24 / 4 == 6 && 24 / 100 == 0;
    }
  }

  lemma MakeDayMarch15()
    ensures MakeDay(2025, 2, 15) == 20162
  {
    assert DaysFromCivil(2025, 3, 1) == 20148 by {
      assert 2025 / 400 == 5 && (153 * 0 + 2) / 5 == 0 && 25 / 4 == 6 && 25 / 100 == 0;
    }
  }

  /** `setFullYear(2025)` on 2025-01-31T12:00Z changes nothing. */
  lemma YearStep()
    ensures SetFullYear(1738324800000, 2025) == 1738324800000
  {
    JanuaryFields();
    MakeDayJanuary31();
  }

  /** `setMonth(1)` on 2025-01-31T12:00Z asks for 31 February, which is 3 March. */
  lemma MonthStep()
    ensures SetMonth(1738324800000, 1) == 20150 * DayMs + 43200000
  {
    JanuaryFields();
    MakeDayFebruary31();
  }

  /** `setDate(15)` on 2025-03-03T12:00Z gives 15 March. */
  lemma DateStep()
    ensures SetDate(20150 * DayMs + 43200000, 15) == 20162 * DayMs + 43200000
  {
    MarchFields();
    MakeDayMarch15();
  }

  /**
   * The separate steps overflow: from 31 January, `setMonth(1)` lands on
   * 3 March, and `setDate(15)` then gives 15 March instead of 15 February.
   */
  lemma BoundDayAsWrittenOverflows()
    ensures var base := 1738324800000;  // 2025-01-31T12:00:00.000Z
      var bound := 1739621400000;       // 2025-02-15T12:10:00.000Z
      Day(bound) == 20134 && Day(BoundDayAsWritten(base, bound)) == 20162
  {
    BoundFields();
    YearStep();
    MonthStep();
    DateStep();
    DayOfCompose(20162, 43200000);
  }

  /** Moving `base` onto the bound's calendar day in one step, `setFullYear(y, m, d)`. */
  function BoundDay(base: int, bound: int): int
  {
    SetFullYearMonthDate(base, FullYear(bound), MonthIndex(bound), DateOfMonth(bound))
  }

  /** The one-step move lands on the bound's day and keeps the time of day. */
  lemma BoundDayFields(base: int, bound: int)
    ensures Day(BoundDay(base, bound)) == Day(bound)
    ensures TimeInDay(BoundDay(base, bound)) == TimeInDay(base)
  {
    MakeDayOfOwnDate(bound);
    DayOfCompose(Day(bound), TimeInDay(base));
  }

  lemma SameTimeInDay(a: int, b: int)
    requires TimeInDay(a) == TimeInDay(b)
    ensures Hour(a) == Hour(b) && Minute(a) == Minute(b) && SubMinute(a) == SubMinute(b)
  {
    Decompose(a);
    Decompose(b);
    ComposeFields(0, Hour(a), Minute(a), SubMinute(a));
    ComposeFields(0, Hour(b), Minute(b), SubMinute(b));
    assert TimeInDay(Compose(0, Hour(a), Minute(a), SubMinute(a))) == TimeInDay(a);
  }

  /**
   * The clamp of the earlier-day branch: an instant on the bound's day that
   * is before the bound gets the bound's hour and minute, and keeps its own
   * seconds and milliseconds.
   */
  function ClampToBoundMinute(x: int, bound: int): int
  {
    if x < bound then SetMinutes(SetHours(x, Hour(bound)), Minute(bound)) else x
  }

  lemma ClampMeaning(x: int, bound: int)
    requires Day(x) == Day(bound)
    ensures var r := ClampToBoundMinute(x, bound);
      Day(r) == Day(bound) && SubMinute(r) == SubMinute(x)
      && MinuteIndex(r) >= MinuteIndex(bound) && r > bound - MinuteMs
      && (x < bound ==> Hour(r) == Hour(bound) && Minute(r) == Minute(bound))
      && (x >= bound ==> r == x)
  {
    if x < bound {
      SetHoursThenMinutes(x, Hour(bound), Minute(bound));
      ClampFacts(x, bound);
    } else {
      Decompose(x);
      Decompose(bound);
    }
  }

  lemma ClampFacts(x: int, bound: int)
    ensures var r := Compose(Day(bound), Hour(bound), Minute(bound), SubMinute(x));
      Day(r) == Day(bound) && SubMinute(r) == SubMinute(x) && Hour(r) == Hour(bound) && Minute(r) == Minute(bound)
      && MinuteIndex(r) == MinuteIndex(bound) && r > bound - MinuteMs
  {
    ComposeFields(Day(bound), Hour(bound), Minute(bound), SubMinute(x));
    MinuteIndexOfCompose(Day(bound), Hour(bound), Minute(bound), SubMinute(x));
    MinuteIndexOfCompose(Day(bound), Hour(bound), Minute(bound), SubMinute(bound));
    Decompose(bound);
  }

  /**
   * `onSelectDate(d)` with `d` before the bound: the previous selection (or
   * now) is moved onto the bound's day by the three separate setter calls
   * and, if still before the bound, given the bound's hour and minute.
   */
  function SelectEarlier(prev: Option<int>, now: int): int
  {
    var bound := MinimumAllowedDateTime(now);
    ClampToBoundMinute(BoundDayAsWritten(prev.GetOr(now), bound), bound)
  }

  /**
   * Without an overflow the three setter calls land where the one-call move
   * does: the base's day of month exists in its own month of the bound's
   * year, and in the bound's month.
   */
  lemma BoundDayAsWrittenAgrees(base: int, bound: int)
    requires DateOfMonth(base) <= DaysInMonth(FullYear(bound), MonthIndex(base) + 1)
    requires DateOfMonth(base) <= DaysInMonth(FullYear(bound), MonthIndex(bound) + 1)
    ensures BoundDayAsWritten(base, bound) == BoundDay(base, bound)
  {
    var s1 := SetFullYear(base, FullYear(bound));
    SetFullYearFields(base, FullYear(bound));
    var s2 := SetMonth(s1, MonthIndex(bound));
    SetMonthFields(s1, MonthIndex(bound));
    assert SetDate(s2, DateOfMonth(bound)) ==
      MakeDay(FullYear(bound), MonthIndex(bound), DateOfMonth(bound)) * DayMs + TimeInDay(base);
  }

  /**
   * When the base's day of month exists in the bound's month (and in its
   * own month of the bound's year), the earlier-day result is on the bound's
   * day, in the bound's minute or later, and at most a minute short of the
   * bound; it keeps the base's seconds and milliseconds, and its whole time
   * of day when that is not before the bound's.
   */
  lemma SelectEarlierMeaning(prev: Option<int>, now: int)
    requires var bound := MinimumAllowedDateTime(now);
      var base := prev.GetOr(now);
      DateOfMonth(base) <= DaysInMonth(FullYear(bound), MonthIndex(base) + 1)
      && DateOfMonth(base) <= DaysInMonth(FullYear(bound), MonthIndex(bound) + 1)
    ensures var r := SelectEarlier(prev, now);
      var bound := MinimumAllowedDateTime(now);
      var base := prev.GetOr(now);
      Day(r) == Day(bound)
      && SubMinute(r) == SubMinute(base)
      && MinuteIndex(r) >= MinuteIndex(bound)
      && r > bound - MinuteMs
      && (TimeInDay(base) < TimeInDay(bound) ==> Hour(r) == Hour(bound) && Minute(r) == Minute(bound))
      && (TimeInDay(base) >= TimeInDay(bound) ==> TimeInDay(r) == TimeInDay(base))
  {
    var bound := MinimumAllowedDateTime(now);
    var base := prev.GetOr(now);
    BoundDayAsWrittenAgrees(base, bound);
    var x := BoundDay(base, bound);
    BoundDayFields(base, bound);
    SameTimeInDay(x, base);
    Decompose(x);
    Decompose(bound);
    ClampMeaning(x, bound);
  }

  /**
   * The overflow reaches the picker: with 31 January selected, picking a day
   * before the bound of 15 February 12:10 selects 15 March 12:00, a month
   * after the bound's day.
   */
  lemma SelectEarlierOverflows()
    ensures var prev := Some(1738324800000);  // 2025-01-31T12:00:00.000Z
      var now := 1739620800000;                // 2025-02-15T12:00:00.000Z
      SelectEarlier(prev, now) == 1742040000000  // 2025-03-15T12:00:00.000Z
      && Day(SelectEarlier(prev, now)) == Day(MinimumAllowedDateTime(now)) + 28
  {
    BoundFields();
    YearStep();
    MonthStep();
    DateStep();
    assert BoundDayAsWritten(1738324800000, 1739621400000) == 20162 * DayMs + 43200000;
    DayOfCompose(20162, 43200000);
  }

  /** The clamp of the earlier-day branch can leave the result before the bound. */
  /** The fields of the instants used by `SelectEarlierCanUndershoot`. */
  lemma UndershootFields()
    ensures MinimumAllowedDateTime(1739620830000) == 1739621430000
    ensures Day(1739621430000) == 20134 && TimeInDay(1739621430000) == 43830000
    ensures Hour(1739621430000) == 12 && Minute(1739621430000) == 10
    ensures TimeInDay(1738396800000) == 28800000 && SubMinute(1738396800000) == 0
  {
    assert 1739621430000 / 86400000 == 20134 && 1739621430000 % 86400000 == 43830000;
    assert 43830000 / 3600000 == 12 && 1739621430000 % 3600000 == 630000;
    assert 1738396800000 % 86400000 == 28800000 && 1738396800000 % 60000 == 0;
  }

  lemma SelectEarlierCanUndershoot()
    ensures var now := 1739620830000;  // 2025-02-15T12:00:30.000Z
      var prev := Some(1738396800000);  // 2025-02-01T08:00:00.000Z
      SelectEarlier(prev, now) == 1739621400000  // 2025-02-15T12:10:00.000Z
      && SelectEarlier(prev, now) < MinimumAllowedDateTime(now)
  {
    var r := SelectEarlier(Some(1738396800000), 1739620830000);
    UndershootResultFields();
    FieldsDetermineTime(r, 20134, 12, 10, 0);
    assert Compose(20134, 12, 10, 0) == 1739621400000;
  }

  lemma UndershootResultFields()
    ensures var r := SelectEarlier(Some(1738396800000), 1739620830000);
      Day(r) == 20134 && Hour(r) == 12 && Minute(r) == 10 && SubMinute(r) == 0
  {
    UndershootFields();
    FebruaryFirstFields();
    SelectEarlierMeaning(Some(1738396800000), 1739620830000);
  }

  lemma FieldsDetermineTime(r: int, d: int, h: int, m: int, sub: int)
    requires Day(r) == d && Hour(r) == h && Minute(r) == m && SubMinute(r) == sub
    ensures r == Compose(d, h, m, sub)
  {
    Decompose(r);
  }


  // ---- picking a day not earlier than the bound ----

  /** The clock time a newly picked day receives: the previous selection's, else that of now + 30 minutes. */
  function KeptHour(prev: Option<int>, now: int): int
  {
    if prev.Some? then Hour(prev.value) else Hour(now + DefaultLeadMs)
  }

  function KeptMinute(prev: Option<int>, now: int): int
  {
    if prev.Some? then Minute(prev.value) else Minute(now + DefaultLeadMs)
  }

  /**
   * `onSelectDate(d)` with `d` not before the bound: `d` gets the kept hour
   * and minute, and a result that is then before the bound becomes exactly
   * bound + 5 minutes.
   */
  function SelectLater(date: int, prev: Option<int>, now: int): int
  {
    var bound := MinimumAllowedDateTime(now);
    var x := SetMinutes(SetHours(date, KeptHour(prev, now)), KeptMinute(prev, now));
    if x < bound then bound + AdjustLeadMs else x
  }

  /**
   * The later-day result is never before the bound: either `date` with the
   * kept hour and minute, or exactly bound + 5 minutes when that would be
   * too early.
   */
  lemma SelectLaterMeaning(date: int, prev: Option<int>, now: int)
    ensures var r := SelectLater(date, prev, now);
      var bound := MinimumAllowedDateTime(now);
      var x := Compose(Day(date), KeptHour(prev, now), KeptMinute(prev, now), SubMinute(date));
      r >= bound
      && (x < bound ==> r == bound + AdjustLeadMs)
      && (x >= bound ==> r == x && Day(r) == Day(date) && Hour(r) == KeptHour(prev, now)
                         && Minute(r) == KeptMinute(prev, now) && SubMinute(r) == SubMinute(date))
  {
    var h := KeptHour(prev, now);
    var m := KeptMinute(prev, now);
    SetHoursThenMinutes(date, h, m);
    ComposeFields(Day(date), h, m, SubMinute(date));
  }

  /** The later-day branch can return the bound itself, which `IsValidFutureDate` then refuses. */
  lemma SelectLaterCanMeetBound(now: int)
    ensures var bound := MinimumAllowedDateTime(now);
      SelectLater(bound, Some(bound), now) == bound && !IsValidFutureDate(bound, now)
  {
    var bound := MinimumAllowedDateTime(now);
    Decompose(bound);
  }

  // ---- the Apply button ----

  datatype TimeOutcome =
    | HoursRejected
    | MinutesRejected
    | Adjusted(time: int)
    | Accepted(time: int)

  predicate InRange(v: Option<int>, max: int)
  {
    v.Some? && 0 <= v.value <= max
  }

  /** `handleTimeChange()` with `selected` chosen: the decision it takes. */
  function ApplyTime(selected: int, hours: string, minutes: string, now: int): (r: TimeOutcome)
    ensures r == HoursRejected <==> !InRange(ParseInt(hours), 23)
    ensures r == MinutesRejected <==> InRange(ParseInt(hours), 23) && !InRange(ParseInt(minutes), 59)
    ensures r.Adjusted? ==> r.time == MinimumAllowedDateTime(now) + AdjustLeadMs && IsValidFutureDate(r.time, now)
    ensures r.Accepted? ==> r.time >= MinimumAllowedDateTime(now)
    ensures InRange(ParseInt(hours), 23) && InRange(ParseInt(minutes), 59) ==>
      var x := Compose(Day(selected), ParseInt(hours).value, ParseInt(minutes).value, SubMinute(selected));
      (x < MinimumAllowedDateTime(now) ==> r == Adjusted(MinimumAllowedDateTime(now) + AdjustLeadMs))
      && (x >= MinimumAllowedDateTime(now) ==> r == Accepted(x))
  {
    var hrs := ParseInt(hours);
    var mins := ParseInt(minutes);
    if !InRange(hrs, 23) then HoursRejected
    else if !InRange(mins, 59) then MinutesRejected
    else
      SetHoursThenMinutes(selected, hrs.value, mins.value);
      var x := SetMinutes(SetHours(selected, hrs.value), mins.value);
      if x < MinimumAllowedDateTime(now) then Adjusted(MinimumAllowedDateTime(now) + AdjustLeadMs)
      else Accepted(x)
  }

  /** An accepted instant keeps the selected day, seconds and milliseconds, and carries the typed hour and minute. */
  lemma AcceptedTimeFields(selected: int, hours: string, minutes: string, now: int)
    requires ApplyTime(selected, hours, minutes, now).Accepted?
    ensures var t := ApplyTime(selected, hours, minutes, now).time;
      Day(t) == Day(selected) && SubMinute(t) == SubMinute(selected)
      && Hour(t) == ParseInt(hours).value && Minute(t) == ParseInt(minutes).value
  {
    var h, m := ParseInt(hours).value, ParseInt(minutes).value;
    SetHoursThenMinutes(selected, h, m);
    ComposeFields(Day(selected), h, m, SubMinute(selected));
  }

  /** The parsing and composing steps of `handleTimeChange()`, in the component's order. */
  method DecideTime(selected: int, hours: string, minutes: string, now: int) returns (r: TimeOutcome)
    ensures r == ApplyTime(selected, hours, minutes, now)
  {
    var hrs := ParseInt(hours);
    var mins := ParseInt(minutes);
    if hrs.None? || hrs.value < 0 || hrs.value > 23 {
      return HoursRejected;
    }
    if mins.None? || mins.value < 0 || mins.value > 59 {
      return MinutesRejected;
    }
    var newDate := selected;
    newDate := SetHours(newDate, hrs.value);
    newDate := SetMinutes(newDate, mins.value);
    var bound := MinimumAllowedDateTime(now);
    if newDate < bound {
      var futureDate := bound + AdjustLeadMs;
      return Adjusted(futureDate);
    }
    return Accepted(newDate);
  }

  /** A field holding exactly two digits whose value is at most `max`. */
  predicate FieldOk(s: string, max: nat)
  {
    |s| == 2 && AllDigits(s) && DigitsValue(s) <= max
  }

  lemma FieldValue(s: string, max: nat)
    requires FieldOk(s, max)
    ensures InRange(ParseInt(s), max) && ParseInt(s).value == DigitsValue(s)
  {
    ParseIntDigits(s);
  }

  /** Well-formed fields are never rejected. */
  lemma ValidFieldsAreApplied(selected: int, hours: string, minutes: string, now: int)
    requires FieldOk(hours, 23) && FieldOk(minutes, 59)
    ensures ApplyTime(selected, hours, minutes, now).Adjusted? || ApplyTime(selected, hours, minutes, now).Accepted?
  {
    FieldValue(hours, 23);
    FieldValue(minutes, 59);
  }

  lemma TwoDigitsOk(n: nat, max: nat)
    requires n <= max && n < 100
    ensures FieldOk(TwoDigits(n), max)
  {
    FixedWidthRoundTrip(n, 2);
  }

  /** The padded text of `n` written back into a field that accepts up to `max`. */
  method FieldText(n: nat, max: nat) returns (s: string)
    requires n <= max && n < 100
    ensures s == TwoDigits(n) && FieldOk(s, max)
  {
    s := TwoDigits(n);
    TwoDigitsOk(n, max);
  }

  /** After an adjustment the fields show the adjusted instant, so pressing Apply again at the same `now` accepts it. */
  lemma ReapplyAfterAdjustment(selected: int, hours: string, minutes: string, now: int)
    requires ApplyTime(selected, hours, minutes, now).Adjusted?
    ensures var f := ApplyTime(selected, hours, minutes, now).time;
      ApplyTime(f, TwoDigits(Hour(f)), TwoDigits(Minute(f)), now) == Accepted(f)
  {
    var f := ApplyTime(selected, hours, minutes, now).time;
    TwoDigitsOk(Hour(f), 23);
    TwoDigitsOk(Minute(f), 59);
    FieldValue(TwoDigits(Hour(f)), 23);
    FixedWidthRoundTrip(Hour(f), 2);
    FieldValue(TwoDigits(Minute(f)), 59);
    FixedWidthRoundTrip(Minute(f), 2);
    Decompose(f);
    SetHoursThenMinutes(f, Hour(f), Minute(f));
  }

  // ---- the text fields ----

  /** `/^([0-1]?[0-9]|2[0-3])$/`. */
  predicate HourPattern(v: string)
  {
    (|v| == 1 && IsDigit(v[0]))
    || (|v| == 2 && (v[0] == '0' || v[0] == '1') && IsDigit(v[1]))
    || (|v| == 2 && v[0] == '2' && '0' <= v[1] <= '3')
  }

  /** `/^[0-5]?[0-9]$/`. */
  predicate MinutePattern(v: string)
  {
    (|v| == 1 && IsDigit(v[0]))
    || (|v| == 2 && '0' <= v[0] <= '5' && IsDigit(v[1]))
  }

  lemma TwoCharValue(v: string)
    requires |v| == 2 && AllDigits(v)
    ensures DigitsValue(v) == (v[0] as int - '0' as int) * 10 + (v[1] as int - '0' as int)
  {
    assert v[..1][..0] == [];
  }

  /** The hour pattern admits exactly the one- or two-digit numerals from 0 to 23. */
  lemma HourPatternMeaning(v: string)
    ensures HourPattern(v) <==> 1 <= |v| <= 2 && AllDigits(v) && DigitsValue(v) <= 23
  {
    if |v| == 2 && AllDigits(v) {
      TwoCharValue(v);
    }
    if |v| == 1 && AllDigits(v) {
      assert v[..0] == [];
    }
  }

  /** The minute pattern admits exactly the one- or two-digit numerals from 0 to 59. */
  lemma MinutePatternMeaning(v: string)
    ensures MinutePattern(v) <==> 1 <= |v| <= 2 && AllDigits(v) && DigitsValue(v) <= 59
  {
    if |v| == 2 && AllDigits(v) {
      TwoCharValue(v);
    }
    if |v| == 1 && AllDigits(v) {
      assert v[..0] == [];
    }
  }

  /** What an accepted keystroke stores: the value left-padded with '0' to two characters. */
  lemma AcceptedInputIsField(v: string, max: nat)
    requires max < 100
    requires v == [] || (1 <= |v| <= 2 && AllDigits(v) && DigitsValue(v) <= max)
    ensures PadStart(v, 2, '0') == FixedWidth(if v == [] then 0 else DigitsValue(v), 2)
    ensures FieldOk(PadStart(v, 2, '0'), max)
  {
    if v == [] {
      PadEmpty(max);
    } else if |v| == 1 {
      PadOneDigit(v, max);
    } else {
      PadTwoDigits(v, max);
    }
  }

  lemma PadEmpty(max: nat)
    ensures PadStart([], 2, '0') == FixedWidth(0, 2) && FieldOk(PadStart([], 2, '0'), max)
  {
    assert PadStart([], 2, '0') == "00";
    FixedWidthOfDigits("00");
    TwoCharValue("00");
  }

  lemma PadOneDigit(v: string, max: nat)
    requires |v| == 1 && AllDigits(v) && DigitsValue(v) <= max
    ensures PadStart(v, 2, '0') == FixedWidth(DigitsValue(v), 2) && FieldOk(PadStart(v, 2, '0'), max)
  {
    var p := PadStart(v, 2, '0');
    assert p == ['0', v[0]];
    TwoCharValue(p);
    assert v[..0] == [];
    assert DigitsValue(p) == DigitsValue(v);
    FixedWidthOfDigits(p);
  }

  lemma PadTwoDigits(v: string, max: nat)
    requires |v| == 2 && AllDigits(v) && DigitsValue(v) <= max
    ensures PadStart(v, 2, '0') == FixedWidth(DigitsValue(v), 2) && FieldOk(PadStart(v, 2, '0'), max)
  {
    FixedWidthOfDigits(v);
  }

  /**
   * The picker's state: `selected` is the component's own instant, `outer`
   * the form value it reports through `setDate`, `hours` and `minutes` the
   * two text fields, `error` the message under them, `isOpen` the popover
   * and `isChoosingDate` which of its two panes shows.
   */
  datatype PickerState = PickerState(
    selected: Option<int>, outer: Option<int>, hours: string, minutes: string,
    error: Option<string>, isOpen: bool, isChoosingDate: bool)

  predicate FieldsOk(st: PickerState)
  {
    FieldOk(st.hours, 23) && FieldOk(st.minutes, 59)
  }

  /** The state once Apply has reached `outcome` for a selected instant. */
  function Transition(st: PickerState, outcome: TimeOutcome): PickerState
  {
    match outcome
    case HoursRejected => st.(error := Some(HoursMessage))
    case MinutesRejected => st.(error := Some(MinutesMessage))
    case Adjusted(f) =>
      st.(selected := Some(f), outer := Some(f), hours := TwoDigits(Hour(f)),
          minutes := TwoDigits(Minute(f)), error := Some(AdjustedMessage))
    case Accepted(t) =>
      st.(selected := Some(t), outer := Some(t), error := None, isOpen := false, isChoosingDate := false)
  }

  /** The state after the Apply button is pressed at `now`. */
  function TimeChange(st: PickerState, now: int): PickerState
  {
    if st.selected.None? then st
    else Transition(st, ApplyTime(st.selected.value, st.hours, st.minutes, now))
  }


  /**
   * What Apply may change: nothing without a selection; the form value only
   * to an instant at or after the bound; the fields only with the
   * adjustment message; the popover closes only without a message.
   */
  lemma TimeChangeEffects(st: PickerState, now: int)
    ensures var r := TimeChange(st, now);
      (st.selected.None? ==> r == st)
      && (r.outer != st.outer ==> r.outer.Some? && r.outer.value >= MinimumAllowedDateTime(now))
      && (r.selected == r.outer || r.selected == st.selected)
      && ((r.hours, r.minutes) != (st.hours, st.minutes) ==> r.error == Some(AdjustedMessage))
      && (st.isOpen && !r.isOpen ==> r.error.None?)
  {
  }

  /** Apply keeps both fields well formed. */
  lemma TimeChangeKeepsFields(st: PickerState, now: int)
    requires FieldsOk(st)
    ensures FieldsOk(TimeChange(st, now))
  {
    if st.selected.Some? && ApplyTime(st.selected.value, st.hours, st.minutes, now).Adjusted? {
      var f := ApplyTime(st.selected.value, st.hours, st.minutes, now).time;
      TwoDigitsOk(Hour(f), 23);
      TwoDigitsOk(Minute(f), 59);
    }
  }

  /**
   * With well-formed fields Apply either adjusts or accepts: the two
   * "invalid hours/minutes" messages cannot appear.
   */
  lemma TimeChangeNeverRejects(st: PickerState, now: int)
    requires FieldsOk(st) && st.selected.Some?
    ensures TimeChange(st, now).error.None? || TimeChange(st, now).error == Some(AdjustedMessage)
  {
    ValidFieldsAreApplied(st.selected.value, st.hours, st.minutes, now);
  }

  /** After an adjustment a second Apply at the same `now` accepts the adjusted instant and closes the popover. */
  lemma TimeChangeAfterAdjustment(st: PickerState, now: int)
    requires st.selected.Some?
    requires TimeChange(st, now).error == Some(AdjustedMessage)
    ensures var r := TimeChange(st, now);
      TimeChange(r, now) == r.(error := None, isOpen := false, isChoosingDate := false)
  {
    ReapplyAfterAdjustment(st.selected.value, st.hours, st.minutes, now);
  }

  /** The instant `onSelectDate(d)` computes for the picked day `date`, setter call by setter call. */
  method PickInstant(date: int, prev: Option<int>, now: int) returns (newDate: int)
    ensures newDate == if date < MinimumAllowedDateTime(now) then SelectEarlier(prev, now)
                       else SelectLater(date, prev, now)
  {
    var bound := MinimumAllowedDateTime(now);
    if date < bound {
      var base := if prev.Some? then prev.value else now;
      newDate := SetFullYear(base, FullYear(bound));
      newDate := SetMonth(newDate, MonthIndex(bound));
      newDate := SetDate(newDate, DateOfMonth(bound));
      if newDate < bound {
        newDate := SetHours(newDate, Hour(bound));
        newDate := SetMinutes(newDate, Minute(bound));
      }
    } else {
      newDate := date;
      if prev.Some? {
        newDate := SetHours(newDate, Hour(prev.value));
        newDate := SetMinutes(newDate, Minute(prev.value));
      } else {
        var defaultTime := now + DefaultLeadMs;
        newDate := SetHours(newDate, Hour(defaultTime));
        newDate := SetMinutes(newDate, Minute(defaultTime));
      }
      if newDate < bound {
        newDate := bound + AdjustLeadMs;
      }
    }
  }

  /** The state after a day is picked (`None` when the pick is undone). */
  function SelectDate(st: PickerState, date: Option<int>, now: int): PickerState
  {
    if date.None? then st.(outer := None)
    else
      var t := if date.value < MinimumAllowedDateTime(now) then SelectEarlier(st.selected, now)
               else SelectLater(date.value, st.selected, now);
      st.(selected := Some(t), outer := Some(t))
  }

  /**
   * Picking a day changes only the selection and the form value, and sets
   * both to the same instant; undoing the pick clears the form value only.
   * A day not before the bound gives an instant not before the bound.
   */
  lemma SelectDateEffects(st: PickerState, date: Option<int>, now: int)
    ensures var r := SelectDate(st, date, now);
      r.hours == st.hours && r.minutes == st.minutes && r.error == st.error
      && r.isOpen == st.isOpen && r.isChoosingDate == st.isChoosingDate
      && FieldsOk(r) == FieldsOk(st)
      && (date.None? ==> r.outer.None? && r.selected == st.selected)
      && (date.Some? ==> r.selected.Some? && r.selected == r.outer)
      && (date.Some? && date.value >= MinimumAllowedDateTime(now) ==> r.selected.value >= MinimumAllowedDateTime(now))
  {
    if date.Some? && date.value >= MinimumAllowedDateTime(now) {
      SelectLaterMeaning(date.value, st.selected, now);
    }
  }

  class Picker {
    var selected: Option<int>
    var outer: Option<int>
    var hours: string
    var minutes: string
    var error: Option<string>
    var isOpen: bool
    var isChoosingDate: bool

    /** Both text fields hold a padded number in range. */
    predicate Valid()
      reads this
    {
      FieldsOk(State())
    }

    function State(): PickerState
      reads this
    {
      PickerState(selected, outer, hours, minutes, error, isOpen, isChoosingDate)
    }

    /** Mounting with form value `date`: the fields show its hour and minute, or 12:00. */
    constructor(date: Option<int>)
      ensures selected == date && outer == date
      ensures hours == (if date.Some? then TwoDigits(Hour(date.value)) else "12")
      ensures minutes == (if date.Some? then TwoDigits(Minute(date.value)) else "00")
      ensures error.None? && !isOpen && !isChoosingDate
      ensures Valid()
    {
      selected := date;
      outer := date;
      if date.Some? {
        hours := TwoDigits(Hour(date.value));
        minutes := TwoDigits(Minute(date.value));
        TwoDigitsOk(Hour(date.value), 23);
        TwoDigitsOk(Minute(date.value), 59);
      } else {
        hours := "12";
        minutes := "00";
        TwoCharValue("12");
        TwoCharValue("00");
      }
      error := None;
      isOpen := false;
      isChoosingDate := false;
    }

    /** The effect that runs when the form value changes to `date`. */
    method SyncFromProp(date: Option<int>)
      requires Valid()
      modifies this
      ensures Valid()
      ensures date.None? ==> selected == old(selected) && hours == old(hours) && minutes == old(minutes)
      ensures date.Some? ==> selected == date && hours == TwoDigits(Hour(date.value))
                             && minutes == TwoDigits(Minute(date.value))
      ensures outer == old(outer) && error == old(error) && isOpen == old(isOpen)
      ensures isChoosingDate == old(isChoosingDate)
    {
      if date.Some? {
        selected := date;
        hours := TwoDigits(Hour(date.value));
        minutes := TwoDigits(Minute(date.value));
        TwoDigitsOk(Hour(date.value), 23);
        TwoDigitsOk(Minute(date.value), 59);
      }
    }

    /** A day picked on the calendar (`None` when the pick is undone). */
    method OnSelectDate(date: Option<int>, now: int)
      modifies this
      ensures State() == SelectDate(old(State()), date, now)
    {
      if date.None? {
        outer := None;
        return;
      }
      var newDate := PickInstant(date.value, selected, now);
      selected := Some(newDate);
      outer := Some(newDate);
    }

    /** The Apply button. */
    method HandleTimeChange(now: int)
      modifies this
      ensures State() == TimeChange(old(State()), now)
    {
      if selected.None? {
        return;
      }
      var outcome := DecideTime(selected.value, hours, minutes, now);
      Record(outcome);
    }

    /** The state updates `handleTimeChange()` makes once it has decided. */
    method Record(outcome: TimeOutcome)
      modifies this
      ensures State() == Transition(old(State()), outcome)
    {
      match outcome
      case HoursRejected =>
        error := Some(HoursMessage);
      case MinutesRejected =>
        error := Some(MinutesMessage);
      case Adjusted(futureDate) =>
        hours := TwoDigits(Hour(futureDate));
        minutes := TwoDigits(Minute(futureDate));
        selected := Some(futureDate);
        outer := Some(futureDate);
        error := Some(AdjustedMessage);
      case Accepted(newDate) =>
        selected := Some(newDate);
        outer := Some(newDate);
        error := None;
        isOpen := false;
        isChoosingDate := false;
    }

    /** The Clear link. */
    method ClearDateTime()
      requires Valid()
      modifies this
      ensures Valid()
      ensures selected.None? && outer.None? && error.None? && !isOpen
      ensures hours == old(hours) && minutes == old(minutes) && isChoosingDate == old(isChoosingDate)
    {
      selected := None;
      outer := None;
      error := None;
      isOpen := false;
    }

    /** A keystroke in the hour field with resulting text `value`. */
    method OnHoursInput(value: string)
      requires Valid()
      modifies this
      ensures Valid()
      ensures (HourPattern(value) || value == []) ==> hours == PadStart(value, 2, '0')
      ensures !(HourPattern(value) || value == []) ==> hours == old(hours)
      ensures selected == old(selected) && outer == old(outer) && minutes == old(minutes)
      ensures error == old(error) && isOpen == old(isOpen) && isChoosingDate == old(isChoosingDate)
    {
      if HourPattern(value) || value == [] {
        HourPatternMeaning(value);
        AcceptedInputIsField(value, 23);
        hours := PadStart(value, 2, '0');
      }
    }

    /** A keystroke in the minute field with resulting text `value`. */
    method OnMinutesInput(value: string)
      requires Valid()
      modifies this
      ensures Valid()
      ensures (MinutePattern(value) || value == []) ==> minutes == PadStart(value, 2, '0')
      ensures !(MinutePattern(value) || value == []) ==> minutes == old(minutes)
      ensures selected == old(selected) && outer == old(outer) && hours == old(hours)
      ensures error == old(error) && isOpen == old(isOpen) && isChoosingDate == old(isChoosingDate)
    {
      if MinutePattern(value) || value == [] {
        MinutePatternMeaning(value);
        AcceptedInputIsField(value, 59);
        minutes := PadStart(value, 2, '0');
      }
    }
  }
}

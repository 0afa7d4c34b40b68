/**
 The day arithmetic behind time-aware queries, after `hippmem-model/src/time_query.rs`:
 relative terms, month ranges and the year of a yearless date. String scanning is left out;
 its results (a term, a month, a day, optional years) are the inputs here.
 */
module TimeQuery {
  import opened CivilCalendar

  datatype Spec = SingleDay(day: int) | Range(startDay: int, endDay: int)

  datatype Term = Today | Yesterday | DayBeforeYesterday | ThisWeek | LastWeek | ThisMonth | LastMonth | ThisYear

  datatype RangeParse = TooLarge | InRange(spec: Spec)

  const MS_PER_DAY := 86_400_000
  const RANGE_MAX_DAYS := 93

  function DayOf(ts: int): int {
    TruncDiv(ts, MS_PER_DAY)
  }

  /** 0 = Monday .. 6 = Sunday. */
  function Weekday(days: int): nat {
    (days + 3) % 7
  }

  function LastDayOfMonth(year: int, month: nat): nat {
    var ny := if month == 12 then year + 1 else year;
    var nm := if month == 12 then 1 else month + 1;
    var n := DaysFromCivil(ny, nm, 1) - DaysFromCivil(year, month, 1);
    if n >= 0 then n else 0
  }

  function WholeMonths(y1: int, m1: nat, y2: int, m2: nat): Spec {
    Range(DaysFromCivil(y1, m1, 1), DaysFromCivil(y2, m2, LastDayOfMonth(y2, m2)))
  }

  function SpecForTerm(term: Term, today: int): Spec {
    match term
    case Today => SingleDay(today)
    case Yesterday => SingleDay(today - 1)
    case DayBeforeYesterday => SingleDay(today - 2)
    case ThisWeek =>
      var monday := today - Weekday(today);
      Range(monday, monday + 6)
    case LastWeek =>
      var monday := today - Weekday(today);
      Range(monday - 7, monday - 1)
    case ThisMonth =>
      var c := CivilFromDays(today);
      WholeMonths(c.year, c.month, c.year, c.month)
    case LastMonth =>
      var c := CivilFromDays(today);
      var l := MonthBefore(c.year, c.month);
      WholeMonths(l.year, l.month, l.year, l.month)
    case ThisYear =>
      var c := CivilFromDays(today);
      Range(DaysFromCivil(c.year, 1, 1), DaysFromCivil(c.year, 12, 31))
  }

  function MonthBefore(year: int, month: nat): Date {
    if month <= 1 then Date(year - 1, 12, 1) else Date(year, month - 1, 1)
  }

  function ParseRange(startDay: int, endDay: int): RangeParse {
    if endDay < startDay || endDay - startDay + 1 > RANGE_MAX_DAYS then TooLarge
    else InRange(Range(startDay, endDay))
  }

  /** "M月D日" without a year: a date after today means last year's. */
  function YearlessYear(today: int, month: nat, day: nat): int {
    RollBack(today, CivilFromDays(today).year, month, day)
  }

  function RollBack(today: int, thisYear: int, month: nat, day: nat): int {
    if DaysFromCivil(thisYear, month, day) > today then thisYear - 1 else thisYear
  }

  predicate Covers(spec: Spec, day: int) {
    match spec
    case SingleDay(d) => day == d
    case Range(s, e) => s <= day <= e
  }

  // ----- days within a month and a year -----

  lemma DayOffset(year: int, month: nat, day: nat)
    requires month <= 12
    ensures DaysFromCivil(year, month, day) == DaysFromCivil(year, month, 1) + day - 1
  {
    var y := if month <= 2 then year - 1 else year;
    DaysFromCivilShape(year, month, day, y / 400, y % 400);
    DaysFromCivilShape(year, month, 1, y / 400, y % 400);
  }

  /** The day-count difference of two month starts is the Gregorian month length. */
  lemma LastDayIsMonthLength(year: int, month: nat)
    requires 1 <= month <= 12
    ensures LastDayOfMonth(year, month) == MonthLength(year, month)
  {
    var last := Date(year, month, MonthLength(year, month));
    NextDateCount(last);
    DayOffset(year, month, last.day);
  }

  /** A run of whole months covers a day exactly when the day's month is in it. */
  lemma WholeMonthsCover(y1: int, m1: nat, y2: int, m2: nat, day: int)
    requires 1 <= m1 <= 12 && 1 <= m2 <= 12
    ensures var c := CivilFromDays(day);
            Covers(WholeMonths(y1, m1, y2, m2), day) <==>
            !Earlier(Date(c.year, c.month, 1), Date(y1, m1, 1)) && !Earlier(Date(y2, m2, 1), Date(c.year, c.month, 1))
  {
    CivilRoundTrip(day);
    LastDayIsMonthLength(y2, m2);
    CountOrder(CivilFromDays(day), Date(y1, m1, 1));
    CountOrder(Date(y2, m2, MonthLength(y2, m2)), CivilFromDays(day));
  }

  /** Today, yesterday and the day before are single days, each the calendar day before the next. */
  lemma DayTerms(today: int, day: int)
    ensures Covers(SpecForTerm(Today, today), day) <==> CivilFromDays(day) == CivilFromDays(today)
    ensures Covers(SpecForTerm(Yesterday, today), day) <==> NextDate(CivilFromDays(day)) == CivilFromDays(today)
    ensures Covers(SpecForTerm(DayBeforeYesterday, today), day) <==>
            NextDate(NextDate(CivilFromDays(day))) == CivilFromDays(today)
  {
    CivilRoundTrip(today);
    CivilRoundTrip(day);
    CivilRoundTrip(day + 1);
    CivilRoundTrip(day + 2);
    CountingWalksCalendar(day);
    CountingWalksCalendar(day + 1);
  }

  lemma ThisMonthIsTheMonth(today: int, day: int)
    ensures var c, t := CivilFromDays(day), CivilFromDays(today);
            Covers(SpecForTerm(ThisMonth, today), day) <==> c.year == t.year && c.month == t.month
  {
    CivilRoundTrip(today);
    var t := CivilFromDays(today);
    WholeMonthsCover(t.year, t.month, t.year, t.month, day);
  }

  lemma ThisYearIsTheYear(today: int, day: int)
    ensures Covers(SpecForTerm(ThisYear, today), day) <==> CivilFromDays(day).year == CivilFromDays(today).year
  {
    CivilRoundTrip(day);
    var y := CivilFromDays(today).year;
    CountOrder(CivilFromDays(day), Date(y, 1, 1));
    CountOrder(Date(y, 12, 31), CivilFromDays(day));
  }

  lemma LastMonthIsTheMonthBefore(today: int, day: int)
    ensures var c, t := CivilFromDays(day), CivilFromDays(today);
            Covers(SpecForTerm(LastMonth, today), day) <==> 12 * c.year + c.month == 12 * t.year + t.month - 1
  {
    CivilRoundTrip(today);
    CivilRoundTrip(day);
    var t := CivilFromDays(today);
    var l := MonthBefore(t.year, t.month);
    WholeMonthsCover(l.year, l.month, l.year, l.month, day);
  }

  /** Last month ends the day before this month begins. */
  lemma LastMonthTouchesThis(today: int)
    ensures SpecForTerm(LastMonth, today).endDay == SpecForTerm(ThisMonth, today).startDay - 1
  {
    CivilRoundTrip(today);
    var t := CivilFromDays(today);
    var l := MonthBefore(t.year, t.month);
    EndOfMonth(l.year, l.month, t.year, t.month);
  }

  lemma EndOfMonth(y: int, m: nat, ny: int, nm: nat)
    requires 1 <= m <= 12 && ny == (if m == 12 then y + 1 else y) && nm == (if m == 12 then 1 else m + 1)
    ensures DaysFromCivil(y, m, LastDayOfMonth(y, m)) == DaysFromCivil(ny, nm, 1) - 1
  {
    LastDayIsMonthLength(y, m);
    NextDateCount(Date(y, m, MonthLength(y, m)));
  }

  /** Weeks are the Monday-to-Sunday blocks; last week is this week seven days ago. */
  lemma WeekBlocks(today: int, day: int)
    ensures Covers(SpecForTerm(ThisWeek, today), today)
    ensures Covers(SpecForTerm(ThisWeek, today), day) <==> SpecForTerm(ThisWeek, day) == SpecForTerm(ThisWeek, today)
    ensures Weekday(SpecForTerm(ThisWeek, today).startDay) == 0
    ensures SpecForTerm(ThisWeek, today).startDay % 7 == 4
    ensures SpecForTerm(LastWeek, today) == SpecForTerm(ThisWeek, today - 7)
    ensures SpecForTerm(LastWeek, today).endDay == SpecForTerm(ThisWeek, today).startDay - 1
  {
    Quotient(today + 3, 7, (today + 3) / 7);
    Quotient(day + 3, 7, (day + 3) / 7);
    Quotient(today - 7 + 3, 7, (today + 3) / 7 - 1);
    Quotient(today - Weekday(today) + 3, 7, (today + 3) / 7);
    var a, b := (today + 3) / 7, (day + 3) / 7;
    assert today - Weekday(today) == 7 * a - 3;
    assert day - Weekday(day) == 7 * b - 3;
  }

  // ----- ranges -----

  lemma MonthSpan(y: int, m: nat)
    requires 1 <= m <= 12
    ensures var ny, nm := if m == 12 then y + 1 else y, if m == 12 then 1 else m + 1;
            DaysFromCivil(ny, nm, 1) == DaysFromCivil(y, m, 1) + MonthLength(y, m)
  {
    var last := Date(y, m, MonthLength(y, m));
    NextDateCount(last);
    DayOffset(y, m, last.day);
  }

  function MonthIndex(y: int, m: nat): int {
    12 * y + m
  }

  lemma {:induction false} MonthsApart(y1: int, m1: nat, y2: int, m2: nat)
    requires 1 <= m1 <= 12 && 1 <= m2 <= 12 && MonthIndex(y1, m1) <= MonthIndex(y2, m2)
    ensures var k := MonthIndex(y2, m2) - MonthIndex(y1, m1);
            28 * k <= DaysFromCivil(y2, m2, 1) - DaysFromCivil(y1, m1, 1) <= 31 * k
    decreases MonthIndex(y2, m2) - MonthIndex(y1, m1)
  {
    if MonthIndex(y1, m1) < MonthIndex(y2, m2) {
      MonthSpan(y1, m1);
      if m1 == 12 {
        MonthsApart(y1 + 1, 1, y2, m2);
      } else {
        MonthsApart(y1, m1 + 1, y2, m2);
      }
    } else {
      assert y1 == y2 && m1 == m2;
    }
  }

  /** A range is accepted exactly when it does not end before it begins and has at most 93 days. */
  lemma RangeAccepted(startDay: int, endDay: int)
    ensures ParseRange(startDay, endDay) ==
            if 0 <= endDay - startDay <= 92 then InRange(Range(startDay, endDay)) else TooLarge
  {
  }

  /** The 93-day cap accepts a run of whole months exactly when it spans at most three. */
  lemma MonthRangeAccepted(y1: int, m1: nat, y2: int, m2: nat)
    requires 1 <= m1 <= 12 && 1 <= m2 <= 12
    requires MonthIndex(y1, m1) <= MonthIndex(y2, m2)
    ensures var w := WholeMonths(y1, m1, y2, m2);
            ParseRange(w.startDay, w.endDay).InRange? <==> MonthIndex(y2, m2) - MonthIndex(y1, m1) <= 2
  {
    MonthsApart(y1, m1, y2, m2);
    LastDayIsMonthLength(y2, m2);
    DayOffset(y2, m2, MonthLength(y2, m2));
  }

  // ----- yearless dates -----

  lemma YearStep(y: int, m: nat, d: nat)
    requires m <= 12
    ensures 365 <= DaysFromCivil(y + 1, m, d) - DaysFromCivil(y, m, d) <= 366
  {
    var b := if m <= 2 then y - 1 else y;
    var era, yoe := b / 400, b % 400;
    DaysFromCivilShape(y, m, d, era, yoe);
    MarchYearLength(yoe);
    if yoe < 399 {
      DaysFromCivilShape(y + 1, m, d, era, yoe + 1);
    } else {
      DaysFromCivilShape(y + 1, m, d, era + 1, 0);
    }
  }

  lemma DayWithinYear(y: int, m: nat, d: nat)
    requires 1 <= m <= 12 && 1 <= d <= 31
    ensures DaysFromCivil(y, 1, 1) <= DaysFromCivil(y, m, d) <= DaysFromCivil(y, 12, 31)
  {
    DayOffset(y, m, d);
    DayOffset(y, 12, 31);
    CountOrder(Date(y, m, 1), Date(y, 1, 1));
    if m < 12 {
      MonthsApart(y, m, y, 12);
    }
  }

  /**
   A yearless date resolves to its most recent occurrence: not after today, at most 365 days back,
   and a year later it would be in the future.
   */
  lemma YearlessIsMostRecent(today: int, month: nat, day: nat)
    requires 1 <= month <= 12 && 1 <= day <= 31
    ensures var y := YearlessYear(today, month, day);
            0 <= today - DaysFromCivil(y, month, day) <= 365 && today < DaysFromCivil(y + 1, month, day)
  {
    ThisYearIsTheYear(today, today);
    YearlessBounds(today, CivilFromDays(today).year, month, day);
  }

  lemma YearlessBounds(today: int, thisYear: int, month: nat, day: nat)
    requires 1 <= month <= 12 && 1 <= day <= 31
    requires DaysFromCivil(thisYear, 1, 1) <= today <= DaysFromCivil(thisYear, 12, 31)
    ensures var y := RollBack(today, thisYear, month, day);
            0 <= today - DaysFromCivil(y, month, day) <= 365 && today < DaysFromCivil(y + 1, month, day)
  {
    var y := thisYear;
    DayWithinYear(y, month, day);
    YearBounds(y);
    if DaysFromCivil(y, month, day) > today {
      DayWithinYear(y - 1, month, day);
      YearStep(y - 1, month, day);
      YearBounds(y - 1);
    } else {
      DayWithinYear(y + 1, month, day);
    }
  }

  lemma YearBounds(y: int)
    ensures DaysFromCivil(y + 1, 1, 1) == DaysFromCivil(y, 12, 31) + 1
    ensures DaysFromCivil(y, 12, 31) - DaysFromCivil(y, 1, 1) <= 365
  {
    NextDateCount(Date(y, 12, 31));
    YearStep(y, 1, 1);
  }

  /** The resolved day is the asked calendar date exactly when that month has such a day. */
  lemma YearlessDate(y: int, month: nat, day: nat)
    requires 1 <= month <= 12 && 1 <= day
    ensures CivilFromDays(DaysFromCivil(y, month, day)) == Date(y, month, day) <==> day <= MonthLength(y, month)
  {
    CivilRoundTrip(DaysFromCivil(y, month, day));
    if day <= MonthLength(y, month) {
      DateRoundTrip(Date(y, month, day));
    }
  }

  /** Truncation gives the UTC day for every timestamp except the part-days before the epoch. */
  lemma DayOfIsUtcDay(ts: int)
    ensures DayOf(ts) == ts / 86_400_000 <==> ts >= 0 || ts % 86_400_000 == 0
    ensures DayOf(ts) == ts / 86_400_000 || DayOf(ts) == ts / 86_400_000 + 1
  {
    if ts < 0 {
      var q, r := ts / MS_PER_DAY, ts % MS_PER_DAY;
      TruncIs(-ts, MS_PER_DAY, if r == 0 then -q else -q - 1);
    } else {
      TruncNonNegative(ts, MS_PER_DAY);
    }
  }
}

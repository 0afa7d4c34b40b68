/**
 Day counts and civil dates (proleptic Gregorian), after `hippmem-core/src/time.rs`.
 The reference is the calendar itself: the leap rule and month lengths of RFC 3339
 (section 5.7 and Appendix C) and the rule for the day after a date.
 */
module CivilCalendar {

  datatype Date = Date(year: int, month: nat, day: nat)

  // ----- the two algorithms -----

  /** Rust's integer division: how often `b` fits, with the sign of `a` (rounds toward zero). */
  function TruncDiv(a: int, b: int): int
    requires b > 0
    decreases a < 0, if a < 0 then -a else a
  {
    if a < 0 then -TruncDiv(-a, b) else if a < b then 0 else 1 + TruncDiv(a - b, b)
  }

  function DaysFromCivil(year: int, month: nat, day: nat): int {
    var y := if month <= 2 then year - 1 else year;
    var era := TruncDiv(if y >= 0 then y else y - 399, 400);
    var yoe := y - era * 400;
    var doy := TruncDiv(153 * (if month > 2 then month - 3 else month + 9) + 2, 5) + day - 1;
    var doe := yoe * 365 + TruncDiv(yoe, 4) - TruncDiv(yoe, 100) + doy;
    era * 146097 + doe - 719468
  }

  function CivilFromDays(days: int): Date {
    var z := days + 719468;
    var era := TruncDiv(if z >= 0 then z else z - 146096, 146097);
    var doe := z - era * 146097;
    var yoe := TruncDiv(doe - TruncDiv(doe, 1460) + TruncDiv(doe, 36524) - TruncDiv(doe, 146096), 365);
    var y := yoe + era * 400;
    var doy := doe - (365 * yoe + TruncDiv(yoe, 4) - TruncDiv(yoe, 100));
    var mp := TruncDiv(5 * doy + 2, 153);
    var d := doy - TruncDiv(153 * mp + 2, 5) + 1;
    var m := if mp < 10 then mp + 3 else mp - 9;
    // `as u32`: both values are proved to be in range by CivilRoundTrip
    Date(if m <= 2 then y + 1 else y, if m >= 0 then m else 0, if d >= 0 then d else 0)
  }

  // ----- the calendar they must agree with -----

  predicate LeapYear(year: int) {
    year % 4 == 0 && (year % 100 != 0 || year % 400 == 0)
  }

  function MonthLength(year: int, month: nat): nat {
    if month == 2 then (if LeapYear(year) then 29 else 28)
    else if month == 4 || month == 6 || month == 9 || month == 11 then 30
    else 31
  }

  predicate ValidDate(d: Date) {
    1 <= d.month <= 12 && 1 <= d.day <= MonthLength(d.year, d.month)
  }

  function NextDate(d: Date): Date {
    if d.day < MonthLength(d.year, d.month) then Date(d.year, d.month, d.day + 1)
    else if d.month < 12 then Date(d.year, d.month + 1, 1)
    else Date(d.year + 1, 1, 1)
  }

  predicate Earlier(a: Date, b: Date) {
    a.year < b.year || (a.year == b.year && (a.month < b.month || (a.month == b.month && a.day < b.day)))
  }

  function DayCount(d: Date): int {
    DaysFromCivil(d.year, d.month, d.day)
  }

  // ----- the March-based year -----

  /** Days of the March-based years 0..y-1 inside one 400-year era. */
  function EraDays(yoe: nat): nat {
    yoe * 365 + yoe / 4 - yoe / 100
  }

  /** First day of month `mp` (March = 0) inside a March-based year. */
  function MonthStart(mp: nat): nat {
    (153 * mp + 2) / 5
  }

  /** The last day of a March-based year is 29 February exactly before a leap year's March. */
  predicate InMarchYear(yoe: int, doy: int) {
    0 <= yoe < 400 && 0 <= doy <= 365 && (doy == 365 ==> LeapYear(yoe + 1))
  }

  lemma Quotient(a: int, b: int, q: int)
    requires b > 0 && b * q <= a < b * q + b
    ensures a / b == q && a % b == a - b * q
  {
    var r := a - b * q;
    var d := a / b - q;
    assert b * d == r - a % b by {
      assert a == b * (a / b) + a % b;
      assert b * (a / b) == b * q + b * d;
    }
    assert d >= 1 ==> b * d >= b;
    assert d <= -1 ==> b * d <= -b;
  }

  /** On non-negative dividends truncation is the quotient. */
  lemma {:induction false} TruncIs(a: int, b: int, q: int)
    requires b > 0 && a >= 0 && b * q <= a < b * q + b
    ensures TruncDiv(a, b) == q && a / b == q
    decreases a
  {
    Quotient(a, b, q);
    if a < b {
      Quotient(a, b, 0);
    } else {
      assert b * (q - 1) == b * q - b;
      TruncIs(a - b, b, q - 1);
    }
  }

  lemma TruncNonNegative(a: int, b: int)
    requires b > 0 && a >= 0
    ensures TruncDiv(a, b) == a / b
  {
    assert b * (a / b) + a % b == a;
    TruncIs(a, b, a / b);
  }

  /** Shifting a negative dividend makes truncation round down. */
  lemma ShiftedTrunc(a: int, b: int, q: int)
    requires b > 0 && b * q <= a < b * q + b
    ensures TruncDiv(if a >= 0 then a else a - (b - 1), b) == q
  {
    if a >= 0 {
      TruncIs(a, b, q);
    } else {
      assert b * (-q) == -(b * q);
      TruncIs(-(a - (b - 1)), b, -q);
    }
  }

  lemma DaysFromCivilShape(year: int, month: nat, day: nat, era: int, yoe: int)
    requires month <= 12
    requires 0 <= yoe < 400
    requires (if month <= 2 then year - 1 else year) == era * 400 + yoe
    ensures DaysFromCivil(year, month, day) ==
            era * 146097 + EraDays(yoe) + MonthStart(if month > 2 then month - 3 else month + 9) + day - 1 - 719468
  {
    var y := if month <= 2 then year - 1 else year;
    var mp := if month > 2 then month - 3 else month + 9;
    var t4, t100, tm := TruncDiv(yoe, 4), TruncDiv(yoe, 100), TruncDiv(153 * mp + 2, 5);
    assert TruncDiv(if y >= 0 then y else y - 399, 400) == era by {
      ShiftedTrunc(y, 400, era);
    }
    assert DaysFromCivil(year, month, day) == era * 146097 + (yoe * 365 + t4 - t100 + (tm + day - 1)) - 719468;
    TruncNonNegative(yoe, 4);
    TruncNonNegative(yoe, 100);
    TruncNonNegative(153 * mp + 2, 5);
  }

  /** Day of the era from century, leap cycle, year of the cycle and day of the year. */
  function DayOfEra(c: int, q: int, r: int, doy: int): int {
    36524 * c + 1461 * q + 365 * r + doy
  }

  predicate EraDigits(c: int, q: int, r: int, doy: int) {
    0 <= c < 4 && 0 <= q < 25 && 0 <= r < 4 && 0 <= doy <= 365 && (doy == 365 ==> r == 3 && (q == 24 ==> c == 3))
  }

  lemma CycleQuotient(c: int, q: int, r: int, doy: int)
    requires EraDigits(c, q, r, doy)
    ensures DayOfEra(c, q, r, doy) / 1460 == 25 * c + q + if 24 * c + q + 365 * r + doy >= 1460 then 1 else 0
  {
    var u := if 24 * c + q + 365 * r + doy >= 1460 then 1 else 0;
    Quotient(DayOfEra(c, q, r, doy), 1460, 25 * c + q + u);
  }

  lemma CenturyQuotient(c: int, q: int, r: int, doy: int)
    requires EraDigits(c, q, r, doy)
    ensures var doe := DayOfEra(c, q, r, doy);
            0 <= doe < 146097 && doe / 36524 == c + if doe == 146096 then 1 else 0
  {
    var doe := DayOfEra(c, q, r, doy);
    Quotient(doe, 36524, c + if doe == 146096 then 1 else 0);
  }

  lemma LastDayQuotient(doe: int)
    requires 0 <= doe < 146097
    ensures doe / 146096 == if doe == 146096 then 1 else 0
  {
    Quotient(doe, 146096, if doe == 146096 then 1 else 0);
  }

  lemma YearQuotient(x: int, c: int, q: int, r: int, doy: int, u: int)
    requires EraDigits(c, q, r, doy) && u == if 24 * c + q + 365 * r + doy >= 1460 then 1 else 0
    requires x == DayOfEra(c, q, r, doy) - (25 * c + q + u) + c
    ensures x / 365 == 100 * c + 4 * q + r
  {
    Quotient(x, 365, 100 * c + 4 * q + r);
  }

  lemma YearFormula(c: int, q: int, r: int, doy: int)
    requires EraDigits(c, q, r, doy)
    ensures var doe := DayOfEra(c, q, r, doy);
            0 <= doe < 146097 &&
            (doe - doe / 1460 + doe / 36524 - doe / 146096) / 365 == 100 * c + 4 * q + r
  {
    var doe := DayOfEra(c, q, r, doy);
    CycleQuotient(c, q, r, doy);
    CenturyQuotient(c, q, r, doy);
    LastDayQuotient(doe);
    YearQuotient(doe - doe / 1460 + doe / 36524 - doe / 146096, c, q, r, doy, doe / 1460 - 25 * c - q);
  }

  lemma YearDigits(yoe: int) returns (c: int, q: int, r: int)
    requires 0 <= yoe < 400
    ensures 0 <= c < 4 && 0 <= q < 25 && 0 <= r < 4 && yoe == 100 * c + 4 * q + r
    ensures EraDays(yoe) == DayOfEra(c, q, r, 0)
  {
    c, q, r := yoe / 100, yoe % 100 / 4, yoe % 4;
    assert yoe == 100 * c + 4 * q + r;
    Quotient(yoe, 4, 25 * c + q);
    Quotient(yoe, 100, c);
  }

  lemma LeapDigits(yoe: int, c: int, q: int, r: int)
    requires 0 <= c < 4 && 0 <= q < 25 && 0 <= r < 4 && yoe == 100 * c + 4 * q + r && LeapYear(yoe + 1)
    ensures r == 3 && (q == 24 ==> c == 3)
  {
    if r < 3 {
      Quotient(yoe + 1, 4, 25 * c + q);
    } else if q == 24 && c < 3 {
      Quotient(yoe + 1, 100, c + 1);
      Quotient(yoe + 1, 400, 0);
    }
  }

  /** The year-of-era formula inverts EraDays. */
  lemma YearOfEra(yoe: int, doy: int)
    requires InMarchYear(yoe, doy)
    ensures var doe := EraDays(yoe) + doy;
            0 <= doe < 146097 && (doe - doe / 1460 + doe / 36524 - doe / 146096) / 365 == yoe
  {
    var c, q, r := YearDigits(yoe);
    if doy == 365 {
      LeapDigits(yoe, c, q, r);
    }
    YearFormula(c, q, r, doy);
    assert EraDays(yoe) + doy == DayOfEra(c, q, r, doy);
  }

  /** Every day of an era lies in exactly one March-based year. */
  lemma EraSplit(doe: int) returns (yoe: int, doy: int)
    requires 0 <= doe < 146097
    ensures InMarchYear(yoe, doy) && doe == EraDays(yoe) + doy
  {
    var c := if doe == 146096 then 3 else doe / 36524;
    var a := doe - 36524 * c;
    var q := a / 1461;
    var b := a - 1461 * q;
    var r := if b == 1460 then 3 else b / 365;
    yoe, doy := 100 * c + 4 * q + r, b - 365 * r;
    assert yoe / 100 == c && yoe / 4 == 25 * c + q;
  }

  /** The month formula inverts MonthStart. */
  lemma MonthOfYear(mp: int, d: int)
    requires 0 <= mp <= 11 && 1 <= d && MonthStart(mp) + d <= MonthStart(mp + 1) && MonthStart(mp) + d <= 366
    ensures (5 * (MonthStart(mp) + d - 1) + 2) / 153 == mp
  {
  }

  lemma MonthSplit(doy: int) returns (mp: int, d: int)
    requires 0 <= doy <= 365
    ensures 0 <= mp <= 11 && 1 <= d && doy == MonthStart(mp) + d - 1
    ensures MonthStart(mp) + d <= MonthStart(mp + 1)
    ensures mp == (5 * doy + 2) / 153
  {
    mp := (5 * doy + 2) / 153;
    d := doy - MonthStart(mp) + 1;
  }

  lemma CivilFromDaysSteps(days: int, era: int, doe: int, yoe: int, doy: int, mp: int, d: int)
    requires var z := days + 719468; era == TruncDiv(if z >= 0 then z else z - 146096, 146097)
    requires doe == days + 719468 - era * 146097
    requires yoe == TruncDiv(doe - TruncDiv(doe, 1460) + TruncDiv(doe, 36524) - TruncDiv(doe, 146096), 365)
    requires doy == doe - (365 * yoe + TruncDiv(yoe, 4) - TruncDiv(yoe, 100))
    requires mp == TruncDiv(5 * doy + 2, 153) && 0 <= mp <= 11
    requires d == doy - TruncDiv(153 * mp + 2, 5) + 1 && d >= 0
    ensures CivilFromDays(days) ==
            Date(yoe + era * 400 + (if mp < 10 then 0 else 1), if mp < 10 then mp + 3 else mp - 9, d)
  {
  }

  lemma YearOfEraTrunc(doe: int, yoe: int, doy: int)
    requires InMarchYear(yoe, doy) && doe == EraDays(yoe) + doy
    ensures 0 <= doe < 146097
    ensures yoe == TruncDiv(doe - TruncDiv(doe, 1460) + TruncDiv(doe, 36524) - TruncDiv(doe, 146096), 365)
    ensures doy == doe - (365 * yoe + TruncDiv(yoe, 4) - TruncDiv(yoe, 100))
  {
    YearOfEra(yoe, doy);
    TruncNonNegative(doe, 1460);
    TruncNonNegative(doe, 36524);
    TruncNonNegative(doe, 146096);
    TruncNonNegative(doe - doe / 1460 + doe / 36524 - doe / 146096, 365);
    TruncNonNegative(yoe, 4);
    TruncNonNegative(yoe, 100);
  }

  lemma CivilFromDaysShape(days: int, era: int, yoe: int, mp: int, d: int)
    requires 0 <= mp <= 11 && 1 <= d && MonthStart(mp) + d <= MonthStart(mp + 1)
    requires InMarchYear(yoe, MonthStart(mp) + d - 1)
    requires days == era * 146097 + EraDays(yoe) + MonthStart(mp) + d - 1 - 719468
    ensures CivilFromDays(days) ==
            Date(yoe + era * 400 + (if mp < 10 then 0 else 1), if mp < 10 then mp + 3 else mp - 9, d)
  {
    var doy := MonthStart(mp) + d - 1;
    var doe := EraDays(yoe) + doy;
    MonthOfYearTrunc(doy, mp, d);
    CivilFromDaysParts(days, era, doe, yoe, doy, mp, d);
  }

  lemma CivilFromDaysParts(days: int, era: int, doe: int, yoe: int, doy: int, mp: int, d: int)
    requires InMarchYear(yoe, doy) && doe == EraDays(yoe) + doy && days == era * 146097 + doe - 719468
    requires mp == TruncDiv(5 * doy + 2, 153) && 0 <= mp <= 11
    requires d == doy - TruncDiv(153 * mp + 2, 5) + 1 && d >= 0
    ensures CivilFromDays(days) ==
            Date(yoe + era * 400 + (if mp < 10 then 0 else 1), if mp < 10 then mp + 3 else mp - 9, d)
  {
    YearOfEraTrunc(doe, yoe, doy);
    ShiftedTrunc(days + 719468, 146097, era);
    CivilFromDaysSteps(days, era, doe, yoe, doy, mp, d);
  }

  lemma MonthOfYearTrunc(doy: int, mp: int, d: int)
    requires 0 <= mp <= 11 && 1 <= d && MonthStart(mp) + d <= MonthStart(mp + 1) && doy == MonthStart(mp) + d - 1
    requires doy <= 365
    ensures mp == TruncDiv(5 * doy + 2, 153) && d == doy - TruncDiv(153 * mp + 2, 5) + 1
  {
    MonthOfYear(mp, d);
    TruncNonNegative(5 * doy + 2, 153);
    TruncNonNegative(153 * mp + 2, 5);
  }

  /** A valid date seen from the March-based year, and back. */
  lemma MarchView(date: Date) returns (era: int, yoe: int, mp: int)
    requires ValidDate(date)
    ensures 0 <= mp <= 11 && MonthStart(mp) + date.day <= MonthStart(mp + 1)
    ensures InMarchYear(yoe, MonthStart(mp) + date.day - 1)
    ensures date.year == yoe + era * 400 + (if mp < 10 then 0 else 1)
    ensures date.month == if mp < 10 then mp + 3 else mp - 9
    ensures DayCount(date) == era * 146097 + EraDays(yoe) + MonthStart(mp) + date.day - 1 - 719468
  {
    var y := if date.month <= 2 then date.year - 1 else date.year;
    era, yoe := y / 400, y % 400;
    mp := if date.month > 2 then date.month - 3 else date.month + 9;
    LeapShift(era, yoe + 1);
    DaysFromCivilShape(date.year, date.month, date.day, era, yoe);
  }

  lemma FromMarchView(era: int, yoe: int, mp: int, d: int)
    requires 0 <= mp <= 11 && 1 <= d && MonthStart(mp) + d <= MonthStart(mp + 1)
    requires InMarchYear(yoe, MonthStart(mp) + d - 1)
    ensures var date := Date(yoe + era * 400 + (if mp < 10 then 0 else 1), if mp < 10 then mp + 3 else mp - 9, d);
            ValidDate(date) &&
            DayCount(date) == era * 146097 + EraDays(yoe) + MonthStart(mp) + d - 1 - 719468
  {
    var date := Date(yoe + era * 400 + (if mp < 10 then 0 else 1), if mp < 10 then mp + 3 else mp - 9, d);
    LeapShift(era, yoe + 1);
    DaysFromCivilShape(date.year, date.month, date.day, era, yoe);
  }

  // ----- main results -----

  /** Every day count is a valid date, and counting its days gives the number back. */
  lemma CivilRoundTrip(days: int)
    ensures ValidDate(CivilFromDays(days))
    ensures DayCount(CivilFromDays(days)) == days
  {
    var z := days + 719468;
    var era := z / 146097;
    var yoe, doy := EraSplit(z % 146097);
    var mp, d := MonthSplit(doy);
    CivilFromDaysShape(days, era, yoe, mp, d);
    FromMarchView(era, yoe, mp, d);
  }

  lemma LeapShift(era: int, y: int)
    ensures LeapYear(era * 400 + y) <==> LeapYear(y)
  {
    var x := era * 400 + y;
    Quotient(x, 4, era * 100 + y / 4);
    Quotient(x, 100, era * 4 + y / 100);
    Quotient(x, 400, era + y / 400);
  }

  /** Every valid date is recovered from its day count. */
  lemma DateRoundTrip(date: Date)
    requires ValidDate(date)
    ensures CivilFromDays(DayCount(date)) == date
  {
    var era, yoe, mp := MarchView(date);
    CivilFromDaysShape(DayCount(date), era, yoe, mp, date.day);
  }

  lemma NextInMonth(date: Date)
    requires ValidDate(date) && date.day < MonthLength(date.year, date.month)
    ensures DayCount(NextDate(date)) == DayCount(date) + 1
  {
    var y := if date.month <= 2 then date.year - 1 else date.year;
    DaysFromCivilShape(date.year, date.month, date.day, y / 400, y % 400);
    DaysFromCivilShape(date.year, date.month, date.day + 1, y / 400, y % 400);
  }

  /** March to January: the next month starts where this one ends. */
  lemma MonthStep(month: nat)
    requires 1 <= month <= 12 && month != 2
    ensures var mp := if month > 2 then month - 3 else month + 9;
            MonthStart(mp + 1) == MonthStart(mp) + MonthLength(1, month)
  {
  }

  lemma NextMonth(date: Date)
    requires ValidDate(date) && date.day == MonthLength(date.year, date.month) && date.month != 2
    ensures DayCount(NextDate(date)) == DayCount(date) + 1
  {
    var y := if date.month <= 2 then date.year - 1 else date.year;
    var n := NextDate(date);
    MonthStep(date.month);
    DaysFromCivilShape(date.year, date.month, date.day, y / 400, y % 400);
    DaysFromCivilShape(n.year, n.month, n.day, y / 400, y % 400);
  }

  lemma LastOfFebruary(year: int, era: int, yoe: int)
    requires year - 1 == era * 400 + yoe && 0 <= yoe < 400
    ensures DaysFromCivil(year, 2, MonthLength(year, 2)) ==
            era * 146097 + EraDays(yoe) + (if LeapYear(yoe + 1) then 365 else 364) - 719468
  {
    LeapShift(era, yoe + 1);
    DaysFromCivilShape(year, 2, MonthLength(year, 2), era, yoe);
  }

  lemma FirstOfMarch(year: int, era: int, yoe: int)
    requires year == era * 400 + yoe && 0 <= yoe < 400
    ensures DaysFromCivil(year, 3, 1) == era * 146097 + EraDays(yoe) - 719468
  {
    DaysFromCivilShape(year, 3, 1, era, yoe);
  }

  lemma NextMarch(year: int)
    ensures DaysFromCivil(year, 3, 1) == DaysFromCivil(year, 2, MonthLength(year, 2)) + 1
  {
    var era, yoe := (year - 1) / 400, (year - 1) % 400;
    MarchYearLength(yoe);
    LastOfFebruary(year, era, yoe);
    if yoe < 399 {
      FirstOfMarch(year, era, yoe + 1);
    } else {
      FirstOfMarch(year, era + 1, 0);
    }
  }

  /** The day count of the following date is one more. */
  lemma NextDateCount(date: Date)
    requires ValidDate(date)
    ensures ValidDate(NextDate(date))
    ensures DayCount(NextDate(date)) == DayCount(date) + 1
  {
    if date.day < MonthLength(date.year, date.month) {
      NextInMonth(date);
    } else if date.month != 2 {
      NextMonth(date);
    } else {
      NextMarch(date.year);
    }
  }

  /** A March-based year has 366 days exactly when it ends in a leap year's February. */
  lemma MarchYearLength(yoe: int)
    requires 0 <= yoe < 400
    ensures yoe < 399 ==> EraDays(yoe + 1) == EraDays(yoe) + (if LeapYear(yoe + 1) then 366 else 365)
    ensures yoe == 399 ==> 146097 == EraDays(yoe) + 366 && LeapYear(yoe + 1)
  {
    var q, r := yoe / 4, yoe % 4;
    var c, s := yoe / 100, yoe % 100;
    assert (yoe + 1) / 4 == q + (if r == 3 then 1 else 0);
    assert (yoe + 1) / 100 == c + (if s == 99 then 1 else 0);
  }

  /** Counting up walks the calendar: the epoch is 1 January 1970 and each day is the one before plus one. */
  lemma CountingWalksCalendar(days: int)
    ensures DayCount(Date(1970, 1, 1)) == 0 && CivilFromDays(0) == Date(1970, 1, 1)
    ensures CivilFromDays(days + 1) == NextDate(CivilFromDays(days))
  {
    Epoch();
    DayAfter(days);
  }

  lemma Epoch()
    ensures DayCount(Date(1970, 1, 1)) == 0 && CivilFromDays(0) == Date(1970, 1, 1)
  {
    EpochCount();
    DateRoundTrip(Date(1970, 1, 1));
  }

  lemma EpochCount()
    ensures DaysFromCivil(1970, 1, 1) == 0
  {
    DaysFromCivilShape(1970, 1, 1, 4, 369);
  }

  lemma DayAfter(days: int)
    ensures CivilFromDays(days + 1) == NextDate(CivilFromDays(days))
  {
    CivilRoundTrip(days);
    NextDateCount(CivilFromDays(days));
    DateRoundTrip(NextDate(CivilFromDays(days)));
  }

  /** Day counts order dates the way the calendar does. */
  lemma CountOrder(a: Date, b: Date)
    requires ValidDate(a) && ValidDate(b)
    ensures Earlier(a, b) <==> DayCount(a) < DayCount(b)
  {
    if Earlier(a, b) {
      EarlierCount(a, b);
    } else if a != b {
      EarlierCount(b, a);
    }
  }

  /** Walks from `a` to `b` one date at a time. */
  lemma {:induction false} EarlierCount(a: Date, b: Date)
    requires ValidDate(a) && ValidDate(b) && Earlier(a, b)
    ensures DayCount(a) < DayCount(b)
    decreases b.year - a.year, 12 - a.month, 31 - a.day
  {
    NextDateCount(a);
    if NextDate(a) != b {
      EarlierCount(NextDate(a), b);
    }
  }
}

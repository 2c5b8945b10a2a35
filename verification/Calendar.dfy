/**
 The date arithmetic the cron search leans on: the proleptic Gregorian calendar of
 section 21.4.1 of ECMA-262, counted in whole days and whole minutes since 1970-01-01.
 */
module Calendar {

  const MS_PER_MINUTE := 60_000
  const MINUTES_PER_DAY := 1_440

  predicate IsLeapYear(y: int) {
    y % 4 == 0 && (y % 100 != 0 || y % 400 == 0)
  }

  /** Day number of January 1st of year `y`, counting year lengths away from 1970. */
  function DayFromYear(y: int): int
    decreases if y < 1970 then 1970 - y else y - 1970
  {
    if y == 1970 then 0
    else if y > 1970 then DayFromYear(y - 1) + DaysInYear(y - 1)
    else DayFromYear(y + 1) - DaysInYear(y)
  }

  /** Counting year by year gives the closed formula of section 21.4.1.3 of ECMA-262. */
  lemma {:induction false} DayFromYearFormula(y: int)
    ensures DayFromYear(y) == 365 * (y - 1970) + (y - 1969) / 4 - (y - 1901) / 100 + (y - 1601) / 400
    decreases if y < 1970 then 1970 - y else y - 1970
  {
    if y > 1970 {
      DayFromYearFormula(y - 1);
      FormulaStep(y - 1);
    } else if y < 1970 {
      DayFromYearFormula(y + 1);
      FormulaStep(y);
    }
  }

  lemma FormulaStep(y: int)
    ensures (y - 1968) / 4 - (y - 1900) / 100 + (y - 1600) / 400
         == (y - 1969) / 4 - (y - 1901) / 100 + (y - 1601) / 400 + if IsLeapYear(y) then 1 else 0
  {
    QuotientStep4(y);
    QuotientStep100(y);
    QuotientStep400(y);
  }

  lemma QuotientStep4(y: int)
    ensures (y - 1968) / 4 == (y - 1969) / 4 + if y % 4 == 0 then 1 else 0
  {
  }

  lemma QuotientStep100(y: int)
    ensures (y - 1900) / 100 == (y - 1901) / 100 + if y % 100 == 0 then 1 else 0
  {
  }

  lemma QuotientStep400(y: int)
    ensures (y - 1600) / 400 == (y - 1601) / 400 + if y % 400 == 0 then 1 else 0
  {
  }

  function DaysInYear(y: int): int {
    if IsLeapYear(y) then 366 else 365
  }

  function MonthLength(leap: bool, m0: int): (n: int)
    ensures 28 <= n <= 31
  {
    if m0 == 1 then (if leap then 29 else 28)
    else if m0 == 3 || m0 == 5 || m0 == 8 || m0 == 10 then 30
    else 31
  }

  /** Days of a year before its month `m0`, where 0 is January and 12 stands for the year's end. */
  function DaysBeforeMonth(leap: bool, m0: int): int
    requires 0 <= m0
  {
    if m0 < 2 then 31 * m0 else 59 + (153 * (m0 - 2) + 2) / 5 + if leap then 1 else 0
  }

  lemma YearTotal(leap: bool)
    ensures DaysBeforeMonth(leap, 12) == if leap then 366 else 365
  {
  }

  function DaysInMonth(y: int, month: int): int
    requires 1 <= month <= 12
  {
    MonthLength(IsLeapYear(y), month - 1)
  }

  /** The longest a month ever gets: February counts its leap day. */
  function MaxDaysInMonth(month: int): int
    requires 1 <= month <= 12
  {
    MonthLength(true, month - 1)
  }

  /** MakeDay: months outside 0..11 and dates outside the month carry over. */
  function MakeDay(y: int, m0: int, date: int): int {
    var ym := y + m0 / 12;
    DayFromYear(ym) + DaysBeforeMonth(IsLeapYear(ym), m0 % 12) + date - 1
  }

  datatype Civil = Civil(year: int, month: int, date: int)

  predicate ValidCivil(c: Civil) {
    1 <= c.month <= 12 && 1 <= c.date <= DaysInMonth(c.year, c.month)
  }

  lemma YearStep(y: int)
    ensures DayFromYear(y + 1) == DayFromYear(y) + DaysInYear(y)
  {
  }

  lemma {:induction false} YearsGrow(y1: int, y2: int)
    requires y1 <= y2
    ensures DayFromYear(y1) + 365 * (y2 - y1) <= DayFromYear(y2)
    decreases y2 - y1
  {
    if y1 < y2 {
      YearStep(y1);
      YearsGrow(y1 + 1, y2);
    }
  }

  /** The largest year that starts on or before `day`, searched upwards from `y`. */
  function YearFrom(day: int, y: int): (r: int)
    requires DayFromYear(y) <= day
    ensures DayFromYear(r) <= day < DayFromYear(r + 1)
    decreases day - DayFromYear(y)
  {
    YearStep(y);
    if DayFromYear(y + 1) <= day then YearFrom(day, y + 1) else y
  }

  /** First day number of a month; month 13 is the start of the next year. */
  function MonthStart(y: int, month: int): int
    requires 1 <= month <= 13
  {
    DayFromYear(y) + DaysBeforeMonth(IsLeapYear(y), month - 1)
  }

  lemma MonthStep(y: int, month: int)
    requires 1 <= month <= 12
    ensures MonthStart(y, month + 1) == MonthStart(y, month) + DaysInMonth(y, month)
  {
  }

  lemma MakeDayInYear(y: int, month: int, date: int)
    requires 1 <= month <= 12
    ensures MakeDay(y, month - 1, date) == MonthStart(y, month) + date - 1
  {
  }

  /** The year, month and date of a day number (YearFromTime, MonthFromTime, DateFromTime). */
  function CivilOf(day: int): (c: Civil)
    ensures ValidCivil(c)
    ensures MonthStart(c.year, c.month) + c.date - 1 == day
  {
    StartBelow(day);
    var y := YearFrom(day, 1970 + Floor(day));
    DayInYear(y, day);
    var m := MonthFrom(day - DayFromYear(y), IsLeapYear(y), 1);
    MonthStep(y, m);
    Civil(y, m, day - MonthStart(y, m) + 1)
  }

  lemma DayInYear(y: int, day: int)
    requires DayFromYear(y) <= day < DayFromYear(y + 1)
    ensures 0 <= day - DayFromYear(y) < DaysBeforeMonth(IsLeapYear(y), 12)
  {
    YearStep(y);
    YearTotal(IsLeapYear(y));
  }

  function Floor(day: int): int {
    if day < 0 then day else day / 366
  }

  lemma StartBelow(day: int)
    ensures DayFromYear(1970 + Floor(day)) <= day
  {
    DayFromYearFormula(1970 + Floor(day));
  }

  function MonthFrom(dayInYear: int, leap: bool, m: int): (r: int)
    requires 1 <= m <= 12
    requires DaysBeforeMonth(leap, m - 1) <= dayInYear < DaysBeforeMonth(leap, 12)
    ensures 1 <= r <= 12
    ensures DaysBeforeMonth(leap, r - 1) <= dayInYear < DaysBeforeMonth(leap, r)
    decreases 12 - m
  {
    if m == 12 || dayInYear < DaysBeforeMonth(leap, m) then m else MonthFrom(dayInYear, leap, m + 1)
  }

  lemma {:induction false} MonthsGrow(leap: bool, a: int, b: int)
    requires 0 <= a <= b
    ensures DaysBeforeMonth(leap, a) + 28 * (b - a) <= DaysBeforeMonth(leap, b)
    decreases b
  {
    if a < b { MonthsGrow(leap, a, b - 1); }
  }

  lemma SameYear(y1: int, y2: int, day: int)
    requires DayFromYear(y1) <= day < DayFromYear(y1 + 1)
    requires DayFromYear(y2) <= day < DayFromYear(y2 + 1)
    ensures y1 == y2
  {
    if y1 < y2 { YearsGrow(y1 + 1, y2); }
    if y2 < y1 { YearsGrow(y2 + 1, y1); }
  }

  /** A month of a year lies inside the year. */
  lemma MonthInYear(y: int, a: int, b: int, day: int)
    requires 1 <= a <= b <= 13
    requires MonthStart(y, a) <= day < MonthStart(y, b)
    ensures DayFromYear(y) <= day < DayFromYear(y + 1)
  {
    YearStep(y);
    YearTotal(IsLeapYear(y));
    MonthsGrow(IsLeapYear(y), b - 1, 12);
  }

  lemma CivilInMonth(day: int)
    ensures var c := CivilOf(day); MonthStart(c.year, c.month) <= day < MonthStart(c.year, c.month + 1)
  {
    MonthStep(CivilOf(day).year, CivilOf(day).month);
  }

  lemma CivilBetween(c: Civil, y: int, a: int, b: int, day: int)
    requires ValidCivil(c) && MonthStart(c.year, c.month) + c.date - 1 == day
    requires 1 <= a <= b <= 13
    requires MonthStart(y, a) <= day < MonthStart(y, b)
    ensures c.year == y && a <= c.month < b
  {
    MonthStep(c.year, c.month);
    DaysOfOneYear(y, a, b, c.year, c.month, c.month + 1, day);
    MonthBetween(IsLeapYear(y), a, b, c.month, day - DayFromYear(y));
  }

  lemma DaysOfOneYear(y1: int, a1: int, b1: int, y2: int, a2: int, b2: int, day: int)
    requires 1 <= a1 <= b1 <= 13 && 1 <= a2 <= b2 <= 13
    requires MonthStart(y1, a1) <= day < MonthStart(y1, b1)
    requires MonthStart(y2, a2) <= day < MonthStart(y2, b2)
    ensures y1 == y2
  {
    MonthInYear(y1, a1, b1, day);
    MonthInYear(y2, a2, b2, day);
    SameYear(y1, y2, day);
  }

  /** The days between two month starts of one year are exactly those of the months between. */
  lemma DayInMonthRange(y: int, a: int, b: int, day: int)
    requires 1 <= a <= b <= 13
    requires MonthStart(y, a) <= day < MonthStart(y, b)
    ensures CivilOf(day).year == y && a <= CivilOf(day).month < b
  {
    CivilBetween(CivilOf(day), y, a, b, day);
  }

  lemma MonthBetween(leap: bool, a: int, b: int, m: int, dayInYear: int)
    requires 1 <= a <= b <= 13 && 1 <= m <= 12
    requires DaysBeforeMonth(leap, a - 1) <= dayInYear < DaysBeforeMonth(leap, b - 1)
    requires DaysBeforeMonth(leap, m - 1) <= dayInYear < DaysBeforeMonth(leap, m)
    ensures a <= m < b
  {
    if m < a { MonthsGrow(leap, m, a - 1); }
    if m >= b { MonthsGrow(leap, b - 1, m - 1); }
  }

  lemma CivilUnique(c: Civil, day: int)
    requires ValidCivil(c) && MonthStart(c.year, c.month) + c.date - 1 == day
    ensures CivilOf(day) == c
  {
    MonthStep(c.year, c.month);
    DayInMonthRange(c.year, c.month, c.month + 1, day);
    assert CivilOf(day).month == c.month;
  }

  /** A date has one day number and a day number one date: the two directions are inverse. */
  lemma CivilOfMakeDay(c: Civil)
    requires ValidCivil(c)
    ensures CivilOf(MakeDay(c.year, c.month - 1, c.date)) == c
  {
    MakeDayInYear(c.year, c.month, c.date);
    CivilUnique(c, MonthStart(c.year, c.month) + c.date - 1);
  }

  /** Day 0 of the following month is the last day of this one (`Date.UTC(year, month, 0)`). */
  lemma LastDayOfMonth(y: int, month: int)
    requires 1 <= month <= 12
    ensures CivilOf(MakeDay(y, month, 0)) == Civil(y, month, DaysInMonth(y, month))
  {
    DayZero(y, month);
    MonthStep(y, month);
    CivilUnique(Civil(y, month, DaysInMonth(y, month)), MonthStart(y, month + 1) - 1);
  }

  lemma DayZero(y: int, month: int)
    requires 1 <= month <= 12
    ensures MakeDay(y, month, 0) == MonthStart(y, month + 1) - 1
  {
    if month == 12 { YearEnd(y); } else { MakeDayInYear(y, month + 1, 0); }
  }

  lemma YearEnd(y: int)
    ensures MakeDay(y, 12, 0) == MonthStart(y, 13) - 1
    ensures MonthStart(y, 13) == DayFromYear(y + 1)
  {
    YearStep(y);
    YearTotal(IsLeapYear(y));
  }

  /** 0 is Sunday; 1970-01-01 was a Thursday. */
  function WeekDay(day: int): (w: int)
    ensures 0 <= w <= 6
  {
    (day + 4) % 7
  }

  /** Every month has all seven weekdays among its first seven dates. */
  lemma WeekdayInMonth(y: int, month: int, weekday: int) returns (date: int)
    requires 1 <= month <= 12 && 0 <= weekday <= 6
    ensures 1 <= date <= 7 && ValidCivil(Civil(y, month, date))
    ensures WeekDay(MakeDay(y, month - 1, date)) == weekday
  {
    var first := MonthStart(y, month);
    date := 1 + (weekday - WeekDay(first)) % 7;
    WeekdayOffset(first, weekday);
    MakeDayInYear(y, month, date);
  }

  lemma WeekdayOffset(first: int, weekday: int)
    requires 0 <= weekday <= 6
    ensures WeekDay(first + (weekday - WeekDay(first)) % 7) == weekday
  {
  }

  /** Any eight consecutive years contain a leap year; a skipped century cannot hide both. */
  lemma LeapYearAmongEight(y: int) returns (leap: int)
    ensures y < leap <= y + 8 && IsLeapYear(leap)
  {
    var q := y + 4 - y % 4;
    leap := if q % 100 == 0 then q + 4 else q;
    assert q % 4 == 0;
    assert q % 100 == 0 ==> (q + 4) % 100 == 4;
  }
}

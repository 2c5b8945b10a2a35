/** The next fire time of a parsed cron expression, and the window the scheduler derives from it. */
module CronSearch {
  import opened Wrappers
  import opened Calendar
  import opened CronExpression

  const LOOKAHEAD_YEARS := 8

  // ----- which instants a schedule fires at -----

  predicate MatchesDay(s: Schedule, date: int, weekday: int) {
    if s.dayOfMonth.wildcard && s.dayOfWeek.wildcard then true
    else if s.dayOfMonth.wildcard then weekday in s.dayOfWeek.values
    else if s.dayOfWeek.wildcard then date in s.dayOfMonth.values
    else date in s.dayOfMonth.values || weekday in s.dayOfWeek.values
  }

  /** Whether a day number is one the schedule fires on. */
  predicate MatchesDate(s: Schedule, day: int) {
    CivilOf(day).month in s.month.values && MatchesDay(s, CivilOf(day).date, WeekDay(day))
  }

  function HourOf(k: int): int {
    k / 60 % 24
  }

  /** Minute `k` counts whole minutes since 1970-01-01. */
  predicate MatchesMinute(s: Schedule, k: int) {
    && MatchesDate(s, k / MINUTES_PER_DAY)
    && HourOf(k) in s.hour.values
    && k % 60 in s.minute.values
  }

  predicate Fires(s: Schedule, t: int) {
    t % MS_PER_MINUTE == 0 && MatchesMinute(s, t / MS_PER_MINUTE)
  }

  /** `t` is the first instant after `after` at which the schedule fires. */
  ghost predicate IsNextFire(s: Schedule, after: int, t: int) {
    after < t && Fires(s, t) && forall u :: after < u < t ==> !Fires(s, u)
  }

  /** A caller can read this off the fields: only dates count, and no listed month ever has a listed date. */
  predicate NeverFires(s: Schedule)
    requires ValidSchedule(s)
  {
    && s.dayOfWeek.wildcard && !s.dayOfMonth.wildcard
    && forall month, date :: month in s.month.values && date in s.dayOfMonth.values ==> date > MaxDaysInMonth(month)
  }

  // ----- how exact the lookahead is -----

  /** A schedule that can fire at all does so on some day of any eight consecutive years. */
  lemma FiresWithinEightYears(s: Schedule, y: int) returns (day: int)
    requires ValidSchedule(s) && !NeverFires(s)
    ensures MatchesDate(s, day)
    ensures DayFromYear(y + 1) <= day < DayFromYear(y + 9)
  {
    if s.dayOfWeek.wildcard && !s.dayOfMonth.wildcard {
      var month, date :|
        month in s.month.values && date in s.dayOfMonth.values && date <= MaxDaysInMonth(month);
      var leap := LeapYearAmongEight(y);
      day := DayOn(leap, month, date, y);
    } else {
      var month, weekday := s.month.values[0], s.dayOfWeek.values[0];
      assert month in s.month.values && weekday in s.dayOfWeek.values;
      var date := WeekdayInMonth(y + 1, month, weekday);
      day := DayOn(y + 1, month, date, y);
    }
  }

  lemma DayOn(year: int, month: int, date: int, y: int) returns (day: int)
    requires ValidCivil(Civil(year, month, date)) && y < year <= y + 8
    ensures day == MakeDay(year, month - 1, date) && CivilOf(day) == Civil(year, month, date)
    ensures DayFromYear(y + 1) <= day < DayFromYear(y + 9)
  {
    day := MakeDay(year, month - 1, date);
    DateOfDay(year, month, date);
    MonthStep(year, month);
    MonthInYear(year, month, month + 1, day);
    YearsGrow(y + 1, year);
    YearsGrow(year + 1, y + 9);
  }

  /** The static condition is exact: it holds just when no instant whatever fires. */
  lemma NeverFiresMeansNoInstant(s: Schedule)
    requires ValidSchedule(s)
    ensures NeverFires(s) <==> forall t :: !Fires(s, t)
  {
    if NeverFires(s) {
      forall t ensures !Fires(s, t) {
        DeadDay(s, t / MS_PER_MINUTE / MINUTES_PER_DAY);
      }
    } else {
      var day := FiresWithinEightYears(s, 1970);
      var k := FirstMinuteOf(s, day);
      MinuteFires(s, k);
    }
  }

  lemma MinuteFires(s: Schedule, k: int)
    requires MatchesMinute(s, k)
    ensures Fires(s, MS_PER_MINUTE * k)
  {
    assert MS_PER_MINUTE * k / MS_PER_MINUTE == k;
  }

  lemma DeadDay(s: Schedule, day: int)
    requires ValidSchedule(s) && NeverFires(s)
    ensures !MatchesDate(s, day)
  {
    var c := CivilOf(day);
    assert DaysInMonth(c.year, c.month) <= MaxDaysInMonth(c.month);
  }

  lemma FirstMinuteOf(s: Schedule, day: int) returns (k: int)
    requires ValidSchedule(s) && MatchesDate(s, day)
    ensures MINUTES_PER_DAY * day <= k < MINUTES_PER_DAY * (day + 1) && MatchesMinute(s, k)
  {
    var hour, minute := s.hour.values[0], s.minute.values[0];
    assert hour in s.hour.values && minute in s.minute.values;
    k := MINUTES_PER_DAY * day + 60 * hour + minute;
    MinuteParts(day, hour, minute);
  }

  lemma MinuteParts(day: int, hour: int, minute: int)
    requires 0 <= hour <= 23 && 0 <= minute <= 59
    ensures var k := MINUTES_PER_DAY * day + 60 * hour + minute;
      k / MINUTES_PER_DAY == day && HourOf(k) == hour && k % 60 == minute
  {
    DivMod60(24 * day + hour, minute);
    DivMod24(day, hour);
    DivDay(day, 60 * hour + minute);
  }

  lemma DivMod60(q: int, r: int)
    requires 0 <= r < 60
    ensures (60 * q + r) / 60 == q && (60 * q + r) % 60 == r
  {
  }

  lemma DivMod24(q: int, r: int)
    requires 0 <= r < 24
    ensures (24 * q + r) % 24 == r
  {
  }

  lemma DivDay(q: int, r: int)
    requires 0 <= r < MINUTES_PER_DAY
    ensures (MINUTES_PER_DAY * q + r) / MINUTES_PER_DAY == q
  {
  }

  lemma PartsOfMinute(k: int)
    ensures 0 <= HourOf(k) <= 23
    ensures k == MINUTES_PER_DAY * (k / MINUTES_PER_DAY) + 60 * HourOf(k) + k % 60
  {
    var h := k / 60;
    var day := h / 24;
    assert h == 24 * day + HourOf(k);
    assert k == MINUTES_PER_DAY * day + (60 * HourOf(k) + k % 60);
    DivDay(day, 60 * HourOf(k) + k % 60);
  }

  // ----- skipping ranges in which nothing fires -----

  /** No minute in [lo, hi) matches. */
  ghost predicate Clear(s: Schedule, lo: int, hi: int) {
    forall k :: lo <= k < hi ==> !MatchesMinute(s, k)
  }

  /** The search is past every minute before `mark`, but never looks before `lo`. */
  ghost predicate Searched(s: Schedule, lo: int, mark: int) {
    Clear(s, lo, Max(lo, mark))
  }

  lemma SkipMonths(s: Schedule, lo: int, y: int, a: int, b: int)
    requires 1 <= a <= b <= 13
    requires forall m :: a <= m < b ==> m !in s.month.values
    requires Searched(s, lo, MINUTES_PER_DAY * MonthStart(y, a))
    ensures Searched(s, lo, MINUTES_PER_DAY * MonthStart(y, b))
  {
    forall k | MINUTES_PER_DAY * MonthStart(y, a) <= k < MINUTES_PER_DAY * MonthStart(y, b)
      ensures !MatchesMinute(s, k)
    {
      DayInMonthRange(y, a, b, k / MINUTES_PER_DAY);
    }
  }

  lemma SkipDay(s: Schedule, lo: int, day: int)
    requires !MatchesDate(s, day)
    requires Searched(s, lo, MINUTES_PER_DAY * day)
    ensures Searched(s, lo, MINUTES_PER_DAY * (day + 1))
  {
    forall k | MINUTES_PER_DAY * day <= k < MINUTES_PER_DAY * (day + 1)
      ensures !MatchesMinute(s, k)
    {
      assert k / MINUTES_PER_DAY == day;
    }
  }

  /** First minute of an hour of a day; hour 24 is the next day. */
  function HourStart(day: int, hour: int): int {
    MINUTES_PER_DAY * day + 60 * hour
  }

  lemma HourBetween(day: int, a: int, b: int, k: int)
    requires 0 <= a <= b <= 24 && HourStart(day, a) <= k < HourStart(day, b)
    ensures a <= HourOf(k) < b
  {
    PartsOfMinute(k);
    DivDay(day, k - MINUTES_PER_DAY * day);
  }

  lemma SkipHours(s: Schedule, lo: int, day: int, a: int, b: int)
    requires 0 <= a <= b <= 24
    requires forall h :: a <= h < b ==> h !in s.hour.values
    requires Searched(s, lo, HourStart(day, a))
    ensures Searched(s, lo, HourStart(day, b))
  {
    forall k | HourStart(day, a) <= k < HourStart(day, b)
      ensures !MatchesMinute(s, k)
    {
      HourBetween(day, a, b, k);
    }
  }

  lemma MinuteBetween(day: int, hour: int, k: int)
    requires 0 <= hour <= 23 && HourStart(day, hour) <= k < HourStart(day, hour) + 60
    ensures k % 60 == k - HourStart(day, hour)
  {
    DivMod60(24 * day + hour, k - HourStart(day, hour));
  }

  lemma SkipMinutes(s: Schedule, lo: int, day: int, hour: int, a: int, b: int)
    requires 0 <= hour <= 23 && 0 <= a <= b <= 60
    requires forall m :: a <= m < b ==> m !in s.minute.values
    requires Searched(s, lo, HourStart(day, hour) + a)
    ensures Searched(s, lo, HourStart(day, hour) + b)
  {
    forall k | HourStart(day, hour) + a <= k < HourStart(day, hour) + b
      ensures !MatchesMinute(s, k)
    {
      MinuteBetween(day, hour, k);
    }
  }

  /** Where a loop over ascending values stands: at the `i`-th value, or at `end` after the last. */
  function Mark(values: seq<int>, i: int, end: int): int
    requires 0 <= i <= |values|
  {
    if i < |values| then values[i] else end
  }

  /** Between two neighbours of an ascending list, and before its first, lies no listed value. */
  lemma NoneBetween(values: seq<int>, i: int, lo: int, end: int)
    requires Ascending(values) && 0 <= i < |values| && forall v :: v in values ==> lo <= v < end
    ensures lo <= values[i] < Mark(values, i + 1, end) <= end
    ensures forall v :: values[i] < v < Mark(values, i + 1, end) ==> v !in values
    ensures forall v :: v < values[0] ==> v !in values
  {
    assert values[i] in values;
    if i + 1 < |values| { assert values[i + 1] in values; }
  }

  // ----- the search -----

  /** Where the search starts: the first whole minute after `afterMs`. */
  function FirstMinuteAfter(afterMs: int): int {
    afterMs / MS_PER_MINUTE + 1
  }

  lemma FoundIsNext(s: Schedule, afterMs: int, k: int)
    requires FirstMinuteAfter(afterMs) <= k && MatchesMinute(s, k) && Clear(s, FirstMinuteAfter(afterMs), k)
    ensures IsNextFire(s, afterMs, MS_PER_MINUTE * k)
  {
    assert MS_PER_MINUTE * k / MS_PER_MINUTE == k;
    forall u | afterMs < u < MS_PER_MINUTE * k && u % MS_PER_MINUTE == 0
      ensures !Fires(s, u)
    {
      assert FirstMinuteAfter(afterMs) <= u / MS_PER_MINUTE < k;
    }
  }

  /** A search that went through all its years without a hit proves the schedule dead. */
  lemma ExhaustedMeansNever(s: Schedule, lo: int, startYear: int)
    requires ValidSchedule(s)
    requires lo < MINUTES_PER_DAY * DayFromYear(startYear + 1)
    requires Searched(s, lo, MINUTES_PER_DAY * DayFromYear(startYear + LOOKAHEAD_YEARS + 1))
    ensures NeverFires(s)
  {
    if !NeverFires(s) {
      var day := FiresWithinEightYears(s, startYear);
      var k := FirstMinuteOf(s, day);
      assert false;
    }
  }

  /**
   The nested search over years, months, days, hours and minutes. None stands for the error
   thrown when the lookahead runs out. The search starts no earlier than year 100, below which
   `Date.UTC` reads a year as one of the twentieth century.
   */
  method ComputeNextCronFireTime(s: Schedule, afterMs: int) returns (r: Option<int>)
    requires ValidSchedule(s)
    requires MS_PER_MINUTE * MINUTES_PER_DAY * DayFromYear(100) <= afterMs
    ensures r.None? <==> NeverFires(s)
    ensures r.Some? ==> IsNextFire(s, afterMs, r.value)
  {
    hide Searched;
    hide SearchStep;
    hide CivilOf;
    hide DayFromYear;
    hide MonthStart;
    hide IsNextFire;
    hide NeverFires;
    hide ValidSchedule;
    hide FirstMinuteAfter;
    var lo := FirstMinuteAfter(afterMs);
    var start := CivilOf(lo / MINUTES_PER_DAY);
    var startYear := start.year;
    SearchBegins(s, lo);
    var year := startYear;
    while year <= startYear + LOOKAHEAD_YEARS
      invariant startYear <= year <= startYear + LOOKAHEAD_YEARS + 1
      invariant Searched(s, lo, MINUTES_PER_DAY * DayFromYear(year))
    {
      YearMonths(year);
      var hit := SearchYear(s, lo, start, year);
      SearchedYear(s, afterMs, hit, year);
      if hit.Some? {
        return Some(MS_PER_MINUTE * hit.value);
      }
      year := year + 1;
    }
    ExhaustedMeansNever(s, lo, startYear);
    return None;
  }

  lemma SearchBegins(s: Schedule, lo: int)
    ensures var year := CivilOf(lo / MINUTES_PER_DAY).year;
      Searched(s, lo, MINUTES_PER_DAY * DayFromYear(year)) && lo < MINUTES_PER_DAY * DayFromYear(year + 1)
  {
    var startDayNumber := lo / MINUTES_PER_DAY;
    var start := CivilOf(startDayNumber);
    CivilInMonth(startDayNumber);
    MonthInYear(start.year, start.month, start.month + 1, startDayNumber);
  }

  /** What one year of searching settles. */
  lemma SearchedYear(s: Schedule, afterMs: int, hit: Option<int>, year: int)
    requires ValidSchedule(s)
    requires SearchStep(s, FirstMinuteAfter(afterMs), hit, MINUTES_PER_DAY * MonthStart(year, 13))
    ensures hit.Some? ==> IsNextFire(s, afterMs, MS_PER_MINUTE * hit.value) && !NeverFires(s)
    ensures hit.None? ==> Searched(s, FirstMinuteAfter(afterMs), MINUTES_PER_DAY * DayFromYear(year + 1))
  {
    YearMonths(year);
    if hit.Some? {
      FoundIsNext(s, afterMs, hit.value);
      NeverFiresMeansNoInstant(s);
    }
  }

  lemma YearMonths(year: int)
    ensures MonthStart(year, 1) == DayFromYear(year) && MonthStart(year, 13) == DayFromYear(year + 1)
  {
    YearEnd(year);
  }

  /** The result of searching one more stretch: the first matching minute, or the stretch is clear. */
  ghost predicate SearchStep(s: Schedule, lo: int, hit: Option<int>, mark: int) {
    match hit
    case Some(k) => lo <= k && MatchesMinute(s, k) && Clear(s, lo, k)
    case None => Searched(s, lo, mark)
  }

  method SearchYear(s: Schedule, lo: int, start: Civil, year: int) returns (hit: Option<int>)
    requires ValidSchedule(s) && start == CivilOf(lo / MINUTES_PER_DAY) && start.year <= year
    requires Searched(s, lo, MINUTES_PER_DAY * MonthStart(year, 1))
    ensures SearchStep(s, lo, hit, MINUTES_PER_DAY * MonthStart(year, 13))
  {
    hide CivilOf;
    hide MonthStart;
    hide Searched;
    var months := s.month.values;
    NoneBetween(months, 0, 1, 13);
    SkipMonths(s, lo, year, 1, months[0]);
    var i := 0;
    while i < |months|
      invariant 0 <= i <= |months|
      invariant 1 <= Mark(months, i, 13) <= 13
      invariant Searched(s, lo, MINUTES_PER_DAY * MonthStart(year, Mark(months, i, 13)))
    {
      var month := months[i];
      NoneBetween(months, i, 1, 13);
      if year == start.year && month < start.month {
        PastMonth(s, lo, month);
      } else {
        hit := SearchMonth(s, lo, start, year, month);
        if hit.Some? { return; }
      }
      SkipMonths(s, lo, year, month + 1, Mark(months, i + 1, 13));
      i := i + 1;
    }
    return None;
  }

  lemma PastMonth(s: Schedule, lo: int, month: int)
    requires 1 <= month < CivilOf(lo / MINUTES_PER_DAY).month
    ensures Searched(s, lo, MINUTES_PER_DAY * MonthStart(CivilOf(lo / MINUTES_PER_DAY).year, month + 1))
  {
    var start := CivilOf(lo / MINUTES_PER_DAY);
    CivilInMonth(lo / MINUTES_PER_DAY);
    MonthsGrow(IsLeapYear(start.year), month, start.month - 1);
  }

  method SearchMonth(s: Schedule, lo: int, start: Civil, year: int, month: int) returns (hit: Option<int>)
    requires ValidSchedule(s) && start == CivilOf(lo / MINUTES_PER_DAY)
    requires start.year < year || (start.year == year && start.month <= month)
    requires month in s.month.values
    requires Searched(s, lo, MINUTES_PER_DAY * MonthStart(year, month))
    ensures SearchStep(s, lo, hit, MINUTES_PER_DAY * MonthStart(year, month + 1))
  {
    LastDayOfMonth(year, month);
    var daysInMonth := CivilOf(MakeDay(year, month, 0)).date;
    var firstDay := if year == start.year && month == start.month then start.date else 1;
    ghost var first := MonthStart(year, month);
    EnterMonth(s, lo, year, month, firstDay);
    var day := firstDay;
    while day <= daysInMonth
      invariant firstDay <= day <= daysInMonth + 1
      invariant Searched(s, lo, MINUTES_PER_DAY * (first + day - 1))
    {
      hide MakeDay;
      hide MonthStart;
      hide CivilOf;
      hide WeekDay;
      hide Searched;
      var dayNumber := MakeDay(year, month - 1, day);
      DateOfDay(year, month, day);
      if !MatchesDay(s, CivilOf(dayNumber).date, WeekDay(dayNumber)) {
        SkipDay(s, lo, dayNumber);
      } else {
        var sameDay := year == start.year && month == start.month && day == start.date;
        SameDayNumber(lo, year, month, day);
        hit := SearchDay(s, lo, dayNumber, sameDay);
        if hit.Some? { return; }
      }
      day := day + 1;
    }
    MonthStep(year, month);
    return None;
  }

  lemma DateOfDay(year: int, month: int, date: int)
    requires ValidCivil(Civil(year, month, date))
    ensures MakeDay(year, month - 1, date) == MonthStart(year, month) + date - 1
    ensures CivilOf(MakeDay(year, month - 1, date)) == Civil(year, month, date)
  {
    MakeDayInYear(year, month, date);
    CivilOfMakeDay(Civil(year, month, date));
  }

  /** Starting in the middle of the first month leaves out only days before the start. */
  lemma EnterMonth(s: Schedule, lo: int, year: int, month: int, firstDay: int)
    requires 1 <= month <= 12
    requires Searched(s, lo, MINUTES_PER_DAY * MonthStart(year, month))
    requires var start := CivilOf(lo / MINUTES_PER_DAY);
      firstDay == if year == start.year && month == start.month then start.date else 1
    ensures Searched(s, lo, MINUTES_PER_DAY * (MonthStart(year, month) + firstDay - 1))
  {
  }

  lemma SameDayNumber(lo: int, year: int, month: int, date: int)
    requires ValidCivil(Civil(year, month, date))
    requires NotBefore(CivilOf(lo / MINUTES_PER_DAY), year, month, date)
    ensures var day := MonthStart(year, month) + date - 1;
      if Civil(year, month, date) == CivilOf(lo / MINUTES_PER_DAY)
        then day == lo / MINUTES_PER_DAY
        else day > lo / MINUTES_PER_DAY
  {
    LaterDate(CivilOf(lo / MINUTES_PER_DAY), Civil(year, month, date));
  }

  predicate NotBefore(start: Civil, year: int, month: int, date: int) {
    || start.year < year
    || (start.year == year && start.month < month)
    || (start.year == year && start.month == month && start.date <= date)
  }

  /** Calendar order is day-number order. */
  lemma LaterDate(c: Civil, d: Civil)
    requires ValidCivil(c) && ValidCivil(d) && NotBefore(c, d.year, d.month, d.date)
    ensures c == d || MonthStart(c.year, c.month) + c.date < MonthStart(d.year, d.month) + d.date
  {
    if c != d {
      MonthStep(c.year, c.month);
      if c.year < d.year {
        YearBounds(c);
        YearBounds(d);
        YearsGrow(c.year + 1, d.year);
      } else if c.month < d.month {
        MonthsGrow(IsLeapYear(c.year), c.month, d.month - 1);
      }
    }
  }

  lemma YearBounds(c: Civil)
    requires ValidCivil(c)
    ensures DayFromYear(c.year) < MonthStart(c.year, c.month) + c.date <= DayFromYear(c.year + 1)
  {
    MonthStep(c.year, c.month);
    MonthInYear(c.year, c.month, c.month + 1, MonthStart(c.year, c.month) + c.date - 1);
  }

  method SearchDay(s: Schedule, lo: int, day: int, sameDay: bool) returns (hit: Option<int>)
    requires ValidSchedule(s) && MatchesDate(s, day)
    requires if sameDay then day == lo / MINUTES_PER_DAY else day > lo / MINUTES_PER_DAY
    requires Searched(s, lo, HourStart(day, 0))
    ensures SearchStep(s, lo, hit, HourStart(day, 24))
  {
    var hours := s.hour.values;
    NoneBetween(hours, 0, 0, 24);
    SkipHours(s, lo, day, 0, hours[0]);
    var startHour := HourOf(lo);
    PartsOfMinute(lo);
    var i := 0;
    while i < |hours|
      invariant 0 <= i <= |hours|
      invariant Searched(s, lo, HourStart(day, Mark(hours, i, 24)))
    {
      var hour := hours[i];
      NoneBetween(hours, i, 0, 24);
      if sameDay && hour < startHour {
        assert HourStart(day, hour + 1) <= lo;
      } else {
        var sameHour := sameDay && hour == startHour;
        hit := SearchHour(s, lo, day, hour, sameHour);
        if hit.Some? { return; }
      }
      SkipHours(s, lo, day, hour + 1, Mark(hours, i + 1, 24));
      i := i + 1;
    }
    return None;
  }

  method SearchHour(s: Schedule, lo: int, day: int, hour: int, sameHour: bool) returns (hit: Option<int>)
    requires ValidSchedule(s) && MatchesDate(s, day) && hour in s.hour.values
    requires if sameHour then HourStart(day, hour) == lo - lo % 60 else HourStart(day, hour) >= lo
    requires Searched(s, lo, HourStart(day, hour))
    ensures SearchStep(s, lo, hit, HourStart(day, hour + 1))
  {
    var minutes := s.minute.values;
    NoneBetween(minutes, 0, 0, 60);
    SkipMinutes(s, lo, day, hour, 0, minutes[0]);
    var startMinute := lo % 60;
    var i := 0;
    while i < |minutes|
      invariant 0 <= i <= |minutes|
      invariant Searched(s, lo, HourStart(day, hour) + Mark(minutes, i, 60))
    {
      var minute := minutes[i];
      NoneBetween(minutes, i, 0, 60);
      if sameHour && minute < startMinute {
        assert HourStart(day, hour) + minute + 1 <= lo;
      } else {
        MinuteParts(day, hour, minute);
        return Some(HourStart(day, hour) + minute);
      }
      SkipMinutes(s, lo, day, hour, minute + 1, Mark(minutes, i + 1, 60));
      i := i + 1;
    }
    return None;
  }

  // ----- the window a claimed schedule is run with -----

  /**
   From a persisted slot, `fireAt` is the last slot already due and `nextFireAt` the slot after it.
   A backlog is skipped: only its newest slot is run.
   */
  ghost predicate IsWindow(s: Schedule, persisted: int, now: int, fireAt: int, nextFireAt: int) {
    && IsNextFire(s, fireAt, nextFireAt) && now < nextFireAt
    && (fireAt == persisted || (persisted < fireAt <= now && Fires(s, fireAt)))
  }

  /** The persisted slot and the clock determine the window. */
  lemma WindowUnique(s: Schedule, persisted: int, now: int, f1: int, n1: int, f2: int, n2: int)
    requires IsWindow(s, persisted, now, f1, n1) && IsWindow(s, persisted, now, f2, n2)
    ensures f1 == f2 && n1 == n2
  {
  }

  /** None stands for the error of an expression that never fires again. */
  method ResolveNextCronExecutionWindow(s: Schedule, persistedFireAtMs: int, now: int)
    returns (r: Option<(int, int)>)
    requires ValidSchedule(s)
    requires MS_PER_MINUTE * MINUTES_PER_DAY * DayFromYear(100) <= persistedFireAtMs
    ensures r.None? <==> NeverFires(s)
    ensures r.Some? ==> IsWindow(s, persistedFireAtMs, now, r.value.0, r.value.1)
  {
    var fireAtMs := persistedFireAtMs;
    var next := ComputeNextCronFireTime(s, fireAtMs);
    if next.None? { return None; }
    var nextFireAtMs := next.value;
    while now >= nextFireAtMs
      invariant !NeverFires(s) && persistedFireAtMs <= fireAtMs
      invariant IsNextFire(s, fireAtMs, nextFireAtMs)
      invariant fireAtMs == persistedFireAtMs || (persistedFireAtMs < fireAtMs <= now && Fires(s, fireAtMs))
      decreases now - nextFireAtMs
    {
      fireAtMs := nextFireAtMs;
      next := ComputeNextCronFireTime(s, fireAtMs);
      nextFireAtMs := next.value;
    }
    return Some((fireAtMs, nextFireAtMs));
  }
}

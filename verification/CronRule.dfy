/**
 What a cron expression says, field by field and on calendar dates: which values a text lists, which of the two
 day fields counts when, and the instants that result.
 */
module CronRule {
  import opened Wrappers
  import opened Calendar
  import opened CronExpression
  import opened CronSearch

  // ----- what a field text lists -----

  /** Does the token list this number? `*` is the whole range; a step counts from the range's lower end. */
  predicate Lists(token: Token, lowest: int, highest: int, raw: int) {
    match token
    case Token(Star, None) => lowest <= raw <= highest
    case Token(Star, Some(step)) => lowest <= raw <= highest && step > 0 && (raw - lowest) % step == 0
    case Token(Single(v), _) => raw == v
    case Token(Span(first, last), None) => first <= raw <= last
    case Token(Span(first, last), Some(step)) => first <= raw <= last && step > 0 && (raw - first) % step == 0
  }

  lemma StepsOf(rule: Rule, token: Token, raw: int)
    requires Stride(token) > 0
    ensures (exists k: nat :: Nth(rule, token, k) == raw)
      <==> raw >= Lowest(rule, token.base) && (raw - Lowest(rule, token.base)) % Stride(token) == 0
  {
    var d, n := raw - Lowest(rule, token.base), Stride(token);
    if d >= 0 && d % n == 0 {
      var k := d / n;
      assert Nth(rule, token, k) == raw;
    }
    if k: nat :| Nth(rule, token, k) == raw {
      assert d == k * n;
      MultipleLeavesNothing(k, n);
    }
  }

  lemma MultipleLeavesNothing(k: nat, n: int)
    requires n > 0
    ensures k * n >= 0 && (k * n) % n == 0
  {
    Remainder(k * n, k * n / n, (k * n) % n, k, n);
  }

  lemma Remainder(m: int, q: int, r: int, k: nat, n: int)
    requires n > 0 && m == k * n && m == n * q + r && 0 <= r < n
    ensures m >= 0 && r == 0
  {
    Difference(k, q, n);
    SmallMultiple(k - q, n);
  }

  lemma Difference(k: int, q: int, n: int)
    ensures (k - q) * n == k * n - n * q
  {
  }

  lemma SmallMultiple(d: int, n: int)
    requires n > 0 && 0 <= d * n < n
    ensures d == 0
  {
    assert d > 0 ==> d * n >= n;
  }

  /** A legal token selects exactly the numbers it lists. */
  lemma SelectsExactly(rule: Rule, token: Token, raw: int)
    requires Legal(rule, token)
    ensures Selects(rule, token, raw) <==> Lists(token, rule.min, rule.maxInput, raw)
  {
    StepsOf(rule, token, raw);
    if token.base.Single? && raw == token.base.value { assert Nth(rule, token, 0) == raw; }
  }

  /** A token is legal exactly if it lists numbers of the field's range only, in order, and its step is positive. */
  lemma LegalExactly(rule: Rule, token: Token)
    requires ValidRule(rule)
    ensures Legal(rule, token) <==>
      && (token.step.Some? ==> token.step.value > 0)
      && (token.base.Single? ==> rule.min <= token.base.value <= rule.maxInput)
      && (token.base.Span? ==> rule.min <= token.base.first <= token.base.last <= rule.maxInput)
  {
  }

  /** The ranges: minutes 0 to 59, hours 0 to 23, dates 1 to 31, months 1 to 12, weekdays 0 to 7 with 7 read as 0. */
  lemma Ranges(v: int)
    ensures LegalTokens(MINUTE, [Number(v)]) <==> 0 <= v <= 59
    ensures LegalTokens(HOUR, [Number(v)]) <==> 0 <= v <= 23
    ensures LegalTokens(DAY_OF_MONTH, [Number(v)]) <==> 1 <= v <= 31
    ensures LegalTokens(MONTH, [Number(v)]) <==> 1 <= v <= 12
    ensures LegalTokens(DAY_OF_WEEK, [Number(v)]) <==> 0 <= v <= 7
  {
    assert Number(v) in [Number(v)];
  }

  function Number(v: int): Token {
    Token(Single(v), None)
  }

  const STAR := Token(Star, None)

  /** The values of a parsed field are the numbers its tokens list; among weekdays, 0 also for 7. */
  lemma FieldLists(rule: Rule, tokens: seq<Token>, f: Field, v: int)
    requires ValidRule(rule) && Denotes(rule, tokens, f)
    ensures v in f.values <==>
      exists token :: token in tokens && (
        || (Lists(token, rule.min, rule.maxInput, v) && !(rule == DAY_OF_WEEK && v == 7))
        || (rule == DAY_OF_WEEK && v == 0 && Lists(token, rule.min, rule.maxInput, 7)))
  {
    forall token, raw | token in tokens
      ensures Selects(rule, token, raw) <==> Lists(token, rule.min, rule.maxInput, raw)
    {
      SelectsExactly(rule, token, raw);
    }
    if v in f.values {
      var token, raw :| token in tokens && Selects(rule, token, raw) && Normal(rule, raw) == v;
      assert raw == v || (raw == 7 && v == 0);
    }
    if token :| token in tokens && Lists(token, rule.min, rule.maxInput, v) && !(rule == DAY_OF_WEEK && v == 7) {
      assert Selects(rule, token, v) && Normal(rule, v) == v;
    }
    if token :| token in tokens && rule == DAY_OF_WEEK && v == 0 && Lists(token, rule.min, rule.maxInput, 7) {
      assert Selects(rule, token, 7) && Normal(rule, 7) == 0;
    }
  }

  lemma NumberField(rule: Rule, n: int, f: Field, v: int)
    requires ValidRule(rule) && rule != DAY_OF_WEEK && Denotes(rule, [Number(n)], f)
    ensures (v in f.values <==> v == n) && !f.wildcard
  {
    FieldLists(rule, [Number(n)], f, v);
    assert Number(n) in [Number(n)];
  }

  /** The field of a lone `*`. */
  function Wild(min: int, max: int): Field
    requires min <= max
  {
    Field(seq(max - min + 1, i => min + i), true)
  }

  lemma WildField(min: int, max: int)
    requires min <= max
    ensures ValidField(Wild(min, max), min, max)
  {
    forall v | min <= v <= max ensures v in Wild(min, max).values {
      assert Wild(min, max).values[v - min] == v;
    }
  }

  /** `*` lists every value of the field and makes it a wildcard. */
  lemma StarField(rule: Rule, f: Field)
    requires ValidRule(rule) && Denotes(rule, [STAR], f)
    ensures (forall v :: v in f.values <==> rule.min <= v <= rule.max) && f.wildcard
  {
    forall v ensures v in f.values <==> rule.min <= v <= rule.max {
      FieldLists(rule, [STAR], f, v);
      assert STAR in [STAR];
    }
    WildField(rule.min, rule.max);
    AscendingUnique(f.values, Wild(rule.min, rule.max).values);
    assert STAR in [STAR] && HasStar([STAR]);
  }

  // ----- calendar dates and instants -----

  const MONTH_STARTS := [0, 31, 59, 90, 120, 151, 181, 212, 243, 273, 304, 334]

  /** The day of the year on which a month begins (DayWithinYear of section 21.4.1.4 of ECMA-262). */
  lemma MonthTable(y: int, month: int)
    requires 1 <= month <= 12
    ensures MakeDay(y, month - 1, 1)
         == DayFromYear(y) + MONTH_STARTS[month - 1] + if month > 2 && IsLeapYear(y) then 1 else 0
  {
  }

  /** Weekdays follow one another, and 1970-01-01 was a Thursday, 2000-01-01 a Saturday. */
  lemma WeekdaysGoRound(day: int)
    ensures WeekDay(day + 1) == if WeekDay(day) == 6 then 0 else WeekDay(day) + 1
    ensures WeekDay(MakeDay(1970, 0, 1)) == 4 && WeekDay(MakeDay(2000, 0, 1)) == 6
  {
    hide DayFromYear;
    FirstOfJanuary(1970);
    FirstOfJanuary(2000);
    hide MakeDay;
  }

  lemma FirstOfJanuary(y: int)
    ensures MakeDay(y, 0, 1) == 365 * (y - 1970) + (y - 1969) / 4 - (y - 1901) / 100 + (y - 1601) / 400
  {
    DayFromYearFormula(y);
  }

  predicate TimeOfDay(hour: int, minute: int) {
    0 <= hour < 24 && 0 <= minute < 60
  }

  /** A minute of a date. */
  function Instant(c: Civil, hour: int, minute: int): int {
    MS_PER_MINUTE * (MINUTES_PER_DAY * MakeDay(c.year, c.month - 1, c.date) + 60 * hour + minute)
  }

  function WeekdayOf(c: Civil): int {
    WeekDay(MakeDay(c.year, c.month - 1, c.date))
  }

  lemma InstantParts(c: Civil, hour: int, minute: int)
    requires ValidCivil(c) && TimeOfDay(hour, minute)
    ensures var t := Instant(c, hour, minute);
      var k := t / MS_PER_MINUTE;
      && t % MS_PER_MINUTE == 0 && CivilOf(k / MINUTES_PER_DAY) == c && WeekDay(k / MINUTES_PER_DAY) == WeekdayOf(c)
      && HourOf(k) == hour && k % 60 == minute
  {
    CivilOfMakeDay(c);
    hide CivilOf;
    hide WeekDay;
    hide HourOf;
    hide MakeDay;
    var day := MakeDay(c.year, c.month - 1, c.date);
    MinuteParts(day, hour, minute);
    var k := MINUTES_PER_DAY * day + 60 * hour + minute;
    assert Instant(c, hour, minute) == MS_PER_MINUTE * k;
    WholeMinute(k);
  }

  lemma WholeMinute(k: int)
    ensures MS_PER_MINUTE * k / MS_PER_MINUTE == k && MS_PER_MINUTE * k % MS_PER_MINUTE == 0
  {
  }

  /** A schedule fires at whole minutes only, so its instants are those of some date. */
  lemma FiresAtInstants(s: Schedule, t: int) returns (c: Civil, hour: int, minute: int)
    requires Fires(s, t)
    ensures ValidCivil(c) && TimeOfDay(hour, minute) && t == Instant(c, hour, minute)
  {
    var k := t / MS_PER_MINUTE;
    c := CivilOf(k / MINUTES_PER_DAY);
    hour, minute := HourOf(k), k % 60;
    MakeDayInYear(c.year, c.month, c.date);
    PartsOfMinute(k);
  }

  // ----- which of the day fields counts -----

  /** The month and the time are listed. */
  predicate OthersListed(s: Schedule, c: Civil, hour: int, minute: int) {
    c.month in s.month.values && hour in s.hour.values && minute in s.minute.values
  }

  /** With both day fields wild, every date of a listed month will do. */
  lemma AnyDay(s: Schedule, c: Civil, hour: int, minute: int)
    requires s.dayOfMonth.wildcard && s.dayOfWeek.wildcard && ValidCivil(c) && TimeOfDay(hour, minute)
    ensures Fires(s, Instant(c, hour, minute)) <==> OthersListed(s, c, hour, minute)
  {
    InstantParts(c, hour, minute);
  }

  /** With the weekday wild, exactly the listed dates. */
  lemma ListedDates(s: Schedule, c: Civil, hour: int, minute: int)
    requires !s.dayOfMonth.wildcard && s.dayOfWeek.wildcard && ValidCivil(c) && TimeOfDay(hour, minute)
    ensures Fires(s, Instant(c, hour, minute)) <==> OthersListed(s, c, hour, minute) && c.date in s.dayOfMonth.values
  {
    InstantParts(c, hour, minute);
  }

  /** With the date wild, exactly the listed weekdays. */
  lemma ListedWeekdays(s: Schedule, c: Civil, hour: int, minute: int)
    requires s.dayOfMonth.wildcard && !s.dayOfWeek.wildcard && ValidCivil(c) && TimeOfDay(hour, minute)
    ensures Fires(s, Instant(c, hour, minute)) <==> OthersListed(s, c, hour, minute) && WeekdayOf(c) in s.dayOfWeek.values
  {
    InstantParts(c, hour, minute);
  }

  /** The same schedule with the weekday left open, and with the date left open. */
  function DatesOnly(s: Schedule): Schedule {
    s.(dayOfWeek := Wild(0, 6))
  }

  function WeekdaysOnly(s: Schedule): Schedule {
    s.(dayOfMonth := Wild(1, 31))
  }

  /** With both day fields restricted either will do: the schedule fires when one of its two halves does. */
  lemma EitherDay(s: Schedule, t: int)
    requires !s.dayOfMonth.wildcard && !s.dayOfWeek.wildcard
    ensures Fires(s, t) <==> Fires(DatesOnly(s), t) || Fires(WeekdaysOnly(s), t)
  {
  }

  lemma HalvesAreValid(s: Schedule)
    requires ValidSchedule(s)
    ensures ValidSchedule(DatesOnly(s)) && ValidSchedule(WeekdaysOnly(s))
  {
    WildField(0, 6);
    WildField(1, 31);
  }

  // ----- from the text to the instants -----

  /** `minute hour date month *` fires at that minute of that date, every year that has it, and at no other time. */
  lemma FiveFields(minute: int, hour: int, date: int, month: int, s: Schedule, t: int)
    requires DenotesSchedule([[Number(minute)], [Number(hour)], [Number(date)], [Number(month)], [STAR]], s)
    ensures Fires(s, t) <==>
      exists y :: ValidCivil(Civil(y, month, date)) && t == Instant(Civil(y, month, date), hour, minute)
  {
    var fields := [[Number(minute)], [Number(hour)], [Number(date)], [Number(month)], [STAR]];
    StarField(DAY_OF_WEEK, s.dayOfWeek);
    NumbersAre(fields, minute, hour, date, month, s);
    if Fires(s, t) {
      var c, h, m := FiresAtInstants(s, t);
      ListedDates(s, c, h, m);
      assert c == Civil(c.year, month, date);
    }
    if y :| ValidCivil(Civil(y, month, date)) && t == Instant(Civil(y, month, date), hour, minute) {
      ListedDates(s, Civil(y, month, date), hour, minute);
    }
  }

  lemma NumbersAre(fields: seq<seq<Token>>, minute: int, hour: int, date: int, month: int, s: Schedule)
    requires fields == [[Number(minute)], [Number(hour)], [Number(date)], [Number(month)], [STAR]]
    requires DenotesSchedule(fields, s)
    ensures TimeOfDay(hour, minute) && !s.dayOfMonth.wildcard
    ensures forall v :: v in s.minute.values <==> v == minute
    ensures forall v :: v in s.hour.values <==> v == hour
    ensures forall v :: v in s.dayOfMonth.values <==> v == date
    ensures forall v :: v in s.month.values <==> v == month
  {
    Ranges(minute);
    Ranges(hour);
    forall v
      ensures v in s.minute.values <==> v == minute
      ensures v in s.hour.values <==> v == hour
      ensures v in s.dayOfMonth.values <==> v == date
      ensures v in s.month.values <==> v == month
      ensures !s.dayOfMonth.wildcard
    {
      NumberField(MINUTE, minute, s.minute, v);
      NumberField(HOUR, hour, s.hour, v);
      NumberField(DAY_OF_MONTH, date, s.dayOfMonth, v);
      NumberField(MONTH, month, s.month, v);
    }
  }
}

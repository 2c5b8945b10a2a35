/** Cron expressions: the five parsed fields, and the parser that fills them from tokens. */
module CronExpression {
  import opened Wrappers

  datatype Base = Star | Single(value: int) | Span(first: int, last: int)

  /** One comma-separated item of a field, `base` or `base/step`. */
  datatype Token = Token(base: Base, step: Option<int>)

  /** What a field accepts. Weekdays are written 0..7 and 7 folds to 0, both being Sunday. */
  datatype Rule = Rule(min: int, max: int, maxInput: int, foldSeven: bool)

  const MINUTE := Rule(0, 59, 59, false)
  const HOUR := Rule(0, 23, 23, false)
  const DAY_OF_MONTH := Rule(1, 31, 31, false)
  const MONTH := Rule(1, 12, 12, false)
  const DAY_OF_WEEK := Rule(0, 6, 7, true)

  predicate ValidRule(rule: Rule) {
    rule in {MINUTE, HOUR, DAY_OF_MONTH, MONTH, DAY_OF_WEEK}
  }

  datatype Field = Field(values: seq<int>, wildcard: bool)

  datatype Schedule = Schedule(minute: Field, hour: Field, dayOfMonth: Field, month: Field, dayOfWeek: Field)

  predicate Ascending(s: seq<int>) {
    forall i, j :: 0 <= i < j < |s| ==> s[i] < s[j]
  }

  predicate ValidField(f: Field, min: int, max: int) {
    && f.values != [] && Ascending(f.values)
    && (forall v :: v in f.values ==> min <= v <= max)
    && (f.wildcard ==> forall v :: min <= v <= max ==> v in f.values)
  }

  predicate ValidSchedule(s: Schedule) {
    && ValidField(s.minute, MINUTE.min, MINUTE.max)
    && ValidField(s.hour, HOUR.min, HOUR.max)
    && ValidField(s.dayOfMonth, DAY_OF_MONTH.min, DAY_OF_MONTH.max)
    && ValidField(s.month, MONTH.min, MONTH.max)
    && ValidField(s.dayOfWeek, DAY_OF_WEEK.min, DAY_OF_WEEK.max)
  }

  // ----- what a field text denotes -----

  function Lowest(rule: Rule, base: Base): int {
    match base
    case Star => rule.min
    case Single(v) => v
    case Span(first, _) => first
  }

  function Highest(rule: Rule, base: Base): int {
    match base
    case Star => rule.maxInput
    case Single(v) => v
    case Span(_, last) => last
  }

  function Stride(token: Token): int {
    match token.step
    case None => 1
    case Some(n) => n
  }

  /** The parser throws on every token that is not legal. */
  predicate Legal(rule: Rule, token: Token) {
    && rule.min <= Lowest(rule, token.base) <= Highest(rule, token.base) <= rule.maxInput
    && Stride(token) > 0
  }

  predicate LegalTokens(rule: Rule, tokens: seq<Token>) {
    tokens != [] && forall token :: token in tokens ==> Legal(rule, token)
  }

  /** The `k`-th value the stepping loop of a token visits. */
  function Nth(rule: Rule, token: Token, k: nat): int {
    Lowest(rule, token.base) + k * Stride(token)
  }

  ghost predicate Selects(rule: Rule, token: Token, raw: int) {
    raw <= Highest(rule, token.base) && exists k: nat :: Nth(rule, token, k) == raw
  }

  function Normal(rule: Rule, raw: int): int {
    if rule.foldSeven && raw == 7 then 0 else raw
  }

  ghost predicate SelectedBy(rule: Rule, tokens: seq<Token>, v: int) {
    exists token, raw :: token in tokens && Selects(rule, token, raw) && Normal(rule, raw) == v
  }

  predicate HasStar(tokens: seq<Token>) {
    exists token :: token in tokens && token.base.Star?
  }

  /** `f` is what the field text means: the selected values in ascending order, and whether it is a wildcard. */
  ghost predicate Denotes(rule: Rule, tokens: seq<Token>, f: Field) {
    && LegalTokens(rule, tokens)
    && Ascending(f.values)
    && (forall v :: v in f.values <==> SelectedBy(rule, tokens, v))
    && f.wildcard == (HasStar(tokens) && |f.values| == rule.max - rule.min + 1)
  }

  // ----- the parser -----

  /** None stands for the error thrown on an illegal token. */
  method ParseCronField(rule: Rule, tokens: seq<Token>) returns (r: Option<Field>)
    requires ValidRule(rule)
    ensures r.Some? <==> LegalTokens(rule, tokens)
    ensures r.Some? ==> Denotes(rule, tokens, r.value) && ValidField(r.value, rule.min, rule.max)
  {
    var values: set<int> := {};
    var sawStar := false;
    for i := 0 to |tokens|
      invariant forall token :: token in tokens[..i] ==> Legal(rule, token)
      invariant sawStar == HasStar(tokens[..i])
      invariant forall v :: v in values <==> SelectedBy(rule, tokens[..i], v)
      invariant forall v :: v in values ==> rule.min <= v <= rule.max
      invariant i > 0 ==> values != {}
    {
      var token := tokens[i];
      assert tokens[..i + 1] == tokens[..i] + [token];
      if !Legal(rule, token) {
        assert token in tokens;
        return None;
      }
      if token.base.Star? { sawStar := true; }
      values := AddToken(rule, token, values);
    }
    assert tokens[..|tokens|] == tokens;
    if values == {} {
      return None;
    }
    var sorted := SortAscending(values, rule.min, rule.max);
    AscendingCount(sorted, values);
    var f := Field(sorted, sawStar && |values| == rule.max - rule.min + 1);
    if f.wildcard { FullRange(values, rule.min, rule.max); }
    r := Some(f);
  }

  /** The stepping loop of one token. */
  method AddToken(rule: Rule, token: Token, values: set<int>) returns (r: set<int>)
    requires ValidRule(rule) && Legal(rule, token)
    requires forall v :: v in values ==> rule.min <= v <= rule.max
    ensures forall v :: v in r <==> v in values || exists raw :: Selects(rule, token, raw) && Normal(rule, raw) == v
    ensures forall v :: v in r ==> rule.min <= v <= rule.max
    ensures r != {}
  {
    var lo, hi, step := Lowest(rule, token.base), Highest(rule, token.base), Stride(token);
    r := values;
    var value := lo;
    ghost var k: nat := 0;
    while value <= hi
      invariant value == Nth(rule, token, k)
      invariant r == values + Visited(rule, token, k)
      invariant k > 0 ==> Nth(rule, token, k - 1) <= hi
      invariant k == 0 ==> value == lo
    {
      r := r + {Normal(rule, value)};
      NextVisited(rule, token, k);
      value := value + step;
      k := k + 1;
    }
    VisitedAll(rule, token, k);
  }

  /** What the stepping loop has added after `k` turns. */
  ghost function Visited(rule: Rule, token: Token, k: nat): set<int> {
    set i | 0 <= i < k :: Normal(rule, Nth(rule, token, i))
  }

  lemma NextVisited(rule: Rule, token: Token, k: nat)
    ensures Visited(rule, token, k + 1) == Visited(rule, token, k) + {Normal(rule, Nth(rule, token, k))}
    ensures Nth(rule, token, k + 1) == Nth(rule, token, k) + Stride(token)
  {
    assert (k + 1) * Stride(token) == k * Stride(token) + Stride(token);
  }

  /** The turns before the loop stops are exactly the selected values. */
  lemma VisitedAll(rule: Rule, token: Token, k: nat)
    requires ValidRule(rule) && Legal(rule, token)
    requires k > 0 && Nth(rule, token, k - 1) <= Highest(rule, token.base) < Nth(rule, token, k)
    ensures forall v ::
      v in Visited(rule, token, k) <==> exists raw :: Selects(rule, token, raw) && Normal(rule, raw) == v
    ensures forall v :: v in Visited(rule, token, k) ==> rule.min <= v <= rule.max
    ensures Visited(rule, token, k) != {}
  {
    forall i: nat
      ensures i < k <==> Selects(rule, token, Nth(rule, token, i))
      ensures Nth(rule, token, i) >= rule.min
    {
      if i < k { MulMonotone(i, k - 1, Stride(token)); } else { MulMonotone(k, i, Stride(token)); }
      MulMonotone(0, i, Stride(token));
    }
    forall v
      ensures v in Visited(rule, token, k) <==> exists raw :: Selects(rule, token, raw) && Normal(rule, raw) == v
    {
      if v in Visited(rule, token, k) {
        var i: nat :| i < k && v == Normal(rule, Nth(rule, token, i));
        assert Selects(rule, token, Nth(rule, token, i));
      }
    }
    assert Normal(rule, Nth(rule, token, 0)) in Visited(rule, token, k);
  }

  lemma MulMonotone(a: nat, b: nat, n: int)
    requires a <= b && n > 0
    ensures a * n <= b * n
  {
  }

  method SortAscending(values: set<int>, min: int, max: int) returns (r: seq<int>)
    requires forall v :: v in values ==> min <= v <= max
    requires min <= max
    ensures Ascending(r) && forall v :: v in r <==> v in values
  {
    r := [];
    for v := min to max + 1
      invariant Ascending(r)
      invariant forall u :: u in r <==> u in values && u < v
      invariant forall i :: 0 <= i < |r| ==> r[i] in r
    {
      if v in values { r := r + [v]; }
    }
  }

  lemma {:induction false} AscendingCount(s: seq<int>, values: set<int>)
    requires Ascending(s) && forall v :: v in s <==> v in values
    ensures |s| == |values|
  {
    if s == [] {
      assert forall v :: v in values ==> v in s;
    } else {
      var n := |s| - 1;
      assert s == s[..n] + [s[n]];
      AscendingCount(s[..n], values - {s[n]});
    }
  }

  lemma {:induction false} FullRange(values: set<int>, min: int, max: int)
    requires forall v :: v in values ==> min <= v <= max
    requires |values| == max - min + 1
    ensures forall v :: min <= v <= max ==> v in values
    decreases max - min
  {
    if max < min {
    } else if max in values {
      FullRange(values - {max}, min, max - 1);
      forall v | min <= v <= max ensures v in values {
        assert v == max || v in values - {max};
      }
    } else {
      RangeBound(values, min, max - 1);
    }
  }

  lemma {:induction false} RangeBound(values: set<int>, min: int, max: int)
    requires forall v :: v in values ==> min <= v <= max
    ensures |values| <= Max(0, max - min + 1)
    decreases max - min
  {
    if max < min {
      assert forall v :: v !in values;
    } else {
      RangeBound(values - {max}, min, max - 1);
      if max !in values { assert values - {max} == values; }
    }
  }

  /** A field text has one meaning, so it does not matter whether a result was parsed or cached. */
  lemma DenotesUnique(rule: Rule, tokens: seq<Token>, f: Field, g: Field)
    requires Denotes(rule, tokens, f) && Denotes(rule, tokens, g)
    ensures f == g
  {
    AscendingUnique(f.values, g.values);
  }

  lemma NoMembers(s: seq<int>)
    ensures s == [] <==> forall v :: v !in s
  {
    if s != [] {
      var head := s[0];
      assert head in s;
    }
  }

  lemma {:induction false} AscendingUnique(a: seq<int>, b: seq<int>)
    requires Ascending(a) && Ascending(b)
    requires forall v :: v in a <==> v in b
    ensures a == b
  {
    if a == [] || b == [] {
      NoMembers(a);
      NoMembers(b);
    } else {
      var m, n := |a| - 1, |b| - 1;
      assert a[m] in b && b[n] in a;
      assert a == a[..m] + [a[m]] && b == b[..n] + [b[n]];
      assert a[m] == b[n];
      forall v ensures v in a[..m] <==> v in b[..n] {
        assert v in a[..m] <==> v in a && v != a[m];
        assert v in b[..n] <==> v in b && v != b[n];
      }
      AscendingUnique(a[..m], b[..n]);
    }
  }

  ghost predicate DenotesSchedule(fields: seq<seq<Token>>, s: Schedule) {
    && |fields| == 5
    && Denotes(MINUTE, fields[0], s.minute)
    && Denotes(HOUR, fields[1], s.hour)
    && Denotes(DAY_OF_MONTH, fields[2], s.dayOfMonth)
    && Denotes(MONTH, fields[3], s.month)
    && Denotes(DAY_OF_WEEK, fields[4], s.dayOfWeek)
  }

  predicate LegalExpression(fields: seq<seq<Token>>) {
    && |fields| == 5
    && LegalTokens(MINUTE, fields[0])
    && LegalTokens(HOUR, fields[1])
    && LegalTokens(DAY_OF_MONTH, fields[2])
    && LegalTokens(MONTH, fields[3])
    && LegalTokens(DAY_OF_WEEK, fields[4])
  }

  /** The parser with its cache of expressions already seen. */
  class CronParser {
    var cache: map<seq<seq<Token>>, Schedule>

    ghost predicate Valid()
      reads this
    {
      forall e :: e in cache ==> DenotesSchedule(e, cache[e]) && ValidSchedule(cache[e])
    }

    constructor ()
      ensures Valid() && cache == map[]
    {
      cache := map[];
    }

    method ParseCronExpression(fields: seq<seq<Token>>) returns (r: Option<Schedule>)
      requires Valid()
      modifies this
      ensures Valid()
      ensures r.Some? <==> LegalExpression(fields)
      ensures r.Some? ==> DenotesSchedule(fields, r.value) && ValidSchedule(r.value)
      ensures cache == if r.Some? then old(cache)[fields := r.value] else old(cache)
    {
      if fields in cache {
        return Some(cache[fields]);
      }
      if |fields| != 5 {
        return None;
      }
      var minute := ParseCronField(MINUTE, fields[0]);
      if minute.None? { return None; }
      var hour := ParseCronField(HOUR, fields[1]);
      if hour.None? { return None; }
      var dayOfMonth := ParseCronField(DAY_OF_MONTH, fields[2]);
      if dayOfMonth.None? { return None; }
      var month := ParseCronField(MONTH, fields[3]);
      if month.None? { return None; }
      var dayOfWeek := ParseCronField(DAY_OF_WEEK, fields[4]);
      if dayOfWeek.None? { return None; }
      var s := Schedule(minute.value, hour.value, dayOfMonth.value, month.value, dayOfWeek.value);
      cache := cache[fields := s];
      r := Some(s);
    }
  }
}

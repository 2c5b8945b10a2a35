/**
 Compatibility of workflow contracts: whether instances started under one version of a workflow can be
 carried on by the next.
 */
module Contracts {
  import opened Wrappers
  import opened Validators
  import opened SchemaCompatibility

  // ----- steps -----

  datatype StepKind = ActionStep | SleepStep | WaitForSignalStep

  datatype Step = Step(id: string, kind: StepKind, action: Option<string>, signal: Option<string>)

  ghost predicate UniqueIds(steps: seq<Step>) {
    forall i, j :: 0 <= i < j < |steps| ==> steps[i].id != steps[j].id
  }

  /** The first step with an id. */
  function FindStep(steps: seq<Step>, id: string): (found: Option<Step>)
    ensures found.Some? ==> found.value in steps && found.value.id == id
    ensures found.None? ==> forall s :: s in steps ==> s.id != id
  {
    if steps == [] then None else if steps[0].id == id then Some(steps[0]) else FindStep(steps[1..], id)
  }

  predicate IsId(id: string, steps: seq<Step>) {
    exists i :: 0 <= i < |steps| && steps[i].id == id
  }

  /** Each old step is found in the new list with the same kind, action and signal. */
  predicate Kept(previous: seq<Step>, next: seq<Step>) {
    forall i :: 0 <= i < |previous| ==> FindStep(next, previous[i].id) == Some(previous[i])
  }

  /** Whether all of the new steps could be matched or skipped: how many matched, and if one came in between. */
  function Scan(previous: seq<Step>, next: seq<Step>, matched: nat, inserted: bool): Option<(nat, bool)> {
    if next == [] then Some((matched, inserted))
    else if matched < |previous| && previous[matched].id == next[0].id then
      Scan(previous, next[1..], matched + 1, inserted)
    else if IsId(next[0].id, previous) then None
    else Scan(previous, next[1..], matched, inserted || matched < |previous|)
  }

  function StepsVerdict(previous: seq<Step>, next: seq<Step>): Verdict {
    if !Kept(previous, next) then Breaking
    else match Scan(previous, next, 0, false)
      case None => Breaking
      case Some((matched, inserted)) =>
        if matched != |previous| then Breaking
        else if inserted then RequiresMigration
        else if |next| == |previous| then Identical else Additive
  }

  method CompareWorkflowSteps(previous: seq<Step>, next: seq<Step>) returns (compatibility: Verdict)
    ensures compatibility == StepsVerdict(previous, next)
  {
    for i := 0 to |previous|
      invariant forall k :: 0 <= k < i ==> FindStep(next, previous[k].id) == Some(previous[k])
    {
      var nextStep := FindStep(next, previous[i].id);
      if nextStep.None? { return Breaking; }
      if nextStep.value.kind != previous[i].kind || nextStep.value.action != previous[i].action
         || nextStep.value.signal != previous[i].signal {
        return Breaking;
      }
    }
    var insertedBeforeExisting, previousIndex: nat := false, 0;
    for i := 0 to |next|
      invariant Scan(previous, next[i..], previousIndex, insertedBeforeExisting) == Scan(previous, next, 0, false)
    {
      assert next[i..][1..] == next[i + 1..];
      if previousIndex < |previous| && previous[previousIndex].id == next[i].id {
        previousIndex := previousIndex + 1;
      } else {
        if IsId(next[i].id, previous) { return Breaking; }
        if previousIndex < |previous| { insertedBeforeExisting := true; }
      }
    }
    assert next[|next|..] == [];
    if previousIndex != |previous| { return Breaking; }
    if insertedBeforeExisting { return RequiresMigration; }
    return if |next| == |previous| then Identical else Additive;
  }

  // ----- the classification of steps is exact -----

  /** Some way of leaving out steps of `n` gives `p`. */
  ghost predicate Subsequence(p: seq<Step>, n: seq<Step>) {
    p == [] || (n != [] && ((p[0] == n[0] && Subsequence(p[1..], n[1..])) || Subsequence(p, n[1..])))
  }

  lemma {:induction false} SubsequenceHas(p: seq<Step>, n: seq<Step>)
    requires Subsequence(p, n)
    ensures forall s :: s in p ==> s in n
    ensures |p| <= |n|
  {
    if p != [] {
      if p[0] == n[0] && Subsequence(p[1..], n[1..]) {
        SubsequenceHas(p[1..], n[1..]);
      } else {
        SubsequenceHas(p, n[1..]);
      }
      assert p == [p[0]] + p[1..] && n == [n[0]] + n[1..];
    }
  }

  lemma {:induction false} SubsequenceTransitive(p: seq<Step>, q: seq<Step>, n: seq<Step>)
    requires Subsequence(p, q) && Subsequence(q, n)
    ensures Subsequence(p, n)
    decreases |q| + |n|
  {
    if p != [] {
      if q[0] == n[0] && Subsequence(q[1..], n[1..]) {
        if p[0] == q[0] && Subsequence(p[1..], q[1..]) {
          SubsequenceTransitive(p[1..], q[1..], n[1..]);
        } else {
          SubsequenceTransitive(p, q[1..], n[1..]);
        }
      } else {
        SubsequenceTransitive(p, q, n[1..]);
      }
    }
  }

  lemma {:induction false} PrefixIsSubsequence(p: seq<Step>, n: seq<Step>)
    requires p <= n
    ensures Subsequence(p, n)
  {
    if p != [] { PrefixIsSubsequence(p[1..], n[1..]); }
  }

  /** Steps with the same id are the same step. */
  ghost predicate Agree(p: seq<Step>, n: seq<Step>) {
    forall i, j :: 0 <= i < |p| && 0 <= j < |n| && p[i].id == n[j].id ==> p[i] == n[j]
  }

  lemma NotTheHead(p: seq<Step>, n: seq<Step>, i: nat)
    requires n != [] && UniqueIds(n) && Subsequence(p, n[1..]) && i < |p|
    ensures p[i] != n[0]
  {
    SubsequenceHas(p, n[1..]);
    assert p[i] in n[1..];
  }

  /** The greedy scan finds the one way to match, if there is one. */
  lemma {:induction false} ScanExact(previous: seq<Step>, next: seq<Step>, matched: nat, inserted: bool)
    requires UniqueIds(previous) && UniqueIds(next) && Agree(previous, next) && matched <= |previous|
    requires forall i :: 0 <= i < matched ==> previous[i] !in next
    ensures var r := Scan(previous, next, matched, inserted);
      && (Subsequence(previous[matched..], next) <==> r.Some? && r.value.0 == |previous|)
      && (r.Some? && r.value.0 == |previous| ==> (r.value.1 <==> inserted || !(previous[matched..] <= next)))
    decreases |next|
  {
    if next != [] {
      var rest := previous[matched..];
      assert next == [next[0]] + next[1..];
      if matched < |previous| && previous[matched].id == next[0].id {
        assert rest[0] == next[0] && rest[1..] == previous[matched + 1..];
        ScanExact(previous, next[1..], matched + 1, inserted);
        if Subsequence(rest, next[1..]) { NotTheHead(rest, next, 0); }
      } else if IsId(next[0].id, previous) {
        var i :| 0 <= i < |previous| && previous[i].id == next[0].id;
        assert previous[i] == next[0];
        if Subsequence(rest, next) {
          assert rest != [] && rest[0] != next[0];
          NotTheHead(rest, next, i - matched);
        }
      } else {
        ScanExact(previous, next[1..], matched, inserted || matched < |previous|);
        if rest != [] { assert rest[0].id != next[0].id; }
      }
    }
  }

  lemma {:induction false} FindUnique(steps: seq<Step>, i: nat)
    requires UniqueIds(steps) && i < |steps|
    ensures FindStep(steps, steps[i].id) == Some(steps[i])
  {
    if i > 0 {
      assert steps[0].id != steps[i].id;
      FindUnique(steps[1..], i - 1);
    }
  }

  /** Exactly what the verdict on steps says. */
  lemma StepsVerdictExact(previous: seq<Step>, next: seq<Step>)
    requires UniqueIds(previous) && UniqueIds(next)
    ensures var verdict := StepsVerdict(previous, next);
      && (verdict.Identical? <==> previous == next)
      && (verdict.Additive? <==> previous < next)
      && (verdict.RequiresMigration? <==> Subsequence(previous, next) && !(previous <= next))
      && (verdict.Breaking? <==> !Subsequence(previous, next))
  {
    assert previous[0..] == previous;
    if Subsequence(previous, next) {
      SubsequenceHas(previous, next);
      forall i | 0 <= i < |previous| ensures FindStep(next, previous[i].id) == Some(previous[i]) {
        assert previous[i] in next;
        var j :| 0 <= j < |next| && next[j] == previous[i];
        FindUnique(next, j);
      }
    }
    if Kept(previous, next) {
      forall i, j | 0 <= i < |previous| && 0 <= j < |next| && previous[i].id == next[j].id
        ensures previous[i] == next[j]
      {
        FindUnique(next, j);
      }
      ScanExact(previous, next, 0, false);
    }
    if previous <= next { PrefixIsSubsequence(previous, next); }
  }

  /** Comparing a list with itself gives identical exactly when no two different steps share an id. */
  lemma StepsReflexive(steps: seq<Step>)
    ensures StepsVerdict(steps, steps).Identical? <==> Agree(steps, steps)
  {
    forall i | 0 <= i < |steps| && Agree(steps, steps) ensures FindStep(steps, steps[i].id) == Some(steps[i]) {
      assert steps[i] in steps;
    }
    ScanSelf(steps, 0);
    assert steps[0..] == steps;
    if Kept(steps, steps) {
      forall i, j | 0 <= i < |steps| && 0 <= j < |steps| && steps[i].id == steps[j].id ensures steps[i] == steps[j] {
        assert FindStep(steps, steps[i].id) == FindStep(steps, steps[j].id);
      }
    }
  }

  lemma {:induction false} ScanSelf(steps: seq<Step>, matched: nat)
    requires matched <= |steps|
    ensures Scan(steps, steps[matched..], matched, false) == Some((|steps|, false))
    decreases |steps| - matched
  {
    if matched < |steps| {
      assert steps[matched..][1..] == steps[matched + 1..];
      ScanSelf(steps, matched + 1);
    }
  }

  lemma StepsTriangle(a: seq<Step>, b: seq<Step>, c: seq<Step>)
    requires UniqueIds(a) && UniqueIds(b) && UniqueIds(c)
    ensures Rank(StepsVerdict(a, c)) <= Max(Rank(StepsVerdict(a, b)), Rank(StepsVerdict(b, c)))
  {
    StepsVerdictExact(a, b);
    StepsVerdictExact(b, c);
    StepsVerdictExact(a, c);
    if Subsequence(a, b) && Subsequence(b, c) { SubsequenceTransitive(a, b, c); }
  }

  // ----- whole contracts -----

  datatype Mode = RunMode | StepsMode

  datatype Contract = Contract(
    name: string, mode: Mode, steps: seq<Step>, signals: map<string, Schema>,
    input: Option<Schema>, state: Option<Schema>)

  /** An absent schema is only compatible with an absent one. */
  function CompareOptional(previous: Option<Schema>, next: Option<Schema>): Verdict {
    match (previous, next)
    case (None, None) => Identical
    case (Some(p), Some(n)) => Compare(p, n)
    case _ => Breaking
  }

  function CompareEntry(previous: map<string, Schema>, next: map<string, Schema>, key: string): Verdict
    requires key in previous || key in next
  {
    if key !in next then Breaking else if key !in previous then Additive else Compare(previous[key], next[key])
  }

  function EntryVerdicts(previous: map<string, Schema>, next: map<string, Schema>, keys: set<string>): set<Verdict>
    requires keys <= previous.Keys + next.Keys
  {
    set key | key in keys :: CompareEntry(previous, next, key)
  }

  function CompareRecords(previous: map<string, Schema>, next: map<string, Schema>): Verdict {
    WorstOf(EntryVerdicts(previous, next, previous.Keys + next.Keys))
  }

  lemma MergeOne(previous: map<string, Schema>, next: map<string, Schema>, keys: set<string>, key: string)
    requires keys <= previous.Keys + next.Keys && key in previous.Keys + next.Keys
    ensures WorstOf(EntryVerdicts(previous, next, keys + {key}))
         == Merge(WorstOf(EntryVerdicts(previous, next, keys)), CompareEntry(previous, next, key))
    ensures CompareEntry(previous, next, key).Breaking? ==> CompareRecords(previous, next) == Breaking
  {
    assert EntryVerdicts(previous, next, keys + {key})
        == EntryVerdicts(previous, next, keys) + {CompareEntry(previous, next, key)};
    assert CompareEntry(previous, next, key) in EntryVerdicts(previous, next, previous.Keys + next.Keys);
  }

  method CompareRecordSchemas(previous: map<string, Schema>, next: map<string, Schema>) returns (compatibility: Verdict)
    ensures compatibility == CompareRecords(previous, next)
  {
    compatibility := Identical;
    ghost var seen: set<string> := {};
    assert EntryVerdicts(previous, next, seen) == {};
    var rest := previous.Keys;
    while rest != {}
      invariant rest <= previous.Keys && previous.Keys - rest <= seen <= previous.Keys && seen <= next.Keys
      invariant compatibility == WorstOf(EntryVerdicts(previous, next, seen))
      decreases |rest|
    {
      hide WorstOf;
      hide EntryVerdicts;
      hide CompareRecords;
      var key :| key in rest;
      MergeOne(previous, next, seen, key);
      if key !in next { return Breaking; }
      var inner := CompareSchemaShape(previous[key], next[key]);
      compatibility := Merge(compatibility, inner);
      seen, rest := seen + {key}, rest - {key};
    }
    compatibility := CompareNewRecords(previous, next, compatibility);
  }

  method CompareNewRecords(previous: map<string, Schema>, next: map<string, Schema>, start: Verdict)
    returns (compatibility: Verdict)
    requires previous.Keys <= next.Keys && start == WorstOf(EntryVerdicts(previous, next, previous.Keys))
    ensures compatibility == CompareRecords(previous, next)
  {
    compatibility := start;
    ghost var seen := previous.Keys;
    var rest := next.Keys;
    while rest != {}
      invariant rest <= next.Keys && next.Keys - rest <= seen <= next.Keys && previous.Keys <= seen
      invariant compatibility == WorstOf(EntryVerdicts(previous, next, seen))
      decreases |rest|
    {
      hide WorstOf;
      hide EntryVerdicts;
      hide CompareRecords;
      var key :| key in rest;
      if key !in previous {
        MergeOne(previous, next, seen, key);
        compatibility := Merge(compatibility, Additive);
        seen := seen + {key};
      }
      rest := rest - {key};
    }
    assert seen == previous.Keys + next.Keys;
  }

  function ContractVerdict(previous: Contract, next: Contract): Verdict {
    if previous.name != next.name || previous.mode != next.mode then Breaking
    else WorstOf({
      StepsVerdict(previous.steps, next.steps),
      CompareRecords(previous.signals, next.signals),
      CompareOptional(previous.input, next.input),
      CompareOptional(previous.state, next.state)})
  }

  lemma WorstOfFour(a: Verdict, b: Verdict, c: Verdict, d: Verdict)
    ensures WorstOf({a, b, c, d}) == Merge(Merge(Merge(Merge(Identical, a), b), c), d)
  {
  }

  method CompareOptionalSchemas(previous: Option<Schema>, next: Option<Schema>) returns (compatibility: Verdict)
    ensures compatibility == CompareOptional(previous, next)
  {
    if previous.None? && next.None? { return Identical; }
    if previous.None? || next.None? { return Breaking; }
    compatibility := CompareSchemaShape(previous.value, next.value);
  }

  method CompareWorkflowContracts(previous: Contract, next: Contract) returns (compatibility: Verdict)
    ensures compatibility == ContractVerdict(previous, next)
  {
    ghost var parts := [StepsVerdict(previous.steps, next.steps), CompareRecords(previous.signals, next.signals),
      CompareOptional(previous.input, next.input), CompareOptional(previous.state, next.state)];
    WorstOfFour(parts[0], parts[1], parts[2], parts[3]);
    hide WorstOf;
    compatibility := Identical;
    if previous.name != next.name { return Breaking; }
    if previous.mode != next.mode { return Breaking; }
    var part := CompareWorkflowSteps(previous.steps, next.steps);
    compatibility := Merge(compatibility, part);
    part := CompareRecordSchemas(previous.signals, next.signals);
    compatibility := Merge(compatibility, part);
    part := CompareOptionalSchemas(previous.input, next.input);
    compatibility := Merge(compatibility, part);
    part := CompareOptionalSchemas(previous.state, next.state);
    compatibility := Merge(compatibility, part);
  }

  ghost predicate WellFormed(c: Contract) {
    UniqueIds(c.steps)
  }

  /** A contract is identical to itself, exactly when no two different steps share an id. */
  lemma ContractReflexive(c: Contract)
    ensures ContractVerdict(c, c).Identical? <==> Agree(c.steps, c.steps)
  {
    StepsReflexive(c.steps);
    forall v | v in EntryVerdicts(c.signals, c.signals, c.signals.Keys + c.signals.Keys) ensures v == Identical {
    }
  }

  lemma OptionalTriangle(a: Option<Schema>, b: Option<Schema>, c: Option<Schema>)
    ensures Rank(CompareOptional(a, c)) <= Max(Rank(CompareOptional(a, b)), Rank(CompareOptional(b, c)))
  {
    if a.Some? && b.Some? && c.Some? { SchemaTriangle(a.value, b.value, c.value); }
  }

  lemma EntryBound(previous: map<string, Schema>, next: map<string, Schema>, key: string)
    requires key in previous || key in next
    ensures Rank(CompareEntry(previous, next, key)) <= Rank(CompareRecords(previous, next))
  {
    assert CompareEntry(previous, next, key) in EntryVerdicts(previous, next, previous.Keys + next.Keys);
  }

  lemma RecordsTriangle(a: map<string, Schema>, b: map<string, Schema>, c: map<string, Schema>)
    ensures Rank(CompareRecords(a, c)) <= Max(Rank(CompareRecords(a, b)), Rank(CompareRecords(b, c)))
  {
    forall v | v in EntryVerdicts(a, c, a.Keys + c.Keys)
      ensures Rank(v) <= Max(Rank(CompareRecords(a, b)), Rank(CompareRecords(b, c)))
    {
      var key :| key in a.Keys + c.Keys && v == CompareEntry(a, c, key);
      if key in a || key in b { EntryBound(a, b, key); }
      if key in b || key in c { EntryBound(b, c, key); }
      if key in a && key in b && key in c { SchemaTriangle(a[key], b[key], c[key]); }
    }
  }

  lemma PartsBound(previous: Contract, next: Contract)
    ensures var worst := Rank(ContractVerdict(previous, next));
      && Rank(StepsVerdict(previous.steps, next.steps)) <= worst
      && Rank(CompareRecords(previous.signals, next.signals)) <= worst
      && Rank(CompareOptional(previous.input, next.input)) <= worst
      && Rank(CompareOptional(previous.state, next.state)) <= worst
  {
    hide StepsVerdict;
    hide CompareRecords;
    hide CompareOptional;
  }

  lemma WorstOfParts(previous: Contract, next: Contract, worst: nat)
    requires previous.name == next.name && previous.mode == next.mode
    requires Rank(StepsVerdict(previous.steps, next.steps)) <= worst
    requires Rank(CompareRecords(previous.signals, next.signals)) <= worst
    requires Rank(CompareOptional(previous.input, next.input)) <= worst
    requires Rank(CompareOptional(previous.state, next.state)) <= worst
    ensures Rank(ContractVerdict(previous, next)) <= worst
  {
    hide StepsVerdict;
    hide CompareRecords;
    hide CompareOptional;
  }

  /** Compatibility is graded: skipping a version is no worse than the worse of the two changes. */
  lemma ContractTriangle(a: Contract, b: Contract, c: Contract)
    requires WellFormed(a) && WellFormed(b) && WellFormed(c)
    ensures Rank(ContractVerdict(a, c)) <= Max(Rank(ContractVerdict(a, b)), Rank(ContractVerdict(b, c)))
  {
    StepsTriangle(a.steps, b.steps, c.steps);
    RecordsTriangle(a.signals, b.signals, c.signals);
    OptionalTriangle(a.input, b.input, c.input);
    OptionalTriangle(a.state, b.state, c.state);
    hide StepsVerdict;
    hide CompareRecords;
    hide CompareOptional;
    hide WorstOf;
    if ContractVerdict(a, b).Breaking? || ContractVerdict(b, c).Breaking? {
      assert Rank(ContractVerdict(a, c)) <= Rank(Breaking);
    } else {
      PartsBound(a, b);
      PartsBound(b, c);
      WorstOfParts(a, c, Max(Rank(ContractVerdict(a, b)), Rank(ContractVerdict(b, c))));
    }
  }

  /** So a history whose every change is at most this bad is, from end to end, at most this bad. */
  lemma {:induction false} HistoryIsGraded(versions: seq<Contract>, worst: Verdict)
    requires versions != [] && forall i :: 0 <= i < |versions| ==> WellFormed(versions[i])
    requires forall i :: 0 < i < |versions| ==> Rank(ContractVerdict(versions[i - 1], versions[i])) <= Rank(worst)
    ensures Rank(ContractVerdict(versions[0], versions[|versions| - 1])) <= Rank(worst)
    decreases |versions|
  {
    hide ContractVerdict;
    hide WellFormed;
    var n := |versions| - 1;
    if n == 0 {
      ContractSelf(versions[0]);
    } else {
      HistoryIsGraded(versions[..n], worst);
      ContractTriangle(versions[0], versions[n - 1], versions[n]);
    }
  }

  lemma ContractSelf(c: Contract)
    requires WellFormed(c)
    ensures ContractVerdict(c, c) == Identical
  {
    ContractReflexive(c);
  }

  ghost predicate Carries(previous: Schema, next: Schema) {
    forall j :: ParseAs(previous, j).Some? ==> ParseAs(next, ParseAs(previous, j).value).Some?
  }

  ghost predicate CarriesOptional(previous: Option<Schema>, next: Option<Schema>) {
    (previous.None? && next.None?) || (previous.Some? && next.Some? && Carries(previous.value, next.value))
  }

  /**
   What a verdict short of breaking is worth to running instances: all steps are still there and in
   order, at the same index unless a migration is required; and every input, state and signal payload
   that the old version returned is accepted by the new one.
   */
  lemma VerdictIsSound(previous: Contract, next: Contract)
    requires WellFormed(previous) && WellFormed(next) && !ContractVerdict(previous, next).Breaking?
    ensures previous.name == next.name && previous.mode == next.mode
    ensures Subsequence(previous.steps, next.steps)
    ensures previous.steps <= next.steps <==> !ContractVerdict(previous, next).RequiresMigration?
    ensures CarriesOptional(previous.input, next.input) && CarriesOptional(previous.state, next.state)
    ensures forall key :: key in previous.signals ==>
      key in next.signals && Carries(previous.signals[key], next.signals[key])
  {
    StepsVerdictExact(previous.steps, next.steps);
    OptionalCarries(previous.input, next.input);
    OptionalCarries(previous.state, next.state);
    RecordsNeverMigrate(previous.signals, next.signals);
    forall key | key in previous.signals
      ensures key in next.signals && Carries(previous.signals[key], next.signals[key])
    {
      EntryBound(previous.signals, next.signals, key);
      SchemaCarries(previous.signals[key], next.signals[key]);
    }
  }

  lemma SchemaCarries(previous: Schema, next: Schema)
    requires !Compare(previous, next).Breaking?
    ensures Carries(previous, next)
  {
    SchemasNeverMigrate(previous, next);
    forall j | ParseAs(previous, j).Some? ensures ParseAs(next, ParseAs(previous, j).value).Some? {
      CompatibleAccepts(previous, next, j);
    }
  }

  lemma OptionalCarries(previous: Option<Schema>, next: Option<Schema>)
    requires !CompareOptional(previous, next).Breaking?
    ensures CarriesOptional(previous, next) && CompareOptional(previous, next) != RequiresMigration
  {
    if previous.Some? && next.Some? {
      SchemaCarries(previous.value, next.value);
      SchemasNeverMigrate(previous.value, next.value);
    }
  }

  lemma RecordsNeverMigrate(previous: map<string, Schema>, next: map<string, Schema>)
    ensures CompareRecords(previous, next) != RequiresMigration
  {
    forall v | v in EntryVerdicts(previous, next, previous.Keys + next.Keys) ensures v != RequiresMigration {
      var key :| key in previous.Keys + next.Keys && v == CompareEntry(previous, next, key);
      if key in previous && key in next { SchemasNeverMigrate(previous[key], next[key]); }
    }
  }

  // ----- what each verdict on a contract means -----

  /** Signals: gone, or incompatible, is breaking; new, or widened, is additive. */
  lemma RecordsExactly(previous: map<string, Schema>, next: map<string, Schema>)
    ensures var verdict := CompareRecords(previous, next);
      && (verdict.Breaking? <==> exists key :: key in previous && (key !in next || Compare(previous[key], next[key]).Breaking?))
      && (verdict.Identical? <==>
            previous.Keys == next.Keys && forall key :: key in previous ==> Compare(previous[key], next[key]).Identical?)
      && !verdict.RequiresMigration?
  {
    RecordsNeverMigrate(previous, next);
    var verdicts := EntryVerdicts(previous, next, previous.Keys + next.Keys);
    forall key | key in previous || key in next ensures CompareEntry(previous, next, key) in verdicts {
      assert key in previous.Keys + next.Keys;
    }
    forall key | key in previous && key in next ensures CompareEntry(previous, next, key) == Compare(previous[key], next[key]) {
    }
  }

  ghost predicate OptionalBreaks(previous: Option<Schema>, next: Option<Schema>) {
    match (previous, next)
    case (None, None) => false
    case (Some(p), Some(n)) => Compare(p, n).Breaking?
    case _ => true
  }

  ghost predicate OptionalSame(previous: Option<Schema>, next: Option<Schema>) {
    || (previous.None? && next.None?)
    || (previous.Some? && next.Some? && Compare(previous.value, next.value).Identical?)
  }

  ghost predicate Breaks(previous: Contract, next: Contract) {
    || previous.name != next.name
    || previous.mode != next.mode
    || !Subsequence(previous.steps, next.steps)
    || (exists name :: name in previous.signals
          && (name !in next.signals || Compare(previous.signals[name], next.signals[name]).Breaking?))
    || OptionalBreaks(previous.input, next.input)
    || OptionalBreaks(previous.state, next.state)
  }

  ghost predicate Same(previous: Contract, next: Contract) {
    && previous.name == next.name && previous.mode == next.mode && previous.steps == next.steps
    && previous.signals.Keys == next.signals.Keys
    && (forall name :: name in previous.signals ==> Compare(previous.signals[name], next.signals[name]).Identical?)
    && OptionalSame(previous.input, next.input) && OptionalSame(previous.state, next.state)
  }

  /** All four verdicts: what breaks, what needs a migration, what is no change, and additive for the rest. */
  lemma ContractExactly(previous: Contract, next: Contract)
    requires WellFormed(previous) && WellFormed(next)
    ensures var verdict := ContractVerdict(previous, next);
      && (verdict.Breaking? <==> Breaks(previous, next))
      && (verdict.RequiresMigration? <==> !Breaks(previous, next) && !(previous.steps <= next.steps))
      && (verdict.Identical? <==> Same(previous, next))
  {
    StepsVerdictExact(previous.steps, next.steps);
    RecordsExactly(previous.signals, next.signals);
    OptionalNeverMigrates(previous.input, next.input);
    OptionalNeverMigrates(previous.state, next.state);
    hide StepsVerdict;
    hide CompareRecords;
    hide CompareOptional;
    hide Compare;
    hide Subsequence;
  }

  lemma OptionalNeverMigrates(previous: Option<Schema>, next: Option<Schema>)
    ensures var verdict := CompareOptional(previous, next);
      && (verdict.Breaking? <==> OptionalBreaks(previous, next)) && (verdict.Identical? <==> OptionalSame(previous, next))
      && !verdict.RequiresMigration?
  {
    if previous.Some? && next.Some? { SchemasNeverMigrate(previous.value, next.value); }
  }
}

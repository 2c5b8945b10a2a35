/**
 How one schema differs from another: the verdict is sound for the validators, and graded like a distance.
 */
module SchemaCompatibility {
  import opened Wrappers
  import opened Json
  import opened Validators

  datatype Verdict = Identical | Additive | RequiresMigration | Breaking

  function Rank(v: Verdict): nat {
    match v
    case Identical => 0
    case Additive => 1
    case RequiresMigration => 2
    case Breaking => 3
  }

  function Merge(current: Verdict, next: Verdict): Verdict {
    if Rank(next) > Rank(current) then next else current
  }

  /** The gravest of some verdicts. */
  function WorstOf(verdicts: set<Verdict>): (worst: Verdict)
    ensures forall v :: v in verdicts ==> Rank(v) <= Rank(worst)
    ensures worst in verdicts || worst == Identical
  {
    if Breaking in verdicts then Breaking
    else if RequiresMigration in verdicts then RequiresMigration
    else if Additive in verdicts then Additive
    else Identical
  }

  // ----- schemas -----

  /** The `type` property of a schema, empty when it has none. */
  function TypeName(s: Schema): string {
    match s
    case Typed(StringType) => "string"
    case Typed(NumberType) => "number"
    case Typed(BooleanType) => "boolean"
    case Typed(NullType) => "null"
    case ArrayOf(_) => "array"
    case ObjectOf(_, _) => "object"
    case _ => ""
  }

  function EnumValues(s: Schema): seq<string> {
    if s.Enum? then s.values else []
  }

  /** How `next` differs from `previous`, property by property and in no particular order. */
  function Compare(previous: Schema, next: Schema): Verdict
    decreases previous, 1
  {
    if previous == next then Identical
    else if TypeName(previous) != TypeName(next) then Breaking
    else if exists entry :: entry in EnumValues(previous) && entry !in EnumValues(next) then Breaking
    else if previous.ObjectOf? && next.ObjectOf? then WorstOf(KeyVerdicts(previous, next))
    else if previous.ArrayOf? && next.ArrayOf? then Compare(previous.items, next.items)
    else Breaking
  }

  function KeyVerdicts(previous: Schema, next: Schema): set<Verdict>
    requires previous.ObjectOf? && next.ObjectOf?
    decreases previous, 0, 1
  {
    set key | key in previous.properties.Keys + next.properties.Keys :: CompareKey(previous, next, key)
  }

  /** A property may be added if it is optional, and may become optional; it may not go or become required. */
  function CompareKey(previous: Schema, next: Schema, key: string): Verdict
    requires previous.ObjectOf? && next.ObjectOf? && (key in previous.properties || key in next.properties)
    decreases previous, 0, 0
  {
    if key !in next.properties then Breaking
    else if key in next.required && (key !in previous.properties || key !in previous.required) then Breaking
    else if key !in previous.properties then Additive
    else
      var inner := Compare(previous.properties[key], next.properties[key]);
      if key in previous.required && key !in next.required then Merge(inner, Additive) else inner
  }

  /** The loops of the runtime: two passes over the keys, with a running verdict. */
  method CompareSchemaShape(previous: Schema, next: Schema) returns (compatibility: Verdict)
    ensures compatibility == Compare(previous, next)
    decreases previous
  {
    if previous == next { return Identical; }
    if TypeName(previous) != TypeName(next) { return Breaking; }
    if exists entry :: entry in EnumValues(previous) && entry !in EnumValues(next) { return Breaking; }
    if previous.ObjectOf? && next.ObjectOf? {
      compatibility := CompareProperties(previous, next);
    } else if previous.ArrayOf? && next.ArrayOf? {
      compatibility := CompareSchemaShape(previous.items, next.items);
    } else {
      compatibility := Breaking;
    }
  }

  /** A running verdict: some key justifies it, and it is no better than any key that was looked at. */
  ghost predicate Running(previous: Schema, next: Schema, seen: set<string>, verdict: Verdict)
    requires previous.ObjectOf? && next.ObjectOf? && seen <= previous.properties.Keys + next.properties.Keys
  {
    && (verdict.Identical? || exists v :: v in KeyVerdicts(previous, next) && Rank(verdict) <= Rank(v))
    && (forall key :: key in seen ==> Rank(CompareKey(previous, next, key)) <= Rank(verdict))
  }

  lemma RunningIsWorst(previous: Schema, next: Schema, verdict: Verdict)
    requires previous.ObjectOf? && next.ObjectOf?
    requires Running(previous, next, previous.properties.Keys + next.properties.Keys, verdict)
    ensures verdict == WorstOf(KeyVerdicts(previous, next))
  {
    forall v | v in KeyVerdicts(previous, next) ensures Rank(v) <= Rank(verdict) {
      var key :| key in previous.properties.Keys + next.properties.Keys && v == CompareKey(previous, next, key);
    }
  }

  lemma KeyRuns(previous: Schema, next: Schema, seen: set<string>, verdict: Verdict, key: string, more: Verdict)
    requires previous.ObjectOf? && next.ObjectOf? && seen <= previous.properties.Keys + next.properties.Keys
    requires key in previous.properties || key in next.properties
    requires Running(previous, next, seen, verdict) && Rank(more) <= Rank(CompareKey(previous, next, key))
    ensures Running(previous, next, seen, Merge(verdict, more))
    ensures more == CompareKey(previous, next, key) ==> Running(previous, next, seen + {key}, Merge(verdict, more))
    ensures CompareKey(previous, next, key).Breaking? ==> WorstOf(KeyVerdicts(previous, next)) == Breaking
  {
    assert CompareKey(previous, next, key) in KeyVerdicts(previous, next);
  }

  /** A key that only the second pass finds to be breaking. */
  predicate NewlyRequired(previous: Schema, next: Schema, key: string)
    requires previous.ObjectOf? && next.ObjectOf?
  {
    key in previous.properties && key in next.properties && key !in previous.required && key in next.required
  }

  /** What the first pass adds for a key. */
  lemma FirstPassStep(
    previous: Schema, next: Schema, seen: set<string>, before: Verdict, key: string, inner: Verdict, after: Verdict)
    requires previous.ObjectOf? && next.ObjectOf? && seen <= previous.properties.Keys + next.properties.Keys
    requires key in previous.properties && key in next.properties && Running(previous, next, seen, before)
    requires inner == Compare(previous.properties[key], next.properties[key])
    requires after == if key in previous.required && key !in next.required then Merge(Merge(before, inner), Additive)
                      else Merge(before, inner)
    ensures Running(previous, next, if NewlyRequired(previous, next, key) then seen else seen + {key}, after)
  {
    hide Running;
    hide WorstOf;
    hide KeyVerdicts;
    var whole := CompareKey(previous, next, key);
    KeyRuns(previous, next, seen, before, key, inner);
    KeyRuns(previous, next, seen, before, key, whole);
    assert !NewlyRequired(previous, next, key) ==> after == Merge(before, whole);
    assert NewlyRequired(previous, next, key) ==> after == Merge(before, inner);
  }

  /** What the second pass adds for a key. */
  lemma SecondPassStep(previous: Schema, next: Schema, seen: set<string>, before: Verdict, key: string)
    requires previous.ObjectOf? && next.ObjectOf? && seen <= previous.properties.Keys + next.properties.Keys
    requires key in next.properties && Running(previous, next, seen, before)
    ensures key !in previous.properties ==>
      Running(previous, next, seen + {key}, Merge(before, if key in next.required then Breaking else Additive))
    ensures NewlyRequired(previous, next, key) ==> WorstOf(KeyVerdicts(previous, next)) == Breaking
  {
    hide Running;
    hide WorstOf;
    hide KeyVerdicts;
    KeyRuns(previous, next, seen, before, key, CompareKey(previous, next, key));
  }

  lemma GoneIsBreaking(previous: Schema, next: Schema, key: string)
    requires previous.ObjectOf? && next.ObjectOf? && key in previous.properties && key !in next.properties
    ensures WorstOf(KeyVerdicts(previous, next)) == Breaking
  {
    assert CompareKey(previous, next, key) in KeyVerdicts(previous, next);
  }

  method CompareProperties(previous: Schema, next: Schema) returns (compatibility: Verdict)
    requires previous.ObjectOf? && next.ObjectOf?
    ensures compatibility == WorstOf(KeyVerdicts(previous, next))
    decreases previous, 0
  {
    compatibility := Identical;
    ghost var late := set key | key in previous.properties && NewlyRequired(previous, next, key);
    ghost var seen: set<string> := {};
    assert Running(previous, next, seen, compatibility);
    hide *;
    var rest := previous.properties.Keys;
    while rest != {}
      invariant rest <= previous.properties.Keys && seen == previous.properties.Keys - rest - late
      invariant forall key :: key in previous.properties && key !in rest ==> key in next.properties
      invariant Running(previous, next, seen, compatibility)
      decreases |rest|
    {
      var key :| key in rest;
      if key !in next.properties {
        GoneIsBreaking(previous, next, key);
        return Breaking;
      }
      ghost var before := compatibility;
      var inner := CompareSchemaShape(previous.properties[key], next.properties[key]);
      compatibility := Merge(compatibility, inner);
      if key in previous.required && key !in next.required { compatibility := Merge(compatibility, Additive); }
      FirstPassStep(previous, next, seen, before, key, inner, compatibility);
      seen := if key in late then seen else seen + {key};
      rest := rest - {key};
    }
    compatibility := CompareNewProperties(previous, next, compatibility, seen);
  }

  method CompareNewProperties(previous: Schema, next: Schema, start: Verdict, ghost done: set<string>)
    returns (compatibility: Verdict)
    requires previous.ObjectOf? && next.ObjectOf? && previous.properties.Keys <= next.properties.Keys
    requires done <= previous.properties.Keys && Running(previous, next, done, start)
    requires forall key :: key in previous.properties ==> key in done || NewlyRequired(previous, next, key)
    ensures compatibility == WorstOf(KeyVerdicts(previous, next))
  {
    compatibility := start;
    ghost var seen := done;
    var rest := next.properties.Keys;
    while rest != {}
      invariant rest <= next.properties.Keys && done <= seen <= next.properties.Keys
      invariant next.properties.Keys - rest <= seen
      invariant Running(previous, next, seen, compatibility)
      decreases |rest|
    {
      hide Running;
      hide KeyVerdicts;
      hide WorstOf;
      var key :| key in rest;
      SecondPassStep(previous, next, seen, compatibility, key);
      if key !in previous.properties {
        compatibility := Merge(compatibility, if key in next.required then Breaking else Additive);
        seen := seen + {key};
      } else if key !in previous.required && key in next.required {
        return Breaking;
      }
      rest := rest - {key};
    }
    assert seen == previous.properties.Keys + next.properties.Keys;
    RunningIsWorst(previous, next, compatibility);
  }

  // ----- the verdict on schemas is sound -----

  /** Whatever the old schema returns, a schema that is no worse than additive accepts. */
  lemma {:induction false} CompatibleAccepts(previous: Schema, next: Schema, j: Json)
    requires Rank(Compare(previous, next)) <= Rank(Additive) && ParseAs(previous, j).Some?
    ensures ParseAs(next, ParseAs(previous, j).value).Some?
    decreases previous
  {
    var out := ParseAs(previous, j).value;
    if previous == next {
      Reparse(previous, j);
    } else if previous.ArrayOf? {
      ArrayParses(previous.items, j);
      forall i | 0 <= i < |out.items| ensures ParseAs(next.items, out.items[i]).Some? {
        CompatibleAccepts(previous.items, next.items, j.items[i]);
      }
      ArrayParses(next.items, out);
    } else {
      ParseObject(previous, j);
      forall key | key in previous.properties.Keys + next.properties.Keys
        ensures Rank(CompareKey(previous, next, key)) <= Rank(Additive)
      {
        assert CompareKey(previous, next, key) in KeyVerdicts(previous, next);
      }
      forall key | key in Parts(next, out) ensures Parts(next, out)[key].Some? {
        assert Parts(previous, j)[key] == Some(out.fields[key]);
        CompatibleAccepts(previous.properties[key], next.properties[key], j.fields[key]);
      }
      ParseObject(next, out);
    }
  }

  /** The same for validators: the new one accepts all that the old one returns. */
  lemma CompatibleValidators(previous: Validator, next: Validator, j: Json)
    requires Built(previous) && Built(next) && Rank(Compare(SchemaOf(previous), SchemaOf(next))) <= Rank(Additive)
    requires Parse(previous, j).Some?
    ensures Parse(next, Parse(previous, j).value).Some?
  {
    SchemaDetermines(previous, j);
    CompatibleAccepts(SchemaOf(previous), SchemaOf(next), j);
    SchemaDetermines(next, Parse(previous, j).value);
  }

  /** Wherever a value has a field that is new in the new schema, the field parses. */
  ghost predicate NewFieldsParse(previous: Schema, next: Schema, j: Json)
    decreases previous
  {
    if previous.ArrayOf? && next.ArrayOf? && j.Arr? then
      forall i :: 0 <= i < |j.items| ==> NewFieldsParse(previous.items, next.items, j.items[i])
    else if previous.ObjectOf? && next.ObjectOf? && j.Obj? then
      forall key :: key in next.properties && key in j.fields ==>
        if key in previous.properties
        then NewFieldsParse(previous.properties[key], next.properties[key], j.fields[key])
        else ParseAs(next.properties[key], j.fields[key]).Some?
    else
      true
  }

  lemma {:induction false} NothingNew(s: Schema, j: Json)
    ensures NewFieldsParse(s, s, j)
    decreases s
  {
    if s.ArrayOf? && j.Arr? {
      forall i | 0 <= i < |j.items| ensures NewFieldsParse(s.items, s.items, j.items[i]) { NothingNew(s.items, j.items[i]); }
    } else if s.ObjectOf? && j.Obj? {
      forall key | key in s.properties && key in j.fields
        ensures NewFieldsParse(s.properties[key], s.properties[key], j.fields[key])
      {
        NothingNew(s.properties[key], j.fields[key]);
      }
    }
  }

  lemma KeysAdditive(previous: Schema, next: Schema)
    requires previous.ObjectOf? && next.ObjectOf? && Rank(WorstOf(KeyVerdicts(previous, next))) <= Rank(Additive)
    ensures forall key :: key in previous.properties ==> key in next.properties
    ensures forall key :: key in next.properties && key in next.required ==> key in previous.properties && key in previous.required
    ensures forall key :: key in previous.properties ==>
      Rank(Compare(previous.properties[key], next.properties[key])) <= Rank(Additive)
  {
    forall key | key in previous.properties || key in next.properties
      ensures Rank(CompareKey(previous, next, key)) <= Rank(Additive)
    {
      assert CompareKey(previous, next, key) in KeyVerdicts(previous, next);
    }
  }

  /**
   Exactly which of the inputs that the old schema took a compatible new one still takes: those in which
   every field that is new, at any depth, parses. What was dropped before is read now.
   */
  lemma {:induction false} RawInputsExactly(previous: Schema, next: Schema, j: Json)
    requires Rank(Compare(previous, next)) <= Rank(Additive) && ParseAs(previous, j).Some?
    ensures ParseAs(next, j).Some? <==> NewFieldsParse(previous, next, j)
    decreases previous
  {
    if previous == next {
      NothingNew(previous, j);
    } else if previous.ArrayOf? {
      ArrayParses(previous.items, j);
      ArrayParses(next.items, j);
      forall i | 0 <= i < |j.items|
        ensures ParseAs(next.items, j.items[i]).Some? <==> NewFieldsParse(previous.items, next.items, j.items[i])
      {
        RawInputsExactly(previous.items, next.items, j.items[i]);
      }
    } else {
      KeysAdditive(previous, next);
      ParseObject(previous, j);
      ParseObject(next, j);
      forall key | key in previous.properties && key in j.fields
        ensures ParseAs(next.properties[key], j.fields[key]).Some?
           <==> NewFieldsParse(previous.properties[key], next.properties[key], j.fields[key])
      {
        assert key in Parts(previous, j);
        RawInputsExactly(previous.properties[key], next.properties[key], j.fields[key]);
      }
      ObjectFits(previous, next, j);
    }
  }

  lemma ObjectFits(previous: Schema, next: Schema, j: Json)
    requires previous.ObjectOf? && next.ObjectOf? && j.Obj? && !Lacks(previous, j)
    requires forall key :: key in next.properties && key in next.required ==> key in previous.properties && key in previous.required
    requires forall key :: key in previous.properties ==> key in next.properties
    requires forall key :: key in previous.properties && key in j.fields ==>
      (ParseAs(next.properties[key], j.fields[key]).Some? <==>
       NewFieldsParse(previous.properties[key], next.properties[key], j.fields[key]))
    ensures ParseAs(next, j).Some? <==> NewFieldsParse(previous, next, j)
  {
    ParseObject(next, j);
    forall key | key in next.properties && key in j.fields
      ensures key in Parts(next, j) && Parts(next, j)[key] == ParseAs(next.properties[key], j.fields[key])
    {
    }
  }

  /** So an additive change can reject an input the old schema took: an extra field was dropped before. */
  lemma RawInputsMayBreak()
    ensures var previous := ObjectOf(map[], []);
      var next := ObjectOf(map["b" := Typed(NumberType)], []);
      var j := Obj(map["b" := Str("x")]);
      Compare(previous, next) == Additive && ParseAs(previous, j).Some? && ParseAs(next, j).None?
  {
    var previous := ObjectOf(map[], []);
    var next := ObjectOf(map["b" := Typed(NumberType)], []);
    var j := Obj(map["b" := Str("x")]);
    assert "b" in next.properties;
    assert CompareKey(previous, next, "b") == Additive;
    assert KeyVerdicts(previous, next) == {Additive};
    ParseObject(previous, j);
    ParseObject(next, j);
    assert "b" in Parts(next, j) && Parts(next, j)["b"] == None;
  }

  // ----- where a change is -----

  datatype PathStep = Key(name: string) | Item

  /** The schema found by following properties and array items. */
  function SchemaAt(s: Schema, path: seq<PathStep>): Option<Schema>
    decreases path
  {
    if path == [] then Some(s)
    else
      match path[0]
      case Key(name) => if s.ObjectOf? && name in s.properties then SchemaAt(s.properties[name], path[1..]) else None
      case Item => if s.ArrayOf? then SchemaAt(s.items, path[1..]) else None
  }

  /** What changed at one place itself, apart from what lies below it. */
  function LocalVerdict(previous: Schema, next: Schema): Verdict {
    if previous.ArrayOf? && next.ArrayOf? then Identical
    else if previous.ObjectOf? && next.ObjectOf? then
      if (exists key :: key in previous.properties && key !in next.properties)
         || (exists key :: key in next.properties && key in next.required
               && (key !in previous.properties || key !in previous.required))
      then Breaking
      else if (exists key :: key in next.properties && key !in previous.properties)
              || (exists key :: key in previous.properties && key in previous.required && key !in next.required)
      then Additive
      else Identical
    else if previous == next then Identical
    else Breaking
  }

  /** A place that only one of the two has is judged where it was added or removed. */
  function VerdictAt(previous: Schema, next: Schema, path: seq<PathStep>): Verdict {
    match (SchemaAt(previous, path), SchemaAt(next, path))
    case (Some(p), Some(n)) => LocalVerdict(p, n)
    case _ => Identical
  }

  lemma LocalBound(previous: Schema, next: Schema)
    ensures Rank(LocalVerdict(previous, next)) <= Rank(Compare(previous, next))
  {
    if previous != next && previous.ObjectOf? && next.ObjectOf? {
      forall key | key in previous.properties || key in next.properties
        ensures Rank(CompareKey(previous, next, key)) <= Rank(WorstOf(KeyVerdicts(previous, next)))
      {
        KeyBound(previous, next, key);
      }
    }
  }

  lemma InnerBound(previous: Schema, next: Schema, key: string)
    requires previous.ObjectOf? && next.ObjectOf? && key in previous.properties && key in next.properties
    ensures Rank(Compare(previous.properties[key], next.properties[key])) <= Rank(Compare(previous, next))
  {
    if previous != next { KeyBound(previous, next, key); }
  }

  lemma {:induction false} NoPlaceIsWorse(previous: Schema, next: Schema, path: seq<PathStep>)
    ensures Rank(VerdictAt(previous, next, path)) <= Rank(Compare(previous, next))
    decreases path
  {
    if path == [] {
      LocalBound(previous, next);
    } else {
      match path[0]
      case Key(name) =>
        if previous.ObjectOf? && next.ObjectOf? && name in previous.properties && name in next.properties {
          NoPlaceIsWorse(previous.properties[name], next.properties[name], path[1..]);
          InnerBound(previous, next, name);
        }
      case Item =>
        if previous.ArrayOf? && next.ArrayOf? { NoPlaceIsWorse(previous.items, next.items, path[1..]); }
    }
  }

  lemma {:induction false} SomePlaceIsAsBad(previous: Schema, next: Schema) returns (path: seq<PathStep>)
    ensures VerdictAt(previous, next, path) == Compare(previous, next)
    decreases previous
  {
    path := [];
    LocalBound(previous, next);
    if previous == next {
    } else if previous.ArrayOf? && next.ArrayOf? {
      var below := SomePlaceIsAsBad(previous.items, next.items);
      path := [Item] + below;
      assert path[1..] == below;
    } else if previous.ObjectOf? && next.ObjectOf? && LocalVerdict(previous, next) != Compare(previous, next) {
      var key :| key in previous.properties.Keys + next.properties.Keys
        && CompareKey(previous, next, key) == Compare(previous, next);
      var below := SomePlaceIsAsBad(previous.properties[key], next.properties[key]);
      path := [Key(key)] + below;
      assert path[1..] == below;
    }
  }

  /**
   A verdict is the gravest local change: no place in the two schemas is judged worse, and some place is
   judged just so. In particular a change is breaking exactly if there is a place, reached through the
   properties and items both have, at which a property went or became required, or anything but an object
   or an array is no longer what it was.
   */
  lemma VerdictHasAPlace(previous: Schema, next: Schema)
    ensures forall path :: Rank(VerdictAt(previous, next, path)) <= Rank(Compare(previous, next))
    ensures exists path :: VerdictAt(previous, next, path) == Compare(previous, next)
  {
    forall path ensures Rank(VerdictAt(previous, next, path)) <= Rank(Compare(previous, next)) {
      NoPlaceIsWorse(previous, next, path);
    }
    var path := SomePlaceIsAsBad(previous, next);
  }

  /** The verdict is not complete: a wider enum accepts everything, and yet counts as breaking. */
  lemma WiderEnumIsBreaking(values: seq<string>, more: seq<string>, j: Json)
    requires more != []
    ensures Compare(Enum(values), Enum(values + more)) == Breaking
    ensures ParseAs(Enum(values), j).Some? ==> ParseAs(Enum(values + more), j) == ParseAs(Enum(values), j)
  {
    assert |values + more| != |values|;
  }

  lemma {:induction false} SchemasNeverMigrate(previous: Schema, next: Schema)
    ensures Compare(previous, next) != RequiresMigration
    decreases previous
  {
    if previous.ObjectOf? && next.ObjectOf? {
      forall v | v in KeyVerdicts(previous, next) ensures v != RequiresMigration {
        var key :| key in previous.properties.Keys + next.properties.Keys && v == CompareKey(previous, next, key);
        if key in previous.properties && key in next.properties {
          SchemasNeverMigrate(previous.properties[key], next.properties[key]);
        }
      }
    } else if previous.ArrayOf? && next.ArrayOf? {
      SchemasNeverMigrate(previous.items, next.items);
    }
  }

  lemma KeyBound(previous: Schema, next: Schema, key: string)
    requires previous.ObjectOf? && next.ObjectOf? && (key in previous.properties || key in next.properties)
    ensures Rank(CompareKey(previous, next, key)) <= Rank(WorstOf(KeyVerdicts(previous, next)))
  {
    assert CompareKey(previous, next, key) in KeyVerdicts(previous, next);
  }

  /** One key through two changes. */
  lemma KeyTriangle(a: Schema, b: Schema, c: Schema, key: string, worst: nat)
    requires a.ObjectOf? && b.ObjectOf? && c.ObjectOf? && (key in a.properties || key in c.properties)
    requires key in a.properties && key in b.properties && key in c.properties ==>
      var (x, y, z) := (a.properties[key], b.properties[key], c.properties[key]);
      Rank(Compare(x, z)) <= Max(Rank(Compare(x, y)), Rank(Compare(y, z)))
    requires key in a.properties || key in b.properties ==> Rank(CompareKey(a, b, key)) <= worst
    requires key in b.properties || key in c.properties ==> Rank(CompareKey(b, c, key)) <= worst
    ensures Rank(CompareKey(a, c, key)) <= worst
  {
    hide WorstOf;
    hide KeyVerdicts;
    hide Compare;
  }

  /** Two changes in a row are no worse than the worse of the two. */
  lemma {:induction false} SchemaTriangle(a: Schema, b: Schema, c: Schema)
    ensures Rank(Compare(a, c)) <= Max(Rank(Compare(a, b)), Rank(Compare(b, c)))
    decreases a
  {
    if a == b || b == c || a == c || Compare(a, b).Breaking? || Compare(b, c).Breaking? {
    } else if a.ArrayOf? {
      SchemaTriangle(a.items, b.items, c.items);
    } else {
      forall v | v in KeyVerdicts(a, c) ensures Rank(v) <= Max(Rank(Compare(a, b)), Rank(Compare(b, c))) {
        var key :| key in a.properties.Keys + c.properties.Keys && v == CompareKey(a, c, key);
        if key in a.properties && key in b.properties && key in c.properties {
          SchemaTriangle(a.properties[key], b.properties[key], c.properties[key]);
        }
        if key in a.properties || key in b.properties { KeyBound(a, b, key); }
        if key in b.properties || key in c.properties { KeyBound(b, c, key); }
        KeyTriangle(a, b, c, key, Max(Rank(Compare(a, b)), Rank(Compare(b, c))));
      }
    }
  }
}

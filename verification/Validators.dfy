/**
 The validators of `v`, and the schemas they carry. A schema is all that a contract keeps of a
 validator; reading a schema as a parser gives back the validator's own behaviour.
 */
module Validators {
  import opened Wrappers
  import opened Json

  datatype Primitive = StringType | NumberType | BooleanType | NullType

  /** What `literal` can expect. */
  type Scalar = j: Json | !j.Arr? && !j.Obj? witness Null

  datatype Schema =
    | Anything
    | Typed(primitive: Primitive)
    | Enum(values: seq<string>)
    | Const(expected: Scalar)
    | AnyOf(options: seq<Schema>)
    | ArrayOf(items: Schema)
    | ObjectOf(properties: map<string, Schema>, required: seq<string>)

  /** `order` lists the keys of a shape in the order in which they were written. */
  datatype Validator =
    | Unknown
    | OfType(primitive: Primitive)
    | OneOf(values: seq<string>)
    | Literal(expected: Scalar)
    | Union(validators: seq<Validator>)
    | Nullable(inner: Validator)
    | Optional(inner: Validator)
    | List(inner: Validator)
    | Shape(fields: map<string, Validator>, order: seq<string>)

  predicate HasType(j: Json, t: Primitive) {
    match t
    case StringType => j.Str?
    case NumberType => j.Num?
    case BooleanType => j.Bool?
    case NullType => j.Null?
  }

  /** Every shape lists its own keys. */
  predicate Built(v: Validator) {
    match v
    case Union(validators) => forall i :: 0 <= i < |validators| ==> Built(validators[i])
    case Nullable(inner) => Built(inner)
    case Optional(inner) => Built(inner)
    case List(inner) => Built(inner)
    case Shape(fields, order) =>
      (set key | key in order) == fields.Keys && forall key :: key in fields ==> Built(fields[key])
    case _ => true
  }

  function FirstSome(results: seq<Option<Json>>): Option<Json> {
    if results == [] then None else if results[0].Some? then results[0] else FirstSome(results[1..])
  }

  lemma {:induction false} FirstSomeExists(results: seq<Option<Json>>)
    ensures FirstSome(results).Some? <==> exists i :: 0 <= i < |results| && results[i].Some?
    ensures FirstSome(results).Some? ==> exists i :: 0 <= i < |results| && results[i] == FirstSome(results)
  {
    if results != [] {
      FirstSomeExists(results[1..]);
      assert forall i :: 1 <= i < |results| ==> results[i] == results[1..][i - 1];
      if results[0].None? && FirstSome(results[1..]).Some? {
        var i :| 0 <= i < |results[1..]| && results[1..][i] == FirstSome(results[1..]);
        assert results[i + 1] == FirstSome(results);
      }
    }
  }

  /** An array of parsed entries; one failure fails it all. */
  function Collect(entries: seq<Option<Json>>): (r: Option<Json>)
    ensures r.Some? <==> forall i :: 0 <= i < |entries| ==> entries[i].Some?
    ensures r.Some? ==> r.value.Arr? && |r.value.items| == |entries|
    ensures r.Some? ==> forall i :: 0 <= i < |entries| ==> entries[i] == Some(r.value.items[i])
  {
    if forall i :: 0 <= i < |entries| ==> entries[i].Some?
    then Some(Arr(seq(|entries|, i requires 0 <= i < |entries| => entries[i].value)))
    else None
  }

  /** An object of parsed fields; one failure fails it all. */
  function Assemble(parsed: map<string, Option<Json>>): (r: Option<Json>)
    ensures r.Some? <==> forall key :: key in parsed ==> parsed[key].Some?
    ensures r.Some? ==> r.value.Obj? && r.value.fields.Keys == parsed.Keys
    ensures r.Some? ==> forall key :: key in parsed ==> parsed[key] == Some(r.value.fields[key])
  {
    if forall key :: key in parsed ==> parsed[key].Some?
    then Some(Obj(map key | key in parsed :: parsed[key].value))
    else None
  }

  /** The outcome of a validator on a JSON value; None stands for the thrown error. */
  function Parse(v: Validator, j: Json): Option<Json>
    decreases v
  {
    match v
    case Unknown => Some(j)
    case OfType(t) => if HasType(j, t) then Some(j) else None
    case OneOf(values) => if j.Str? && j.text in values then Some(j) else None
    case Literal(expected) => if j == expected then Some(expected) else None
    case Union(validators) => FirstSome(seq(|validators|, i requires 0 <= i < |validators| => Parse(validators[i], j)))
    case Nullable(inner) => if j.Null? then Some(Null) else Parse(inner, j)
    case Optional(inner) => Parse(inner, j)
    case List(inner) =>
      if j.Arr? then Collect(seq(|j.items|, i requires 0 <= i < |j.items| => Parse(inner, j.items[i]))) else None
    case Shape(fields, _) =>
      if !j.Obj? || exists key :: key in fields && key !in j.fields && !fields[key].Optional? then None
      else Assemble(map key | key in fields && key in j.fields :: Parse(fields[key], j.fields[key]))
  }

  function RequiredKeys(fields: map<string, Validator>, order: seq<string>): (keys: seq<string>)
    ensures forall key :: key in keys <==> key in order && key in fields && !fields[key].Optional?
  {
    if order == [] then []
    else
      var key := order[0];
      (if key in fields && !fields[key].Optional? then [key] else []) + RequiredKeys(fields, order[1..])
  }

  function SchemaOf(v: Validator): Schema {
    match v
    case Unknown => Anything
    case OfType(t) => Typed(t)
    case OneOf(values) => Enum(values)
    case Literal(expected) => Const(expected)
    case Union(validators) => AnyOf(seq(|validators|, i requires 0 <= i < |validators| => SchemaOf(validators[i])))
    case Nullable(inner) => AnyOf([SchemaOf(inner), Typed(NullType)])
    case Optional(inner) => SchemaOf(inner)
    case List(inner) => ArrayOf(SchemaOf(inner))
    case Shape(fields, order) => ObjectOf(map key | key in fields :: SchemaOf(fields[key]), RequiredKeys(fields, order))
  }

  // ----- a schema read as a parser -----

  function ParseAs(s: Schema, j: Json): Option<Json>
    decreases s
  {
    match s
    case Anything => Some(j)
    case Typed(t) => if HasType(j, t) then Some(j) else None
    case Enum(values) => if j.Str? && j.text in values then Some(j) else None
    case Const(expected) => if j == expected then Some(j) else None
    case AnyOf(options) => FirstSome(seq(|options|, i requires 0 <= i < |options| => ParseAs(options[i], j)))
    case ArrayOf(items) =>
      if j.Arr? then Collect(seq(|j.items|, i requires 0 <= i < |j.items| => ParseAs(items, j.items[i]))) else None
    case ObjectOf(properties, required) =>
      if !j.Obj? || exists key :: key in properties && key !in j.fields && key in required then None
      else Assemble(map key | key in properties && key in j.fields :: ParseAs(properties[key], j.fields[key]))
  }

  lemma {:induction false} NullParsesToNull(s: Schema)
    ensures ParseAs(s, Null).Some? ==> ParseAs(s, Null) == Some(Null)
  {
    if s.AnyOf? {
      var results := seq(|s.options|, i requires 0 <= i < |s.options| => ParseAs(s.options[i], Null));
      FirstSomeExists(results);
      forall i | 0 <= i < |s.options| ensures results[i].Some? ==> results[i] == Some(Null) {
        NullParsesToNull(s.options[i]);
      }
    }
  }

  /** A contract loses nothing: what a validator accepts, and what it returns, is a function of its schema. */
  lemma {:induction false} SchemaDetermines(v: Validator, j: Json)
    requires Built(v)
    ensures Parse(v, j) == ParseAs(SchemaOf(v), j)
    decreases v
  {
    match v
    case Union(validators) =>
      forall i | 0 <= i < |validators| ensures Parse(validators[i], j) == ParseAs(SchemaOf(validators[i]), j) {
        SchemaDetermines(validators[i], j);
      }
      var options := SchemaOf(v).options;
      assert seq(|validators|, i requires 0 <= i < |validators| => Parse(validators[i], j))
          == seq(|options|, i requires 0 <= i < |options| => ParseAs(options[i], j));
    case Nullable(inner) =>
      SchemaDetermines(inner, j);
      NullParsesToNull(SchemaOf(inner));
      NullableParses(SchemaOf(inner), j);
    case Optional(inner) =>
      SchemaDetermines(inner, j);
    case List(inner) =>
      if j.Arr? {
        forall i | 0 <= i < |j.items| ensures Parse(inner, j.items[i]) == ParseAs(SchemaOf(inner), j.items[i]) {
          SchemaDetermines(inner, j.items[i]);
        }
        assert seq(|j.items|, i requires 0 <= i < |j.items| => Parse(inner, j.items[i]))
            == seq(|j.items|, i requires 0 <= i < |j.items| => ParseAs(SchemaOf(inner), j.items[i]));
      }
    case Shape(fields, order) =>
      if j.Obj? {
        forall key | key in fields && key in j.fields
          ensures Parse(fields[key], j.fields[key]) == ParseAs(SchemaOf(fields[key]), j.fields[key])
        {
          SchemaDetermines(fields[key], j.fields[key]);
        }
        ShapeDetermines(fields, order, j);
      }
    case _ =>
  }

  lemma NullableParses(s: Schema, j: Json)
    ensures ParseAs(AnyOf([s, Typed(NullType)]), j)
         == if ParseAs(s, j).Some? then ParseAs(s, j) else if j.Null? then Some(Null) else None
  {
    var options := [s, Typed(NullType)];
    var results := seq(|options|, i requires 0 <= i < |options| => ParseAs(options[i], j));
    var other := ParseAs(Typed(NullType), j);
    assert results == [ParseAs(s, j), other];
    assert results[1..] == [other];
    assert FirstSome([other]) == other;
  }

  predicate Lacks(s: Schema, j: Json)
    requires s.ObjectOf? && j.Obj?
  {
    exists key :: key in s.properties && key !in j.fields && key in s.required
  }

  function Parts(s: Schema, j: Json): map<string, Option<Json>>
    requires s.ObjectOf? && j.Obj?
  {
    map key | key in s.properties && key in j.fields :: ParseAs(s.properties[key], j.fields[key])
  }

  lemma ParseObject(s: Schema, j: Json)
    requires s.ObjectOf? && j.Obj?
    ensures ParseAs(s, j) == if Lacks(s, j) then None else Assemble(Parts(s, j))
  {
    assert Parts(s, j) == map key | key in s.properties && key in j.fields :: ParseAs(s.properties[key], j.fields[key]);
  }

  predicate LacksField(v: Validator, j: Json)
    requires v.Shape? && j.Obj?
  {
    exists key :: key in v.fields && key !in j.fields && !v.fields[key].Optional?
  }

  function FieldParts(v: Validator, j: Json): map<string, Option<Json>>
    requires v.Shape? && j.Obj?
  {
    map key | key in v.fields && key in j.fields :: Parse(v.fields[key], j.fields[key])
  }

  lemma ParseShape(v: Validator, j: Json)
    requires v.Shape? && j.Obj?
    ensures Parse(v, j) == if LacksField(v, j) then None else Assemble(FieldParts(v, j))
  {
    assert FieldParts(v, j) == map key | key in v.fields && key in j.fields :: Parse(v.fields[key], j.fields[key]);
  }

  lemma LacksTheSame(v: Validator, s: Schema, j: Json)
    requires v.Shape? && s.ObjectOf? && j.Obj? && s.properties.Keys == v.fields.Keys
    requires forall key :: key in v.fields ==> (key in s.required <==> !v.fields[key].Optional?)
    ensures Lacks(s, j) <==> LacksField(v, j)
  {
  }

  lemma ShapeKeys(fields: map<string, Validator>, order: seq<string>)
    requires Built(Shape(fields, order))
    ensures var s := SchemaOf(Shape(fields, order));
      && s.ObjectOf? && s.properties == (map key | key in fields :: SchemaOf(fields[key]))
      && forall key :: key in fields ==> (key in s.required <==> !fields[key].Optional?)
  {
    var s := SchemaOf(Shape(fields, order));
    assert s.properties == map key | key in fields :: SchemaOf(fields[key]);
    forall key | key in fields ensures key in s.required <==> !fields[key].Optional? {
      assert key in set k | k in order;
    }
  }

  lemma ShapeDetermines(fields: map<string, Validator>, order: seq<string>, j: Json)
    requires Built(Shape(fields, order)) && j.Obj?
    requires forall key :: key in fields && key in j.fields ==>
      Parse(fields[key], j.fields[key]) == ParseAs(SchemaOf(fields[key]), j.fields[key])
    ensures Parse(Shape(fields, order), j) == ParseAs(SchemaOf(Shape(fields, order)), j)
  {
    hide Parse;
    hide ParseAs;
    hide SchemaOf;
    hide Assemble;
    hide RequiredKeys;
    hide Built;
    var v := Shape(fields, order);
    var s := SchemaOf(v);
    ShapeKeys(fields, order);
    ParseObject(s, j);
    ParseShape(v, j);
    LacksTheSame(v, s, j);
    assert Parts(s, j) == FieldParts(v, j);
  }

  // ----- parsing what was parsed -----

  /** What a validator returns, it accepts again. */
  lemma {:induction false} Reparse(s: Schema, j: Json)
    requires ParseAs(s, j).Some?
    ensures ParseAs(s, ParseAs(s, j).value).Some?
    decreases s
  {
    var out := ParseAs(s, j).value;
    match s
    case AnyOf(options) =>
      var results := seq(|options|, i requires 0 <= i < |options| => ParseAs(options[i], j));
      FirstSomeExists(results);
      var i :| 0 <= i < |options| && results[i] == Some(out);
      Reparse(options[i], j);
      var again := seq(|options|, i requires 0 <= i < |options| => ParseAs(options[i], out));
      FirstSomeExists(again);
      assert again[i].Some?;
    case ArrayOf(items) =>
      ArrayParses(items, j);
      forall i | 0 <= i < |out.items| ensures ParseAs(items, out.items[i]).Some? {
        Reparse(items, j.items[i]);
      }
      ArrayParses(items, out);
    case ObjectOf(properties, required) =>
      ParseObject(s, j);
      forall key | key in Parts(s, out) ensures Parts(s, out)[key].Some? {
        assert Parts(s, j)[key] == Some(out.fields[key]);
        Reparse(properties[key], j.fields[key]);
      }
      ParseObject(s, out);
    case _ =>
  }

  lemma ArrayParses(items: Schema, j: Json)
    requires j.Arr?
    ensures ParseAs(ArrayOf(items), j).Some? <==> forall i :: 0 <= i < |j.items| ==> ParseAs(items, j.items[i]).Some?
    ensures var out := ParseAs(ArrayOf(items), j);
      out.Some? ==> out.value.Arr? && |out.value.items| == |j.items|
    ensures var out := ParseAs(ArrayOf(items), j);
      out.Some? ==> forall i :: 0 <= i < |j.items| ==> ParseAs(items, j.items[i]) == Some(out.value.items[i])
  {
    var entries := seq(|j.items|, i requires 0 <= i < |j.items| => ParseAs(items, j.items[i]));
    assert ParseAs(ArrayOf(items), j) == Collect(entries);
    assert forall i :: 0 <= i < |j.items| ==> entries[i] == ParseAs(items, j.items[i]);
  }

  // ----- when the second parse changes nothing -----

  /** The union's branch `k` is the one that takes the value. */
  ghost predicate Takes(options: seq<Schema>, j: Json, k: nat) {
    k < |options| && ParseAs(options[k], j).Some? && forall i :: 0 <= i < k ==> ParseAs(options[i], j).None?
  }

  lemma {:induction false} FirstSomeAt(results: seq<Option<Json>>) returns (k: nat)
    requires FirstSome(results).Some?
    ensures k < |results| && results[k] == FirstSome(results) && forall i :: 0 <= i < k ==> results[i].None?
  {
    if results[0].Some? {
      k := 0;
    } else {
      k := FirstSomeAt(results[1..]);
      assert forall i :: 1 <= i <= k ==> results[i] == results[1..][i - 1];
      k := k + 1;
    }
  }

  lemma UnionTakes(options: seq<Schema>, j: Json) returns (k: nat)
    requires ParseAs(AnyOf(options), j).Some?
    ensures Takes(options, j, k) && ParseAs(AnyOf(options), j) == ParseAs(options[k], j)
  {
    var results := seq(|options|, i requires 0 <= i < |options| => ParseAs(options[i], j));
    k := FirstSomeAt(results);
    forall i | 0 <= i < k ensures ParseAs(options[i], j).None? { assert results[i].None?; }
  }

  /**
   The schema lists every field of the value: in each object, at any depth, all keys are among the
   properties, and at each union that holds for the branch that takes the value.
   */
  ghost predicate Lists(s: Schema, j: Json)
    decreases s
  {
    match s
    case AnyOf(options) => exists k :: 0 <= k < |options| && Takes(options, j, k) && Lists(options[k], j)
    case ArrayOf(items) => j.Arr? && forall i :: 0 <= i < |j.items| ==> Lists(items, j.items[i])
    case ObjectOf(properties, _) =>
      j.Obj? && j.fields.Keys <= properties.Keys && forall key :: key in j.fields ==> Lists(properties[key], j.fields[key])
    case _ => true
  }

  /** A parse returns the value as it is exactly if the schema lists every field of it. */
  lemma {:induction false} UnchangedExactly(s: Schema, j: Json)
    requires ParseAs(s, j).Some?
    ensures ParseAs(s, j) == Some(j) <==> Lists(s, j)
    decreases s
  {
    match s
    case AnyOf(options) =>
      var k := UnionTakes(options, j);
      UnchangedExactly(options[k], j);
      if Lists(s, j) {
        var i :| 0 <= i < |options| && Takes(options, j, i) && Lists(options[i], j);
        assert i == k;
      }
    case ArrayOf(items) =>
      ArrayParses(items, j);
      forall i | 0 <= i < |j.items| ensures ParseAs(items, j.items[i]) == Some(j.items[i]) <==> Lists(items, j.items[i]) {
        UnchangedExactly(items, j.items[i]);
      }
      var out := ParseAs(s, j).value;
      if Lists(s, j) { assert out.items == j.items; }
    case ObjectOf(properties, required) =>
      ObjectUnchanged(s, j);
      forall key | key in properties && key in j.fields
        ensures ParseAs(properties[key], j.fields[key]) == Some(j.fields[key]) <==> Lists(properties[key], j.fields[key])
      {
        assert key in Parts(s, j);
        ParseObject(s, j);
        UnchangedExactly(properties[key], j.fields[key]);
      }
    case _ =>
  }

  lemma ObjectUnchanged(s: Schema, j: Json)
    requires s.ObjectOf? && ParseAs(s, j).Some?
    ensures ParseAs(s, j) == Some(j)
       <==> j.fields.Keys <= s.properties.Keys
            && forall key :: key in j.fields ==> ParseAs(s.properties[key], j.fields[key]) == Some(j.fields[key])
  {
    ParseObject(s, j);
    var out := ParseAs(s, j).value;
    assert out.fields.Keys == Parts(s, j).Keys;
    assert forall key :: key in Parts(s, j) ==> Parts(s, j)[key] == Some(out.fields[key]);
    assert out == j <==> out.fields == j.fields;
    assert out.fields == j.fields ==> forall key :: key in j.fields ==> key in Parts(s, j);
    assert j.fields.Keys <= s.properties.Keys ==> Parts(s, j).Keys == j.fields.Keys;
  }

  /**
   Exactly when a second parse changes nothing: when the schema lists every field of what it returned. Only
   a union can fail this, by a branch that did not take the value but takes what another branch made of it.
   */
  lemma ReparseUnchangedExactly(s: Schema, j: Json)
    requires ParseAs(s, j).Some?
    ensures ParseAs(s, ParseAs(s, j).value) == ParseAs(s, j) <==> Lists(s, ParseAs(s, j).value)
  {
    Reparse(s, j);
    UnchangedExactly(s, ParseAs(s, j).value);
  }

  /** No object anywhere in it. */
  predicate Flat(s: Schema) {
    match s
    case AnyOf(options) => forall i :: 0 <= i < |options| ==> Flat(options[i])
    case ArrayOf(items) => Flat(items)
    case ObjectOf(_, _) => false
    case _ => true
  }

  lemma {:induction false} FlatReturnsItsInput(s: Schema, j: Json)
    requires Flat(s) && ParseAs(s, j).Some?
    ensures ParseAs(s, j) == Some(j)
    decreases s
  {
    match s
    case AnyOf(options) =>
      var k := UnionTakes(options, j);
      FlatReturnsItsInput(options[k], j);
    case ArrayOf(items) =>
      ArrayParses(items, j);
      forall i | 0 <= i < |j.items| ensures ParseAs(items, j.items[i]) == Some(j.items[i]) {
        FlatReturnsItsInput(items, j.items[i]);
      }
      assert ParseAs(s, j).value.items == j.items;
    case _ =>
  }

  /** The first of two branches rejects whatever the second one returns: an array, or another constant under a required key. */
  predicate Apart(first: Schema, second: Schema) {
    || (first.ObjectOf? && second.ArrayOf?) || (first.ArrayOf? && second.ObjectOf?)
    || (first.ObjectOf? && second.ObjectOf?
        && exists key :: key in first.properties && key in second.properties && key in second.required
             && first.properties[key].Const? && second.properties[key].Const?
             && first.properties[key] != second.properties[key])
  }

  lemma ApartRejects(first: Schema, second: Schema, j: Json)
    requires Apart(first, second) && ParseAs(second, j).Some?
    ensures ParseAs(first, ParseAs(second, j).value).None?
  {
    if first.ObjectOf? && second.ObjectOf? {
      var key :| key in first.properties && key in second.properties && key in second.required
        && first.properties[key].Const? && second.properties[key].Const? && first.properties[key] != second.properties[key];
      ParseObject(second, j);
      var out := ParseAs(second, j).value;
      assert key in j.fields && key in Parts(second, j);
      assert out.fields[key] == second.properties[key].expected;
      ParseObject(first, out);
      assert key in Parts(first, out) && Parts(first, out)[key].None?;
    }
  }

  /**
   Of the branches of each union at most one holds an object, as in every `nullable`, or those that do are
   told apart: the validators whose second parse never changes anything.
   */
  predicate Settled(s: Schema) {
    match s
    case AnyOf(options) =>
      && (forall i :: 0 <= i < |options| ==> Settled(options[i]))
      && forall i, k :: 0 <= i < k < |options| ==> Flat(options[i]) || Flat(options[k]) || Apart(options[i], options[k])
    case ArrayOf(items) => Settled(items)
    case ObjectOf(properties, _) => forall key :: key in properties ==> Settled(properties[key])
    case _ => true
  }

  lemma {:induction false} ReparseIsIdempotent(s: Schema, j: Json)
    requires Settled(s) && ParseAs(s, j).Some?
    ensures ParseAs(s, ParseAs(s, j).value) == ParseAs(s, j)
    decreases s
  {
    var out := ParseAs(s, j).value;
    match s
    case AnyOf(options) =>
      var k := UnionTakes(options, j);
      ReparseIsIdempotent(options[k], j);
      Reparse(s, j);
      var i := UnionTakes(options, out);
      assert i <= k;
      if i < k {
        EarlierBranch(options[i], options[k], j);
      }
    case ArrayOf(items) =>
      ArrayParses(items, j);
      forall i | 0 <= i < |out.items| ensures ParseAs(items, out.items[i]) == Some(out.items[i]) {
        ReparseIsIdempotent(items, j.items[i]);
      }
      ArrayParses(items, out);
      assert ParseAs(s, out).value.items == out.items;
    case ObjectOf(properties, required) =>
      ParseObject(s, j);
      forall key | key in Parts(s, out) ensures Parts(s, out)[key] == Some(out.fields[key]) {
        assert Parts(s, j)[key] == Some(out.fields[key]);
        ReparseIsIdempotent(properties[key], j.fields[key]);
      }
      ParseObject(s, out);
      assert ParseAs(s, out).value.fields == out.fields;
    case _ =>
  }

  /** An earlier branch that takes over what a later one returned leaves it alone, if the two cannot both be objects. */
  lemma EarlierBranch(earlier: Schema, later: Schema, j: Json)
    requires Flat(earlier) || Flat(later) || Apart(earlier, later)
    requires ParseAs(earlier, j).None? && ParseAs(later, j).Some?
    requires ParseAs(earlier, ParseAs(later, j).value).Some?
    ensures ParseAs(earlier, ParseAs(later, j).value) == ParseAs(later, j)
  {
    if Flat(earlier) {
      FlatReturnsItsInput(earlier, ParseAs(later, j).value);
    } else if Flat(later) {
      FlatReturnsItsInput(later, j);
    } else {
      ApartRejects(earlier, later, j);
    }
  }

  /** With a union it may: an earlier branch takes over and drops the other branch's fields. */
  lemma ReparseMayDropFields()
    ensures var first := Shape(map["a" := Optional(OfType(StringType))], ["a"]);
      var second := Shape(map["b" := OfType(NumberType)], ["b"]);
      var j := Obj(map["a" := Num(5.0), "b" := Num(1.0)]);
      var once := Parse(Union([first, second]), j);
      && once == Some(Obj(map["b" := Num(1.0)]))
      && Parse(Union([first, second]), once.value) == Some(Obj(map[]))
  {
    var first := Shape(map["a" := Optional(OfType(StringType))], ["a"]);
    var second := Shape(map["b" := OfType(NumberType)], ["b"]);
    var j := Obj(map["a" := Num(5.0), "b" := Num(1.0)]);
    var once := Obj(map["b" := Num(1.0)]);
    OneFieldShape("a", Optional(OfType(StringType)), j);
    OneFieldShape("b", OfType(NumberType), j);
    OneFieldShape("a", Optional(OfType(StringType)), once);
    UnionOfTwo(first, second, j);
    UnionOfTwo(first, second, once);
    assert Parse(OfType(StringType), j.fields["a"]) == None;
    assert Parse(OfType(NumberType), j.fields["b"]) == Some(Num(1.0));
  }

  lemma OneFieldShape(key: string, v: Validator, j: Json)
    requires j.Obj?
    ensures Parse(Shape(map[key := v], [key]), j)
         == if key !in j.fields then if v.Optional? then Some(Obj(map[])) else None
            else var parsed := Parse(v, j.fields[key]);
              if parsed.None? then None else Some(Obj(map[key := parsed.value]))
  {
    var fields := map[key := v];
    assert key in fields;
    var shape := Shape(fields, [key]);
    var parts := FieldParts(shape, j);
    ParseShape(shape, j);
    assert LacksField(shape, j) <==> key !in j.fields && !v.Optional?;
    if key in j.fields {
      assert parts == map[key := Parse(v, j.fields[key])];
      assert key in parts;
      assert parts[key].Some? ==> Assemble(parts).value.fields == map[key := parts[key].value];
    } else {
      assert parts == map[];
      assert Assemble(parts).value.fields == map[];
    }
  }

  lemma UnionOfTwo(first: Validator, second: Validator, j: Json)
    ensures Parse(Union([first, second]), j) == if Parse(first, j).Some? then Parse(first, j) else Parse(second, j)
  {
    var vs := [first, second];
    var results := seq(|vs|, i requires 0 <= i < |vs| => Parse(vs[i], j));
    assert results == [Parse(first, j), Parse(second, j)];
    assert results[1..] == [Parse(second, j)];
    assert FirstSome([Parse(second, j)]) == Parse(second, j);
  }
}

/** What a validator accepts and what it returns, said as relations on values, with no order of evaluation. */
module ValidatorRules {
  import opened Wrappers
  import opened Json
  import opened Validators

  /** The value conforms: unions take what some branch takes, and shapes leave only keys they do not list unchecked. */
  ghost predicate Conforms(v: Validator, j: Json) {
    match v
    case Unknown => true
    case OfType(StringType) => exists text :: j == Str(text)
    case OfType(NumberType) => exists number :: j == Num(number)
    case OfType(BooleanType) => j == Bool(true) || j == Bool(false)
    case OfType(NullType) => j == Null
    case OneOf(values) => exists i :: 0 <= i < |values| && j == Str(values[i])
    case Literal(expected) => j == expected
    case Union(validators) => exists i :: 0 <= i < |validators| && Conforms(validators[i], j)
    case Nullable(inner) => j == Null || Conforms(inner, j)
    case Optional(inner) => Conforms(inner, j)
    case List(inner) => j.Arr? && forall i :: 0 <= i < |j.items| ==> Conforms(inner, j.items[i])
    case Shape(fields, _) =>
      j.Obj? && forall key :: key in fields ==>
        if key in j.fields then Conforms(fields[key], j.fields[key]) else fields[key].Optional?
  }

  /** `out` is the value without the fields that no shape on the way lists, where a union goes by its first branch that conforms. */
  ghost predicate Returns(v: Validator, j: Json, out: Json) {
    match v
    case Union(validators) =>
      exists i :: 0 <= i < |validators| && Returns(validators[i], j, out)
        && forall k :: 0 <= k < i ==> !Conforms(validators[k], j)
    case Nullable(inner) => if j == Null then out == Null else Returns(inner, j, out)
    case Optional(inner) => Returns(inner, j, out)
    case List(inner) =>
      && j.Arr? && out.Arr? && |out.items| == |j.items|
      && forall i :: 0 <= i < |j.items| ==> Returns(inner, j.items[i], out.items[i])
    case Shape(fields, _) =>
      && j.Obj? && out.Obj?
      && (forall key :: key in out.fields <==> key in fields && key in j.fields)
      && (forall key :: key in fields && key !in j.fields ==> fields[key].Optional?)
      && forall key :: key in fields && key in j.fields ==> Returns(fields[key], j.fields[key], out.fields[key])
    case _ => out == j && Conforms(v, j)
  }

  /** The parse of this validator, on this value, is what the rules say. */
  ghost predicate Exact(v: Validator, j: Json) {
    && (Parse(v, j).Some? <==> Conforms(v, j))
    && forall out :: Parse(v, j) == Some(out) <==> Returns(v, j, out)
  }

  /** A validator rejects exactly what does not conform, and of the rest returns exactly what the rules say. */
  lemma {:induction false} ParseExactly(v: Validator, j: Json)
    ensures Parse(v, j).Some? <==> Conforms(v, j)
    ensures forall out :: Parse(v, j) == Some(out) <==> Returns(v, j, out)
    decreases v
  {
    match v
    case Union(validators) =>
      forall i | 0 <= i < |validators| ensures Exact(validators[i], j) { ParseExactly(validators[i], j); }
      UnionExactly(validators, j);
    case Nullable(inner) =>
      ParseExactly(inner, j);
    case Optional(inner) =>
      ParseExactly(inner, j);
    case List(inner) =>
      if j.Arr? {
        forall i | 0 <= i < |j.items| ensures Exact(inner, j.items[i]) { ParseExactly(inner, j.items[i]); }
        ListExactly(inner, j);
      }
    case Shape(fields, order) =>
      if j.Obj? {
        forall key | key in fields && key in j.fields ensures Exact(fields[key], j.fields[key]) {
          ParseExactly(fields[key], j.fields[key]);
        }
        ShapeExactly(fields, order, j);
      }
    case _ =>
  }

  /** The union's first branch that accepts, if there is one. */
  lemma UnionFirst(validators: seq<Validator>, j: Json) returns (k: nat)
    ensures k <= |validators| && forall i :: 0 <= i < k ==> Parse(validators[i], j).None?
    ensures Parse(Union(validators), j) == if k < |validators| then Parse(validators[k], j) else None
    ensures k < |validators| ==> Parse(validators[k], j).Some?
  {
    var results := seq(|validators|, i requires 0 <= i < |validators| => Parse(validators[i], j));
    assert Parse(Union(validators), j) == FirstSome(results);
    FirstSomeExists(results);
    k := |validators|;
    if FirstSome(results).Some? { k := FirstSomeAt(results); }
    forall i | 0 <= i < k ensures Parse(validators[i], j).None? { assert results[i].None?; }
  }

  lemma UnionExactly(validators: seq<Validator>, j: Json)
    requires forall i :: 0 <= i < |validators| ==> Exact(validators[i], j)
    ensures Exact(Union(validators), j)
  {
    var k := UnionFirst(validators, j);
    hide Parse;
    assert forall i :: 0 <= i < k ==> Exact(validators[i], j) && !Conforms(validators[i], j);
    if k < |validators| {
      assert Exact(validators[k], j);
      forall out ensures Parse(Union(validators), j) == Some(out) <==> Returns(Union(validators), j, out) {
        assert forall i :: 0 <= i < |validators| ==> Exact(validators[i], j);
        UnionReturns(validators, j, out, k);
      }
    }
  }

  /** The branch that returns is the first one that conforms. */
  lemma UnionReturns(validators: seq<Validator>, j: Json, out: Json, k: nat)
    requires k < |validators| && Conforms(validators[k], j)
    requires forall i :: 0 <= i < k ==> !Conforms(validators[i], j)
    requires forall i :: 0 <= i < |validators| && Returns(validators[i], j, out) ==> Conforms(validators[i], j)
    ensures Returns(Union(validators), j, out) <==> Returns(validators[k], j, out)
  {
    if Returns(Union(validators), j, out) {
      var i :| 0 <= i < |validators| && Returns(validators[i], j, out)
        && forall m :: 0 <= m < i ==> !Conforms(validators[m], j);
      assert i == k;
    }
  }

  lemma ListExactly(inner: Validator, j: Json)
    requires j.Arr? && forall i :: 0 <= i < |j.items| ==> Exact(inner, j.items[i])
    ensures Exact(List(inner), j)
  {
    var v := List(inner);
    var entries := seq(|j.items|, i requires 0 <= i < |j.items| => Parse(inner, j.items[i]));
    assert Parse(v, j) == Collect(entries);
    assert forall i :: 0 <= i < |j.items| ==> entries[i] == Parse(inner, j.items[i]);
    hide Parse;
    forall out ensures Collect(entries) == Some(out) <==> Returns(v, j, out) {
      if Returns(v, j, out) {
        assert forall i :: 0 <= i < |entries| ==> entries[i] == Some(out.items[i]);
        assert Collect(entries).value.items == out.items;
      }
    }
  }

  lemma ShapeExactly(fields: map<string, Validator>, order: seq<string>, j: Json)
    requires j.Obj? && forall key :: key in fields && key in j.fields ==> Exact(fields[key], j.fields[key])
    ensures Exact(Shape(fields, order), j)
  {
    var v := Shape(fields, order);
    var parts := FieldParts(v, j);
    ParseShape(v, j);
    assert forall key :: key in parts ==> parts[key] == Parse(fields[key], j.fields[key]);
    hide Parse;
    assert Conforms(v, j) <==> !LacksField(v, j) && Assemble(parts).Some?;
    forall out ensures Returns(v, j, out) <==> !LacksField(v, j) && Assemble(parts) == Some(out) {
      ShapeReturns(fields, order, j, parts, out);
    }
  }

  lemma ShapeReturns(
    fields: map<string, Validator>, order: seq<string>, j: Json, parts: map<string, Option<Json>>, out: Json)
    requires j.Obj? && forall key :: key in parts <==> key in fields && key in j.fields
    requires forall key, value :: key in parts ==> (parts[key] == Some(value) <==> Returns(fields[key], j.fields[key], value))
    ensures Returns(Shape(fields, order), j, out)
       <==> !LacksField(Shape(fields, order), j) && Assemble(parts) == Some(out)
  {
    AssembledAre(parts, out);
    hide Assemble;
    if !LacksField(Shape(fields, order), j) && out.Obj? && out.fields.Keys == parts.Keys {
      forall key | key in parts
        ensures parts[key] == Some(out.fields[key]) <==> Returns(fields[key], j.fields[key], out.fields[key])
      {
      }
    }
  }

  lemma AssembledAre(parts: map<string, Option<Json>>, out: Json)
    ensures Assemble(parts) == Some(out)
       <==> out.Obj? && out.fields.Keys == parts.Keys && forall key :: key in parts ==> parts[key] == Some(out.fields[key])
  {
    if out.Obj? && out.fields.Keys == parts.Keys && forall key :: key in parts ==> parts[key] == Some(out.fields[key]) {
      assert Assemble(parts).value.fields == out.fields;
    }
  }
}

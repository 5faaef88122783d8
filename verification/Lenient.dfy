/** Lenient tool arguments (lenient.go): strings are turned into what the schema declares. */
module Lenient {
  import opened GoTypes
  import opened Json

  /** The parts of a `*jsonschema.Schema` that say which type a value has; coercion does not read
      `prefixItems`. A nil pointer is None. */
  datatype Schema = Schema(
    typ: string,
    types: seq<string>,
    properties: map<string, Option<Schema>>,
    prefixItems: seq<Schema>,
    items: Option<Schema>)

  const INT64_LIMIT := 0x8000_0000_0000_0000

  // ----- scalars

  function LowerChar(c: char): char {
    if 'A' <= c <= 'Z' then ((c as int) + 32) as char else c
  }

  /** strings.ToLower as far as comparing with ASCII words goes: no other letter is lowered into them. */
  function Lower(s: string): string {
    seq(|s|, i requires 0 <= i < |s| => LowerChar(s[i]))
  }

  predicate IsDigits(s: string) {
    forall i :: 0 <= i < |s| ==> '0' <= s[i] <= '9'
  }

  function Magnitude(s: string): nat
    requires IsDigits(s)
  {
    if s == "" then 0 else 10 * Magnitude(s[..|s| - 1]) + (s[|s| - 1] as int - '0' as int)
  }

  /** strconv.ParseInt(s, 10, 64): an optional sign, digits, and a value in range. */
  function ParseInt(s: string): Option<int> {
    var signed := s != "" && (s[0] == '-' || s[0] == '+');
    var digits := if signed then s[1..] else s;
    if digits == "" || !IsDigits(digits) then None
    else
      var m: int := Magnitude(digits);
      var n := if signed && s[0] == '-' then -m else m;
      if -INT64_LIMIT <= n < INT64_LIMIT then Some(n) else None
  }

  /** strconv.ParseFloat(s, 64): the bits of the nearest float, when it parses. */
  type Floats = string -> Option<nat>

  function CoerceScalar(floats: Floats, s: string, typ: string): Json {
    if typ == "boolean" && (Lower(s) == "true" || Lower(s) == "1") then Bool(true)
    else if typ == "boolean" && (Lower(s) == "false" || Lower(s) == "0") then Bool(false)
    else if typ == "integer" && ParseInt(s).Some? then Num(Int64(ParseInt(s).value))
    else if typ == "number" && floats(s).Some? then Num(Float64(floats(s).value))
    else Str(s)
  }

  /** The first type that is not null. */
  function FirstNonNull(types: seq<string>): string {
    if types == [] then "" else if types[0] != "null" then types[0] else FirstNonNull(types[1..])
  }

  /** It is in the list, and nothing but null comes before it; without one the result is empty. */
  lemma {:induction false} FirstNonNullExactly(types: seq<string>)
    ensures (forall i :: 0 <= i < |types| ==> types[i] == "null") ==> FirstNonNull(types) == ""
    ensures forall i :: 0 <= i < |types| && types[i] != "null" && (forall j :: 0 <= j < i ==> types[j] == "null") ==>
              FirstNonNull(types) == types[i]
  {
    if types != [] && types[0] == "null" {
      FirstNonNullExactly(types[1..]);
      forall i | 0 <= i < |types| && types[i] != "null" && (forall j :: 0 <= j < i ==> types[j] == "null")
        ensures FirstNonNull(types) == types[i]
      {
        assert types[i] == types[1..][i - 1];
        assert forall j :: 0 <= j < i - 1 ==> types[1..][j] == types[j + 1];
      }
    }
  }

  /** The loop of propType. */
  method PropTypeOf(s: Schema) returns (t: string)
    ensures t == PropType(s)
  {
    if s.typ != "" {
      return s.typ;
    }
    for i := 0 to |s.types|
      invariant FirstNonNull(s.types) == FirstNonNull(s.types[i..])
    {
      if s.types[i] != "null" {
        return s.types[i];
      }
    }
    return "";
  }

  function PropType(s: Schema): string {
    if s.typ != "" then s.typ else FirstNonNull(s.types)
  }

  // ----- values

  function Coerce(floats: Floats, v: Json, prop: Option<Schema>): Json
    decreases v, 1
  {
    if prop.None? then v
    else match v
      case Str(s) => CoerceScalar(floats, s, PropType(prop.value))
      case Obj(m) => CoerceFields(floats, v, prop.value)
      case Arr(_) => if prop.value.items.None? then v else CoerceElems(floats, v, prop.value)
      case _ => v
  }

  function CoerceFields(floats: Floats, v: Json, schema: Schema): Json
    requires v.Obj?
    decreases v, 0
  {
    Obj(map k | k in v.fields ::
          if k in schema.properties then Coerce(floats, v.fields[k], schema.properties[k]) else v.fields[k])
  }

  function CoerceElems(floats: Floats, v: Json, schema: Schema): Json
    requires v.Arr?
    decreases v, 0
  {
    Arr(seq(|v.elems|, i requires 0 <= i < |v.elems| => Coerce(floats, v.elems[i], schema.items)))
  }

  // ----- in place

  method CoerceValue(floats: Floats, val: Ref, prop: Option<Schema>, ghost s: Shape) returns (r: Ref, ghost t: Shape)
    requires Valid(s) && Tree(s) && val == RootOf(s)
    modifies Footprint(s)
    ensures Became(s, t) && r == RootOf(t) && ValueOf(t) == Coerce(floats, ValueOf(s), prop)
    decreases s, 2
  {
    r, t := val, s;
    if prop.None? {
      return;
    }
    match val {
      case Plain(Str(text)) =>
        var typ := PropTypeOf(prop.value);
        var c := CoerceScalar(floats, text, typ);
        r, t := Plain(c), Leaf(c);
      case Plain(_) =>
      case ObjRef(o) =>
        t := CoerceStringTypes(floats, o, prop.value, s);
      case ArrRef(a) =>
        if prop.value.items.Some? {
          t := CoerceArray(floats, a, prop.value, s);
        }
    }
  }

  /** `v[i] = coerceValue(v[i], prop.Items)` */
  method CoerceElem(floats: Floats, arr: array<Ref>, i: nat, schema: Schema, ghost s: Shape) returns (ghost e: Shape)
    requires s.List? && s.a == arr && Valid(s) && Tree(s) && i < arr.Length
    modifies Footprint(s)
    ensures Became(s, List(arr, s.elems[i := e]))
    ensures ValueOf(e) == Coerce(floats, ValueOf(s.elems[i]), schema.items)
    decreases s.elems[i], 3
  {
    assert forall x :: x in Footprint(s.elems[i]) ==> x in Footprint(s);
    var r;
    r, e := CoerceValue(floats, arr[i], schema.items, s.elems[i]);
    arr[i] := r;
    forall j | 0 <= j < |s.elems| && j != i
      ensures Untouched(s.elems[j])
    {
      WasAllocated(s.elems[j]);
    }
    ElemBecame(s, i, e);
  }

  method CoerceArray(floats: Floats, arr: array<Ref>, schema: Schema, ghost s: Shape) returns (ghost t: Shape)
    requires s.List? && s.a == arr && Valid(s) && Tree(s)
    modifies Footprint(s)
    ensures Became(s, t) && t.List? && t.a == arr && ValueOf(t) == CoerceElems(floats, ValueOf(s), schema)
    decreases s, 1
  {
    t := s;
    for i := 0 to arr.Length
      invariant Became(s, t) && t.List? && t.a == arr && |t.elems| == |s.elems| == arr.Length
      invariant forall j :: i <= j < arr.Length ==> t.elems[j] == s.elems[j]
      invariant forall j :: 0 <= j < i ==> ValueOf(t.elems[j]) == Coerce(floats, ValueOf(s.elems[j]), schema.items)
    {
      ghost var e := CoerceElem(floats, arr, i, schema, t);
      t := List(arr, t.elems[i := e]);
    }
  }

  /** `m[key] = coerceValue(m[key], prop)` */
  method CoerceKid(floats: Floats, m: Map, k: string, prop: Option<Schema>, ghost s: Shape) returns (ghost e: Shape)
    requires s.Node? && s.o == m && Valid(s) && Tree(s) && k in m.fields
    modifies Footprint(s)
    ensures Became(s, Node(m, s.kids[k := e])) && ValueOf(e) == Coerce(floats, ValueOf(s.kids[k]), prop)
    decreases s.kids[k], 3
  {
    assert forall x :: x in Footprint(s.kids[k]) ==> x in Footprint(s);
    var r;
    r, e := CoerceValue(floats, m.fields[k], prop, s.kids[k]);
    m.fields := m.fields[k := r];
    KidsUntouched(s, k);
    KidBecame(s, k, e);
  }

  /** The properties still to do have their old value; the others are coerced. */
  ghost predicate FieldProgress(floats: Floats, schema: Schema, s: Shape, t: Shape, todo: set<string>)
    requires s.Node?
  {
    && t.Node? && t.o == s.o && t.kids.Keys == s.kids.Keys && todo <= schema.properties.Keys
    && (forall k :: k in s.kids && (k in todo || k !in schema.properties) ==> t.kids[k] == s.kids[k])
    && (forall k :: k in s.kids && k in schema.properties && k !in todo ==>
          ValueOf(t.kids[k]) == Coerce(floats, ValueOf(s.kids[k]), schema.properties[k]))
  }

  lemma FieldStep(floats: Floats, schema: Schema, s: Shape, t: Shape, todo: set<string>, k: string, e: Shape)
    requires s.Node? && FieldProgress(floats, schema, s, t, todo) && k in todo && k in t.kids
    requires ValueOf(e) == Coerce(floats, ValueOf(t.kids[k]), schema.properties[k])
    ensures FieldProgress(floats, schema, s, Node(t.o, t.kids[k := e]), todo - {k})
  {
  }

  lemma FieldsDone(floats: Floats, schema: Schema, s: Shape, t: Shape)
    requires s.Node? && FieldProgress(floats, schema, s, t, {})
    ensures ValueOf(t) == CoerceFields(floats, ValueOf(s), schema)
  {
  }

  method CoerceStringTypes(floats: Floats, m: Map, schema: Schema, ghost s: Shape) returns (ghost t: Shape)
    requires s.Node? && s.o == m && Valid(s) && Tree(s)
    modifies Footprint(s)
    ensures Became(s, t) && t.Node? && t.o == m && ValueOf(t) == CoerceFields(floats, ValueOf(s), schema)
    decreases s, 1
  {
    t := s;
    var todo := schema.properties.Keys;
    while todo != {}
      invariant Became(s, t) && FieldProgress(floats, schema, s, t, todo)
      decreases |todo|
    {
      var k :| k in todo;
      if k in m.fields {
        ghost var e := CoerceKid(floats, m, k, schema.properties[k], t);
        FieldStep(floats, schema, s, t, todo, k, e);
        t := Node(m, t.kids[k := e]);
      }
      todo := todo - {k};
    }
    FieldsDone(floats, schema, s, t);
  }
}

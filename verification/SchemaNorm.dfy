/** The schema normaliser (schema_portable.go): a pure description, and the passes that work in place. */
module SchemaNorm {
  import opened Json

  // ----- keyword tables

  const SCHEMA_KEYS := ["items", "contains", "propertyNames", "not", "if", "then", "else", "contentSchema"]
  const CLOSED_KEYS := ["additionalProperties", "unevaluatedProperties"]
  const OPEN_KEYS := ["additionalItems", "unevaluatedItems"]
  const LIST_KEYS := ["prefixItems", "allOf", "anyOf", "oneOf"]
  const MAP_KEYS := ["properties", "patternProperties", "$defs", "definitions", "dependentSchemas"]
  const DEPENDENCIES := "dependencies"

  /** What the value of a keyword is: one subschema, one subschema that may be dropped when true, a list
      or a map of subschemas, draft-07 dependencies, or nothing the normaliser looks at. */
  datatype Kind = Single | Closed | Open | Listed | Mapped | Dependencies | Unlisted

  function KindOf(k: string): Kind {
    if k in SCHEMA_KEYS then Single
    else if k in CLOSED_KEYS then Closed
    else if k in OPEN_KEYS then Open
    else if k in LIST_KEYS then Listed
    else if k in MAP_KEYS then Mapped
    else if k == DEPENDENCIES then Dependencies
    else Unlisted
  }

  // ----- the pure normaliser

  function Norm(v: Json): Json
    decreases v, 0
  {
    match v
    case Bool(b) => if b then Obj(map[]) else Obj(map["not" := Obj(map[])])
    case Obj(m) => Obj(map k | k in m && !Dropped(KindOf(k), m[k]) :: NormAs(KindOf(k), m[k]))
    case _ => v
  }

  /** `true` under these keywords says what their absence says. */
  predicate Dropped(kind: Kind, v: Json) {
    (kind.Closed? || kind.Open?) && v == Bool(true)
  }

  function NormAs(kind: Kind, v: Json): Json
    decreases v, 1
  {
    match kind
    case Single => if v.Arr? then NormList(v) else Norm(v)
    case Closed => if v.Bool? then v else Norm(v)
    case Open => Norm(v)
    case Listed => if v.Arr? then NormList(v) else v
    case Mapped => if v.Obj? then NormMap(v) else v
    case Dependencies => if v.Obj? then NormDependencyMap(v) else v
    case Unlisted => v
  }

  function NormMap(v: Json): Json
    requires v.Obj?
    decreases v, 0
  {
    Obj(map n | n in v.fields :: Norm(v.fields[n]))
  }

  function NormDependencyMap(v: Json): Json
    requires v.Obj?
    decreases v, 0
  {
    Obj(map n | n in v.fields :: NormDependency(v.fields[n]))
  }

  /** A dependency is a list of names, or a subschema. */
  function NormDependency(v: Json): Json
    decreases v, 1
  {
    if v.Arr? then v else Norm(v)
  }

  function NormList(v: Json): Json
    requires v.Arr?
    decreases v, 0
  {
    Arr(seq(|v.elems|, i requires 0 <= i < |v.elems| => Norm(v.elems[i])))
  }

  // ----- in place

  method NormSchema(v: Ref, ghost s: Shape) returns (r: Ref, ghost t: Shape)
    requires Valid(s) && Tree(s) && v == RootOf(s)
    modifies Footprint(s)
    ensures Became(s, t) && r == RootOf(t) && ValueOf(t) == Norm(ValueOf(s))
    decreases s, 6
  {
    match v {
      case Plain(Bool(b)) =>
        if b {
          r, t := NewEmpty();
        } else {
          var inner;
          ghost var e;
          inner, e := NewEmpty();
          r, t := NewSingleton("not", inner, e);
        }
      case ObjRef(o) =>
        t := NormSchemaObject(o, s);
        r := v;
      case _ =>
        r, t := v, s;
    }
  }

  /** `map[string]any{}` */
  method NewEmpty() returns (r: Ref, ghost t: Shape)
    ensures fresh(Footprint(t)) && Valid(t) && Tree(t) && r == RootOf(t) && t.Node? && ValueOf(t) == Obj(map[])
  {
    var o := new Map();
    r, t := ObjRef(o), Node(o, map[]);
  }

  /** `map[string]any{k: inner}` */
  method NewSingleton(k: string, inner: Ref, ghost s: Shape) returns (r: Ref, ghost t: Shape)
    requires Valid(s) && Tree(s) && inner == RootOf(s)
    ensures Became(s, t) && r == RootOf(t) && ValueOf(t) == Obj(map[k := ValueOf(s)])
  {
    WasAllocated(s);
    var outer := new Map();
    outer.fields := map[k := inner];
    r, t := ObjRef(outer), Node(outer, map[k := s]);
    assert t.kids.Keys == {k} && t.kids[k] == s;
    assert Footprint(t) == {outer} + Footprint(s);
  }

  /** `arr[i] = normSchema(arr[i])` */
  method NormElem(arr: array<Ref>, i: nat, ghost s: Shape) returns (ghost e: Shape)
    requires s.List? && s.a == arr && Valid(s) && Tree(s) && i < arr.Length
    modifies Footprint(s)
    ensures Became(s, List(arr, s.elems[i := e])) && ValueOf(e) == Norm(ValueOf(s.elems[i]))
    decreases s.elems[i], 7
  {
    assert forall x :: x in Footprint(s.elems[i]) ==> x in Footprint(s);
    var r;
    r, e := NormSchema(arr[i], s.elems[i]);
    arr[i] := r;
    forall j | 0 <= j < |s.elems| && j != i
      ensures Untouched(s.elems[j])
    {
      WasAllocated(s.elems[j]);
    }
    ElemBecame(s, i, e);
  }

  method NormSchemaList(arr: array<Ref>, ghost s: Shape) returns (ghost t: Shape)
    requires s.List? && s.a == arr && Valid(s) && Tree(s)
    modifies Footprint(s)
    ensures Became(s, t) && t.List? && t.a == arr && ValueOf(t) == NormList(ValueOf(s))
    decreases s, 1
  {
    t := s;
    for i := 0 to arr.Length
      invariant Became(s, t) && t.List? && t.a == arr && |t.elems| == |s.elems| == arr.Length
      invariant forall j :: i <= j < arr.Length ==> t.elems[j] == s.elems[j]
      invariant forall j :: 0 <= j < i ==> ValueOf(t.elems[j]) == Norm(ValueOf(s.elems[j]))
    {
      ghost var e := NormElem(arr, i, t);
      t := List(arr, t.elems[i := e]);
    }
  }

  /** `m[k] = normSchema(m[k])` */
  method NormKid(m: Map, k: string, ghost s: Shape) returns (ghost e: Shape)
    requires s.Node? && s.o == m && Valid(s) && Tree(s) && k in m.fields
    modifies Footprint(s)
    ensures Became(s, Node(m, s.kids[k := e])) && ValueOf(e) == Norm(ValueOf(s.kids[k]))
    decreases s.kids[k], 7
  {
    assert forall x :: x in Footprint(s.kids[k]) ==> x in Footprint(s);
    var r;
    r, e := NormSchema(m.fields[k], s.kids[k]);
    m.fields := m.fields[k := r];
    KidsUntouched(s, k);
    KidBecame(s, k, e);
  }

  function NormChild(v: Json, dependency: bool): Json {
    if dependency then NormDependency(v) else Norm(v)
  }

  /** The values of `t` are those of `s`, normalised except for the names still to do. */
  ghost predicate MapProgress(s: Shape, t: Shape, todo: set<string>, dependencies: bool)
    requires s.Node?
  {
    && t.Node? && t.o == s.o && t.kids.Keys == s.kids.Keys && todo <= s.kids.Keys
    && (forall n :: n in todo ==> t.kids[n] == s.kids[n])
    && (forall n :: n in s.kids && n !in todo ==> ValueOf(t.kids[n]) == NormChild(ValueOf(s.kids[n]), dependencies))
  }

  lemma MapStep(s: Shape, t: Shape, todo: set<string>, dependencies: bool, n: string, e: Shape)
    requires s.Node? && MapProgress(s, t, todo, dependencies) && n in todo
    requires ValueOf(e) == NormChild(ValueOf(t.kids[n]), dependencies)
    ensures MapProgress(s, Node(t.o, t.kids[n := e]), todo - {n}, dependencies)
  {
  }

  lemma MapSkip(s: Shape, t: Shape, todo: set<string>, n: string)
    requires s.Node? && MapProgress(s, t, todo, true) && n in todo && ValueOf(t.kids[n]).Arr?
    ensures MapProgress(s, t, todo - {n}, true)
  {
  }

  lemma MapDone(s: Shape, t: Shape, dependencies: bool)
    requires s.Node? && MapProgress(s, t, {}, dependencies)
    ensures ValueOf(t) == if dependencies then NormDependencyMap(ValueOf(s)) else NormMap(ValueOf(s))
  {
  }

  /** One turn of the range loop over a map of subschemas. */
  method NormMember(m: Map, n: string, ghost s: Shape, ghost cur: Shape, ghost todo: set<string>, ghost deps: bool)
    returns (ghost t: Shape)
    requires s.Node? && cur.Node? && cur.o == m && Valid(cur) && Tree(cur)
    requires MapProgress(s, cur, todo, deps) && n in todo && (deps ==> !ValueOf(cur.kids[n]).Arr?)
    modifies Footprint(cur)
    ensures Became(cur, t) && MapProgress(s, t, todo - {n}, deps)
    decreases s, 0
  {
    ghost var e := NormKid(m, n, cur);
    MapStep(s, cur, todo, deps, n, e);
    t := Node(m, cur.kids[n := e]);
  }

  /** Go visits a map in any order; here each value is replaced once. */
  method NormSchemaMap(m: Map, ghost s: Shape) returns (ghost t: Shape)
    requires s.Node? && s.o == m && Valid(s) && Tree(s)
    modifies Footprint(s)
    ensures Became(s, t) && t.Node? && t.o == m && ValueOf(t) == NormMap(ValueOf(s))
    decreases s, 1
  {
    t := s;
    var todo := m.fields.Keys;
    while todo != {}
      invariant Became(s, t) && MapProgress(s, t, todo, false)
      decreases |todo|
    {
      var n :| n in todo;
      t := NormMember(m, n, s, t, todo, false);
      todo := todo - {n};
    }
    MapDone(s, t, false);
  }

  method NormDependencyMember(m: Map, n: string, ghost s: Shape, ghost cur: Shape, ghost todo: set<string>)
    returns (ghost t: Shape)
    requires s.Node? && cur.Node? && cur.o == m && Valid(cur) && Tree(cur)
    requires MapProgress(s, cur, todo, true) && n in todo
    modifies Footprint(cur)
    ensures Became(cur, t) && MapProgress(s, t, todo - {n}, true)
    decreases s, 1
  {
    if m.fields[n].ArrRef? {
      t := cur;
      MapSkip(s, t, todo, n);
    } else {
      t := NormMember(m, n, s, cur, todo, true);
    }
  }

  method NormDependencies(m: Map, ghost s: Shape) returns (ghost t: Shape)
    requires s.Node? && s.o == m && Valid(s) && Tree(s)
    modifies Footprint(s)
    ensures Became(s, t) && t.Node? && t.o == m && ValueOf(t) == NormDependencyMap(ValueOf(s))
    decreases s, 2
  {
    t := s;
    var todo := m.fields.Keys;
    while todo != {}
      invariant Became(s, t) && MapProgress(s, t, todo, true)
      decreases |todo|
    {
      var n :| n in todo;
      t := NormDependencyMember(m, n, s, t, todo);
      todo := todo - {n};
    }
    MapDone(s, t, true);
  }

  // ----- one keyword

  /** Keyword `k` of `s` has been normalised, and no other. */
  ghost predicate KeyDone(s: Shape, t: Shape, k: string, kind: Kind)
    requires s.Node?
  {
    && t.Node? && t.o == s.o
    && if k !in s.kids then t.kids == s.kids
       else if Dropped(kind, ValueOf(s.kids[k])) then t.kids == s.kids - {k}
       else && k in t.kids && t.kids == s.kids[k := t.kids[k]]
            && ValueOf(t.kids[k]) == NormAs(kind, ValueOf(s.kids[k]))
  }

  /** A keyword whose value was changed in place, the map itself staying as it was. */
  twostate lemma KidChangedInPlace(s: Shape, new k: string, new e: Shape)
    requires s.Node? && old(Valid(s)) && Tree(s) && k in s.kids
    requires Became(s.kids[k], e) && RootOf(e) == RootOf(s.kids[k]) && s.o.fields == old(s.o.fields)
    requires forall x: object :: old(allocated(x)) && x != s.o && x !in Footprint(s.kids[k]) ==> unchanged(x)
    ensures Became(s, Node(s.o, s.kids[k := e]))
  {
    KidsUntouched(s, k);
    assert s.o.fields == old(s.o.fields)[k := RootOf(e)];
    KidBecame(s, k, e);
  }

  method NormSingle(m: Map, k: string, ghost s: Shape, ghost top: Shape) returns (ghost t: Shape)
    requires s.Node? && s.o == m && Valid(s) && Tree(s)
    requires k in s.kids ==> s.kids[k] < top
    modifies Footprint(s)
    ensures Became(s, t) && KeyDone(s, t, k, Single)
    decreases top, 1
  {
    t := s;
    if k !in m.fields {
      return;
    }
    var sub := m.fields[k];
    ghost var e;
    if sub.ArrRef? {
      assert forall x :: x in Footprint(s.kids[k]) ==> x in Footprint(s);
      e := NormSchemaList(sub.a, s.kids[k]);
      KidChangedInPlace(s, k, e);
    } else {
      e := NormKid(m, k, s);
    }
    t := Node(m, s.kids[k := e]);
  }

  /** `delete(m, k)` */
  method Delete(m: Map, k: string, ghost s: Shape)
    requires s.Node? && s.o == m && Valid(s) && Tree(s) && k in s.kids
    modifies m
    ensures Became(s, Node(m, s.kids - {k}))
  {
    m.fields := m.fields - {k};
    KidsUntouched(s, k);
    KidDeleted(s, k);
  }

  method NormSingleDropTrue(m: Map, k: string, ghost kind: Kind, ghost s: Shape, ghost top: Shape)
    returns (ghost t: Shape)
    requires s.Node? && s.o == m && Valid(s) && Tree(s) && (kind.Closed? || kind.Open?)
    requires k in CLOSED_KEYS <==> kind.Closed?
    requires k in s.kids ==> s.kids[k] < top
    modifies Footprint(s)
    ensures Became(s, t) && KeyDone(s, t, k, kind)
    decreases top, 1
  {
    t := s;
    if k !in m.fields {
      return;
    }
    var sub := m.fields[k];
    if sub.Plain? && sub.v.Bool? {
      if sub.v.b {
        Delete(m, k, s);
        t := Node(m, s.kids - {k});
        return;
      } else if k in CLOSED_KEYS {
        assert t.kids == s.kids[k := t.kids[k]];
        return;
      }
    }
    ghost var e := NormKid(m, k, s);
    t := Node(m, s.kids[k := e]);
  }

  lemma MapKeyDone(s: Shape, k: string, kind: Kind, e: Shape)
    requires s.Node? && k in s.kids && !Dropped(kind, ValueOf(s.kids[k]))
    requires ValueOf(e) == NormAs(kind, ValueOf(s.kids[k]))
    ensures KeyDone(s, Node(s.o, s.kids[k := e]), k, kind)
  {
  }

  /** The collections of subschemas, whose members are replaced while the collection itself stays. */
  method NormInside(sub: Ref, kind: Kind, ghost s: Shape) returns (ghost e: Shape)
    requires Valid(s) && Tree(s) && sub == RootOf(s) && (kind.Listed? || kind.Mapped? || kind.Dependencies?)
    modifies Footprint(s)
    ensures Became(s, e) && RootOf(e) == RootOf(s) && ValueOf(e) == NormAs(kind, ValueOf(s))
    decreases s, 3
  {
    e := s;
    if kind.Listed? {
      if sub.ArrRef? {
        e := NormSchemaList(sub.a, s);
      }
    } else if sub.ObjRef? {
      if kind.Mapped? {
        e := NormSchemaMap(sub.o, s);
      } else {
        e := NormDependencies(sub.o, s);
      }
    }
  }

  method NormCollection(m: Map, k: string, kind: Kind, ghost s: Shape, ghost top: Shape) returns (ghost t: Shape)
    requires s.Node? && s.o == m && Valid(s) && Tree(s) && (kind.Listed? || kind.Mapped? || kind.Dependencies?)
    requires k in s.kids ==> s.kids[k] < top
    modifies Footprint(s)
    ensures Became(s, t) && KeyDone(s, t, k, kind)
    decreases top, 1
  {
    t := s;
    if k in m.fields {
      assert m !in Footprint(s.kids[k]) && forall x :: x in Footprint(s.kids[k]) ==> x in Footprint(s);
      ghost var e := NormInside(m.fields[k], kind, s.kids[k]);
      KidChangedInPlace(s, k, e);
      MapKeyDone(s, k, kind, e);
      t := Node(m, s.kids[k := e]);
    }
  }

  // ----- all keywords, table by table

  /** The tables are visited in this order. */
  function Rank(kind: Kind): nat {
    match kind
    case Single => 0
    case Closed => 1
    case Open => 2
    case Listed => 3
    case Mapped => 4
    case Dependencies => 5
    case Unlisted => 6
  }

  function TableOf(kind: Kind): seq<string> {
    match kind
    case Single => SCHEMA_KEYS
    case Closed => CLOSED_KEYS
    case Open => OPEN_KEYS
    case Listed => LIST_KEYS
    case Mapped => MAP_KEYS
    case Dependencies => [DEPENDENCIES]
    case Unlisted => []
  }

  /** A keyword is done once the tables up to its own are, or when it is in the part of a table that was visited. */
  predicate Done(k: string, level: nat, part: seq<string>) {
    Rank(KindOf(k)) < level || k in part
  }

  /** The keywords that are done have been normalised, the others not. */
  ghost predicate Progress(s: Shape, t: Shape, level: nat, part: seq<string>)
    requires s.Node?
  {
    && t.Node? && t.o == s.o && t.kids.Keys <= s.kids.Keys
    && (forall k :: k in s.kids && !Done(k, level, part) ==> k in t.kids && t.kids[k] == s.kids[k])
    && (forall k :: k in s.kids && Done(k, level, part) ==>
          (k in t.kids <==> !Dropped(KindOf(k), ValueOf(s.kids[k]))))
    && (forall k :: k in t.kids && Done(k, level, part) ==>
          ValueOf(t.kids[k]) == NormAs(KindOf(k), ValueOf(s.kids[k])))
  }

  lemma ProgressStep(s: Shape, t: Shape, level: nat, part: seq<string>, next: Shape, k: string, kind: Kind)
    requires s.Node? && Progress(s, t, level, part) && kind == KindOf(k) && !Done(k, level, part)
    requires KeyDone(t, next, k, kind)
    ensures Progress(s, next, level, part + [k])
  {
    assert forall j :: Done(j, level, part + [k]) <==> Done(j, level, part) || j == k;
  }

  lemma ProgressTable(s: Shape, t: Shape, level: nat, table: seq<string>, kind: Kind)
    requires s.Node? && Progress(s, t, level, table) && IsTable(table, kind) && Rank(kind) == level
    ensures Progress(s, t, level + 1, [])
  {
    assert forall k :: Done(k, level + 1, []) <==> Done(k, level, table);
  }

  lemma ProgressDone(s: Shape, t: Shape)
    requires s.Node? && Progress(s, t, 6, [])
    ensures ValueOf(t) == Norm(ValueOf(s))
  {
    forall k | k in s.kids
      ensures k in t.kids <==> !Dropped(KindOf(k), ValueOf(s.kids[k]))
      ensures k in t.kids ==> ValueOf(t.kids[k]) == NormAs(KindOf(k), ValueOf(s.kids[k]))
    {
      assert Done(k, 6, []) || KindOf(k) == Unlisted;
    }
    assert ValueOf(t).fields == Norm(ValueOf(s)).fields;
  }

  /** The table lists the keywords of its kind, each once. */
  ghost predicate IsTable(table: seq<string>, kind: Kind) {
    && (forall i, j :: 0 <= i < j < |table| ==> table[i] != table[j])
    && (forall k :: k in table <==> KindOf(k) == kind)
  }

  method NormKey(m: Map, k: string, kind: Kind, ghost s: Shape, ghost top: Shape) returns (ghost t: Shape)
    requires s.Node? && s.o == m && Valid(s) && Tree(s) && kind != Unlisted && (k in CLOSED_KEYS <==> kind.Closed?)
    requires k in s.kids ==> s.kids[k] < top
    modifies Footprint(s)
    ensures Became(s, t) && KeyDone(s, t, k, kind)
    decreases top, 2
  {
    if kind.Single? {
      t := NormSingle(m, k, s, top);
    } else if kind.Closed? || kind.Open? {
      t := NormSingleDropTrue(m, k, kind, s, top);
    } else {
      t := NormCollection(m, k, kind, s, top);
    }
  }

  method NormTable(m: Map, table: seq<string>, kind: Kind, ghost s: Shape, ghost cur: Shape, ghost level: nat)
    returns (ghost t: Shape)
    requires s.Node? && cur.Node? && cur.o == m && Valid(cur) && Tree(cur) && Progress(s, cur, level, [])
    requires table == TableOf(kind) && Rank(kind) == level && kind != Unlisted
    modifies Footprint(cur)
    ensures Became(cur, t) && Progress(s, t, level + 1, [])
    decreases s, 3
  {
    TableIsSound(kind);
    t := cur;
    for i := 0 to |table|
      invariant Became(cur, t) && Progress(s, t, level, table[..i])
    {
      var k := table[i];
      assert k in table && !Done(k, level, table[..i]);
      ghost var was := t;
      ClosedOnly(k);
      t := NormKey(m, k, kind, was, s);
      ProgressStep(s, was, level, table[..i], t, k, kind);
      assert table[..i + 1] == table[..i] + [k];
    }
    assert table[..|table|] == table;
    ProgressTable(s, t, level, table, kind);
  }

  method NormSingles(m: Map, ghost s: Shape) returns (ghost t: Shape)
    requires s.Node? && s.o == m && Valid(s) && Tree(s)
    modifies Footprint(s)
    ensures Became(s, t) && Progress(s, t, 3, [])
    decreases s, 4
  {
    t := NormTable(m, SCHEMA_KEYS, Single, s, s, 0);
    t := NormTable(m, CLOSED_KEYS, Closed, s, t, 1);
    t := NormTable(m, OPEN_KEYS, Open, s, t, 2);
  }

  method NormCollections(m: Map, ghost s: Shape, ghost cur: Shape) returns (ghost t: Shape)
    requires s.Node? && cur.Node? && cur.o == m && Valid(cur) && Tree(cur) && Progress(s, cur, 3, [])
    modifies Footprint(cur)
    ensures Became(cur, t) && Progress(s, t, 6, [])
    decreases s, 4
  {
    t := NormTable(m, LIST_KEYS, Listed, s, cur, 3);
    t := NormTable(m, MAP_KEYS, Mapped, s, t, 4);
    t := NormTable(m, [DEPENDENCIES], Dependencies, s, t, 5);
  }

  method NormSchemaObject(m: Map, ghost s: Shape) returns (ghost t: Shape)
    requires s.Node? && s.o == m && Valid(s) && Tree(s)
    modifies Footprint(s)
    ensures Became(s, t) && t.Node? && t.o == m && ValueOf(t) == Norm(ValueOf(s))
    decreases s, 5
  {
    t := NormSingles(m, s);
    t := NormCollections(m, s, t);
    ProgressDone(s, t);
  }

  lemma ClosedOnly(k: string)
    ensures k in CLOSED_KEYS <==> KindOf(k).Closed?
  {
  }

  /** No keyword is in two tables or twice in one. */
  lemma TableIsSound(kind: Kind)
    requires kind != Unlisted
    ensures IsTable(TableOf(kind), kind)
  {
    forall k: string
      ensures k in TableOf(kind) <==> KindOf(k) == kind
    {
      TableMembers(k, kind);
    }
    TableDistinct(kind);
  }

  lemma TableMembers(k: string, kind: Kind)
    requires kind != Unlisted
    ensures k in TableOf(kind) <==> KindOf(k) == kind
  {
  }

  lemma TableDistinct(kind: Kind)
    ensures forall i, j :: 0 <= i < j < |TableOf(kind)| ==> TableOf(kind)[i] != TableOf(kind)[j]
  {
  }
}

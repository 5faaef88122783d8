/** JSON values, and their mutable form: what Go's encoding/json decodes into `any` is a tree of maps and
    slices that later code changes in place. */
module Json {

  /** A number as a literal, or as one of the Go types a coercion may produce. */
  datatype Number = Literal(text: string) | Int64(i: int) | Float64(bits: nat)

  datatype Json =
    | Null
    | Bool(b: bool)
    | Num(n: Number)
    | Str(s: string)
    | Arr(elems: seq<Json>)
    | Obj(fields: map<string, Json>)

  // ----- the mutable form

  /** A `map[string]any`. */
  class Map {
    var fields: map<string, Ref>

    constructor ()
      ensures fields == map[]
    {
      fields := map[];
    }
  }

  /** An `any`: a scalar, a slice or a map. */
  datatype Ref = Plain(v: Json) | ArrRef(a: array<Ref>) | ObjRef(o: Map)

  /** The tree a reference is the root of: it names the objects and, through `ValueOf`, the JSON value. */
  datatype Shape =
    | Leaf(v: Json)
    | List(a: array<Ref>, elems: seq<Shape>)
    | Node(o: Map, kids: map<string, Shape>)

  function RootOf(s: Shape): Ref {
    match s
    case Leaf(v) => Plain(v)
    case List(a, _) => ArrRef(a)
    case Node(o, _) => ObjRef(o)
  }

  ghost function Footprint(s: Shape): set<object> {
    match s
    case Leaf(_) => {}
    case List(a, elems) => {a} + set i, x: object | 0 <= i < |elems| && x in Footprint(elems[i]) :: x
    case Node(o, kids) => {o} + set k, x: object | k in kids && x in Footprint(kids[k]) :: x
  }

  function ValueOf(s: Shape): Json {
    match s
    case Leaf(v) => v
    case List(_, elems) => Arr(seq(|elems|, i requires 0 <= i < |elems| => ValueOf(elems[i])))
    case Node(_, kids) => Obj(map k | k in kids :: ValueOf(kids[k]))
  }

  /** The heap holds the tree. */
  ghost predicate Valid(s: Shape)
    reads Footprint(s)
    decreases s
  {
    match s
    case Leaf(v) => !v.Arr? && !v.Obj?
    case List(a, elems) =>
      a.Length == |elems| && forall i :: 0 <= i < |elems| ==> a[i] == RootOf(elems[i]) && Valid(elems[i])
    case Node(o, kids) =>
      o.fields.Keys == kids.Keys && forall k :: k in kids ==> o.fields[k] == RootOf(kids[k]) && Valid(kids[k])
  }

  /** No object occurs twice. */
  ghost predicate Tree(s: Shape) {
    match s
    case Leaf(_) => true
    case List(a, elems) =>
      && (forall i :: 0 <= i < |elems| ==> Tree(elems[i]) && a !in Footprint(elems[i]))
      && (forall i, j :: 0 <= i < |elems| && 0 <= j < |elems| && i != j ==>
            Footprint(elems[i]) !! Footprint(elems[j]))
    case Node(o, kids) =>
      && (forall k :: k in kids ==> Tree(kids[k]) && o !in Footprint(kids[k]))
      && (forall j, k :: j in kids && k in kids && j != k ==> Footprint(kids[j]) !! Footprint(kids[k]))
  }

  // ----- replacing one child

  lemma ReplaceElem(a: array<Ref>, elems: seq<Shape>, i: nat, e: Shape)
    requires Tree(List(a, elems)) && i < |elems| && Tree(e) && a !in Footprint(e)
    requires forall j :: 0 <= j < |elems| && j != i ==> Footprint(elems[j]) !! Footprint(e)
    ensures Tree(List(a, elems[i := e]))
    ensures forall x :: x in Footprint(List(a, elems[i := e])) ==> x in Footprint(List(a, elems)) || x in Footprint(e)
  {
    var new_ := elems[i := e];
    forall x | x in Footprint(List(a, new_))
      ensures x in Footprint(List(a, elems)) || x in Footprint(e)
    {
      if x != a {
        var j :| 0 <= j < |new_| && x in Footprint(new_[j]);
        if j != i {
          assert x in Footprint(elems[j]);
        }
      }
    }
  }

  lemma ReplaceKid(o: Map, kids: map<string, Shape>, k: string, e: Shape)
    requires Tree(Node(o, kids)) && k in kids && Tree(e) && o !in Footprint(e)
    requires forall j :: j in kids && j != k ==> Footprint(kids[j]) !! Footprint(e)
    ensures Tree(Node(o, kids[k := e]))
    ensures forall x :: x in Footprint(Node(o, kids[k := e])) ==> x in Footprint(Node(o, kids)) || x in Footprint(e)
  {
    var new_ := kids[k := e];
    forall x | x in Footprint(Node(o, new_))
      ensures x in Footprint(Node(o, kids)) || x in Footprint(e)
    {
      if x != o {
        var j :| j in new_ && x in Footprint(new_[j]);
        if j != k {
          assert x in Footprint(kids[j]);
        }
      }
    }
  }

  // ----- changes to the heap

  /** `s` has become `t`: a tree again, made of the old objects and new ones. */
  twostate predicate Became(new s: Shape, new t: Shape)
    reads Footprint(t)
  {
    Valid(t) && Tree(t) && forall x :: x in Footprint(t) ==> x in Footprint(s) || fresh(x)
  }

  /** A shape that was known before consists of objects that were there before. */
  twostate lemma {:induction false} WasAllocated(s: Shape)
    ensures forall x :: x in Footprint(s) ==> old(allocated(x))
    decreases s
  {
    match s
    case Leaf(_) =>
    case List(a, elems) =>
      forall i | 0 <= i < |elems|
        ensures forall x :: x in Footprint(elems[i]) ==> old(allocated(x))
      {
        WasAllocated(elems[i]);
      }
    case Node(o, kids) =>
      forall k | k in kids
        ensures forall x :: x in Footprint(kids[k]) ==> old(allocated(x))
      {
        WasAllocated(kids[k]);
      }
  }

  /** None of the objects of `s` changed. */
  twostate predicate Untouched(s: Shape)
    reads Footprint(s)
  {
    forall x :: x in Footprint(s) ==> old(allocated(x)) && unchanged(x)
  }

  twostate lemma ValidKept(s: Shape)
    requires old(Valid(s)) && Untouched(s)
    ensures Valid(s)
  {
  }

  /** A tree apart from `p` stays apart from what `p` becomes. */
  twostate lemma StaysApart(u: Shape, new p: Shape, new e: Shape)
    requires Footprint(u) !! Footprint(p) && Became(p, e)
    ensures Footprint(u) !! Footprint(e)
  {
    WasAllocated(u);
  }

  /** Element `i` of an array has become `e`, and nothing else of the tree was touched. */
  twostate lemma ElemBecame(s: Shape, new i: nat, new e: Shape)
    requires s.List? && old(Valid(s)) && Tree(s) && i < |s.elems| == s.a.Length
    requires Became(s.elems[i], e) && s.a[i] == RootOf(e)
    requires forall j :: 0 <= j < |s.elems| && j != i ==> s.a[j] == old(s.a[j]) && Untouched(s.elems[j])
    ensures Became(s, List(s.a, s.elems[i := e]))
  {
    forall j | 0 <= j < |s.elems| && j != i
      ensures Valid(s.elems[j]) && Footprint(s.elems[j]) !! Footprint(e)
    {
      ValidKept(s.elems[j]);
      StaysApart(s.elems[j], s.elems[i], e);
    }
    ReplaceElem(s.a, s.elems, i, e);
    assert forall x :: x in Footprint(s.elems[i]) ==> x in Footprint(s);
  }

  /** The siblings of the value under `k` are as they were if only that value and the map changed. */
  twostate lemma KidsUntouched(s: Shape, new k: string)
    requires s.Node? && Tree(s) && k in s.kids
    requires forall x: object :: old(allocated(x)) && x != s.o && x !in Footprint(s.kids[k]) ==> unchanged(x)
    ensures forall j :: j in s.kids && j != k ==> Untouched(s.kids[j])
  {
    forall j | j in s.kids && j != k
      ensures Untouched(s.kids[j])
    {
      WasAllocated(s.kids[j]);
    }
  }

  /** The value under `k` has become `e`, and nothing else of the tree was touched. */
  twostate lemma KidBecame(s: Shape, new k: string, new e: Shape)
    requires s.Node? && old(Valid(s)) && Tree(s) && k in s.kids
    requires Became(s.kids[k], e) && s.o.fields == old(s.o.fields)[k := RootOf(e)]
    requires forall j :: j in s.kids && j != k ==> Untouched(s.kids[j])
    ensures Became(s, Node(s.o, s.kids[k := e]))
  {
    KidTree(s, k, e);
    KidValid(s, k, e);
  }

  twostate lemma KidValid(s: Shape, new k: string, new e: Shape)
    requires s.Node? && old(Valid(s)) && k in s.kids
    requires Valid(e) && s.o.fields == old(s.o.fields)[k := RootOf(e)]
    requires forall j :: j in s.kids && j != k ==> Untouched(s.kids[j])
    ensures Valid(Node(s.o, s.kids[k := e]))
  {
    var t := Node(s.o, s.kids[k := e]);
    forall j | j in t.kids
      ensures Valid(t.kids[j]) && s.o.fields[j] == RootOf(t.kids[j])
    {
      if j != k {
        ValidKept(s.kids[j]);
      }
    }
  }

  twostate lemma KidTree(s: Shape, new k: string, new e: Shape)
    requires s.Node? && Tree(s) && k in s.kids && Became(s.kids[k], e)
    ensures Tree(Node(s.o, s.kids[k := e]))
    ensures forall x :: x in Footprint(Node(s.o, s.kids[k := e])) ==> x in Footprint(s) || fresh(x)
  {
    forall j | j in s.kids && j != k
      ensures Footprint(s.kids[j]) !! Footprint(e)
    {
      StaysApart(s.kids[j], s.kids[k], e);
    }
    ReplaceKid(s.o, s.kids, k, e);
    assert forall x :: x in Footprint(s.kids[k]) ==> x in Footprint(s);
  }

  /** The key `k` has been deleted. */
  twostate lemma KidDeleted(s: Shape, new k: string)
    requires s.Node? && old(Valid(s)) && Tree(s)
    requires s.o.fields == old(s.o.fields) - {k}
    requires forall j :: j in s.kids && j != k ==> Untouched(s.kids[j])
    ensures Became(s, Node(s.o, s.kids - {k}))
  {
    forall j | j in s.kids && j != k
      ensures Valid(s.kids[j])
    {
      ValidKept(s.kids[j]);
    }
  }
}

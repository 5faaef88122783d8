/** Where the subschemas of a schema are, and what the normaliser leaves at each of those places. */
module SchemaPositions {
  import opened GoTypes
  import opened Json
  import opened SchemaNorm

  // ----- where the standard puts subschemas; nothing here looks at the normaliser's tables

  /** The places whose subschema takes part in validation. */
  datatype Slot =
    | Not | If | Then | Else | AllOf(i: nat) | AnyOf(i: nat) | OneOf(i: nat)
    | DependentSchema(name: string) | Dependency(name: string)
    | Property(name: string) | Pattern(p: string) | AdditionalProperty | PropertyName | UnevaluatedProperty
    | PrefixItem(i: nat) | ItemAt(i: nat) | EachItem | AdditionalItem | Contains | UnevaluatedItem

  /** Those, and the places that only define or annotate. */
  datatype Position = Judging(slot: Slot) | Def(name: string) | Definition(name: string) | ContentSchema

  /** How to get from an object schema to a subschema: the value of a keyword (where an array is not one
      subschema, or where any value is taken), an element, a member, or a dependency that is not a list of
      names. */
  datatype Place =
    | One(k: string) | Value(k: string) | Elem(k: string, i: nat) | Member(k: string, name: string)
    | Dep(k: string, name: string)

  function SlotPlace(s: Slot): Place {
    match s
    case Not => One("not")
    case If => One("if")
    case Then => One("then")
    case Else => One("else")
    case AllOf(i) => Elem("allOf", i)
    case AnyOf(i) => Elem("anyOf", i)
    case OneOf(i) => Elem("oneOf", i)
    case DependentSchema(n) => Member("dependentSchemas", n)
    case Dependency(n) => Dep("dependencies", n)
    case Property(n) => Member("properties", n)
    case Pattern(p) => Member("patternProperties", p)
    case AdditionalProperty => Value("additionalProperties")
    case PropertyName => One("propertyNames")
    case UnevaluatedProperty => Value("unevaluatedProperties")
    case PrefixItem(i) => Elem("prefixItems", i)
    case ItemAt(i) => Elem("items", i)
    case EachItem => One("items")
    case AdditionalItem => Value("additionalItems")
    case Contains => One("contains")
    case UnevaluatedItem => Value("unevaluatedItems")
  }

  function PlaceOf(p: Position): Place {
    match p
    case Judging(s) => SlotPlace(s)
    case Def(n) => Member("$defs", n)
    case Definition(n) => Member("definitions", n)
    case ContentSchema => One("contentSchema")
  }

  function Fetch(v: Json, place: Place): (r: Option<Json>)
    ensures r.Some? ==> (v decreases to r.value)
  {
    if !v.Obj? || place.k !in v.fields then None
    else
      var x := v.fields[place.k];
      match place
      case One(_) => if x.Arr? then None else Some(x)
      case Value(_) => Some(x)
      case Elem(_, i) => if x.Arr? && i < |x.elems| then Some(x.elems[i]) else None
      case Member(_, n) => if x.Obj? && n in x.fields then Some(x.fields[n]) else None
      case Dep(_, n) => if x.Obj? && n in x.fields && !x.fields[n].Arr? then Some(x.fields[n]) else None
  }

  function SlotOf(v: Json, s: Slot): (r: Option<Json>)
    ensures r.Some? ==> (v decreases to r.value)
  {
    Fetch(v, SlotPlace(s))
  }

  function Sub(v: Json, p: Position): (r: Option<Json>)
    ensures r.Some? ==> (v decreases to r.value)
  {
    Fetch(v, PlaceOf(p))
  }

  /** The value at the end of a path of positions. */
  function At(v: Json, path: seq<Position>): Option<Json>
    decreases |path|
  {
    if path == [] then Some(v)
    else match Sub(v, path[0])
      case None => None
      case Some(x) => At(x, path[1..])
  }

  /** What the value of a keyword is made of. */
  datatype Holding = Subschema | Subschemas | NamedSubschemas | NamedDependencies | NoSubschema

  function HoldingOf(k: string): Holding {
    if k in ["not", "if", "then", "else", "propertyNames", "contains", "items", "contentSchema",
             "additionalProperties", "unevaluatedProperties", "additionalItems", "unevaluatedItems"] then Subschema
    else if k in ["allOf", "anyOf", "oneOf", "prefixItems"] then Subschemas
    else if k in ["properties", "patternProperties", "dependentSchemas", "$defs", "definitions"] then NamedSubschemas
    else if k == "dependencies" then NamedDependencies
    else NoSubschema
  }

  /** `true` under these says what absence says. */
  predicate MayBeDropped(s: Slot) {
    s.AdditionalProperty? || s.UnevaluatedProperty? || s.AdditionalItem? || s.UnevaluatedItem?
  }

  /** `false` under these is how an object is closed. */
  predicate ClosesObject(p: Position) {
    p == Judging(AdditionalProperty) || p == Judging(UnevaluatedProperty)
  }

  predicate DroppedAt(p: Position, x: Json) {
    p.Judging? && MayBeDropped(p.slot) && x == Bool(true)
  }

  // ----- the tables of the normaliser fit

  /** The tables have exactly the keywords that hold subschemas, each in the table for what it holds. */
  lemma TablesFit(k: string)
    ensures HoldingOf(k).Subschema? <==> KindOf(k).Single? || KindOf(k).Closed? || KindOf(k).Open?
    ensures HoldingOf(k).Subschemas? <==> KindOf(k).Listed?
    ensures HoldingOf(k).NamedSubschemas? <==> KindOf(k).Mapped?
    ensures HoldingOf(k).NamedDependencies? <==> KindOf(k).Dependencies?
    ensures HoldingOf(k).NoSubschema? <==> KindOf(k).Unlisted?
  {
  }

  /** The kind a keyword must have for what is fetched from it. */
  predicate KindFits(p: Position, kind: Kind) {
    match PlaceOf(p)
    case One(_) => kind.Single?
    case Value(_) => if ClosesObject(p) then kind.Closed? else kind.Open?
    case Elem(_, _) => kind.Single? || kind.Listed?
    case Member(_, _) => kind.Mapped?
    case Dep(_, _) => kind.Dependencies?
  }

  lemma PlaceKind(p: Position)
    ensures KindFits(p, KindOf(PlaceOf(p).k))
    ensures PlaceOf(p).Value? <==> p.Judging? && MayBeDropped(p.slot)
  {
    if p.Judging? {
      SlotKind(p.slot);
    }
  }

  lemma SlotKind(s: Slot)
    ensures KindFits(Judging(s), KindOf(SlotPlace(s).k))
    ensures SlotPlace(s).Value? <==> MayBeDropped(s)
  {
    if OfObjects(s) {
      ObjectSlotKind(s);
    } else if OfArrays(s) {
      ArraySlotKind(s);
    } else {
      InPlaceSlotKind(s);
    }
  }

  predicate OfObjects(s: Slot) {
    s.Property? || s.Pattern? || s.AdditionalProperty? || s.PropertyName? || s.UnevaluatedProperty?
  }

  predicate OfArrays(s: Slot) {
    s.PrefixItem? || s.ItemAt? || s.EachItem? || s.AdditionalItem? || s.Contains? || s.UnevaluatedItem?
  }

  lemma ObjectSlotKind(s: Slot)
    requires OfObjects(s)
    ensures KindFits(Judging(s), KindOf(SlotPlace(s).k))
  {
    match s
    case Property(_) => case Pattern(_) => case AdditionalProperty => case PropertyName =>
    case UnevaluatedProperty =>
  }

  lemma ArraySlotKind(s: Slot)
    requires OfArrays(s)
    ensures KindFits(Judging(s), KindOf(SlotPlace(s).k))
  {
    match s
    case PrefixItem(_) => case ItemAt(_) => case EachItem => case AdditionalItem => case Contains =>
    case UnevaluatedItem =>
  }

  lemma InPlaceSlotKind(s: Slot)
    requires !OfObjects(s) && !OfArrays(s)
    ensures KindFits(Judging(s), KindOf(SlotPlace(s).k))
  {
    match s
    case Not => case If => case Then => case Else => case AllOf(_) => case AnyOf(_) => case OneOf(_) =>
    case DependentSchema(_) => case Dependency(_) =>
  }

  // ----- one step

  function Rewritten(p: Position, x: Json): Option<Json> {
    if DroppedAt(p, x) then None else if ClosesObject(p) && x.Bool? then Some(x) else Some(Norm(x))
  }

  function Renormed(r: Option<Json>, p: Position): Option<Json> {
    match r
    case None => None
    case Some(x) => Rewritten(p, x)
  }

  lemma NormKeepsArrays(x: Json)
    ensures Norm(x).Arr? <==> x.Arr?
  {
  }

  lemma KeptUnder(v: Json, k: string)
    requires v.Obj?
    ensures k in Norm(v).fields <==> k in v.fields && !Dropped(KindOf(k), v.fields[k])
    ensures k in Norm(v).fields ==> Norm(v).fields[k] == NormAs(KindOf(k), v.fields[k])
  {
  }

  lemma ValueCommutes(v: Json, p: Position)
    requires v.Obj? && (PlaceOf(p).One? || PlaceOf(p).Value?)
    ensures Sub(Norm(v), p) == Renormed(Sub(v, p), p)
  {
    var k := PlaceOf(p).k;
    PlaceKind(p);
    KeptUnder(v, k);
    if k in v.fields {
      NormKeepsArrays(v.fields[k]);
    }
  }

  lemma ElemCommutes(v: Json, p: Position)
    requires v.Obj? && PlaceOf(p).Elem?
    ensures Sub(Norm(v), p) == Renormed(Sub(v, p), p)
  {
    var k := PlaceOf(p).k;
    PlaceKind(p);
    KeptUnder(v, k);
    if k in v.fields {
      NormKeepsArrays(v.fields[k]);
    }
  }

  lemma MapMemberNormed(kind: Kind, x: Json, n: string)
    requires x.Obj? && (kind.Mapped? || kind.Dependencies?)
    ensures var r := NormAs(kind, x);
            && r.Obj? && (n in r.fields <==> n in x.fields)
            && (n in x.fields ==>
                  r.fields[n] == if kind.Mapped? then Norm(x.fields[n]) else NormDependency(x.fields[n]))
            && (n in x.fields ==> (r.fields[n].Arr? <==> x.fields[n].Arr?))
  {
    if n in x.fields {
      NormKeepsArrays(x.fields[n]);
    }
    assert NormAs(kind, x) == if kind.Mapped? then NormMap(x) else NormDependencyMap(x);
  }

  lemma MemberCommutes(v: Json, p: Position)
    requires v.Obj? && (PlaceOf(p).Member? || PlaceOf(p).Dep?)
    ensures Sub(Norm(v), p) == Renormed(Sub(v, p), p)
  {
    var place := PlaceOf(p);
    PlaceKind(p);
    KeptUnder(v, place.k);
    if place.k in v.fields {
      MemberFetched(v, Norm(v), place, KindOf(place.k));
    }
  }

  lemma MemberFetched(v: Json, w: Json, place: Place, kind: Kind)
    requires v.Obj? && w.Obj? && place.k in v.fields && place.k in w.fields
    requires w.fields[place.k] == NormAs(kind, v.fields[place.k])
    requires (place.Member? && kind.Mapped?) || (place.Dep? && kind.Dependencies?)
    ensures Fetch(w, place) ==
            match Fetch(v, place) { case None => None case Some(x) => Some(Norm(x)) }
  {
    var x := v.fields[place.k];
    if x.Obj? {
      MapMemberNormed(kind, x, place.name);
    }
  }

  /** The normalised object has a subschema where the original has one, normalised; only a dropped `true`
      is missing and only a `false` that closes an object is kept. */
  lemma StepCommutes(v: Json, p: Position)
    requires v.Obj?
    ensures Sub(Norm(v), p) == match Sub(v, p) { case None => None case Some(x) => Rewritten(p, x) }
  {
    match PlaceOf(p)
    case One(_) => ValueCommutes(v, p);
    case Value(_) => ValueCommutes(v, p);
    case Elem(_, _) => ElemCommutes(v, p);
    case Member(_, _) => MemberCommutes(v, p);
    case Dep(_, _) => MemberCommutes(v, p);
  }

  // ----- idempotence

  lemma {:induction false} NormTwice(v: Json)
    ensures Norm(Norm(v)) == Norm(v)
    decreases v, 0
  {
    match v
    case Obj(m) =>
      var n := Norm(v).fields;
      forall k | k in n
        ensures !Dropped(KindOf(k), n[k]) && NormAs(KindOf(k), n[k]) == n[k]
      {
        NormAsTwice(KindOf(k), m[k]);
      }
      assert Norm(Norm(v)).fields == n;
    case Bool(b) =>
      if !b {
        FalseNormed();
      }
    case _ =>
  }

  lemma FalseNormed()
    ensures Norm(Norm(Bool(false))) == Norm(Bool(false))
  {
    var empty := Obj(map[]);
    assert Norm(empty) == empty;
    NotNormed("not", empty);
  }

  lemma NotNormed(k: string, x: Json)
    requires KindOf(k).Single? && Norm(x) == x && x.Obj?
    ensures Norm(Obj(map[k := x])) == Obj(map[k := x])
  {
  }

  lemma {:induction false} NormAsTwice(kind: Kind, v: Json)
    requires !Dropped(kind, v)
    ensures !Dropped(kind, NormAs(kind, v)) && NormAs(kind, NormAs(kind, v)) == NormAs(kind, v)
    decreases v, 1
  {
    if v.Arr? && (kind.Single? || kind.Listed?) {
      var l := NormList(v);
      forall i | 0 <= i < |v.elems|
        ensures NormList(l).elems[i] == l.elems[i]
      {
        NormTwice(v.elems[i]);
      }
      assert NormList(l).elems == l.elems;
    } else if v.Obj? && (kind.Mapped? || kind.Dependencies?) {
      forall n | n in v.fields
        ensures Norm(Norm(v.fields[n])) == Norm(v.fields[n])
      {
        NormTwice(v.fields[n]);
      }
      if kind.Mapped? {
        assert NormMap(NormMap(v)).fields == NormMap(v).fields;
      } else {
        assert NormDependencyMap(NormDependencyMap(v)).fields == NormDependencyMap(v).fields;
      }
    } else {
      NormTwice(v);
    }
  }

  // ----- no boolean is left

  /** Subschemas of a normalised schema are normalised or a `false` that was kept. */
  lemma SubOfNormal(w: Json, p: Position)
    requires Norm(w) == w && Sub(w, p).Some?
    ensures var x := Sub(w, p).value;
            (!x.Bool? && Norm(x) == x) || (x == Bool(false) && ClosesObject(p))
  {
    StepCommutes(w, p);
  }

  /** After normalising, a boolean in a schema position is a `false` under `additionalProperties` or
      `unevaluatedProperties`. */
  lemma NoBooleanLeft(v: Json, path: seq<Position>)
    requires At(Norm(v), path).Some? && At(Norm(v), path).value.Bool?
    ensures path != [] && ClosesObject(path[|path| - 1])
    ensures At(Norm(v), path) == Some(Bool(false))
  {
    NormTwice(v);
    NoBooleanIn(Norm(v), path);
  }

  lemma BooleanIsLast(x: Json, path: seq<Position>)
    requires x.Bool? && At(x, path).Some?
    ensures path == []
  {
  }

  lemma {:induction false} NoBooleanIn(w: Json, path: seq<Position>)
    requires Norm(w) == w && !w.Bool? && At(w, path).Some? && At(w, path).value.Bool?
    ensures path != [] && ClosesObject(path[|path| - 1])
    ensures At(w, path) == Some(Bool(false))
    decreases |path|
  {
    if path != [] {
      SubOfNormal(w, path[0]);
      var x := Sub(w, path[0]).value;
      if x.Bool? {
        BooleanIsLast(x, path[1..]);
        assert path == [path[0]];
      } else {
        NoBooleanIn(x, path[1..]);
      }
    }
  }

  // ----- everything else stays

  /** What is left at the end of a path. */
  lemma {:induction false} PathCommutes(v: Json, path: seq<Position>)
    requires At(v, path).Some?
    ensures At(Norm(v), path) ==
            if path == [] then Some(Norm(v)) else Rewritten(path[|path| - 1], At(v, path).value)
    decreases |path|
  {
    if path != [] {
      StepCommutes(v, path[0]);
      var x := Sub(v, path[0]).value;
      PathCommutes(x, path[1..]);
      if path[1..] == [] {
        assert path == [path[0]];
      }
    }
  }

  ghost predicate InsideFalse(v: Json, path: seq<Position>) {
    exists n :: 0 <= n < |path| && At(v, path[..n]) == Some(Bool(false))
  }

  lemma InsideFalseBelow(v: Json, path: seq<Position>)
    requires path != [] && Sub(v, path[0]).Some? && InsideFalse(Sub(v, path[0]).value, path[1..])
    ensures InsideFalse(v, path)
  {
    var x := Sub(v, path[0]).value;
    var n :| 0 <= n < |path[1..]| && At(x, path[1..][..n]) == Some(Bool(false));
    var prefix := path[..n + 1];
    assert prefix[1..] == path[1..][..n];
    assert At(v, prefix) == At(x, prefix[1..]);
  }

  /** A subschema of the result was one of the original, or is inside what a `false` was rewritten to. */
  lemma {:induction false} PathsComeFrom(v: Json, path: seq<Position>)
    requires At(Norm(v), path).Some?
    ensures At(v, path).Some? || InsideFalse(v, path)
    decreases |path|
  {
    if path != [] {
      if v.Obj? {
        StepCommutes(v, path[0]);
        var x := Sub(v, path[0]).value;
        if Sub(Norm(v), path[0]) == Some(x) {
        } else {
          PathsComeFrom(x, path[1..]);
        }
        if InsideFalse(x, path[1..]) {
          InsideFalseBelow(v, path);
        }
      } else {
        assert At(v, path[..0]) == Some(v);
      }
    }
  }

  /** At every depth, a keyword that holds no subschema keeps its value, and none appears or disappears. */
  lemma UnlistedUntouched(v: Json, path: seq<Position>, k: string)
    requires At(v, path).Some? && At(v, path).value.Obj? && HoldingOf(k).NoSubschema?
    ensures At(Norm(v), path).Some? && At(Norm(v), path).value.Obj?
    ensures var was, is_ := At(v, path).value.fields, At(Norm(v), path).value.fields;
            (k in is_ <==> k in was) && (k in was ==> is_[k] == was[k])
  {
    PathCommutes(v, path);
    TablesFit(k);
    NormKeepsUnlisted(At(v, path).value, k);
  }

  lemma NormKeepsUnlisted(v: Json, k: string)
    requires v.Obj? && KindOf(k) == Unlisted
    ensures Norm(v).Obj? && (k in Norm(v).fields <==> k in v.fields)
    ensures k in v.fields ==> Norm(v).fields[k] == v.fields[k]
  {
  }
}

/** Normalising a schema keeps what it accepts. */
module SchemaMeaning {
  import opened GoTypes
  import opened Json
  import opened SchemaNorm
  import opened SchemaPositions
  import opened SchemaSemantics

  // ----- when a dropped `true` can be missed

  ghost predicate InPlace(s: Slot) {
    s.AllOf? || s.AnyOf? || s.OneOf? || s.If? || s.Then? || s.Else? || s.DependentSchema? || s.Dependency?
  }

  /** A `true` that marks properties as evaluated is dropped somewhere an `unevaluatedProperties` of this
      very object could look. */
  ghost predicate HidesPropsBefore(v: Json)
    decreases v, 0
  {
    || SlotOf(v, AdditionalProperty) == Some(Bool(true))
    || exists s :: InPlace(s) && SlotOf(v, s).Some? && HidesProps(SlotOf(v, s).value)
  }

  /** The same, as seen from the schema around this one. */
  ghost predicate HidesProps(v: Json)
    decreases v, 1
  {
    SlotOf(v, UnevaluatedProperty) == Some(Bool(true)) || HidesPropsBefore(v)
  }

  ghost predicate HidesItemsBefore(v: Json)
    decreases v, 0
  {
    || (SlotOf(v, AdditionalItem) == Some(Bool(true)) && ListLength(v.fields, "items").Some?)
    || exists s :: InPlace(s) && SlotOf(v, s).Some? && HidesItems(SlotOf(v, s).value)
  }

  ghost predicate HidesItems(v: Json)
    decreases v, 1
  {
    SlotOf(v, UnevaluatedItem) == Some(Bool(true)) || HidesItemsBefore(v)
  }

  ghost predicate Restrictive(x: Option<Json>) {
    x.Some? && x.value != Bool(true)
  }

  /** No dropped `true` is in sight of an `unevaluatedProperties` or `unevaluatedItems` other than `true`. */
  ghost predicate NothingMissed(v: Json) {
    && (forall s :: SlotOf(v, s).Some? ==> NothingMissed(SlotOf(v, s).value))
    && (Restrictive(SlotOf(v, UnevaluatedProperty)) ==> !HidesPropsBefore(v))
    && (Restrictive(SlotOf(v, UnevaluatedItem)) ==> !HidesItemsBefore(v))
  }

  /** The simple case: those keywords are absent or true everywhere. */
  ghost predicate NoUnevaluated(v: Json) {
    && (forall s :: SlotOf(v, s).Some? ==> NoUnevaluated(SlotOf(v, s).value))
    && !Restrictive(SlotOf(v, UnevaluatedProperty))
    && !Restrictive(SlotOf(v, UnevaluatedItem))
  }

  lemma {:induction false} NoUnevaluatedIsEnough(v: Json)
    requires NoUnevaluated(v)
    ensures NothingMissed(v)
  {
    forall s | SlotOf(v, s).Some?
      ensures NothingMissed(SlotOf(v, s).value)
    {
      NoUnevaluatedIsEnough(SlotOf(v, s).value);
    }
  }

  // ----- two views with the same judges judge alike

  ghost predicate Alike(w: View, u: View) {
    && w.anyOf == u.anyOf && w.oneOf == u.oneOf && w.prefix == u.prefix && w.tuple == u.tuple && w.plain == u.plain
    && (forall n :: w.names(n) == u.names(n))
    && (forall s :: !MayBeDropped(s) ==> w.has(s) == u.has(s))
    && (forall s, i :: w.on(s, i).ok == u.on(s, i).ok)
  }

  ghost predicate SameProps(w: View, u: View) {
    w.has(AdditionalProperty) == u.has(AdditionalProperty)
    && forall s, i :: InPlace(s) ==> w.on(s, i).props == u.on(s, i).props
  }

  ghost predicate SameItems(w: View, u: View) {
    (w.tuple.Some? ==> w.has(AdditionalItem) == u.has(AdditionalItem))
    && forall s, i :: InPlace(s) ==> w.on(s, i).items == u.on(s, i).items
  }

  lemma InPlaceAlike(w: View, u: View, inst: Json)
    requires Alike(w, u) && InPlaceOk(w, inst)
    ensures InPlaceOk(u, inst)
  {
    if u.anyOf {
      var i: nat :| w.has(AnyOf(i)) && w.on(AnyOf(i), inst).ok;
      assert u.has(AnyOf(i)) && u.on(AnyOf(i), inst).ok;
    }
    if u.oneOf {
      var i: nat :| IsOnly(w, i, inst);
      assert IsOnly(u, i, inst);
    }
    if inst.Obj? {
      forall n | n in inst.fields
        ensures DependencyOk(u, n, inst)
      {
        assert DependencyOk(w, n, inst);
      }
    }
  }

  lemma PropertiesAlike(d: Dialect, w: View, u: View, f: map<string, Json>)
    requires Alike(w, u) && PropertiesOk(d, w, f)
    ensures PropertiesOk(d, u, f)
  {
    forall n | n in f
      ensures Covered(d, w, n) == Covered(d, u, n)
    {
    }
  }

  lemma ItemsAlike(d: Dialect, w: View, u: View, e: seq<Json>)
    requires Alike(w, u) && ItemsOk(d, w, e)
    ensures ItemsOk(d, u, e)
  {
    assert Matching(w, e) == Matching(u, e);
  }

  lemma PropEvaluatedAlike(d: Dialect, w: View, u: View, n: string, inst: Json)
    requires Alike(w, u) && SameProps(w, u)
    ensures PropEvaluated(d, w, n, inst) ==> PropEvaluated(d, u, n, inst)
  {
    if PropEvaluated(d, w, n, inst) && !Covered(d, w, n) && !w.has(AdditionalProperty) {
      var s :| Contributes(w, s, inst) && n in w.on(s, inst).props;
      assert InPlace(s);
      assert Contributes(u, s, inst) && n in u.on(s, inst).props;
    }
  }

  lemma ItemEvaluatedAlike(d: Dialect, w: View, u: View, i: nat, inst: Json)
    requires Alike(w, u) && SameItems(w, u) && inst.Arr? && i < |inst.elems|
    ensures ItemEvaluated(d, w, i, inst) ==> ItemEvaluated(d, u, i, inst)
  {
    if exists s :: Contributes(w, s, inst) && i in w.on(s, inst).items {
      var s :| Contributes(w, s, inst) && i in w.on(s, inst).items;
      assert InPlace(s);
      assert Contributes(u, s, inst) && i in u.on(s, inst).items;
    }
  }

  lemma AlikeBothWays(w: View, u: View)
    requires Alike(w, u)
    ensures Alike(u, w)
  {
  }

  /** Either the views agree on what is evaluated, or nothing that is left over can be refused. */
  ghost predicate PropsSettled(w: View, u: View) {
    SameProps(w, u) || forall i :: w.on(UnevaluatedProperty, i).ok
  }

  ghost predicate ItemsSettled(w: View, u: View) {
    SameItems(w, u) || forall i :: w.on(UnevaluatedItem, i).ok
  }

  lemma UnevaluatedPropertiesAlike(d: Dialect, w: View, u: View, inst: Json)
    requires Alike(w, u) && PropsSettled(w, u) && inst.Obj? && UnevaluatedPropertiesOk(d, w, inst)
    ensures UnevaluatedPropertiesOk(d, u, inst)
  {
    if SameProps(w, u) {
      forall n | n in inst.fields
        ensures PropEvaluated(d, w, n, inst) ==> PropEvaluated(d, u, n, inst)
      {
        PropEvaluatedAlike(d, w, u, n, inst);
      }
    }
  }

  lemma UnevaluatedItemsAlike(d: Dialect, w: View, u: View, inst: Json)
    requires Alike(w, u) && ItemsSettled(w, u) && inst.Arr? && UnevaluatedItemsOk(d, w, inst)
    ensures UnevaluatedItemsOk(d, u, inst)
  {
    if SameItems(w, u) {
      forall i: nat | i < |inst.elems|
        ensures ItemEvaluated(d, w, i, inst) ==> ItemEvaluated(d, u, i, inst)
      {
        ItemEvaluatedAlike(d, w, u, i, inst);
      }
    }
  }

  lemma AcceptsAlike(d: Dialect, w: View, u: View, inst: Json)
    requires Alike(w, u) && PropsSettled(w, u) && ItemsSettled(w, u) && Accepts(d, w, inst)
    ensures Accepts(d, u, inst)
  {
    InPlaceAlike(w, u, inst);
    if inst.Obj? {
      PropertiesAlike(d, w, u, inst.fields);
      UnevaluatedPropertiesAlike(d, w, u, inst);
    }
    if inst.Arr? {
      ItemsAlike(d, w, u, inst.elems);
      UnevaluatedItemsAlike(d, w, u, inst);
    }
  }

  lemma SeenAlike(d: Dialect, w: View, u: View, inst: Json)
    requires Alike(w, u)
    ensures SameProps(w, u) && w.has(UnevaluatedProperty) == u.has(UnevaluatedProperty) ==>
              PropsSeen(d, w, inst) == PropsSeen(d, u, inst)
    ensures SameItems(w, u) && w.has(UnevaluatedItem) == u.has(UnevaluatedItem) ==>
              ItemsSeen(d, w, inst) == ItemsSeen(d, u, inst)
  {
    AlikeBothWays(w, u);
    if inst.Obj? && SameProps(w, u) {
      forall n | n in inst.fields
        ensures PropEvaluated(d, w, n, inst) == PropEvaluated(d, u, n, inst)
      {
        PropEvaluatedAlike(d, w, u, n, inst);
        PropEvaluatedAlike(d, u, w, n, inst);
      }
    }
    if inst.Arr? && SameItems(w, u) {
      forall i: nat | i < |inst.elems|
        ensures ItemEvaluated(d, w, i, inst) == ItemEvaluated(d, u, i, inst)
      {
        ItemEvaluatedAlike(d, w, u, i, inst);
        ItemEvaluatedAlike(d, u, w, i, inst);
      }
    }
  }

  // ----- the normalised schema read

  lemma SlotNormed(v: Json, s: Slot)
    requires v.Obj?
    ensures SlotOf(v, s).None? ==> SlotOf(Norm(v), s).None?
    ensures SlotOf(v, s).Some? ==>
              var x := SlotOf(v, s).value;
              || (MayBeDropped(s) && x == Bool(true) && SlotOf(Norm(v), s).None?)
              || (ClosesObject(Judging(s)) && x == Bool(false) && SlotOf(Norm(v), s) == Some(x))
              || (SlotOf(Norm(v), s) == Some(Norm(x)) && !(MayBeDropped(s) && x == Bool(true)))
  {
    StepCommutes(v, Judging(s));
  }

  lemma NormAsKeepsLength(kind: Kind, x: Json)
    requires kind.Listed? || kind.Single?
    ensures !Dropped(kind, x) && (NormAs(kind, x).Arr? <==> x.Arr?)
    ensures x.Arr? ==> |NormAs(kind, x).elems| == |x.elems|
  {
    assert Norm(x).Arr? <==> x.Arr?;
  }

  lemma ListLengthNormed(m: map<string, Json>, k: string)
    requires KindOf(k).Listed? || KindOf(k).Single?
    ensures ListLength(Norm(Obj(m)).fields, k) == ListLength(m, k)
  {
    var n, kind := Norm(Obj(m)).fields, KindOf(k);
    if k in m {
      NormAsKeepsLength(kind, m[k]);
      assert n[k] == NormAs(kind, m[k]);
    }
  }

  lemma ListKinds()
    ensures KindOf("anyOf").Listed? && KindOf("oneOf").Listed? && KindOf("prefixItems").Listed?
    ensures KindOf("items").Single?
  {
  }

  lemma DependencyKind()
    ensures KindOf("dependencies").Dependencies?
  {
  }

  lemma DependencyNamesNormed(m: map<string, Json>, n: string)
    ensures DependencyNames(Norm(Obj(m)).fields, n) == DependencyNames(m, n)
  {
    DependencyKind();
    var k := "dependencies";
    var r := Norm(Obj(m)).fields;
    if k in m {
      KeptUnder(Obj(m), k);
      if m[k].Obj? {
        MapMemberNormed(Dependencies, m[k], n);
      }
    }
  }

  lemma IsPlainNormed(k: string, x: Json)
    requires !Dropped(KindOf(k), x)
    ensures IsPlain(HoldingOf(k), NormAs(KindOf(k), x)) == IsPlain(HoldingOf(k), x)
    ensures IsPlain(HoldingOf(k), x) ==> NormAs(KindOf(k), x) == x
  {
    TablesFit(k);
    PlainByShape(HoldingOf(k), KindOf(k), x);
  }

  lemma PlainByShape(holding: Holding, kind: Kind, x: Json)
    requires holding.Subschemas? <==> kind.Listed?
    requires holding.NamedSubschemas? <==> kind.Mapped?
    requires holding.NamedDependencies? <==> kind.Dependencies?
    requires holding.NoSubschema? <==> kind.Unlisted?
    ensures IsPlain(holding, NormAs(kind, x)) == IsPlain(holding, x)
    ensures IsPlain(holding, x) ==> NormAs(kind, x) == x
  {
  }

  lemma PlainNormed(m: map<string, Json>)
    ensures PlainOf(Norm(Obj(m)).fields) == PlainOf(m)
  {
    var r := Norm(Obj(m)).fields;
    forall k | k in m
      ensures k in PlainOf(r) <==> k in PlainOf(m)
      ensures k in PlainOf(r) ==> PlainOf(r)[k] == PlainOf(m)[k]
    {
      KeptUnder(Obj(m), k);
      if Dropped(KindOf(k), m[k]) {
        TablesFit(k);
      } else {
        IsPlainNormed(k, m[k]);
      }
    }
  }

  lemma ShapeNormed(d: Dialect, v: Json)
    requires v.Obj?
    ensures var w, u := Look(d, v), Look(d, Norm(v));
            && w.anyOf == u.anyOf && w.oneOf == u.oneOf && w.prefix == u.prefix && w.tuple == u.tuple
            && w.plain == u.plain && (forall n :: w.names(n) == u.names(n))
  {
    ListKinds();
    ListLengthNormed(v.fields, "anyOf");
    ListLengthNormed(v.fields, "oneOf");
    ListLengthNormed(v.fields, "prefixItems");
    ListLengthNormed(v.fields, "items");
    PlainNormed(v.fields);
    forall n
      ensures DependencyNames(Norm(v).fields, n) == DependencyNames(v.fields, n)
    {
      DependencyNamesNormed(v.fields, n);
    }
  }

  // ----- the theorem

  /** Normalising keeps what a schema accepts, and what it evaluates unless a dropped `true` hides it. */
  ghost predicate Agree(v: Json, a: Verdict, b: Verdict) {
    a.ok == b.ok && (!HidesProps(v) ==> a.props == b.props) && (!HidesItems(v) ==> a.items == b.items)
  }

  lemma SlotKept(d: Dialect, v: Json, s: Slot, i: Json)
    requires v.Obj? && Lawful(d)
    requires SlotOf(v, s).Some? ==>
               Agree(SlotOf(v, s).value, Eval(d, SlotOf(v, s).value, i), Eval(d, Norm(SlotOf(v, s).value), i))
    ensures var a, b := Look(d, v).on(s, i), Look(d, Norm(v)).on(s, i);
            && a.ok == b.ok
            && (SlotOf(v, s).None? || !HidesProps(SlotOf(v, s).value) ==> a.props == b.props)
            && (SlotOf(v, s).None? || !HidesItems(SlotOf(v, s).value) ==> a.items == b.items)
  {
    SlotNormed(v, s);
  }

  lemma HasNormed(d: Dialect, v: Json)
    requires v.Obj?
    ensures forall s :: !MayBeDropped(s) || SlotOf(v, s) != Some(Bool(true)) ==>
              Look(d, v).has(s) == Look(d, Norm(v)).has(s)
  {
    forall s | !MayBeDropped(s) || SlotOf(v, s) != Some(Bool(true))
      ensures Look(d, v).has(s) == Look(d, Norm(v)).has(s)
    {
      SlotNormed(v, s);
    }
  }

  lemma EmptyAccepts(d: Dialect, inst: Json)
    requires Lawful(d)
    ensures Eval(d, Obj(map[]), inst) == ACCEPT
  {
    var w := Look(d, Obj(map[]));
    assert forall s, i :: w.on(s, i) == ACCEPT && !w.has(s);
    assert PropsSeen(d, w, inst) == {} && ItemsSeen(d, w, inst) == {};
  }

  lemma NotKind()
    ensures KindOf("not").Single?
  {
  }

  lemma FalseRejects(d: Dialect, inst: Json)
    requires Lawful(d)
    ensures Eval(d, Norm(Bool(false)), inst) == REJECT
  {
    NotKind();
    EmptyAccepts(d, inst);
    var v := Norm(Bool(false));
    assert SlotOf(v, Not) == Some(Obj(map[]));
    var w := Look(d, v);
    assert w.has(Not) && w.on(Not, inst) == ACCEPT;
  }

  lemma ObjectAlike(d: Dialect, v: Json)
    requires v.Obj? && Lawful(d)
    requires forall s, i :: SlotOf(v, s).Some? ==>
               Agree(SlotOf(v, s).value, Eval(d, SlotOf(v, s).value, i), Eval(d, Norm(SlotOf(v, s).value), i))
    ensures Alike(Look(d, v), Look(d, Norm(v)))
    ensures !HidesPropsBefore(v) ==> SameProps(Look(d, v), Look(d, Norm(v)))
    ensures !HidesItemsBefore(v) ==> SameItems(Look(d, v), Look(d, Norm(v)))
  {
    var w, u := Look(d, v), Look(d, Norm(v));
    ShapeNormed(d, v);
    HasNormed(d, v);
    forall s, i
      ensures w.on(s, i).ok == u.on(s, i).ok
      ensures InPlace(s) && !HidesPropsBefore(v) ==> w.on(s, i).props == u.on(s, i).props
      ensures InPlace(s) && !HidesItemsBefore(v) ==> w.on(s, i).items == u.on(s, i).items
    {
      SlotKept(d, v, s, i);
    }
  }

  lemma TrueAccepts(d: Dialect, v: Json, s: Slot)
    requires v.Obj? && !Restrictive(SlotOf(v, s))
    ensures forall i :: Look(d, v).on(s, i).ok
  {
  }

  lemma ObjectKeepsMeaning(d: Dialect, v: Json, inst: Json)
    requires v.Obj? && Lawful(d) && NothingMissed(v)
    requires forall s, i :: SlotOf(v, s).Some? ==>
               Agree(SlotOf(v, s).value, Eval(d, SlotOf(v, s).value, i), Eval(d, Norm(SlotOf(v, s).value), i))
    ensures Agree(v, Eval(d, v, inst), Eval(d, Norm(v), inst))
  {
    var w, u := Look(d, v), Look(d, Norm(v));
    ObjectAlike(d, v);
    AlikeBothWays(w, u);
    if !Restrictive(SlotOf(v, UnevaluatedProperty)) {
      TrueAccepts(d, v, UnevaluatedProperty);
    }
    if !Restrictive(SlotOf(v, UnevaluatedItem)) {
      TrueAccepts(d, v, UnevaluatedItem);
    }
    assert PropsSettled(w, u) && ItemsSettled(w, u);
    assert PropsSettled(u, w) && ItemsSettled(u, w);
    if Accepts(d, w, inst) {
      AcceptsAlike(d, w, u, inst);
    }
    if Accepts(d, u, inst) {
      AcceptsAlike(d, u, w, inst);
    }
    SeenAlike(d, w, u, inst);
    HasNormed(d, v);
  }

  lemma {:induction false} NormKeepsMeaning(d: Dialect, v: Json, inst: Json)
    requires Lawful(d) && NothingMissed(v)
    ensures Agree(v, Eval(d, v, inst), Eval(d, Norm(v), inst))
    decreases v
  {
    if v.Obj? {
      forall s, i | SlotOf(v, s).Some?
        ensures Agree(SlotOf(v, s).value, Eval(d, SlotOf(v, s).value, i), Eval(d, Norm(SlotOf(v, s).value), i))
      {
        NormKeepsMeaning(d, SlotOf(v, s).value, i);
      }
      ObjectKeepsMeaning(d, v, inst);
    } else if v == Bool(false) {
      FalseRejects(d, inst);
    } else if v == Bool(true) {
      EmptyAccepts(d, inst);
    } else {
    }
  }

  /** Every schema whose `unevaluatedProperties` and `unevaluatedItems` are absent or true. */
  lemma NormKeepsAcceptance(d: Dialect, v: Json, inst: Json)
    requires Lawful(d) && NoUnevaluated(v)
    ensures Eval(d, Norm(v), inst).ok == Eval(d, v, inst).ok
  {
    NoUnevaluatedIsEnough(v);
    NormKeepsMeaning(d, v, inst);
  }

  // ----- every schema: what the normalised schema accepts, said of the original

  /** The original schema read by someone who overlooks a `true` under the four keywords that may be dropped:
      it still accepts, but it no longer counts as having evaluated anything. */
  ghost function Blind(d: Dialect, v: Json, inst: Json): Verdict
    decreases v, 1
  {
    if v.Obj? then Judge(d, BlindLook(d, v), inst) else Eval(d, v, inst)
  }

  ghost function BlindLook(d: Dialect, v: Json): View
    requires v.Obj?
    decreases v, 0
  {
    Look(d, v).(
      on := (s: Slot, i: Json) => if SlotOf(v, s).None? then ACCEPT else Blind(d, SlotOf(v, s).value, i),
      has := (s: Slot) => SlotOf(v, s).Some? && !Overlooked(v, s))
  }

  predicate Overlooked(v: Json, s: Slot) {
    MayBeDropped(s) && SlotOf(v, s) == Some(Bool(true))
  }

  ghost predicate NormedIsBlind(d: Dialect, v: Json, inst: Json) {
    Eval(d, Norm(v), inst) == Blind(d, v, inst)
  }

  ghost predicate SlotIsBlind(w: View, u: View, s: Slot, i: Json) {
    w.on(s, i) == u.on(s, i) && w.has(s) == u.has(s)
  }

  lemma BlindSlot(d: Dialect, v: Json, s: Slot, i: Json)
    requires v.Obj? && Lawful(d)
    requires SlotOf(v, s).Some? ==> NormedIsBlind(d, SlotOf(v, s).value, i)
    ensures SlotIsBlind(BlindLook(d, v), Look(d, Norm(v)), s, i)
  {
    SlotNormed(v, s);
  }

  lemma BlindShape(d: Dialect, v: Json)
    requires v.Obj?
    ensures SameShape(BlindLook(d, v), Look(d, Norm(v)))
  {
    ShapeNormed(d, v);
  }

  ghost predicate SameShape(w: View, u: View) {
    && w.anyOf == u.anyOf && w.oneOf == u.oneOf && w.prefix == u.prefix && w.tuple == u.tuple
    && w.plain == u.plain && (forall n :: w.names(n) == u.names(n))
  }

  lemma SameJudgement(d: Dialect, w: View, u: View, inst: Json)
    requires SameShape(w, u) && forall s, i :: SlotIsBlind(w, u, s, i)
    ensures Judge(d, w, inst) == Judge(d, u, inst)
  {
    assert forall s, i :: SlotIsBlind(w, u, s, i) ==> w.on(s, i) == u.on(s, i);
    assert forall s :: SlotIsBlind(w, u, s, Null) ==> w.has(s) == u.has(s);
    assert Alike(w, u);
    AlikeBothWays(w, u);
    assert SameProps(w, u) && SameProps(u, w) && SameItems(w, u) && SameItems(u, w);
    if Accepts(d, w, inst) {
      AcceptsAlike(d, w, u, inst);
    }
    if Accepts(d, u, inst) {
      AcceptsAlike(d, u, w, inst);
    }
    SeenAlike(d, w, u, inst);
  }

  lemma ObjectIsBlind(d: Dialect, v: Json, inst: Json)
    requires v.Obj? && Lawful(d)
    requires forall s, i :: SlotOf(v, s).Some? ==> NormedIsBlind(d, SlotOf(v, s).value, i)
    ensures NormedIsBlind(d, v, inst)
  {
    var w, u := BlindLook(d, v), Look(d, Norm(v));
    forall s, i
      ensures SlotIsBlind(w, u, s, i)
    {
      BlindSlot(d, v, s, i);
    }
    BlindShape(d, v);
    SameJudgement(d, w, u, inst);
  }

  /** Without any condition on the schema: on every instance the normalised schema gives the verdict, and
      evaluates the properties and items, of the original with the dropped `true`s overlooked. */
  lemma {:induction false} NormIsBlind(d: Dialect, v: Json, inst: Json)
    requires Lawful(d)
    ensures Eval(d, Norm(v), inst) == Blind(d, v, inst)
    decreases v
  {
    if v.Obj? {
      forall s, i | SlotOf(v, s).Some?
        ensures NormedIsBlind(d, SlotOf(v, s).value, i)
      {
        NormIsBlind(d, SlotOf(v, s).value, i);
      }
      ObjectIsBlind(d, v, inst);
    } else if v == Bool(false) {
      FalseRejects(d, inst);
    } else if v == Bool(true) {
      EmptyAccepts(d, inst);
    }
  }

  /** So the meaning is kept on an instance exactly if overlooking them makes no difference there; and it
      makes none, wherever nothing is missed. */
  lemma KeptExactly(d: Dialect, v: Json, inst: Json)
    requires Lawful(d)
    ensures Eval(d, Norm(v), inst).ok == Eval(d, v, inst).ok <==> Blind(d, v, inst).ok == Eval(d, v, inst).ok
    ensures NothingMissed(v) ==> Blind(d, v, inst).ok == Eval(d, v, inst).ok
  {
    NormIsBlind(d, v, inst);
    if NothingMissed(v) {
      NormKeepsMeaning(d, v, inst);
    }
  }

  // ----- where a dropped `true` is missed

  /** Overlooking never adds to what was evaluated. */
  ghost predicate SeesLess(b: Verdict, a: Verdict) {
    b.ok == a.ok && b.props <= a.props && b.items <= a.items
  }

  ghost predicate BlindKids(d: Dialect, v: Json) {
    forall s, i :: SlotOf(v, s).Some? ==> SeesLess(Blind(d, SlotOf(v, s).value, i), Eval(d, SlotOf(v, s).value, i))
  }

  lemma BlindAlike(d: Dialect, v: Json)
    requires v.Obj? && BlindKids(d, v)
    ensures Alike(BlindLook(d, v), Look(d, v)) && Alike(Look(d, v), BlindLook(d, v))
    ensures forall s, i :: SeesLess(BlindLook(d, v).on(s, i), Look(d, v).on(s, i))
    ensures forall s :: BlindLook(d, v).has(s) ==> Look(d, v).has(s)
  {
  }

  lemma EvaluatesLess(d: Dialect, b: View, w: View, inst: Json)
    requires Alike(b, w) && (forall s, i :: SeesLess(b.on(s, i), w.on(s, i))) && (forall s :: b.has(s) ==> w.has(s))
    ensures forall n :: PropEvaluated(d, b, n, inst) ==> PropEvaluated(d, w, n, inst)
    ensures inst.Arr? ==>
              forall i: nat :: i < |inst.elems| && ItemEvaluated(d, b, i, inst) ==> ItemEvaluated(d, w, i, inst)
  {
    assert forall s :: Contributes(b, s, inst) ==> Contributes(w, s, inst);
    forall n | PropEvaluated(d, b, n, inst)
      ensures PropEvaluated(d, w, n, inst)
    {
      assert Covered(d, b, n) == Covered(d, w, n);
    }
  }

  lemma SeenLess(d: Dialect, b: View, w: View, inst: Json)
    requires Alike(b, w) && (forall s, i :: SeesLess(b.on(s, i), w.on(s, i))) && (forall s :: b.has(s) ==> w.has(s))
    ensures PropsSeen(d, b, inst) <= PropsSeen(d, w, inst) && ItemsSeen(d, b, inst) <= ItemsSeen(d, w, inst)
  {
    EvaluatesLess(d, b, w, inst);
  }

  lemma {:induction false} BlindSeesLess(d: Dialect, v: Json, inst: Json)
    requires Lawful(d) && NothingMissed(v)
    ensures SeesLess(Blind(d, v, inst), Eval(d, v, inst))
    decreases v
  {
    KeptExactly(d, v, inst);
    if v.Obj? {
      forall s, i | SlotOf(v, s).Some?
        ensures SeesLess(Blind(d, SlotOf(v, s).value, i), Eval(d, SlotOf(v, s).value, i))
      {
        BlindSeesLess(d, SlotOf(v, s).value, i);
      }
      BlindAlike(d, v);
      SeenLess(d, BlindLook(d, v), Look(d, v), inst);
    }
  }

  lemma BlindOthersOk(d: Dialect, b: View, w: View, inst: Json)
    requires Alike(b, w)
    requires (forall s, i :: SeesLess(b.on(s, i), w.on(s, i))) && (forall s :: b.has(s) ==> w.has(s))
    ensures inst.Obj? && UnevaluatedPropertiesOk(d, b, inst) ==> UnevaluatedPropertiesOk(d, w, inst)
    ensures inst.Arr? && UnevaluatedItemsOk(d, b, inst) ==> UnevaluatedItemsOk(d, w, inst)
  {
    EvaluatesLess(d, b, w, inst);
  }

  /** Any of the four keywords, here or in a subschema that judges the same instance: if nothing is missed
      inside the subschemas, an accepted instance stays accepted exactly if all that only the dropped `true`s
      had evaluated passes this schema's `unevaluatedProperties` and `unevaluatedItems`; and nothing is
      accepted that was not. */
  lemma MissedExactly(d: Dialect, v: Json, inst: Json)
    requires v.Obj? && Lawful(d) && forall s :: SlotOf(v, s).Some? ==> NothingMissed(SlotOf(v, s).value)
    ensures var b := BlindLook(d, v);
            Eval(d, Norm(v), inst).ok <==>
            && Eval(d, v, inst).ok
            && (inst.Obj? ==> UnevaluatedPropertiesOk(d, b, inst))
            && (inst.Arr? ==> UnevaluatedItemsOk(d, b, inst))
  {
    var b, w := BlindLook(d, v), Look(d, v);
    forall s, i | SlotOf(v, s).Some?
      ensures SeesLess(Blind(d, SlotOf(v, s).value, i), Eval(d, SlotOf(v, s).value, i))
    {
      BlindSeesLess(d, SlotOf(v, s).value, i);
    }
    BlindAlike(d, v);
    NormIsBlind(d, v, inst);
    VerdictIs(d, v, inst);
    BlindVerdictIs(d, v, inst);
    BlindAccepts(d, b, w, inst);
  }

  lemma BlindVerdictIs(d: Dialect, v: Json, inst: Json)
    requires v.Obj?
    ensures Blind(d, v, inst).ok == Accepts(d, BlindLook(d, v), inst)
  {
  }

  lemma BlindAccepts(d: Dialect, b: View, w: View, inst: Json)
    requires Alike(b, w) && Alike(w, b)
    requires (forall s, i :: SeesLess(b.on(s, i), w.on(s, i))) && (forall s :: b.has(s) ==> w.has(s))
    ensures Accepts(d, b, inst) <==>
            && Accepts(d, w, inst)
            && (inst.Obj? ==> UnevaluatedPropertiesOk(d, b, inst))
            && (inst.Arr? ==> UnevaluatedItemsOk(d, b, inst))
  {
    OthersAlike(d, b, w, inst);
    OthersAlike(d, w, b, inst);
    BlindOthersOk(d, b, w, inst);
  }

  ghost predicate EvaluatedElsewhere(d: Dialect, w: View, n: string, inst: Json) {
    Covered(d, w, n) || exists s :: Contributes(w, s, inst) && n in w.on(s, inst).props
  }

  lemma SubschemasAgree(d: Dialect, v: Json)
    requires Lawful(d) && forall s :: SlotOf(v, s).Some? ==> NothingMissed(SlotOf(v, s).value)
    ensures forall s, i :: SlotOf(v, s).Some? ==>
              Agree(SlotOf(v, s).value, Eval(d, SlotOf(v, s).value, i), Eval(d, Norm(SlotOf(v, s).value), i))
  {
    forall s, i | SlotOf(v, s).Some?
      ensures Agree(SlotOf(v, s).value, Eval(d, SlotOf(v, s).value, i), Eval(d, Norm(SlotOf(v, s).value), i))
    {
      NormKeepsMeaning(d, SlotOf(v, s).value, i);
    }
  }

  lemma InPlacePropsAgree(d: Dialect, v: Json, inst: Json)
    requires v.Obj? && Lawful(d)
    requires forall s, i :: SlotOf(v, s).Some? ==>
               Agree(SlotOf(v, s).value, Eval(d, SlotOf(v, s).value, i), Eval(d, Norm(SlotOf(v, s).value), i))
    requires forall s :: InPlace(s) && SlotOf(v, s).Some? ==> !HidesProps(SlotOf(v, s).value)
    ensures forall s :: InPlace(s) ==> Look(d, v).on(s, inst).props == Look(d, Norm(v)).on(s, inst).props
  {
    forall s | InPlace(s)
      ensures Look(d, v).on(s, inst).props == Look(d, Norm(v)).on(s, inst).props
    {
      SlotKept(d, v, s, inst);
    }
  }

  lemma VerdictIs(d: Dialect, v: Json, inst: Json)
    requires v.Obj?
    ensures Eval(d, v, inst).ok == Accepts(d, Look(d, v), inst)
  {
  }

  lemma DroppedTrueViews(d: Dialect, v: Json, inst: Json)
    requires v.Obj? && Lawful(d) && SlotOf(v, AdditionalProperty) == Some(Bool(true))
    requires forall s :: SlotOf(v, s).Some? ==> NothingMissed(SlotOf(v, s).value)
    requires forall s :: InPlace(s) && SlotOf(v, s).Some? ==> !HidesProps(SlotOf(v, s).value)
    requires Restrictive(SlotOf(v, UnevaluatedItem)) ==> !HidesItemsBefore(v)
    ensures var w, u := Look(d, v), Look(d, Norm(v));
            && Alike(w, u) && ItemsSettled(w, u) && w.has(AdditionalProperty) && !u.has(AdditionalProperty)
            && forall s :: InPlace(s) ==> w.on(s, inst).props == u.on(s, inst).props
  {
    SubschemasAgree(d, v);
    ObjectAlike(d, v);
    SlotNormed(v, AdditionalProperty);
    if !Restrictive(SlotOf(v, UnevaluatedItem)) {
      TrueAccepts(d, v, UnevaluatedItem);
    }
    InPlacePropsAgree(d, v, inst);
  }

  /** What dropping `additionalProperties: true` costs: the properties only it had evaluated are now up to
      `unevaluatedProperties`. */
  lemma DroppedTrueMissed(d: Dialect, v: Json, inst: Json)
    requires v.Obj? && Lawful(d) && SlotOf(v, AdditionalProperty) == Some(Bool(true))
    requires forall s :: SlotOf(v, s).Some? ==> NothingMissed(SlotOf(v, s).value)
    requires forall s :: InPlace(s) && SlotOf(v, s).Some? ==> !HidesProps(SlotOf(v, s).value)
    requires Restrictive(SlotOf(v, UnevaluatedItem)) ==> !HidesItemsBefore(v)
    ensures var w := Look(d, v);
            Eval(d, Norm(v), inst).ok <==>
            Eval(d, v, inst).ok &&
            (inst.Obj? ==> forall n :: n in inst.fields && !EvaluatedElsewhere(d, w, n, inst) ==>
                             w.on(UnevaluatedProperty, inst.fields[n]).ok)
  {
    var w, u := Look(d, v), Look(d, Norm(v));
    DroppedTrueViews(d, v, inst);
    AlikeBothWays(w, u);
    MissedVerdict(d, w, u, inst);
    VerdictIs(d, v, inst);
    VerdictIs(d, Norm(v), inst);
  }

  /** The rest of the verdict. */
  lemma OthersAlike(d: Dialect, w: View, u: View, inst: Json)
    requires Alike(w, u)
    ensures InPlaceOk(w, inst) ==> InPlaceOk(u, inst)
    ensures inst.Obj? && PropertiesOk(d, w, inst.fields) ==> PropertiesOk(d, u, inst.fields)
    ensures inst.Arr? && ItemsOk(d, w, inst.elems) ==> ItemsOk(d, u, inst.elems)
    ensures inst.Arr? && ItemsSettled(w, u) && UnevaluatedItemsOk(d, w, inst) ==> UnevaluatedItemsOk(d, u, inst)
  {
    if InPlaceOk(w, inst) {
      InPlaceAlike(w, u, inst);
    }
    if inst.Obj? && PropertiesOk(d, w, inst.fields) {
      PropertiesAlike(d, w, u, inst.fields);
    }
    if inst.Arr? && ItemsOk(d, w, inst.elems) {
      ItemsAlike(d, w, u, inst.elems);
    }
    if inst.Arr? && ItemsSettled(w, u) && UnevaluatedItemsOk(d, w, inst) {
      UnevaluatedItemsAlike(d, w, u, inst);
    }
  }

  lemma MissedVerdict(d: Dialect, w: View, u: View, inst: Json)
    requires Alike(w, u) && Alike(u, w) && ItemsSettled(w, u) && ItemsSettled(u, w)
    requires w.has(AdditionalProperty) && !u.has(AdditionalProperty)
    requires forall s :: InPlace(s) ==> w.on(s, inst).props == u.on(s, inst).props
    ensures Accepts(d, u, inst) <==>
            Accepts(d, w, inst) &&
            (inst.Obj? ==> forall n :: n in inst.fields && !EvaluatedElsewhere(d, w, n, inst) ==>
                             w.on(UnevaluatedProperty, inst.fields[n]).ok)
  {
    OthersAlike(d, w, u, inst);
    OthersAlike(d, u, w, inst);
    if inst.Obj? {
      forall n | n in inst.fields
        ensures EvaluatedElsewhere(d, w, n, inst) == PropEvaluated(d, u, n, inst)
      {
        ElsewhereAlike(d, w, u, n, inst);
      }
    }
  }

  lemma ElsewhereAlike(d: Dialect, w: View, u: View, n: string, inst: Json)
    requires Alike(w, u) && !u.has(AdditionalProperty)
    requires forall s :: InPlace(s) ==> w.on(s, inst).props == u.on(s, inst).props
    ensures EvaluatedElsewhere(d, w, n, inst) == PropEvaluated(d, u, n, inst)
  {
    assert Covered(d, w, n) == Covered(d, u, n);
    if exists s :: Contributes(w, s, inst) && n in w.on(s, inst).props {
      var s :| Contributes(w, s, inst) && n in w.on(s, inst).props;
      assert InPlace(s) && Contributes(u, s, inst) && n in u.on(s, inst).props;
    }
    if exists s :: Contributes(u, s, inst) && n in u.on(s, inst).props {
      var s :| Contributes(u, s, inst) && n in u.on(s, inst).props;
      assert InPlace(s) && Contributes(w, s, inst) && n in w.on(s, inst).props;
    }
  }

  /** The smallest case: an open object that its own `unevaluatedProperties` would close. */
  lemma OpenObjectCloses(d: Dialect, n: string, x: Json)
    requires Lawful(d)
    ensures var v := Obj(map["additionalProperties" := Bool(true), "unevaluatedProperties" := Bool(false)]);
            Eval(d, v, Obj(map[n := x])).ok && !Eval(d, Norm(v), Obj(map[n := x])).ok
  {
    var v := Obj(map["additionalProperties" := Bool(true), "unevaluatedProperties" := Bool(false)]);
    SmallestSlots(v);
    SmallestView(d, v);
    OpenViewAccepts(d, Look(d, v), Obj(map[n := x]));
    SmallestCloses(d, v, Obj(map[n := x]), n);
  }

  ghost predicate Smallest(v: Json) {
    v.Obj? && forall s :: SlotOf(v, s) == if s == AdditionalProperty then Some(Bool(true))
                                          else if s == UnevaluatedProperty then Some(Bool(false)) else None
  }

  lemma SmallestSlots(v: Json)
    requires v == Obj(map["additionalProperties" := Bool(true), "unevaluatedProperties" := Bool(false)])
    ensures Smallest(v) && forall k :: k in v.fields ==> KindOf(k).Closed?
  {
    ClosedKinds();
    forall s
      ensures SlotOf(v, s) == if s == AdditionalProperty then Some(Bool(true))
                              else if s == UnevaluatedProperty then Some(Bool(false)) else None
    {
      SlotKind(s);
      OpenKinds();
    }
  }

  lemma ClosedKinds()
    ensures KindOf("additionalProperties").Closed? && KindOf("unevaluatedProperties").Closed?
    ensures "additionalProperties" != "unevaluatedProperties"
  {
    assert "additionalProperties"[0] != "unevaluatedProperties"[0];
  }

  lemma OpenKinds()
    ensures KindOf("additionalItems").Open? && KindOf("unevaluatedItems").Open?
  {
  }

  lemma SmallestView(d: Dialect, v: Json)
    requires Smallest(v) && forall k :: k in v.fields ==> KindOf(k).Closed?
    ensures OpenView(Look(d, v))
  {
    ListKinds();
    DependencyKind();
    forall k | k in v.fields
      ensures HoldingOf(k).Subschema?
    {
      TablesFit(k);
    }
    assert PlainOf(v.fields) == map[];
    SmallestLists(v);
  }

  lemma SmallestLists(v: Json)
    requires v.Obj? && forall k :: k in v.fields ==> KindOf(k).Closed?
    ensures ListLength(v.fields, "anyOf").None? && ListLength(v.fields, "oneOf").None?
    ensures ListLength(v.fields, "prefixItems").None? && ListLength(v.fields, "items").None?
    ensures forall n :: DependencyNames(v.fields, n).None?
  {
    ListKinds();
    DependencyKind();
  }

  ghost predicate OpenView(w: View) {
    && !w.anyOf && !w.oneOf && w.prefix == 0 && w.tuple.None? && w.plain == map[]
    && (forall n :: w.names(n).None?)
    && (forall s, i :: s != UnevaluatedProperty ==> w.on(s, i) == ACCEPT)
    && (forall s :: w.has(s) <==> s == AdditionalProperty || s == UnevaluatedProperty)
  }

  lemma OpenViewAccepts(d: Dialect, w: View, inst: Json)
    requires Lawful(d) && OpenView(w) && inst.Obj?
    ensures Accepts(d, w, inst)
    ensures forall n :: !EvaluatedElsewhere(d, w, n, inst)
  {
    assert InPlaceOk(w, inst);
    OpenViewObjects(d, w, inst);
    forall n
      ensures !EvaluatedElsewhere(d, w, n, inst)
    {
      assert forall s :: w.on(s, inst) == ACCEPT || !Contributes(w, s, inst);
    }
  }

  lemma OpenViewObjects(d: Dialect, w: View, inst: Json)
    requires OpenView(w) && inst.Obj?
    ensures PropertiesOk(d, w, inst.fields) && UnevaluatedPropertiesOk(d, w, inst)
  {
  }

  lemma SmallestMissesNothing(v: Json)
    requires Smallest(v)
    ensures forall s :: SlotOf(v, s).Some? ==> NothingMissed(SlotOf(v, s).value)
    ensures Restrictive(SlotOf(v, UnevaluatedProperty)) && !Restrictive(SlotOf(v, UnevaluatedItem))
  {
    assert NothingMissed(Bool(true)) && NothingMissed(Bool(false));
  }

  lemma SmallestCloses(d: Dialect, v: Json, inst: Json, n: string)
    requires Lawful(d) && Smallest(v) && inst.Obj? && n in inst.fields
    requires !EvaluatedElsewhere(d, Look(d, v), n, inst)
    ensures !Eval(d, Norm(v), inst).ok
  {
    SmallestMissesNothing(v);
    DroppedTrueMissed(d, v, inst);
    assert SlotOf(v, UnevaluatedProperty) == Some(Bool(false));
  }
}

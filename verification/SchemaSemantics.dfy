/** What a schema accepts: JSON Schema Core 2020-12 sections 10.2, 10.3 and 11, with draft-07's
    `dependencies`, `additionalItems` and array form of `items`. */
module SchemaSemantics {
  import opened GoTypes
  import opened Json
  import opened SchemaPositions

  /** The outcome of applying a schema to an instance, with the properties and items it evaluated. */
  datatype Verdict = Verdict(ok: bool, props: set<string>, items: set<nat>)

  const ACCEPT := Verdict(true, {}, {})
  const REJECT := Verdict(false, {}, {})

  /** What is left open: the keywords that hold no subschema (type, enum, required, ...),
      how many items may match `contains`, regular expressions, and values that are not schemas. */
  datatype Dialect = Dialect(
    rest: (map<string, Json>, Json) -> bool,
    count: (map<string, Json>, nat) -> bool,
    matches: (string, string) -> bool,
    odd: (Json, Json) -> bool)

  /** The empty schema accepts everything (section 4.3.2). */
  ghost predicate Lawful(d: Dialect) {
    forall inst :: d.rest(map[], inst)
  }

  /** An object schema, read: its subschemas as judges, and the shape of the keywords around them. */
  datatype View = View(
    on: (Slot, Json) -> Verdict,
    has: Slot -> bool,
    anyOf: bool,
    oneOf: bool,
    prefix: nat,
    tuple: Option<nat>,
    names: string -> Option<Json>,
    plain: map<string, Json>)

  function ListLength(m: map<string, Json>, k: string): Option<nat> {
    if k in m && m[k].Arr? then Some(|m[k].elems|) else None
  }

  /** The draft-07 dependency of a property when it is a list of names. */
  function DependencyNames(m: map<string, Json>, n: string): Option<Json> {
    var k := "dependencies";
    if k in m && m[k].Obj? && n in m[k].fields && m[k].fields[n].Arr? then Some(m[k].fields[n]) else None
  }

  /** The keywords that hold no subschema, also because their value has the wrong shape. */
  predicate IsPlain(holding: Holding, x: Json) {
    match holding
    case NoSubschema => true
    case Subschemas => !x.Arr?
    case NamedSubschemas => !x.Obj?
    case NamedDependencies => !x.Obj?
    case Subschema => false
  }

  function PlainOf(m: map<string, Json>): map<string, Json> {
    map k | k in m && IsPlain(HoldingOf(k), m[k]) :: m[k]
  }

  /** What is left of a value that is no schema once its elements are forgotten. */
  function Tag(v: Json): Json {
    if v.Arr? then Arr([]) else v
  }

  ghost function Eval(d: Dialect, v: Json, inst: Json): Verdict
    decreases v, 1
  {
    match v
    case Bool(b) => if b then ACCEPT else REJECT
    case Obj(_) => Judge(d, Look(d, v), inst)
    case _ => if d.odd(Tag(v), inst) then ACCEPT else REJECT
  }

  ghost function Look(d: Dialect, v: Json): View
    requires v.Obj?
    decreases v, 0
  {
    View(
      (s: Slot, i: Json) => if SlotOf(v, s).None? then ACCEPT else Eval(d, SlotOf(v, s).value, i),
      (s: Slot) => SlotOf(v, s).Some?,
      ListLength(v.fields, "anyOf").Some?,
      ListLength(v.fields, "oneOf").Some?,
      if ListLength(v.fields, "prefixItems").Some? then ListLength(v.fields, "prefixItems").value else 0,
      ListLength(v.fields, "items"),
      (n: string) => DependencyNames(v.fields, n),
      PlainOf(v.fields))
  }

  // ----- what an object schema accepts

  ghost function Judge(d: Dialect, w: View, inst: Json): Verdict {
    if Accepts(d, w, inst) then Verdict(true, PropsSeen(d, w, inst), ItemsSeen(d, w, inst)) else REJECT
  }

  ghost predicate Accepts(d: Dialect, w: View, inst: Json) {
    && d.rest(w.plain, inst)
    && InPlaceOk(w, inst)
    && (inst.Obj? ==> PropertiesOk(d, w, inst.fields) && UnevaluatedPropertiesOk(d, w, inst))
    && (inst.Arr? ==> ItemsOk(d, w, inst.elems) && UnevaluatedItemsOk(d, w, inst))
  }

  /** The applicators that judge the instance itself. */
  ghost predicate InPlaceOk(w: View, inst: Json) {
    && (w.has(Not) ==> !w.on(Not, inst).ok)
    && (w.has(If) ==> if w.on(If, inst).ok then w.on(Then, inst).ok else w.on(Else, inst).ok)
    && (forall i: nat :: w.on(AllOf(i), inst).ok)
    && (w.anyOf ==> exists i: nat :: w.has(AnyOf(i)) && w.on(AnyOf(i), inst).ok)
    && (w.oneOf ==> exists i: nat :: IsOnly(w, i, inst))
    && (inst.Obj? ==> forall n :: n in inst.fields ==> DependencyOk(w, n, inst))
  }

  ghost predicate IsOnly(w: View, i: nat, inst: Json) {
    && w.has(OneOf(i)) && w.on(OneOf(i), inst).ok
    && forall j: nat :: j != i && w.has(OneOf(j)) ==> !w.on(OneOf(j), inst).ok
  }

  ghost predicate DependencyOk(w: View, n: string, inst: Json)
    requires inst.Obj?
  {
    && w.on(DependentSchema(n), inst).ok
    && w.on(Dependency(n), inst).ok
    && (w.names(n).Some? && w.names(n).value.Arr? ==>
          forall e :: e in w.names(n).value.elems && e.Str? ==> e.s in inst.fields)
  }

  ghost predicate Covered(d: Dialect, w: View, n: string) {
    w.has(Property(n)) || exists p :: d.matches(p, n) && w.has(Pattern(p))
  }

  ghost predicate PropertiesOk(d: Dialect, w: View, f: map<string, Json>) {
    forall n :: n in f ==>
      && w.on(Property(n), f[n]).ok
      && (forall p :: d.matches(p, n) ==> w.on(Pattern(p), f[n]).ok)
      && (!Covered(d, w, n) ==> w.on(AdditionalProperty, f[n]).ok)
      && w.on(PropertyName, Str(n)).ok
  }

  ghost predicate ItemsOk(d: Dialect, w: View, e: seq<Json>) {
    && (forall i :: 0 <= i < |e| ==>
          && w.on(PrefixItem(i), e[i]).ok
          && w.on(ItemAt(i), e[i]).ok
          && (w.tuple.Some? && w.tuple.value <= i ==> w.on(AdditionalItem, e[i]).ok)
          && (w.prefix <= i ==> w.on(EachItem, e[i]).ok))
    && (w.has(Contains) ==> d.count(w.plain, |Matching(w, e)|))
  }

  ghost function Matching(w: View, e: seq<Json>): set<nat> {
    set i: nat | i < |e| && w.on(Contains, e[i]).ok
  }

  // ----- evaluated properties and items (section 11)

  /** Does the subschema in this slot hand its annotations on? One that rejects has none. */
  ghost predicate Contributes(w: View, s: Slot, inst: Json) {
    match s
    case AllOf(_) => true
    case AnyOf(_) => true
    case OneOf(_) => true
    case If => true
    case Then => w.has(If) && w.on(If, inst).ok
    case Else => w.has(If) && !w.on(If, inst).ok
    case DependentSchema(n) => inst.Obj? && n in inst.fields
    case Dependency(n) => inst.Obj? && n in inst.fields
    case _ => false
  }

  ghost predicate PropEvaluated(d: Dialect, w: View, n: string, inst: Json) {
    || Covered(d, w, n)
    || w.has(AdditionalProperty)
    || exists s :: Contributes(w, s, inst) && n in w.on(s, inst).props
  }

  ghost predicate ItemEvaluated(d: Dialect, w: View, i: nat, inst: Json)
    requires inst.Arr? && i < |inst.elems|
  {
    || i < w.prefix
    || w.has(EachItem)
    || (w.tuple.Some? && (i < w.tuple.value || w.has(AdditionalItem)))
    || (w.has(Contains) && w.on(Contains, inst.elems[i]).ok)
    || exists s :: Contributes(w, s, inst) && i in w.on(s, inst).items
  }

  ghost predicate UnevaluatedPropertiesOk(d: Dialect, w: View, inst: Json)
    requires inst.Obj?
  {
    forall n :: n in inst.fields && !PropEvaluated(d, w, n, inst) ==> w.on(UnevaluatedProperty, inst.fields[n]).ok
  }

  ghost predicate UnevaluatedItemsOk(d: Dialect, w: View, inst: Json)
    requires inst.Arr?
  {
    forall i: nat :: i < |inst.elems| && !ItemEvaluated(d, w, i, inst) ==> w.on(UnevaluatedItem, inst.elems[i]).ok
  }

  ghost function PropsSeen(d: Dialect, w: View, inst: Json): set<string> {
    if inst.Obj?
    then set n | n in inst.fields && (w.has(UnevaluatedProperty) || PropEvaluated(d, w, n, inst))
    else {}
  }

  ghost function ItemsSeen(d: Dialect, w: View, inst: Json): set<nat> {
    if inst.Arr?
    then set i: nat | i < |inst.elems| && (w.has(UnevaluatedItem) || ItemEvaluated(d, w, i, inst))
    else {}
  }
}

/** The schema the generated serializer is specialised to, and the arenas of
    objects it saves. Classes are named by their declaration index, objects by
    their class and their index in that class's append-only arena. */
module Schemas {
  import opened Common
  import opened JsonTree
  import opened Ids

  datatype ScalarType =
    | TString
    | TInteger(bits: nat)
    | TFloat
    | TBoolean
    | TChar
    | TEnum(literals: seq<string>)
    | TDatatype
    | TVocabulary(keys: seq<string>)

  /** A stored attribute value. `NotFinite` stands for NaN and the infinities. */
  datatype Scalar =
    | Text(text: string)
    | Integer(n: int)
    | Float(r: real)
    | NotFinite
    | Boolean(b: bool)
    | Char(c: char)
    | Literal(name: string)
    | Wrapped(inner: string)
    | Entry(key: string)

  datatype FeatureKind = Attribute | Containment | CrossReference | Container

  /** The other end of a reference: its class and its feature name. */
  datatype Opposite = Opposite(cls: nat, feature: string)

  /** `initial` is the declared or implicit default of a required attribute. */
  datatype Feature = Feature(
    name: string,
    kind: FeatureKind,
    derived: bool,
    many: bool,
    required: bool,
    scalar: ScalarType,
    initial: Scalar,
    target: nat,
    opposite: Option<Opposite>)

  datatype Class = Class(name: string, single: string, features: seq<Feature>)

  datatype Schema = Schema(model: string, classes: seq<Class>)

  /** The stored value of one feature; derived features store nothing. */
  datatype Slot = Scalars(values: seq<Scalar>) | Links(keys: seq<nat>) | NotStored

  type Object = seq<Slot>

  /** One arena per class, objects in insertion order. */
  type Resource = seq<seq<Object>>

  datatype Ref = Ref(cls: nat, idx: nat)

  /** The features that hold object ids. */
  predicate IsReference(f: Feature) {
    !f.derived && !f.kind.Attribute?
  }

  /** The features the serializer writes. */
  predicate IsSaved(f: Feature) {
    !f.derived && !f.kind.Container?
  }

  ghost predicate ValidFeature(s: Schema, f: Feature) {
    && f.name != KEY_TYPE && f.name != KEY_ID && f.name != KEY_REF
    && (f.derived ==> f.kind.Attribute?)
    && (!f.kind.Attribute? ==> f.target < |s.classes|)
    && (f.kind.Container? ==> !f.many)
    && (f.kind.Container? && f.opposite.Some? ==> f.opposite.value.cls == f.target)
    && (f.scalar.TInteger? ==> 1 <= f.scalar.bits <= 64)
    && !f.initial.NotFinite?
  }

  ghost predicate ValidSchema(s: Schema) {
    && (forall c, d :: 0 <= c < d < |s.classes| ==>
          s.classes[c].name != s.classes[d].name && s.classes[c].single != s.classes[d].single)
    && (forall c, f :: 0 <= c < |s.classes| && 0 <= f < |s.classes[c].features| ==>
          ValidFeature(s, s.classes[c].features[f]))
    && (forall c, f, g :: 0 <= c < |s.classes| && 0 <= f < g < |s.classes[c].features| ==>
          s.classes[c].features[f].name != s.classes[c].features[g].name)
  }

  predicate InRange(n: int, bits: nat)
    requires bits >= 1
  {
    0 - Pow2(bits - 1) <= n < Pow2(bits - 1)
  }

  function Pow2(k: nat): (p: nat)
    ensures p >= 1
  {
    if k == 0 then 1 else 2 * Pow2(k - 1)
  }

  predicate ScalarFits(t: ScalarType, v: Scalar) {
    match t
    case TString => v.Text?
    case TInteger(bits) => v.Integer? && 1 <= bits && InRange(v.n, bits)
    case TFloat => v.Float? || v.NotFinite?
    case TBoolean => v.Boolean?
    case TChar => v.Char?
    case TEnum(literals) => v.Literal? && v.name in literals
    case TDatatype => v.Wrapped?
    case TVocabulary(keys) => v.Entry? && v.key in keys
  }

  /** The arena entry a key denotes exists. */
  predicate Valid(r: Resource, x: Ref) {
    x.cls < |r| && x.idx < |r[x.cls]|
  }

  ghost predicate SlotFits(r: Resource, f: Feature, slot: Slot) {
    if f.derived then slot.NotStored?
    else if f.kind.Attribute? then
      && slot.Scalars?
      && (forall k :: 0 <= k < |slot.values| ==> ScalarFits(f.scalar, slot.values[k]))
      && (!f.many ==> |slot.values| <= 1)
      && (!f.many && f.required ==> |slot.values| == 1)
    else
      && slot.Links?
      && (forall k :: 0 <= k < |slot.keys| ==> Valid(r, Ref(f.target, slot.keys[k])))
      && (!f.many ==> |slot.keys| <= 1)
  }

  /** The static type of the generated structs: every field holds a value of its
      feature's shape and every stored id is live. */
  ghost predicate WellTyped(s: Schema, r: Resource) {
    && |r| == |s.classes|
    && (forall c :: 0 <= c < |r| ==> |r[c]| <= U64_LIMIT)
    && (forall c, i :: 0 <= c < |r| && 0 <= i < |r[c]| ==> |r[c][i]| == |s.classes[c].features|)
    && (forall c, i, f :: 0 <= c < |r| && 0 <= i < |r[c]| && 0 <= f < |r[c][i]| ==>
          SlotFits(r, s.classes[c].features[f], r[c][i][f]))
  }

  function AllRefs(r: Resource): set<Ref> {
    set c, i | 0 <= c < |r| && 0 <= i < |r[c]| :: Ref(c, i)
  }

  function IdOf(s: Schema, x: Ref): string
    requires x.cls < |s.classes|
  {
    InstanceId(s.classes[x.cls].single, x.idx)
  }

  lemma IdOfInjective(s: Schema, r: Resource, x: Ref, y: Ref)
    requires ValidSchema(s) && WellTyped(s, r) && Valid(r, x) && Valid(r, y)
    requires IdOf(s, x) == IdOf(s, y)
    ensures x == y
  {
    InstanceIdInjective(s.classes[x.cls].single, x.idx, s.classes[y.cls].single, y.idx);
  }

  /** What a generated struct starts with. */
  function DefaultSlot(f: Feature): Slot {
    if f.derived then NotStored
    else if f.kind.Attribute? then
      Scalars(if !f.many && f.required then [f.initial] else [])
    else Links([])
  }

  function DefaultObject(c: Class): Object {
    seq(|c.features|, f requires 0 <= f < |c.features| => DefaultSlot(c.features[f]))
  }

  /** The container feature of class `t` that points back at owner class `owner`
      for a containment whose declared opposite is `opposite`: the first container
      whose own opposite names the owner and, if the containment declares an
      opposite, whose name is the declared one. */
  function ContainerFieldFrom(s: Schema, t: nat, owner: nat, opposite: Option<Opposite>, f: nat): (r: Option<nat>)
    requires t < |s.classes| && f <= |s.classes[t].features|
    ensures r.Some? ==> f <= r.value < |s.classes[t].features|
    ensures r.Some? ==>
      var g := s.classes[t].features[r.value];
      g.kind.Container? && g.opposite.Some? && g.opposite.value.cls == owner
    decreases |s.classes[t].features| - f
  {
    if f == |s.classes[t].features| then None
    else
      var g := s.classes[t].features[f];
      if g.kind.Container? && g.opposite.Some? && g.opposite.value.cls == owner
         && (opposite.None? || opposite.value.feature == g.name)
      then Some(f)
      else ContainerFieldFrom(s, t, owner, opposite, f + 1)
  }

  function ContainerField(s: Schema, owner: nat, f: Feature): Option<nat>
    requires f.target < |s.classes|
  {
    ContainerFieldFrom(s, f.target, owner, f.opposite, 0)
  }
}

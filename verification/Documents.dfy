/** Instance documents on their own terms: which objects a document holds, when
    it is one the loader of a schema must accept, and when a resource is what it
    says. Nothing here mentions how documents are loaded. */
module Documents {
  import opened Common
  import opened JsonTree
  import opened Ids
  import opened Schemas

  // ----- members and ids -----

  ghost predicate Has(j: Json, key: string, v: Json) {
    j.Obj? && key in j.members && j.members[key] == v
  }

  ghost predicate Lacks(j: Json, key: string) {
    j.Obj? ==> key !in j.members
  }

  ghost predicate OfClass(s: Schema, j: Json, c: nat) {
    c < |s.classes| && Has(j, KEY_TYPE, Str(s.classes[c].name))
  }

  ghost predicate Classed(s: Schema, j: Json) {
    exists c: nat :: OfClass(s, j, c)
  }

  ghost predicate HasId(j: Json, id: string) {
    Has(j, KEY_ID, Str(id))
  }

  /** An entry of a reference member names an id: by `$ref` if it has one, else
      by `$id`. */
  ghost predicate Names(e: Json, id: string) {
    Has(e, KEY_REF, Str(id)) || (Lacks(e, KEY_REF) && HasId(e, id))
  }

  // ----- the objects of a document -----

  /** One step into an object: a containment feature of its class and, if the
      feature is many-valued, the position in its array. */
  datatype Step = Step(feature: nat, item: nat)

  /** Where an object stands: its top-level object, then step by step inwards. */
  datatype Place = Place(root: nat, path: seq<Step>)

  ghost predicate StepBefore(a: Step, b: Step) {
    a.feature < b.feature || (a.feature == b.feature && a.item < b.item)
  }

  /** Document order: an object before what it embeds, then step by step. */
  ghost predicate PathBefore(a: seq<Step>, b: seq<Step>) {
    b != [] && (a == [] || StepBefore(a[0], b[0]) || (a[0] == b[0] && PathBefore(a[1..], b[1..])))
  }

  ghost predicate PlaceBefore(a: Place, b: Place) {
    a.root < b.root || (a.root == b.root && PathBefore(a.path, b.path))
  }

  /** The object one step inside `j`. Entries without a `$type` are links. */
  ghost function Inside(s: Schema, c: nat, j: Json, step: Step): (o: Option<Json>)
    requires c < |s.classes|
    ensures o.Some? ==> step.feature < |s.classes[c].features| && s.classes[c].features[step.feature].kind.Containment?
  {
    if step.feature >= |s.classes[c].features| then None
    else
      var feature := s.classes[c].features[step.feature];
      if !feature.kind.Containment? || Lacks(j, feature.name) || !j.Obj? then None
      else
        var v := j.members[feature.name];
        if feature.many then
          if v.Arr? && step.item < |v.items| && !Lacks(v.items[step.item], KEY_TYPE) then Some(v.items[step.item]) else None
        else if step.item == 0 && !Lacks(v, KEY_TYPE) then Some(v) else None
  }

  /** The object a path leads to from `j`, an object declared as class `c`. Each
      further step goes by the class the containment declares. */
  ghost function Along(s: Schema, c: nat, j: Json, path: seq<Step>): Option<Json>
    requires ValidSchema(s) && c < |s.classes|
    decreases |path|
  {
    if path == [] then Some(j)
    else
      var o := Inside(s, c, j, path[0]);
      if o.None? then None
      else
        assert ValidFeature(s, s.classes[c].features[path[0].feature]);
        Along(s, s.classes[c].features[path[0].feature].target, o.value, path[1..])
  }

  ghost predicate StandsAt(s: Schema, objects: seq<Json>, p: Place, o: Json)
    requires ValidSchema(s)
  {
    p.root < |objects| && exists c: nat :: OfClass(s, objects[p.root], c) && Along(s, c, objects[p.root], p.path) == Some(o)
  }

  ghost predicate Occupied(s: Schema, objects: seq<Json>, p: Place)
    requires ValidSchema(s)
  {
    exists o :: StandsAt(s, objects, p, o)
  }

  /** The object at place `p` is of class `c` and has the id. */
  ghost predicate Identified(s: Schema, objects: seq<Json>, p: Place, c: nat, id: string)
    requires ValidSchema(s)
  {
    exists o :: StandsAt(s, objects, p, o) && OfClass(s, o, c) && HasId(o, id)
  }

  // ----- when a document is acceptable -----

  /** The wire form of every scalar type. */
  ghost predicate Reads(t: ScalarType, j: Json, v: Scalar) {
    match v
    case Text(text) => t.TString? && j == Str(text)
    case Integer(n) => t.TInteger? && j == Num(n) && t.bits >= 1 && InRange(n, t.bits)
    case Float(r) => t.TFloat? && (j == Real(r) || (j.Num? && j.n as real == r))
    case NotFinite => false
    case Boolean(b) => t.TBoolean? && j == Bool(b)
    case Char(c) => t.TChar? && j == Str([c])
    case Literal(name) => t.TEnum? && j == Str(name) && name in t.literals
    case Wrapped(inner) => t.TDatatype? && j == Str(inner)
    case Entry(key) => t.TVocabulary? && j == Str(key) && key in t.keys
  }

  ghost predicate Readable(t: ScalarType, j: Json) {
    exists v :: Reads(t, j, v)
  }

  /** Some object of class `t` has the id the entry names. */
  ghost predicate Resolves(s: Schema, objects: seq<Json>, t: nat, e: Json)
    requires ValidSchema(s)
  {
    exists p, id :: Names(e, id) && Identified(s, objects, p, t, id)
  }

  ghost predicate MemberFits(s: Schema, objects: seq<Json>, feature: Feature, v: Json)
    requires ValidSchema(s)
  {
    if feature.kind.Attribute? then
      if feature.many then v.Arr? && forall e :: e in v.items ==> Readable(feature.scalar, e)
      else v == Null || Readable(feature.scalar, v)
    else
      if feature.many then v.Arr? && forall e :: e in v.items ==> Resolves(s, objects, feature.target, e)
      else Resolves(s, objects, feature.target, v)
  }

  /** The member names a feature the serializer writes, and fits it. */
  ghost predicate KeyFits(s: Schema, objects: seq<Json>, c: nat, key: string, v: Json)
    requires ValidSchema(s) && c < |s.classes|
  {
    key == KEY_TYPE || key == KEY_ID
    || exists f :: 0 <= f < |s.classes[c].features| && s.classes[c].features[f].name == key
                   && IsSaved(s.classes[c].features[f]) && MemberFits(s, objects, s.classes[c].features[f], v)
  }

  /** The object has a known class and a string id, and every member is in order. */
  ghost predicate ObjectFits(s: Schema, objects: seq<Json>, o: Json)
    requires ValidSchema(s)
  {
    exists c: nat, id :: OfClass(s, o, c) && HasId(o, id) && forall key :: key in o.members ==> KeyFits(s, objects, c, key, o.members[key])
  }

  /** No two objects of one class share an id. */
  ghost predicate IdsUnique(s: Schema, objects: seq<Json>)
    requires ValidSchema(s)
  {
    forall p, q, c: nat, id :: Identified(s, objects, p, c, id) && Identified(s, objects, q, c, id) ==> p == q
  }

  ghost predicate ObjectsFit(s: Schema, objects: seq<Json>)
    requires ValidSchema(s)
  {
    && (forall k :: 0 <= k < |objects| ==> Classed(s, objects[k]))
    && (forall p, o :: StandsAt(s, objects, p, o) ==> ObjectFits(s, objects, o))
    && IdsUnique(s, objects)
  }

  /** The header names the format, its version and the model. */
  ghost predicate HeaderFits(s: Schema, j: Json) {
    && Has(j, KEY_TYPE, Str("rex.instance"))
    && Has(j, "formatVersion", Num(1))
    && Has(j, "model", Str(s.model))
    && !Lacks(j, "objects") && j.members["objects"].Arr?
  }

  /** The documents a loader of the schema must accept. */
  ghost predicate Acceptable(s: Schema, j: Json)
    requires ValidSchema(s)
  {
    HeaderFits(s, j) && ObjectsFit(s, j.members["objects"].items)
  }

  // ----- what a document says -----

  /** The entry names the object `x` was read from. */
  ghost predicate Denotes(s: Schema, objects: seq<Json>, at: map<Ref, Place>, e: Json, x: Ref)
    requires ValidSchema(s)
  {
    x in at && exists id :: Names(e, id) && Identified(s, objects, at[x], x.cls, id)
  }

  /** The entries a reference member of `o` lists. */
  ghost function Entries(feature: Feature, o: Json): seq<Json> {
    if Lacks(o, feature.name) || !o.Obj? then []
    else if !feature.many then [o.members[feature.name]]
    else if o.members[feature.name].Arr? then o.members[feature.name].items
    else []
  }

  /** The default when the member is absent or, for a single value, null; else
      the values written. */
  ghost predicate AttributeSays(feature: Feature, o: Json, slot: Slot) {
    && slot.Scalars?
    && if Lacks(o, feature.name) || (!feature.many && Has(o, feature.name, Null)) then
         slot.values == if feature.required && !feature.many then [feature.initial] else []
       else
         && |slot.values| == |Entries(feature, o)|
         && forall k :: 0 <= k < |slot.values| ==> Reads(feature.scalar, Entries(feature, o)[k], slot.values[k])
  }

  /** The objects the entries name, each at its first appearance. */
  ghost predicate ReferenceSays(s: Schema, objects: seq<Json>, at: map<Ref, Place>, feature: Feature, o: Json, slot: Slot)
    requires ValidSchema(s)
  {
    slot.Links? && exists targets: seq<nat> :: AllDenote(s, objects, at, feature.target, Entries(feature, o), targets)
                                               && FirstAppearances(targets, slot.keys)
  }

  ghost predicate AllDenote(s: Schema, objects: seq<Json>, at: map<Ref, Place>, t: nat, entries: seq<Json>, targets: seq<nat>)
    requires ValidSchema(s)
  {
    |targets| == |entries| && forall k :: 0 <= k < |targets| ==> Denotes(s, objects, at, entries[k], Ref(t, targets[k]))
  }

  /** The first container feature of the target class whose own opposite names
      the owner and, if the containment declares an opposite, is the declared one. */
  ghost predicate PointsBack(s: Schema, owner: nat, containment: Feature, f: nat)
    requires containment.target < |s.classes|
  {
    var features := s.classes[containment.target].features;
    && f < |features| && IsBackPointer(features[f], owner, containment)
    && forall g :: 0 <= g < f ==> !IsBackPointer(features[g], owner, containment)
  }

  ghost predicate IsBackPointer(g: Feature, owner: nat, containment: Feature) {
    && g.kind.Container? && g.opposite.Some? && g.opposite.value.cls == owner
    && (containment.opposite.Some? ==> containment.opposite.value.feature == g.name)
  }

  /** A containment of `y` with back-pointer `f` has an entry that names `x`. */
  ghost predicate Contains(s: Schema, objects: seq<Json>, at: map<Ref, Place>, y: Ref, x: Ref, f: nat)
    requires ValidSchema(s)
  {
    && y in at && y.cls < |s.classes|
    && exists o, g :: StandsAt(s, objects, at[y], o) && 0 <= g < |s.classes[y.cls].features| && ContainsThrough(s, objects, at, y.cls, o, g, x, f)
  }

  ghost predicate ContainsThrough(s: Schema, objects: seq<Json>, at: map<Ref, Place>, c: nat, o: Json, g: nat, x: Ref, f: nat)
    requires ValidSchema(s) && c < |s.classes| && g < |s.classes[c].features|
  {
    var containment := s.classes[c].features[g];
    assert ValidFeature(s, containment);
    && containment.kind.Containment? && containment.target == x.cls && PointsBack(s, c, containment, f)
    && exists e :: e in Entries(containment, o) && Denotes(s, objects, at, e, x)
  }

  /** The container field points at the last object that contains this one. */
  ghost predicate ContainerSays(s: Schema, objects: seq<Json>, at: map<Ref, Place>, x: Ref, f: nat, t: nat, slot: Slot)
    requires ValidSchema(s)
  {
    && slot.Links? && |slot.keys| <= 1
    && (forall n: nat :: Contains(s, objects, at, Ref(t, n), x, f) ==> slot.keys != [] && n <= slot.keys[0])
    && (slot.keys != [] ==> Contains(s, objects, at, Ref(t, slot.keys[0]), x, f))
  }

  ghost predicate SlotSays(s: Schema, objects: seq<Json>, at: map<Ref, Place>, x: Ref, f: nat, o: Json, slot: Slot)
    requires ValidSchema(s) && x.cls < |s.classes| && f < |s.classes[x.cls].features|
  {
    var feature := s.classes[x.cls].features[f];
    if feature.derived then slot == NotStored
    else if feature.kind.Attribute? then AttributeSays(feature, o, slot)
    else if feature.kind.Container? then ContainerSays(s, objects, at, x, f, feature.target, slot)
    else ReferenceSays(s, objects, at, feature, o, slot)
  }

  ghost predicate ObjectSays(s: Schema, objects: seq<Json>, at: map<Ref, Place>, x: Ref, o: Json, object': Object)
    requires ValidSchema(s)
  {
    && OfClass(s, o, x.cls)
    && |object'| == |s.classes[x.cls].features|
    && forall f :: 0 <= f < |object'| ==> SlotSays(s, objects, at, x, f, o, object'[f])
  }

  /** Every object stands at a place of its own and every place is taken. */
  ghost predicate Arranged(s: Schema, objects: seq<Json>, at: map<Ref, Place>, r: Resource)
    requires ValidSchema(s)
  {
    && |r| == |s.classes|
    && (forall x :: x in at <==> Valid(r, x))
    && (forall x, y :: x in at && y in at && at[x] == at[y] ==> x == y)
    && (forall p :: p in at.Values <==> Occupied(s, objects, p))
  }

  /** An arena lists its objects by sort key, objects with equal keys in document
      order. */
  ghost predicate InIdOrder(s: Schema, objects: seq<Json>, at: map<Ref, Place>)
    requires ValidSchema(s)
  {
    forall x, y, id, id' :: x in at && y in at && x.cls == y.cls && x.idx < y.idx
                            && Identified(s, objects, at[x], x.cls, id) && Identified(s, objects, at[y], y.cls, id') ==>
      KeyLess(SortKey(id), SortKey(id')) || (SortKey(id) == SortKey(id') && PlaceBefore(at[x], at[y]))
  }

  /** The resource is what the document says, `at` telling where each of its
      objects stands in the document. */
  ghost predicate Says(s: Schema, j: Json, at: map<Ref, Place>, r: Resource)
    requires ValidSchema(s) && HeaderFits(s, j)
  {
    var objects := j.members["objects"].items;
    && Arranged(s, objects, at, r) && InIdOrder(s, objects, at)
    && (forall x, o :: x in at && StandsAt(s, objects, at[x], o) ==> ObjectSays(s, objects, at, x, o, r[x.cls][x.idx]))
  }
}

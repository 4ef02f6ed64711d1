/** `to_instance_json`: depth-first emission with a visited set. */
module Saving {
  import opened Common
  import opened JsonTree
  import opened Ids
  import opened Schemas

  const INSTANCE_TYPE := "rex.instance"
  const FORMAT_VERSION := 1

  function SaveScalar(v: Scalar): (j: Json)
    ensures !j.Obj? && !j.Arr?
  {
    match v
    case Text(text) => Str(text)
    case Integer(n) => Num(n)
    case Float(r) => Real(r)
    case NotFinite => Null
    case Boolean(b) => Bool(b)
    case Char(c) => Str([c])
    case Literal(name) => Str(name)
    case Wrapped(inner) => Str(inner)
    case Entry(key) => Str(key)
  }

  function SaveScalars(vs: seq<Scalar>): (items: seq<Json>)
    ensures |items| == |vs|
    ensures forall k :: 0 <= k < |vs| ==> items[k] == SaveScalar(vs[k])
  {
    seq(|vs|, k requires 0 <= k < |vs| => SaveScalar(vs[k]))
  }

  function RefObject(id: string): Json {
    Obj(map[KEY_REF := Str(id)])
  }

  function RefObjects(s: Schema, t: nat, keys: seq<nat>): (items: seq<Json>)
    requires t < |s.classes|
    ensures |items| == |keys|
    ensures forall k :: 0 <= k < |keys| ==> items[k] == RefObject(IdOf(s, Ref(t, keys[k])))
  {
    seq(|keys|, k requires 0 <= k < |keys| => RefObject(IdOf(s, Ref(t, keys[k]))))
  }

  /** Many-valued features are arrays; an absent single value writes no member. */
  function Put(members: map<string, Json>, f: Feature, values: seq<Json>): map<string, Json> {
    if f.many then members[f.name := Arr(values)]
    else if values == [] then members
    else members[f.name := values[0]]
  }

  /** One object, written inline: `$type`, `$id`, then its features. */
  function SaveObject(s: Schema, r: Resource, x: Ref, visited: set<Ref>): (out: (Json, set<Ref>))
    requires ValidSchema(s) && WellTyped(s, r) && Valid(r, x) && x !in visited
    ensures visited + {x} <= out.1
    decreases AllRefs(r) - visited, 0, 0
  {
    assert x in AllRefs(r);
    var header := map[KEY_TYPE := Str(s.classes[x.cls].name), KEY_ID := Str(IdOf(s, x))];
    var (members, v) := SaveFeatures(s, r, x, 0, header, visited + {x});
    (Obj(members), v)
  }

  /** The features of `x` from position `f` on, added to `members`. */
  function SaveFeatures(s: Schema, r: Resource, x: Ref, f: nat, members: map<string, Json>, visited: set<Ref>)
    : (out: (map<string, Json>, set<Ref>))
    requires ValidSchema(s) && WellTyped(s, r) && Valid(r, x) && f <= |s.classes[x.cls].features|
    ensures visited <= out.1
    decreases AllRefs(r) - visited, 1, |s.classes[x.cls].features| - f
  {
    if f == |s.classes[x.cls].features| then (members, visited)
    else
      var feature := s.classes[x.cls].features[f];
      var slot := r[x.cls][x.idx][f];
      assert SlotFits(r, feature, slot);
      if feature.derived then SaveFeatures(s, r, x, f + 1, members, visited)
      else
        match feature.kind
        case Attribute =>
          SaveFeatures(s, r, x, f + 1, Put(members, feature, SaveScalars(slot.values)), visited)
        case CrossReference =>
          SaveFeatures(s, r, x, f + 1, Put(members, feature, RefObjects(s, feature.target, slot.keys)), visited)
        case Containment =>
          var (items, v) := SaveChildren(s, r, feature.target, slot.keys, visited);
          SaveFeatures(s, r, x, f + 1, Put(members, feature, items), v)
        case Container =>
          SaveFeatures(s, r, x, f + 1, members, visited)
  }

  /** Contained objects: inline the first time, a link afterwards. */
  function SaveChildren(s: Schema, r: Resource, t: nat, keys: seq<nat>, visited: set<Ref>)
    : (out: (seq<Json>, set<Ref>))
    requires ValidSchema(s) && WellTyped(s, r) && t < |s.classes|
    requires forall k :: 0 <= k < |keys| ==> Valid(r, Ref(t, keys[k]))
    ensures |out.0| == |keys|
    ensures visited <= out.1
    decreases AllRefs(r) - visited, 0, |keys|
  {
    if keys == [] then ([], visited)
    else
      var child := Ref(t, keys[0]);
      var (item, v) :=
        if child in visited then (RefObject(IdOf(s, child)), visited)
        else SaveObject(s, r, child, visited);
      var (items, v') := SaveChildren(s, r, t, keys[1..], v);
      ([item] + items, v')
  }

  /** The top level: every object of class `c` from index `i` on that is not
      inline already, then the classes declared after `c`. */
  function SaveRoots(s: Schema, r: Resource, c: nat, i: nat, visited: set<Ref>): (out: (seq<Json>, set<Ref>))
    requires ValidSchema(s) && WellTyped(s, r) && c <= |r|
    requires c < |r| ==> i <= |r[c]|
    decreases |r| - c, if c < |r| then |r[c]| - i else 0
  {
    if c == |r| then ([], visited)
    else if i == |r[c]| then SaveRoots(s, r, c + 1, 0, visited)
    else if Ref(c, i) in visited then SaveRoots(s, r, c, i + 1, visited)
    else
      var (item, v) := SaveObject(s, r, Ref(c, i), visited);
      var (items, v') := SaveRoots(s, r, c, i + 1, v);
      ([item] + items, v')
  }

  function SaveDocument(s: Schema, r: Resource): Json
    requires ValidSchema(s) && WellTyped(s, r)
  {
    Obj(map[
      KEY_TYPE := Str(INSTANCE_TYPE),
      "formatVersion" := Num(FORMAT_VERSION),
      "model" := Str(s.model),
      "objects" := Arr(SaveRoots(s, r, 0, 0, {}).0)])
  }
}

/** `from_instance_json`: flatten, sort by canonical id, register, fill. */
module Loading {
  import opened Common
  import opened JsonTree
  import opened Ids
  import opened Schemas
  import Saving

  datatype LoadError =
    | NotAnObject
    | MissingType
    | UnknownType(name: string)
    | WrongType
    | MissingId
    | DuplicateId(id: string)
    | NeverRegistered
    | BadHeader
    | NotAnArray
    | BadScalar
    | NotAReference
    | Unresolved(id: string)
    | ContainerSerialized
    | UnknownFeature(key: string)

  /** Registered objects by canonical id, one table per class. */
  type Registry = seq<map<string, nat>>

  // ----- scalars -----

  function LoadScalar(t: ScalarType, j: Json): Option<Scalar> {
    match t
    case TString => if j.Str? then Some(Text(j.s)) else None
    case TInteger(bits) => if j.Num? && 1 <= bits && InRange(j.n, bits) then Some(Integer(j.n)) else None
    case TFloat => if j.Real? then Some(Float(j.r)) else if j.Num? then Some(Float(j.n as real)) else None
    case TBoolean => if j.Bool? then Some(Boolean(j.b)) else None
    case TChar => if j.Str? && |j.s| == 1 then Some(Char(j.s[0])) else None
    case TEnum(literals) => if j.Str? && j.s in literals then Some(Literal(j.s)) else None
    case TDatatype => if j.Str? then Some(Wrapped(j.s)) else None
    case TVocabulary(keys) => if j.Str? && j.s in keys then Some(Entry(j.s)) else None
  }

  function LoadScalars(t: ScalarType, items: seq<Json>): Result<seq<Scalar>, LoadError> {
    if items == [] then Ok([])
    else
      match LoadScalar(t, items[0])
      case None => Err(BadScalar)
      case Some(v) =>
        match LoadScalars(t, items[1..])
        case Err(e) => Err(e)
        case Ok(vs) => Ok([v] + vs)
  }

  // ----- flattening -----

  /** The object and every object embedded in it through containment features,
      depth first. Entries without a `$type` are links and are skipped. */
  function CollectObject(s: Schema, c: nat, j: Json): seq<Json>
    requires ValidSchema(s) && c < |s.classes|
    decreases j
  {
    [j] + CollectFeatures(s, c, 0, j)
  }

  function CollectFeatures(s: Schema, c: nat, f: nat, j: Json): seq<Json>
    requires ValidSchema(s) && c < |s.classes| && f <= |s.classes[c].features|
    decreases j, |s.classes[c].features| - f
  {
    if f == |s.classes[c].features| then []
    else
      var feature := s.classes[c].features[f];
      assert ValidFeature(s, feature);
      CollectMember(s, feature, j) + CollectFeatures(s, c, f + 1, j)
  }

  function CollectMember(s: Schema, feature: Feature, j: Json): seq<Json>
    requires ValidSchema(s) && ValidFeature(s, feature)
    decreases j, 0
  {
    if !feature.kind.Containment? then []
    else
      match Get(j, feature.name)
      case None => []
      case Some(v) =>
        if feature.many then
          if v.Arr? then CollectItems(s, feature.target, v.items) else []
        else if Get(v, KEY_TYPE).Some? then CollectObject(s, feature.target, v)
        else []
  }

  function CollectItems(s: Schema, t: nat, items: seq<Json>): seq<Json>
    requires ValidSchema(s) && t < |s.classes|
    decreases items
  {
    if items == [] then []
    else
      (if Get(items[0], KEY_TYPE).Some? then CollectObject(s, t, items[0]) else [])
      + CollectItems(s, t, items[1..])
  }

  /** The class a `$type` names. */
  function ClassNamed(s: Schema, name: string, c: nat): (r: Option<nat>)
    requires c <= |s.classes|
    ensures r.Some? ==> c <= r.value < |s.classes| && s.classes[r.value].name == name
    ensures r.None? ==> forall d :: c <= d < |s.classes| ==> s.classes[d].name != name
    decreases |s.classes| - c
  {
    if c == |s.classes| then None
    else if s.classes[c].name == name then Some(c)
    else ClassNamed(s, name, c + 1)
  }

  function ClassOf(s: Schema, j: Json): (r: Result<nat, LoadError>)
    ensures r.Ok? ==> r.value < |s.classes|
  {
    match GetStr(j, KEY_TYPE)
    case None => Err(MissingType)
    case Some(name) =>
      match ClassNamed(s, name, 0)
      case None => Err(UnknownType(name))
      case Some(c) => Ok(c)
  }

  function CollectRoots(s: Schema, objects: seq<Json>): Result<seq<Json>, LoadError>
    requires ValidSchema(s)
  {
    if objects == [] then Ok([])
    else
      match ClassOf(s, objects[0])
      case Err(e) => Err(e)
      case Ok(c) =>
        match CollectRoots(s, objects[1..])
        case Err(e) => Err(e)
        case Ok(rest) => Ok(CollectObject(s, c, objects[0]) + rest)
  }

  // ----- sorting -----

  function DocumentKey(j: Json): Option<(string, nat)> {
    match GetStr(j, KEY_ID)
    case None => None
    case Some(id) => SortKey(id)
  }

  /** `x` goes after every element that is not greater: the sort is stable. */
  function Insert(x: Json, sorted: seq<Json>): seq<Json> {
    if sorted == [] then [x]
    else
      var last := sorted[|sorted| - 1];
      if KeyLess(DocumentKey(x), DocumentKey(last)) then Insert(x, sorted[..|sorted| - 1]) + [last]
      else sorted + [x]
  }

  function SortByKey(objects: seq<Json>): seq<Json> {
    if objects == [] then []
    else Insert(objects[|objects| - 1], SortByKey(objects[..|objects| - 1]))
  }

  // ----- registration -----

  function EmptyRegistry(s: Schema): Registry {
    seq(|s.classes|, c => map[])
  }

  function EmptyResource(s: Schema): Resource {
    seq(|s.classes|, c => [])
  }

  ghost predicate Tables(s: Schema, reg: Registry, st: Resource) {
    |reg| == |s.classes| && |st| == |s.classes|
  }

  function Record(reg: Registry, c: nat, id: string, key: nat): (reg': Registry)
    requires c < |reg|
    ensures |reg'| == |reg|
  {
    var table: map<string, nat> := reg[c][id := key];
    reg[c := table]
  }

  function RegisterObject(s: Schema, j: Json, reg: Registry, st: Resource)
    : (out: Result<(Registry, Resource), LoadError>)
    requires Tables(s, reg, st)
    ensures out.Ok? ==> Tables(s, out.value.0, out.value.1)
  {
    match ClassOf(s, j)
    case Err(e) => Err(e)
    case Ok(c) =>
      match GetStr(j, KEY_ID)
      case None => Err(MissingId)
      case Some(id) =>
        if id in reg[c] then Err(DuplicateId(id))
        else
          Ok((Record(reg, c, id, |st[c]|), st[c := st[c] + [DefaultObject(s.classes[c])]]))
  }

  function RegisterAll(s: Schema, objects: seq<Json>, reg: Registry, st: Resource)
    : (out: Result<(Registry, Resource), LoadError>)
    requires Tables(s, reg, st)
    ensures out.Ok? ==> Tables(s, out.value.0, out.value.1)
  {
    if objects == [] then Ok((reg, st))
    else
      match RegisterObject(s, objects[0], reg, st)
      case Err(e) => Err(e)
      case Ok((reg', st')) => RegisterAll(s, objects[1..], reg', st')
  }

  /** The registry numbers the arenas: ids and arena indices match one to one. */
  ghost predicate Numbers(reg: Registry, st: Resource) {
    |reg| == |st| && forall c :: 0 <= c < |reg| ==> Numbering(reg[c], |st[c]|)
  }

  ghost predicate Numbering(table: map<string, nat>, n: nat) {
    && |table| == n
    && (forall id :: id in table ==> table[id] < n)
    && (forall id, id' :: id in table && id' in table && table[id] == table[id'] ==> id == id')
  }

  lemma NumberingExtends(table: map<string, nat>, n: nat, id: string)
    requires Numbering(table, n) && id !in table
    ensures Numbering(table[id := n], n + 1)
  {
    assert table[id := n].Keys == table.Keys + {id};
  }

  /** Registering objects keeps the numbering: each takes the next index of its arena. */
  lemma {:induction false} RegisterAllNumbers(s: Schema, objects: seq<Json>, reg: Registry, st: Resource)
    requires Tables(s, reg, st) && Numbers(reg, st) && RegisterAll(s, objects, reg, st).Ok?
    ensures var (reg', st') := RegisterAll(s, objects, reg, st).value;
            Numbers(reg', st') && |objects| + Population(st) == Population(st')
  {
    hide Numbering, DefaultObject, ClassOf, GetStr;
    if objects != [] {
      RegisterObjectNumbers(s, objects[0], reg, st);
      var (reg', st') := RegisterObject(s, objects[0], reg, st).value;
      RegisterAllNumbers(s, objects[1..], reg', st');
    }
  }

  lemma RegisterObjectNumbers(s: Schema, j: Json, reg: Registry, st: Resource)
    requires Tables(s, reg, st) && Numbers(reg, st) && RegisterObject(s, j, reg, st).Ok?
    ensures var (reg', st') := RegisterObject(s, j, reg, st).value; Numbers(reg', st') && Population(st') == Population(st) + 1
  {
    hide Numbering, DefaultObject, GetStr;
    var c := ClassOf(s, j).value;
    NumberingExtends(reg[c], |st[c]|, GetStr(j, KEY_ID).value);
    PopulationGrows(st, c, DefaultObject(s.classes[c]));
  }

  /** The number of objects in all arenas. */
  function Population(st: Resource): nat {
    if st == [] then 0 else |st[0]| + Population(st[1..])
  }

  lemma {:induction false} PopulationGrows(st: Resource, c: nat, o: Object)
    requires c < |st|
    ensures Population(st[c := st[c] + [o]]) == Population(st) + 1
  {
    var st' := st[c := st[c] + [o]];
    if c > 0 {
      PopulationGrows(st[1..], c - 1, o);
      assert st'[1..] == st[1..][c - 1 := st[1..][c - 1] + [o]];
    } else {
      assert st'[1..] == st[1..];
    }
  }

  /** The first pass of loading: as many objects as the document holds, each under
      exactly one id of its class. */
  lemma RegistrationNumbers(s: Schema, objects: seq<Json>)
    requires RegisterAll(s, objects, EmptyRegistry(s), EmptyResource(s)).Ok?
    ensures var (reg, st) := RegisterAll(s, objects, EmptyRegistry(s), EmptyResource(s)).value;
            Numbers(reg, st) && Population(st) == |objects|
  {
    NoneYet(EmptyResource(s));
    RegisterAllNumbers(s, objects, EmptyRegistry(s), EmptyResource(s));
  }

  lemma {:induction false} NoneYet(st: Resource)
    requires forall c :: 0 <= c < |st| ==> st[c] == []
    ensures Population(st) == 0
  {
    if st != [] {
      NoneYet(st[1..]);
    }
  }

  // ----- filling -----

  /** The arena slot an update names exists. */
  predicate InArena(st: Resource, c: nat, i: nat, f: nat) {
    c < |st| && i < |st[c]| && f < |st[c][i]|
  }

  /** `get_mut(key)` followed by an assignment: an update of one slot, nothing if
      the object is not there. */
  function SetSlot(st: Resource, c: nat, i: nat, f: nat, slot: Slot): Resource {
    if InArena(st, c, i, f) then st[c := st[c][i := st[c][i][f := slot]]] else st
  }

  function LinksAt(st: Resource, c: nat, i: nat, f: nat): seq<nat> {
    if InArena(st, c, i, f) && st[c][i][f].Links? then st[c][i][f].keys else []
  }

  /** The key a link or an embedded object denotes: `$ref` first, else `$id`. */
  function IdTarget(reg: Registry, t: nat, j: Json): Result<nat, LoadError>
    requires t < |reg|
  {
    var id := if Get(j, KEY_REF).Some? then Get(j, KEY_REF) else Get(j, KEY_ID);
    if id.None? || !id.value.Str? then Err(NotAReference)
    else if id.value.s in reg[t] then Ok(reg[t][id.value.s])
    else Err(Unresolved(id.value.s))
  }

  /** Points the child's container field, if it has one, back at the owner. */
  function SetContainer(st: Resource, t: nat, child: nat, back: Option<nat>, owner: nat): Resource {
    match back
    case None => st
    case Some(field) => SetSlot(st, t, child, field, Links([owner]))
  }

  /** The entries of a many-valued reference: pushed unless already there. */
  function FillItems(reg: Registry, st: Resource, c: nat, i: nat, f: nat, t: nat, back: Option<nat>, items: seq<Json>)
    : Result<Resource, LoadError>
    requires t < |reg|
    decreases |items|
  {
    if items == [] then Ok(st)
    else
      match IdTarget(reg, t, items[0])
      case Err(e) => Err(e)
      case Ok(child) =>
        var old' := LinksAt(st, c, i, f);
        var pushed := if child in old' then st else SetSlot(st, c, i, f, Links(old' + [child]));
        FillItems(reg, SetContainer(pushed, t, child, back, i), c, i, f, t, back, items[1..])
  }

  function FillReference(s: Schema, reg: Registry, st: Resource, c: nat, i: nat, f: nat, j: Json)
    : Result<Resource, LoadError>
    requires ValidSchema(s) && |reg| == |s.classes| && c < |s.classes| && f < |s.classes[c].features|
    requires IsReference(s.classes[c].features[f])
  {
    var feature := s.classes[c].features[f];
    assert ValidFeature(s, feature);
    var back := if feature.kind.Containment? then ContainerField(s, c, feature) else None;
    if feature.many then
      if j.Arr? then FillItems(reg, st, c, i, f, feature.target, back, j.items) else Err(NotAnArray)
    else
      match IdTarget(reg, feature.target, j)
      case Err(e) => Err(e)
      case Ok(child) =>
        Ok(SetContainer(SetSlot(st, c, i, f, Links([child])), feature.target, child, back, i))
  }

  function FillAttribute(s: Schema, st: Resource, c: nat, i: nat, f: nat, j: Json): Result<Resource, LoadError>
    requires c < |s.classes| && f < |s.classes[c].features|
  {
    var feature := s.classes[c].features[f];
    if feature.many then
      if !j.Arr? then Err(NotAnArray)
      else
        match LoadScalars(feature.scalar, j.items)
        case Err(e) => Err(e)
        case Ok(vs) => Ok(SetSlot(st, c, i, f, Scalars(vs)))
    else if j.Null? then Ok(st)
    else
      match LoadScalar(feature.scalar, j)
      case None => Err(BadScalar)
      case Some(v) => Ok(SetSlot(st, c, i, f, Scalars([v])))
  }

  /** The stored feature a JSON key names. */
  function FeatureNamed(cls: Class, key: string, f: nat): (r: Option<nat>)
    requires f <= |cls.features|
    ensures r.Some? ==> f <= r.value < |cls.features|
                        && !cls.features[r.value].derived && cls.features[r.value].name == key
    ensures r.None? ==> forall g :: f <= g < |cls.features| && !cls.features[g].derived ==> cls.features[g].name != key
    decreases |cls.features| - f
  {
    if f == |cls.features| then None
    else if !cls.features[f].derived && cls.features[f].name == key then Some(f)
    else FeatureNamed(cls, key, f + 1)
  }

  function FillMember(s: Schema, reg: Registry, st: Resource, c: nat, i: nat, key: string, j: Json)
    : Result<Resource, LoadError>
    requires ValidSchema(s) && |reg| == |s.classes| && c < |s.classes|
  {
    if key == KEY_TYPE || key == KEY_ID then Ok(st)
    else
      match FeatureNamed(s.classes[c], key, 0)
      case None => Err(UnknownFeature(key))
      case Some(f) =>
        match s.classes[c].features[f].kind
        case Attribute => FillAttribute(s, st, c, i, f, j)
        case Container => Err(ContainerSerialized)
        case _ => FillReference(s, reg, st, c, i, f, j)
  }

  function FillMembers(s: Schema, reg: Registry, st: Resource, c: nat, i: nat, members: map<string, Json>, keys: seq<string>)
    : Result<Resource, LoadError>
    requires ValidSchema(s) && |reg| == |s.classes| && c < |s.classes|
    requires forall k :: k in keys ==> k in members
    decreases |keys|
  {
    if keys == [] then Ok(st)
    else
      match FillMember(s, reg, st, c, i, keys[0], members[keys[0]])
      case Err(e) => Err(e)
      case Ok(st') => FillMembers(s, reg, st', c, i, members, keys[1..])
  }

  function FillObject(s: Schema, j: Json, reg: Registry, st: Resource, ord: set<string> -> seq<string>)
    : Result<Resource, LoadError>
    requires ValidSchema(s) && |reg| == |s.classes| && KeyOrder(ord)
  {
    match ClassOf(s, j)
    case Err(e) => Err(e)
    case Ok(c) =>
      match GetStr(j, KEY_ID)
      case None => Err(MissingId)
      case Some(id) =>
        if id !in reg[c] then Err(NeverRegistered)
        else FillMembers(s, reg, st, c, reg[c][id], j.members, ord(j.members.Keys))
  }

  function FillAll(s: Schema, objects: seq<Json>, reg: Registry, st: Resource, ord: set<string> -> seq<string>)
    : Result<Resource, LoadError>
    requires ValidSchema(s) && |reg| == |s.classes| && KeyOrder(ord)
  {
    if objects == [] then Ok(st)
    else
      match FillObject(s, objects[0], reg, st, ord)
      case Err(e) => Err(e)
      case Ok(st') => FillAll(s, objects[1..], reg, st', ord)
  }

  // ----- the document -----

  /** The header checks; the `objects` array when they pass. */
  function Header(s: Schema, j: Json): Result<seq<Json>, LoadError> {
    if !j.Obj? then Err(NotAnObject)
    else if GetStr(j, KEY_TYPE) != Some(Saving.INSTANCE_TYPE) then Err(BadHeader)
    else if Get(j, "formatVersion") != Some(Num(Saving.FORMAT_VERSION)) then Err(BadHeader)
    else if GetStr(j, "model") != Some(s.model) then Err(BadHeader)
    else
      match Get(j, "objects")
      case None => Err(BadHeader)
      case Some(v) => if v.Arr? then Ok(v.items) else Err(BadHeader)
  }

  function LoadDocument(s: Schema, j: Json, ord: set<string> -> seq<string>): Result<Resource, LoadError>
    requires ValidSchema(s) && KeyOrder(ord)
  {
    match Header(s, j)
    case Err(e) => Err(e)
    case Ok(objects) =>
      match CollectRoots(s, objects)
      case Err(e) => Err(e)
      case Ok(collected) =>
        var sorted := SortByKey(collected);
        match RegisterAll(s, sorted, EmptyRegistry(s), EmptyResource(s))
        case Err(e) => Err(e)
        case Ok((reg, st)) => FillAll(s, sorted, reg, st, ord)
  }
}

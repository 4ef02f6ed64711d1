/** Loading any document: accepted exactly when it is acceptable, and then the
    resource is what the document says. */
module LoadExact {
  import opened Common
  import opened JsonTree
  import opened Ids
  import opened Schemas
  import opened Loading
  import opened Documents
  import opened Sorting
  import opened Places
  import opened RoundTrip

  // ----- registration -----

  /** The id of an object, nothing when it has none that is a string. */
  function IdText(j: Json): string {
    if GetStr(j, KEY_ID).Some? then GetStr(j, KEY_ID).value else ""
  }

  ghost predicate Tagged(s: Schema, j: Json, c: nat, id: string) {
    OfClass(s, j, c) && HasId(j, id)
  }

  ghost predicate IsTagged(s: Schema, j: Json) {
    exists c: nat, id :: Tagged(s, j, c, id)
  }

  ghost predicate SameTag(s: Schema, j: Json, j': Json) {
    exists c: nat, id :: Tagged(s, j, c, id) && Tagged(s, j', c, id)
  }

  /** The registry maps the object's id to the arena entry `x`. */
  ghost predicate Enrolled(s: Schema, j: Json, x: Ref, reg: Registry) {
    x.cls < |reg| && Tagged(s, j, x.cls, IdText(j)) && IdText(j) in reg[x.cls] && reg[x.cls][IdText(j)] == x.idx
  }

  ghost predicate Increasing(refs: seq<Ref>) {
    forall k, m :: 0 <= k < m < |refs| && refs[k].cls == refs[m].cls ==> refs[k].idx < refs[m].idx
  }

  /** `refs` are the arena entries of `list`, and the registry holds just those. */
  ghost predicate Indexed(s: Schema, list: seq<Json>, refs: seq<Ref>, reg: Registry) {
    && |refs| == |list| && |reg| == |s.classes| && Increasing(refs)
    && (forall k :: 0 <= k < |refs| ==> Enrolled(s, list[k], refs[k], reg))
    && (forall c: nat, id :: c < |reg| && id in reg[c] ==> IsFiled(list, refs, Ref(c, reg[c][id]), id))
  }

  ghost predicate IsFiled(list: seq<Json>, refs: seq<Ref>, x: Ref, id: string)
    requires |refs| == |list|
  {
    exists k :: 0 <= k < |refs| && refs[k] == x && HasId(list[k], id)
  }

  /** The arenas hold an entry for each of `refs`, with a slot for each feature. */
  ghost predicate Shaped(s: Schema, refs: seq<Ref>, st: Resource) {
    && |st| == |s.classes|
    && (forall x :: Valid(st, x) <==> x in refs)
    && (forall c, i :: 0 <= c < |st| && 0 <= i < |st[c]| ==> |st[c][i]| == |s.classes[c].features|)
  }

  ghost predicate Fresh(s: Schema, st: Resource) {
    |st| == |s.classes| && forall c, i :: 0 <= c < |st| && 0 <= i < |st[c]| ==> st[c][i] == DefaultObject(s.classes[c])
  }

  /** None of `list` has the class and id of `j`. */
  ghost predicate NewTag(s: Schema, list: seq<Json>, j: Json) {
    IsTagged(s, j) && forall k :: 0 <= k < |list| ==> !SameTag(s, list[k], j)
  }

  lemma TagIs(s: Schema, j: Json)
    requires ValidSchema(s)
    ensures IsTagged(s, j) <==> ClassOf(s, j).Ok? && GetStr(j, KEY_ID).Some?
    ensures IsTagged(s, j) ==> Tagged(s, j, ClassOf(s, j).value, IdText(j))
    ensures forall c: nat, id :: Tagged(s, j, c, id) ==> ClassOf(s, j) == Ok(c) && id == IdText(j)
  {
    ClassOfIs(s, j);
    hide ClassOf, OfClass;
    if ClassOf(s, j).Ok? && GetStr(j, KEY_ID).Some? {
      assert Tagged(s, j, ClassOf(s, j).value, IdText(j));
    }
  }

  /** An id is taken exactly when an object of that class had it before. */
  lemma Taken(s: Schema, list: seq<Json>, refs: seq<Ref>, reg: Registry, j: Json)
    requires ValidSchema(s) && Indexed(s, list, refs, reg) && IsTagged(s, j)
    ensures IdText(j) in reg[ClassOf(s, j).value] <==> !NewTag(s, list, j)
  {
    hide ValidSchema, ClassOf, OfClass, GetStr;
    TagIs(s, j);
    var c, id := ClassOf(s, j).value, IdText(j);
    assert Tagged(s, j, c, id);
    if id in reg[c] {
      var k :| 0 <= k < |refs| && refs[k] == Ref(c, reg[c][id]) && HasId(list[k], id);
      assert Enrolled(s, list[k], refs[k], reg);
      TagIs(s, list[k]);
      assert Tagged(s, list[k], c, id);
      assert SameTag(s, list[k], j);
    }
    if !NewTag(s, list, j) {
      var k :| 0 <= k < |list| && SameTag(s, list[k], j);
      assert Enrolled(s, list[k], refs[k], reg);
      TagIs(s, list[k]);
    }
  }

  lemma RegisterOne(s: Schema, list: seq<Json>, refs: seq<Ref>, reg: Registry, st: Resource, j: Json)
    requires ValidSchema(s) && Indexed(s, list, refs, reg) && Shaped(s, refs, st) && Fresh(s, st)
    ensures RegisterObject(s, j, reg, st).Ok? <==> NewTag(s, list, j)
    ensures NewTag(s, list, j) ==> ClassOf(s, j).Ok?
    ensures RegisterObject(s, j, reg, st).Ok? ==>
              var (reg', st') := RegisterObject(s, j, reg, st).value;
              var c := ClassOf(s, j).value;
              Indexed(s, list + [j], refs + [Ref(c, |st[c]|)], reg') && Shaped(s, refs + [Ref(c, |st[c]|)], st') && Fresh(s, st')
  {
    hide ValidSchema, ClassOf, OfClass, SameTag, Shaped, Fresh, GetStr, Record, DefaultObject;
    assert |reg| == |s.classes| && |st| == |s.classes| by { ShapeOf(s, refs, st); }
    TagIs(s, j);
    if IsTagged(s, j) {
      Taken(s, list, refs, reg, j);
      var c, id := ClassOf(s, j).value, IdText(j);
      assert Tagged(s, j, c, id);
      hide Indexed, NewTag, HasId;
      if id !in reg[c] {
        IndexedNext(s, list, refs, reg, st, j, c);
        ShapedNext(s, refs, st, c);
      }
    }
  }

  lemma ShapeOf(s: Schema, refs: seq<Ref>, st: Resource)
    requires Shaped(s, refs, st)
    ensures |st| == |s.classes|
  {}

  lemma IndexedNext(s: Schema, list: seq<Json>, refs: seq<Ref>, reg: Registry, st: Resource, j: Json, c: nat)
    requires Indexed(s, list, refs, reg) && Shaped(s, refs, st) && c < |reg| && c < |st|
    requires Tagged(s, j, c, IdText(j)) && IdText(j) !in reg[c]
    ensures Indexed(s, list + [j], refs + [Ref(c, |st[c]|)], Record(reg, c, IdText(j), |st[c]|))
  {
    hide Tagged, HasId, IdText, Shaped, Increasing, IsFiled;
    var n, id := |st[c]|, IdText(j);
    var list', refs', reg' := list + [j], refs + [Ref(c, n)], Record(reg, c, id, n);
    forall k | 0 <= k < |refs'| ensures Enrolled(s, list'[k], refs'[k], reg') {
      if k < |refs| {
        assert Enrolled(s, list[k], refs[k], reg);
      }
    }
    IncreasingNext(s, refs, st, c);
    forall d: nat, id' | d < |reg'| && id' in reg'[d] ensures IsFiled(list', refs', Ref(d, reg'[d][id']), id') {
      if !(d == c && id' == id) {
        assert IsFiled(list, refs, Ref(d, reg[d][id']), id');
      }
      FiledNext(s, list, refs, j, Ref(c, n), Ref(d, reg'[d][id']), id');
    }
  }

  lemma FiledNext(s: Schema, list: seq<Json>, refs: seq<Ref>, j: Json, x: Ref, y: Ref, id: string)
    requires |list| == |refs| && Tagged(s, j, x.cls, IdText(j))
    requires IsFiled(list, refs, y, id) || (y == x && id == IdText(j))
    ensures IsFiled(list + [j], refs + [x], y, id)
  {
    var list', refs' := list + [j], refs + [x];
    if IsFiled(list, refs, y, id) {
      var k :| 0 <= k < |refs| && refs[k] == y && HasId(list[k], id);
      assert refs'[k] == y && list'[k] == list[k];
    } else {
      assert refs'[|refs|] == x && list'[|refs|] == j;
    }
  }

  lemma IncreasingNext(s: Schema, refs: seq<Ref>, st: Resource, c: nat)
    requires Increasing(refs) && Shaped(s, refs, st) && c < |st|
    ensures Increasing(refs + [Ref(c, |st[c]|)])
  {
    var refs' := refs + [Ref(c, |st[c]|)];
    forall k, m | 0 <= k < m < |refs'| && refs'[k].cls == refs'[m].cls ensures refs'[k].idx < refs'[m].idx {
      if m == |refs| {
        assert refs[k] in refs && Valid(st, refs[k]);
      }
    }
  }

  lemma ShapedNext(s: Schema, refs: seq<Ref>, st: Resource, c: nat)
    requires Shaped(s, refs, st) && Fresh(s, st) && c < |st|
    ensures var st' := st[c := st[c] + [DefaultObject(s.classes[c])]]; Shaped(s, refs + [Ref(c, |st[c]|)], st') && Fresh(s, st')
  {
    var st' := st[c := st[c] + [DefaultObject(s.classes[c])]];
    var refs' := refs + [Ref(c, |st[c]|)];
    forall x ensures Valid(st', x) <==> x in refs' {
      assert x in refs' <==> x in refs || x == Ref(c, |st[c]|);
      assert Valid(st, x) <==> x in refs;
    }
  }

  /** Objects from `p` on have a known class, a string id and no predecessor with both. */
  ghost predicate NewFrom(s: Schema, list: seq<Json>, p: nat) {
    forall k :: p <= k < |list| ==> NewTag(s, list[..k], list[k])
  }

  /** Registration succeeds exactly when every object has a class and an id of its
      own, and then files each object. */
  lemma {:induction false} RegisterExactly(s: Schema, list: seq<Json>, p: nat, refs: seq<Ref>, reg: Registry, st: Resource)
    returns (refs': seq<Ref>)
    requires ValidSchema(s) && p <= |list| && Indexed(s, list[..p], refs, reg) && Shaped(s, refs, st) && Fresh(s, st)
    requires Tables(s, reg, st)
    ensures RegisterAll(s, list[p..], reg, st).Ok? <==> NewFrom(s, list, p)
    ensures RegisterAll(s, list[p..], reg, st).Ok? ==>
              var (reg', st') := RegisterAll(s, list[p..], reg, st).value;
              Indexed(s, list, refs', reg') && Shaped(s, refs', st') && Fresh(s, st')
    decreases |list| - p
  {
    hide ValidSchema, Indexed, Shaped, Fresh, NewTag, RegisterObject, ClassOf;
    refs' := refs;
    if p < |list| {
      assert list[p..][0] == list[p] && list[p..][1..] == list[p + 1..] && list[..p] + [list[p]] == list[..p + 1];
      RegisterOne(s, list[..p], refs, reg, st, list[p]);
      if RegisterObject(s, list[p], reg, st).Ok? {
        var (reg1, st1) := RegisterObject(s, list[p], reg, st).value;
        var c := ClassOf(s, list[p]).value;
        refs' := RegisterExactly(s, list, p + 1, refs + [Ref(c, |st[c]|)], reg1, st1);
      }
    } else {
      assert list[..p] == list;
    }
  }

  // ----- what the members of an object are read as -----

  ghost predicate AllTarget(reg: Registry, t: nat, entries: seq<Json>)
    requires t < |reg|
  {
    forall k :: 0 <= k < |entries| ==> IdTarget(reg, t, entries[k]).Ok?
  }

  function Targets(reg: Registry, t: nat, entries: seq<Json>): (targets: seq<nat>)
    requires t < |reg|
    ensures |targets| == |entries|
    ensures forall k :: 0 <= k < |entries| && IdTarget(reg, t, entries[k]).Ok? ==> targets[k] == IdTarget(reg, t, entries[k]).value
  {
    seq(|entries|, k requires 0 <= k < |entries| =>
      if IdTarget(reg, t, entries[k]).Ok? then IdTarget(reg, t, entries[k]).value else 0)
  }

  /** The value of a member can be read into the feature. */
  ghost predicate MemberLoads(reg: Registry, feature: Feature, v: Json)
    requires !feature.kind.Attribute? ==> feature.target < |reg|
  {
    if feature.kind.Attribute? then
      if feature.many then v.Arr? && LoadScalars(feature.scalar, v.items).Ok?
      else v.Null? || LoadScalar(feature.scalar, v).Some?
    else
      if feature.many then v.Arr? && AllTarget(reg, feature.target, v.items)
      else AllTarget(reg, feature.target, [v])
  }

  ghost predicate KeyLoads(s: Schema, reg: Registry, c: nat, key: string, v: Json)
    requires ValidSchema(s) && |reg| == |s.classes| && c < |s.classes|
  {
    key == KEY_TYPE || key == KEY_ID
    || exists f :: 0 <= f < |s.classes[c].features| && s.classes[c].features[f].name == key && IsSaved(s.classes[c].features[f])
                   && KeyLoadsInto(s, reg, c, f, v)
  }

  ghost predicate KeyLoadsInto(s: Schema, reg: Registry, c: nat, f: nat, v: Json)
    requires ValidSchema(s) && |reg| == |s.classes| && c < |s.classes| && f < |s.classes[c].features|
  {
    assert ValidFeature(s, s.classes[c].features[f]);
    MemberLoads(reg, s.classes[c].features[f], v)
  }

  /** What the object writes into the feature. */
  ghost function Content(reg: Registry, feature: Feature, o: Json): Slot
    requires !feature.kind.Attribute? ==> feature.target < |reg|
  {
    if feature.derived then NotStored
    else if !feature.kind.Attribute? then Links(Dedup(Targets(reg, feature.target, Entries(feature, o))))
    else if Lacks(o, feature.name) || !o.Obj? || !MemberLoads(reg, feature, o.members[feature.name]) then DefaultSlot(feature)
    else
      var v := o.members[feature.name];
      if feature.many then Scalars(LoadScalars(feature.scalar, v.items).value)
      else if v.Null? then DefaultSlot(feature)
      else Scalars([LoadScalar(feature.scalar, v).value])
  }

  // ----- filling one reference -----

  lemma {:induction false} FillItemsExactly(reg: Registry, st: Resource, c: nat, i: nat, f: nat, t: nat, back: Option<nat>, items: seq<Json>)
    requires t < |reg| && InArena(st, c, i, f) && st[c][i][f].Links?
    requires back.Some? ==> !(t == c && back.value == f)
    requires back.Some? ==> forall id :: id in reg[t] ==> InArena(st, t, reg[t][id], back.value)
    ensures FillItems(reg, st, c, i, f, t, back, items).Ok? <==> AllTarget(reg, t, items)
    ensures FillItems(reg, st, c, i, f, t, back, items).Ok? ==>
              Linked(st, FillItems(reg, st, c, i, f, t, back, items).value, c, i, f,
                     PushAll(st[c][i][f].keys, Targets(reg, t, items)), t, back, Targets(reg, t, items))
    decreases |items|
  {
    hide IdTarget, SetSlot, SetContainer, Linked;
    if items == [] {
      NothingLinked(st, c, i, f, t, back);
    } else if IdTarget(reg, t, items[0]).Ok? {
      var child := IdTarget(reg, t, items[0]).value;
      TargetIsFiled(reg, t, items[0]);
      var before := st[c][i][f].keys;
      var after := if child in before then before else before + [child];
      assert LinksAt(st, c, i, f) == before;
      var pushed := if child in before then st else SetSlot(st, c, i, f, Links(after));
      var st1 := SetContainer(pushed, t, child, back, i);
      assert st[c][i][f] == Links(before);
      LinkedOne(st, pushed, c, i, f, after, t, back, child);
      LinkedKeepsShape(st, st1, c, i, f, after, t, back, [child]);
      forall id | back.Some? && id in reg[t] ensures InArena(st1, t, reg[t][id], back.value) {
        assert InArena(st, t, reg[t][id], back.value);
      }
      FillItemsExactly(reg, st1, c, i, f, t, back, items[1..]);
      TargetsNext(reg, t, items);
      if AllTarget(reg, t, items[1..]) {
        var st2 := FillItems(reg, st1, c, i, f, t, back, items[1..]).value;
        LinkedCompose(st, st1, st2, c, i, f, after, PushAll(after, Targets(reg, t, items[1..])), t, back, [child], Targets(reg, t, items[1..]));
      }
    }
  }

  lemma TargetsNext(reg: Registry, t: nat, items: seq<Json>)
    requires t < |reg| && items != [] && IdTarget(reg, t, items[0]).Ok?
    ensures Targets(reg, t, items) == [IdTarget(reg, t, items[0]).value] + Targets(reg, t, items[1..])
    ensures Targets(reg, t, items)[0] == IdTarget(reg, t, items[0]).value && Targets(reg, t, items)[1..] == Targets(reg, t, items[1..])
    ensures AllTarget(reg, t, items) <==> AllTarget(reg, t, items[1..])
  {
    hide IdTarget;
    if AllTarget(reg, t, items[1..]) {
      forall k | 0 <= k < |items| ensures IdTarget(reg, t, items[k]).Ok? {
        if k > 0 {
          assert items[1..][k - 1] == items[k];
        }
      }
    }
  }

  lemma TargetIsFiled(reg: Registry, t: nat, e: Json)
    requires t < |reg| && IdTarget(reg, t, e).Ok?
    ensures exists id :: id in reg[t] && reg[t][id] == IdTarget(reg, t, e).value
  {}

  lemma NothingLinked(st: Resource, c: nat, i: nat, f: nat, t: nat, back: Option<nat>)
    requires InArena(st, c, i, f) && st[c][i][f].Links?
    ensures Linked(st, st, c, i, f, st[c][i][f].keys, t, back, [])
  {}

  lemma LinkedKeepsShape(st: Resource, st': Resource, c: nat, i: nat, f: nat, links: seq<nat>, t: nat, back: Option<nat>, children: seq<nat>)
    requires InArena(st, c, i, f) && Linked(st, st', c, i, f, links, t, back, children)
    ensures forall c': nat, i': nat, f': nat :: InArena(st, c', i', f') ==> InArena(st', c', i', f')
    ensures st'[c][i][f] == Links(links)
  {}

  // ----- filling one member -----

  /** `st'` is `st` with slot `f` of `x` holding `slot` and the back-pointer field of
      every child pointing at `x`. */
  ghost predicate Written(st: Resource, st': Resource, x: Ref, f: nat, slot: Slot, t: nat, back: Option<nat>, children: seq<nat>) {
    && SameShape(st, st')
    && forall c: nat, i: nat, g: nat :: InArena(st', c, i, g) ==>
         st'[c][i][g] ==
           if c == x.cls && i == x.idx && g == f then slot
           else if back == Some(g) && c == t && i in children then Links([x.idx])
           else st[c][i][g]
  }

  ghost function Back(s: Schema, c: nat, feature: Feature): Option<nat>
    requires feature.target < |s.classes|
  {
    if feature.kind.Containment? then ContainerField(s, c, feature) else None
  }

  /** Everything in place to fill feature `f` of `x` from `v`. */
  ghost predicate Ready(s: Schema, reg: Registry, st: Resource, x: Ref, f: nat, o: Json, v: Json) {
    && ValidSchema(s) && |reg| == |s.classes| && |st| == |s.classes|
    && InArena(st, x.cls, x.idx, f) && f < |s.classes[x.cls].features|
    && var feature := s.classes[x.cls].features[f];
       IsSaved(feature) && ValidFeature(s, feature) && st[x.cls][x.idx][f] == DefaultSlot(feature) && Has(o, feature.name, v)
  }

  ghost predicate TargetsLive(s: Schema, reg: Registry, st: Resource) {
    |reg| == |s.classes| && forall c: nat, id, g: nat :: c < |reg| && id in reg[c] && g < |s.classes[c].features| ==> InArena(st, c, reg[c][id], g)
  }

  lemma FillAttributeExactly(s: Schema, reg: Registry, st: Resource, x: Ref, f: nat, o: Json, v: Json)
    requires Ready(s, reg, st, x, f, o, v) && s.classes[x.cls].features[f].kind.Attribute?
    ensures var feature := s.classes[x.cls].features[f];
            var out := FillAttribute(s, st, x.cls, x.idx, f, v);
            && (out.Ok? <==> MemberLoads(reg, feature, v))
            && (out.Ok? ==> Written(st, out.value, x, f, Content(reg, feature, o), 0, None, []))
  {
    hide ValidSchema, ValidFeature, LoadScalar, LoadScalars, DefaultSlot;
  }

  lemma FillReferenceExactly(s: Schema, reg: Registry, st: Resource, x: Ref, f: nat, o: Json, v: Json)
    requires Ready(s, reg, st, x, f, o, v) && !s.classes[x.cls].features[f].kind.Attribute? && TargetsLive(s, reg, st)
    ensures s.classes[x.cls].features[f].target < |reg|
    ensures var feature := s.classes[x.cls].features[f];
            var out := FillReference(s, reg, st, x.cls, x.idx, f, v);
            && (out.Ok? <==> MemberLoads(reg, feature, v))
            && (out.Ok? ==> Written(st, out.value, x, f, Content(reg, feature, o), feature.target, Back(s, x.cls, feature),
                                    Targets(reg, feature.target, Entries(feature, o))))
  {
    hide ValidSchema, FillItems, ContainerField, IdTarget, SetSlot, SetContainer, PushAll, Dedup, Targets, Linked, Written;
    var feature := s.classes[x.cls].features[f];
    var t, back := feature.target, Back(s, x.cls, feature);
    if feature.kind.Containment? {
      BackIsElsewhere(s, x.cls, f);
    }
    assert DefaultSlot(feature) == Links([]);
    var entries := Entries(feature, o);
    if feature.many {
      if v.Arr? {
        FillItemsExactly(reg, st, x.cls, x.idx, f, t, back, entries);
      }
    } else {
      assert entries == [v];
      assert entries[0] == v && (AllTarget(reg, t, entries) <==> IdTarget(reg, t, v).Ok?);
      FillItemsExactly(reg, st, x.cls, x.idx, f, t, back, [v]);
      if IdTarget(reg, t, v).Ok? {
        SingleFill(reg, st, x.cls, x.idx, f, t, back, v);
      }
    }
    if (feature.many ==> v.Arr?) && AllTarget(reg, t, entries) {
      var st' := FillItems(reg, st, x.cls, x.idx, f, t, back, entries).value;
      PushIsDedup(Targets(reg, t, entries));
      LinkedIsWritten(st, st', x, f, Dedup(Targets(reg, t, entries)), t, back, Targets(reg, t, entries));
    }
  }

  lemma PushIsDedup(targets: seq<nat>)
    ensures PushAll([], targets) == Dedup(targets)
  {
    PushAllIsDedup([], targets);
    NothingTwice();
    assert [] + targets == targets;
  }

  lemma LinkedIsWritten(st: Resource, st': Resource, x: Ref, f: nat, links: seq<nat>, t: nat, back: Option<nat>, children: seq<nat>)
    requires Linked(st, st', x.cls, x.idx, f, links, t, back, children)
    ensures Written(st, st', x, f, Links(links), t, back, children)
  {}

  // ----- filling everything -----

  /** The objects being loaded, the arena entry of each, and the registry. */
  datatype Ledger = Ledger(schema: Schema, list: seq<Json>, refs: seq<Ref>, reg: Registry)

  ghost predicate Sound(b: Ledger) {
    && ValidSchema(b.schema) && Indexed(b.schema, b.list, b.refs, b.reg)
    && |b.refs| == |b.list| && |b.reg| == |b.schema.classes|
  }

  /** Object `m` has a containment, among the members `done`, with back-pointer `f`
      and an entry for `x`. */
  ghost predicate OwnsOn(b: Ledger, m: nat, done: set<string>, x: Ref, f: nat)
    requires Sound(b) && m < |b.list|
  {
    assert Enrolled(b.schema, b.list[m], b.refs[m], b.reg);
    exists g :: 0 <= g < |b.schema.classes[b.refs[m].cls].features| && OwnsBy(b, m, g, x, f)
                && b.schema.classes[b.refs[m].cls].features[g].name in done
  }

  ghost predicate OwnsBy(b: Ledger, m: nat, g: nat, x: Ref, f: nat)
    requires Sound(b) && m < |b.list| && b.refs[m].cls < |b.schema.classes| && g < |b.schema.classes[b.refs[m].cls].features|
  {
    var feature := b.schema.classes[b.refs[m].cls].features[g];
    assert ValidFeature(b.schema, feature);
    && feature.kind.Containment? && feature.target == x.cls
    && ContainerField(b.schema, b.refs[m].cls, feature) == Some(f)
    && x.idx in Targets(b.reg, feature.target, Entries(feature, b.list[m]))
  }

  ghost predicate OwnsAtAll(b: Ledger, m: nat, x: Ref, f: nat)
    requires Sound(b) && m < |b.list|
  {
    assert Enrolled(b.schema, b.list[m], b.refs[m], b.reg);
    exists g :: 0 <= g < |b.schema.classes[b.refs[m].cls].features| && OwnsBy(b, m, g, x, f)
  }

  /** The last of the first `n` objects that owns `x` through field `f`. */
  ghost function LastOn(b: Ledger, n: nat, x: Ref, f: nat): (o: Option<nat>)
    requires Sound(b) && n <= |b.list|
  {
    if n == 0 then None
    else if OwnsAtAll(b, n - 1, x, f) then Some(b.refs[n - 1].idx)
    else LastOn(b, n - 1, x, f)
  }

  /** What slot `f` of object `k` holds once the first `p` objects are filled and,
      of object `p`, the members named in `done`. */
  ghost function SlotOn(b: Ledger, p: nat, done: set<string>, k: nat, f: nat): Slot
    requires Sound(b) && p <= |b.list| && k < |b.list|
    requires b.refs[k].cls < |b.schema.classes| && f < |b.schema.classes[b.refs[k].cls].features|
  {
    var feature := b.schema.classes[b.refs[k].cls].features[f];
    assert ValidFeature(b.schema, feature);
    if feature.kind.Container? then
      Optional(if p < |b.list| && OwnsOn(b, p, done, b.refs[k], f) then Some(b.refs[p].idx) else LastOn(b, p, b.refs[k], f))
    else if k < p || (k == p && feature.name in done) then Content(b.reg, feature, b.list[k])
    else DefaultSlot(feature)
  }

  ghost predicate StageOn(b: Ledger, p: nat, done: set<string>, st: Resource)
    requires Sound(b) && p <= |b.list|
  {
    && Shaped(b.schema, b.refs, st)
    && forall k: nat, f: nat :: k < |b.list| && OnSlot(b, k, f) ==> HoldsSlot(b, p, done, st, k, f)
  }

  ghost predicate OnSlot(b: Ledger, k: nat, f: nat)
    requires k < |b.refs|
  {
    b.refs[k].cls < |b.schema.classes| && f < |b.schema.classes[b.refs[k].cls].features|
  }

  ghost predicate HoldsSlot(b: Ledger, p: nat, done: set<string>, st: Resource, k: nat, f: nat)
    requires Sound(b) && p <= |b.list| && k < |b.list| && OnSlot(b, k, f)
  {
    InArena(st, b.refs[k].cls, b.refs[k].idx, f) && st[b.refs[k].cls][b.refs[k].idx][f] == SlotOn(b, p, done, k, f)
  }

  lemma ListedOnce(b: Ledger, k: nat, m: nat)
    requires Sound(b) && k < |b.refs| && m < |b.refs| && b.refs[k] == b.refs[m]
    ensures k == m
  {
    hide Enrolled, IsFiled;
  }

  lemma ClassInRange(b: Ledger, k: nat)
    requires Sound(b) && k < |b.list|
    ensures b.refs[k].cls < |b.schema.classes|
    ensures Tagged(b.schema, b.list[k], b.refs[k].cls, IdText(b.list[k]))
  {
    assert Enrolled(b.schema, b.list[k], b.refs[k], b.reg);
  }

  lemma OwnsOnAdvances(b: Ledger, p: nat, done: set<string>, f: nat, x: Ref, g: nat)
    requires Sound(b) && p < |b.list| && OnSlot(b, p, f)
    ensures OwnsOn(b, p, done + {b.schema.classes[b.refs[p].cls].features[f].name}, x, g)
       <==> OwnsOn(b, p, done, x, g) || OwnsBy(b, p, f, x, g)
  {
    hide Indexed, OwnsBy;
    var features := b.schema.classes[b.refs[p].cls].features;
    forall h | 0 <= h < |features| && features[h].name == features[f].name ensures h == f {
    }
  }

  /** What was written for feature `f` of object `p`: nothing else but the
      back-pointers of its containment. */
  ghost predicate FeatureWritten(b: Ledger, p: nat, f: nat, st: Resource, st': Resource)
    requires Sound(b) && p < |b.list| && OnSlot(b, p, f)
  {
    var feature := b.schema.classes[b.refs[p].cls].features[f];
    assert ValidFeature(b.schema, feature);
    if feature.kind.Attribute? then Written(st, st', b.refs[p], f, Content(b.reg, feature, b.list[p]), 0, None, [])
    else Written(st, st', b.refs[p], f, Content(b.reg, feature, b.list[p]), feature.target, Back(b.schema, b.refs[p].cls, feature),
                 Targets(b.reg, feature.target, Entries(feature, b.list[p])))
  }

  lemma SlotAdvances(b: Ledger, p: nat, done: set<string>, st: Resource, st': Resource, f: nat, k: nat, g: nat)
    requires Sound(b) && p < |b.list| && OnSlot(b, p, f) && FeatureWritten(b, p, f, st, st')
    requires IsSaved(b.schema.classes[b.refs[p].cls].features[f])
    requires k < |b.list| && OnSlot(b, k, g) && HoldsSlot(b, p, done, st, k, g)
    ensures HoldsSlot(b, p, done + {b.schema.classes[b.refs[p].cls].features[f].name}, st', k, g)
  {
    hide Indexed, Content, Targets, Entries, ContainerField, LastOn, OwnsOn, DefaultSlot;
    var s := b.schema;
    var feature, other := s.classes[b.refs[p].cls].features[f], s.classes[b.refs[k].cls].features[g];
    assert ValidFeature(s, feature) && ValidFeature(s, other);
    OwnsOnAdvances(b, p, done, f, b.refs[k], g);
    if b.refs[k] == b.refs[p] {
      ListedOnce(b, k, p);
    }
    if feature.kind.Containment? {
      BackIsContainer(s, b.refs[p].cls, feature);
    }
    assert InArena(st', b.refs[k].cls, b.refs[k].idx, g);
    assert k == p && other.name == feature.name ==> g == f;
  }

  lemma BackIsContainer(s: Schema, c: nat, feature: Feature)
    requires feature.target < |s.classes|
    ensures ContainerField(s, c, feature).Some? ==>
              var back := ContainerField(s, c, feature).value;
              back < |s.classes[feature.target].features| && s.classes[feature.target].features[back].kind.Container?
  {}

  lemma StageOnAdvances(b: Ledger, p: nat, done: set<string>, st: Resource, st': Resource, f: nat)
    requires Sound(b) && p < |b.list| && StageOn(b, p, done, st) && OnSlot(b, p, f) && FeatureWritten(b, p, f, st, st')
    requires IsSaved(b.schema.classes[b.refs[p].cls].features[f])
    ensures StageOn(b, p, done + {b.schema.classes[b.refs[p].cls].features[f].name}, st')
  {
    var done' := done + {b.schema.classes[b.refs[p].cls].features[f].name};
    WrittenKeepsShape(b, p, f, st, st');
    hide Sound, HoldsSlot, Shaped, FeatureWritten;
    forall k: nat, g: nat | k < |b.list| && OnSlot(b, k, g) ensures HoldsSlot(b, p, done', st', k, g) {
      SlotAdvances(b, p, done, st, st', f, k, g);
    }
  }

  lemma WrittenKeepsShape(b: Ledger, p: nat, f: nat, st: Resource, st': Resource)
    requires Sound(b) && p < |b.list| && OnSlot(b, p, f) && FeatureWritten(b, p, f, st, st') && Shaped(b.schema, b.refs, st)
    ensures Shaped(b.schema, b.refs, st')
  {
    hide Sound, Content, Targets;
    assert SameShape(st, st');
    forall x ensures Valid(st', x) <==> Valid(st, x) {
    }
  }

  /** A key that is no feature's name changes nothing. */
  lemma StageOnIgnores(b: Ledger, p: nat, done: set<string>, st: Resource, key: string)
    requires Sound(b) && p < |b.list| && StageOn(b, p, done, st) && b.refs[p].cls < |b.schema.classes|
    requires forall f :: 0 <= f < |b.schema.classes[b.refs[p].cls].features| ==> b.schema.classes[b.refs[p].cls].features[f].name != key
    ensures StageOn(b, p, done + {key}, st)
  {
    hide Shaped, Indexed, OwnsBy;
    forall k: nat, g: nat | k < |b.list| && OnSlot(b, k, g) ensures HoldsSlot(b, p, done + {key}, st, k, g) {
      assert HoldsSlot(b, p, done, st, k, g);
      assert OwnsOn(b, p, done + {key}, b.refs[k], g) <==> OwnsOn(b, p, done, b.refs[k], g);
    }
  }

  lemma {:induction false} LoadScalarsExactly(t: ScalarType, items: seq<Json>)
    ensures LoadScalars(t, items).Ok? <==> forall k :: 0 <= k < |items| ==> LoadScalar(t, items[k]).Some?
    ensures LoadScalars(t, items).Ok? ==>
              var vs := LoadScalars(t, items).value;
              |vs| == |items| && forall k :: 0 <= k < |items| ==> LoadScalar(t, items[k]) == Some(vs[k])
  {
    hide LoadScalar;
    if items != [] {
      LoadScalarsExactly(t, items[1..]);
      assert forall k :: 0 < k < |items| ==> items[1..][k - 1] == items[k];
    }
  }

  /** Every id in the registry belongs to a live object. */
  lemma RegistryLive(b: Ledger, st: Resource)
    requires Sound(b) && Shaped(b.schema, b.refs, st)
    ensures TargetsLive(b.schema, b.reg, st)
  {
    hide Enrolled;
    forall c: nat, id, g: nat | c < |b.reg| && id in b.reg[c] && g < |b.schema.classes[c].features|
      ensures InArena(st, c, b.reg[c][id], g)
    {
      assert IsFiled(b.list, b.refs, Ref(c, b.reg[c][id]), id);
      assert Ref(c, b.reg[c][id]) in b.refs;
      assert Valid(st, Ref(c, b.reg[c][id]));
    }
  }

  /** Filling one member succeeds exactly when it can be read, and then advances
      the stage by that member. */
  lemma FillMemberExactly(b: Ledger, p: nat, done: set<string>, st: Resource, key: string)
    requires Sound(b) && p < |b.list| && StageOn(b, p, done, st)
    requires b.list[p].Obj? && key in b.list[p].members && key !in done
    ensures b.refs[p].cls < |b.schema.classes|
    ensures var out := FillMember(b.schema, b.reg, st, b.refs[p].cls, b.refs[p].idx, key, b.list[p].members[key]);
            && (out.Ok? <==> KeyLoads(b.schema, b.reg, b.refs[p].cls, key, b.list[p].members[key]))
            && (out.Ok? ==> StageOn(b, p, done + {key}, out.value))
  {
    hide Indexed, StageOn, MemberLoads, FillAttribute, FillReference, FeatureWritten;
    var s, x, o := b.schema, b.refs[p], b.list[p];
    var v := o.members[key];
    ClassInRange(b, p);
    var features := s.classes[x.cls].features;
    if key == KEY_TYPE || key == KEY_ID {
      forall f | 0 <= f < |features| ensures features[f].name != key {
        assert ValidFeature(s, features[f]);
      }
      StageOnIgnores(b, p, done, st, key);
    } else {
      var found := FeatureNamed(s.classes[x.cls], key, 0);
      if found.Some? {
        var f := found.value;
        assert ValidFeature(s, features[f]);
        forall g | 0 <= g < |features| && features[g].name == key ensures g == f {
        }
        assert KeyLoads(s, b.reg, x.cls, key, v) <==> IsSaved(features[f]) && KeyLoadsInto(s, b.reg, x.cls, f, v);
        if IsSaved(features[f]) {
          FillFeatureExactly(b, p, done, st, f);
        }
      }
    }
  }

  lemma FillFeatureExactly(b: Ledger, p: nat, done: set<string>, st: Resource, f: nat)
    requires Sound(b) && p < |b.list| && StageOn(b, p, done, st) && OnSlot(b, p, f) && IsSaved(b.schema.classes[b.refs[p].cls].features[f])
    requires b.list[p].Obj? && b.schema.classes[b.refs[p].cls].features[f].name in b.list[p].members
    requires b.schema.classes[b.refs[p].cls].features[f].name !in done
    ensures var feature := b.schema.classes[b.refs[p].cls].features[f];
            var out := if feature.kind.Attribute? then FillAttribute(b.schema, st, b.refs[p].cls, b.refs[p].idx, f, b.list[p].members[feature.name])
                       else FillReference(b.schema, b.reg, st, b.refs[p].cls, b.refs[p].idx, f, b.list[p].members[feature.name]);
            && (out.Ok? <==> KeyLoadsInto(b.schema, b.reg, b.refs[p].cls, f, b.list[p].members[feature.name]))
            && (out.Ok? ==> StageOn(b, p, done + {feature.name}, out.value))
  {
    var s, x, o := b.schema, b.refs[p], b.list[p];
    var feature := s.classes[x.cls].features[f];
    assert ValidFeature(s, feature);
    var v := o.members[feature.name];
    assert Shaped(s, b.refs, st) && HoldsSlot(b, p, done, st, p, f);
    RegistryLive(b, st);
    hide Indexed, ValidSchema, StageOn, MemberLoads, FillAttribute, FillReference, Written, Content, Targets, Shaped;
    assert st[x.cls][x.idx][f] == DefaultSlot(feature);
    if feature.kind.Attribute? {
      assert Ready(s, b.reg, st, x, f, o, v) by { ReadyIs(b, p, done, st, f); }
      FillAttributeExactly(s, b.reg, st, x, f, o, v);
      var out := FillAttribute(s, st, x.cls, x.idx, f, v);
      if out.Ok? {
        StageOnAdvances(b, p, done, st, out.value, f);
      }
    } else {
      assert Ready(s, b.reg, st, x, f, o, v) by { ReadyIs(b, p, done, st, f); }
      FillReferenceExactly(s, b.reg, st, x, f, o, v);
      var out := FillReference(s, b.reg, st, x.cls, x.idx, f, v);
      if out.Ok? {
        StageOnAdvances(b, p, done, st, out.value, f);
      }
    }
  }

  lemma ReadyIs(b: Ledger, p: nat, done: set<string>, st: Resource, f: nat)
    requires Sound(b) && p < |b.list| && StageOn(b, p, done, st) && OnSlot(b, p, f) && IsSaved(b.schema.classes[b.refs[p].cls].features[f])
    requires b.list[p].Obj? && b.schema.classes[b.refs[p].cls].features[f].name in b.list[p].members
    requires b.schema.classes[b.refs[p].cls].features[f].name !in done
    ensures var feature := b.schema.classes[b.refs[p].cls].features[f];
            Ready(b.schema, b.reg, st, b.refs[p], f, b.list[p], b.list[p].members[feature.name])
  {
    var feature := b.schema.classes[b.refs[p].cls].features[f];
    assert ValidFeature(b.schema, feature) && HoldsSlot(b, p, done, st, p, f);
  }

  lemma {:induction false} FillMembersExactly(b: Ledger, p: nat, done: set<string>, st: Resource, keys: seq<string>)
    requires Sound(b) && p < |b.list| && StageOn(b, p, done, st) && b.refs[p].cls < |b.schema.classes|
    requires b.list[p].Obj? && NoDup(keys) && forall k :: k in keys ==> k in b.list[p].members && k !in done
    ensures var out := FillMembers(b.schema, b.reg, st, b.refs[p].cls, b.refs[p].idx, b.list[p].members, keys);
            && (out.Ok? <==> forall k :: k in keys ==> KeyLoads(b.schema, b.reg, b.refs[p].cls, k, b.list[p].members[k]))
            && (out.Ok? ==> StageOn(b, p, done + Elements(keys), out.value))
    decreases |keys|
  {
    hide Indexed, ValidSchema, StageOn, KeyLoads, FillMember;
    if keys == [] {
      assert done + Elements(keys) == done;
    } else {
      FillMemberExactly(b, p, done, st, keys[0]);
      var first := FillMember(b.schema, b.reg, st, b.refs[p].cls, b.refs[p].idx, keys[0], b.list[p].members[keys[0]]);
      if first.Ok? {
        var rest := keys[1..];
        assert keys == [keys[0]] + rest && keys[0] !in rest;
        FillMembersExactly(b, p, done + {keys[0]}, first.value, rest);
        assert done + {keys[0]} + Elements(rest) == done + Elements(keys);
      }
    }
  }

  /** Every member of object `p` can be read. */
  ghost predicate ObjectLoads(b: Ledger, p: nat)
    requires Sound(b) && p < |b.list|
  {
    && b.list[p].Obj? && b.refs[p].cls < |b.schema.classes|
    && forall k :: k in b.list[p].members ==> KeyLoads(b.schema, b.reg, b.refs[p].cls, k, b.list[p].members[k])
  }

  /** A feature without a member owns nothing. */
  lemma OwnsWrittenOnly(b: Ledger, p: nat, x: Ref, f: nat)
    requires Sound(b) && p < |b.list| && b.list[p].Obj?
    ensures OwnsOn(b, p, b.list[p].members.Keys, x, f) <==> OwnsAtAll(b, p, x, f)
  {
    hide Indexed, ContainerField, IdTarget;
    ClassInRange(b, p);
    var features := b.schema.classes[b.refs[p].cls].features;
    forall g | 0 <= g < |features| && OwnsBy(b, p, g, x, f) ensures features[g].name in b.list[p].members {
      assert ValidFeature(b.schema, features[g]);
    }
  }

  lemma SlotNext(b: Ledger, p: nat, st: Resource, k: nat, g: nat)
    requires Sound(b) && p < |b.list| && b.list[p].Obj? && k < |b.list| && OnSlot(b, k, g)
    requires HoldsSlot(b, p, b.list[p].members.Keys, st, k, g)
    ensures HoldsSlot(b, p + 1, {}, st, k, g)
  {
    hide Indexed, OwnsBy;
    var feature := b.schema.classes[b.refs[k].cls].features[g];
    assert ValidFeature(b.schema, feature);
    OwnsWrittenOnly(b, p, b.refs[k], g);
    assert p + 1 < |b.list| ==> !OwnsOn(b, p + 1, {}, b.refs[k], g);
    if k == p && feature.name !in b.list[p].members && !feature.derived {
      NothingTwice();
      assert Content(b.reg, feature, b.list[p]) == DefaultSlot(feature);
    }
  }

  lemma StageOnNext(b: Ledger, p: nat, st: Resource)
    requires Sound(b) && p < |b.list| && b.list[p].Obj? && StageOn(b, p, b.list[p].members.Keys, st)
    ensures StageOn(b, p + 1, {}, st)
  {
    hide Indexed, ValidSchema, HoldsSlot, Shaped;
    forall k: nat, g: nat | k < |b.list| && OnSlot(b, k, g) ensures HoldsSlot(b, p + 1, {}, st, k, g) {
      SlotNext(b, p, st, k, g);
    }
  }

  lemma FillObjectExactly(b: Ledger, p: nat, st: Resource, ord: set<string> -> seq<string>)
    requires Sound(b) && p < |b.list| && StageOn(b, p, {}, st) && KeyOrder(ord)
    ensures var out := FillObject(b.schema, b.list[p], b.reg, st, ord);
            && (out.Ok? <==> ObjectLoads(b, p))
            && (out.Ok? ==> StageOn(b, p + 1, {}, out.value))
  {
    var s, x, o := b.schema, b.refs[p], b.list[p];
    assert Enrolled(s, o, x, b.reg);
    TagIs(s, o);
    hide Indexed, ValidSchema, StageOn, KeyLoads, ClassOf, KeyOrder;
    assert o.Obj?;
    var keys := ord(o.members.Keys);
    OrderLists(ord, o.members.Keys);
    FillMembersExactly(b, p, {}, st, keys);
    assert {} + Elements(keys) == o.members.Keys;
    var out := FillMembers(s, b.reg, st, x.cls, x.idx, o.members, keys);
    if out.Ok? {
      StageOnNext(b, p, out.value);
    }
  }

  lemma OrderLists(ord: set<string> -> seq<string>, keys: set<string>)
    requires KeyOrder(ord)
    ensures NoDup(ord(keys)) && forall k :: k in ord(keys) <==> k in keys
  {}

  lemma {:induction false} FillAllExactly(b: Ledger, p: nat, st: Resource, ord: set<string> -> seq<string>)
    requires Sound(b) && p <= |b.list| && StageOn(b, p, {}, st) && KeyOrder(ord)
    ensures var out := FillAll(b.schema, b.list[p..], b.reg, st, ord);
            && (out.Ok? <==> forall k :: p <= k < |b.list| ==> ObjectLoads(b, k))
            && (out.Ok? ==> StageOn(b, |b.list|, {}, out.value))
    decreases |b.list| - p
  {
    hide Indexed, ValidSchema, StageOn, KeyOrder, FillObject, ObjectLoads;
    if p < |b.list| {
      assert b.list[p..][0] == b.list[p] && b.list[p..][1..] == b.list[p + 1..];
      FillObjectExactly(b, p, st, ord);
      var first := FillObject(b.schema, b.list[p], b.reg, st, ord);
      if first.Ok? {
        FillAllExactly(b, p + 1, first.value, ord);
      }
    }
  }

  /** Before anything is filled, every slot holds its default. */
  lemma FirstStage(b: Ledger, st: Resource)
    requires Sound(b) && Shaped(b.schema, b.refs, st) && Fresh(b.schema, st)
    ensures StageOn(b, 0, {}, st)
  {
    hide Indexed, OwnsBy;
    forall k: nat, f: nat | k < |b.list| && OnSlot(b, k, f) ensures HoldsSlot(b, 0, {}, st, k, f) {
      assert ValidFeature(b.schema, b.schema.classes[b.refs[k].cls].features[f]);
      assert b.refs[k] in b.refs && Valid(st, b.refs[k]);
      assert st[b.refs[k].cls][b.refs[k].idx] == DefaultObject(b.schema.classes[b.refs[k].cls]);
      assert !OwnsOn(b, 0, {}, b.refs[k], f);
    }
  }
}

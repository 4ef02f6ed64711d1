/** Loading a saved document: what comes back, for every resource of every
    schema, and exactly when it is the resource that was saved. */
module RoundTrip {
  import opened Common
  import opened JsonTree
  import opened Ids
  import opened Schemas
  import opened Saving
  import opened Loading
  import opened SavedForm
  import opened Sorting

  // ----- what loading makes of a resource -----

  /** Object `o` lists entry `i` of its containment's target class `c`, and that
      containment's back-pointer is field `f`; only the owner's features named in
      `done` count. */
  ghost predicate Owns(s: Schema, r: Resource, o: Ref, done: set<string>, c: nat, i: nat, f: nat)
    requires Typed(s, r) && Valid(r, o)
  {
    exists g :: 0 <= g < |s.classes[o.cls].features| && OwnsThrough(s, r, o, g, c, i, f)
                && s.classes[o.cls].features[g].name in done
  }

  ghost predicate OwnsThrough(s: Schema, r: Resource, o: Ref, g: nat, c: nat, i: nat, f: nat)
    requires Typed(s, r) && Valid(r, o) && g < |s.classes[o.cls].features|
  {
    var feature := s.classes[o.cls].features[g];
    assert ValidFeature(s, feature) && SlotFits(r, feature, r[o.cls][o.idx][g]);
    && feature.kind.Containment?
    && feature.target == c
    && ContainerField(s, o.cls, feature) == Some(f)
    && i in r[o.cls][o.idx][g].keys
  }

  function FeatureNames(cls: Class): set<string> {
    set g | 0 <= g < |cls.features| :: cls.features[g].name
  }

  /** The highest-numbered object below `n` of class `oc` that owns `(c, i)` through field `f`. */
  ghost function LastOwner(s: Schema, r: Resource, oc: nat, n: nat, c: nat, i: nat, f: nat): (o: Option<nat>)
    requires Typed(s, r) && oc < |r| && n <= |r[oc]|
    ensures o.Some? ==> o.value < n
  {
    if n == 0 then None
    else if Owns(s, r, Ref(oc, n - 1), FeatureNames(s.classes[oc]), c, i, f) then Some(n - 1)
    else LastOwner(s, r, oc, n - 1, c, i, f)
  }

  function Optional(o: Option<nat>): Slot {
    match o
    case None => Links([])
    case Some(k) => Links([k])
  }

  /** A saved slot read back on its own: repetitions in a reference list go, and
      a single number that is not finite becomes the default. */
  function ReadBack(f: Feature, slot: Slot): Slot {
    if slot.Links? then Links(Dedup(slot.keys))
    else if slot.Scalars? && !f.many && slot.values == [NotFinite] then DefaultSlot(f)
    else slot
  }

  ghost function NormalSlot(s: Schema, r: Resource, c: nat, i: nat, f: nat): Slot
    requires Typed(s, r) && Valid(r, Ref(c, i)) && f < |r[c][i]|
  {
    var feature := s.classes[c].features[f];
    assert ValidFeature(s, feature);
    if feature.kind.Container? && !feature.derived
    then Optional(LastOwner(s, r, feature.target, |r[feature.target]|, c, i, f))
    else ReadBack(feature, r[c][i][f])
  }

  /** The resource with every slot as loading rebuilds it. */
  ghost function Normalise(s: Schema, r: Resource): Resource
    requires Typed(s, r)
  {
    seq(|r|, c requires 0 <= c < |r| =>
      seq(|r[c]|, i requires 0 <= i < |r[c]| =>
        seq(|r[c][i]|, f requires 0 <= f < |r[c][i]| => NormalSlot(s, r, c, i, f))))
  }

  ghost predicate SlotLoadable(f: Feature, slot: Slot) {
    f.many && slot.Scalars? ==> NotFinite !in slot.values
  }

  /** No list of numbers holds one that is not finite: those are written as
      `null`, which the loader refuses inside an array. */
  ghost predicate Loadable(s: Schema, r: Resource)
    requires Typed(s, r)
  {
    forall c, i, f :: 0 <= c < |r| && 0 <= i < |r[c]| && 0 <= f < |r[c][i]| ==>
      SlotLoadable(s.classes[c].features[f], r[c][i][f])
  }

  // ----- registration -----

  /** The registry after `counts[c]` objects of each class `c` were registered. */
  ghost predicate Registered(s: Schema, counts: seq<nat>, reg: Registry)
  {
    && |counts| == |reg| == |s.classes|
    && (forall c, i :: 0 <= c < |reg| && 0 <= i < counts[c] ==>
          IdOf(s, Ref(c, i)) in reg[c] && reg[c][IdOf(s, Ref(c, i))] == i)
    && (forall c, id :: 0 <= c < |reg| && id in reg[c] ==>
          reg[c][id] < counts[c] && IdOf(s, Ref(c, reg[c][id])) == id)
  }

  ghost predicate Blank(s: Schema, counts: seq<nat>, st: Resource) {
    && |counts| == |st| == |s.classes|
    && (forall c :: 0 <= c < |st| ==> |st[c]| == counts[c])
    && (forall c, i :: 0 <= c < |st| && 0 <= i < |st[c]| ==> st[c][i] == DefaultObject(s.classes[c]))
  }

  lemma {:induction false} RegisterFrom(s: Schema, r: Resource, objects: seq<Json>, refs: seq<Ref>, p: nat, reg: Registry, st: Resource)
    returns (reg': Registry, st': Resource)
    requires Typed(s, r) && Listing(s, r, objects, refs) && Complete(r, refs) && InKeyOrder(s, refs) && p <= |refs|
    requires forall x :: x in refs[..p] ==> x.cls < |r|
    requires Registered(s, Counts(|r|, refs[..p]), reg) && Blank(s, Counts(|r|, refs[..p]), st)
    ensures RegisterAll(s, objects[p..], reg, st) == Ok((reg', st'))
    ensures Registered(s, Counts(|r|, refs), reg') && Blank(s, Counts(|r|, refs), st')
    decreases |refs| - p
  {
    hide Depicts, Complete, InKeyOrder, ValidSchema, WellTyped, RegisterObject, Counts;
    SortedIsArenaOrder(s, r, refs, p);
    if p == |refs| {
      assert refs[..p] == refs;
      reg', st' := reg, st;
    } else {
      var x, j := refs[p], objects[p];
      assert Depicts(s, r, x, j);
      var counts := Counts(|r|, refs[..p]);
      CountsNext(|r|, refs, p);
      RegisterStep(s, r, counts, x, j, reg, st);
      var (reg1, st1) := RegisterObject(s, j, reg, st).value;
      assert objects[p..][0] == j && objects[p..][1..] == objects[p + 1..];
      reg', st' := RegisterFrom(s, r, objects, refs, p + 1, reg1, st1);
    }
  }

  lemma CountsNext(n: nat, refs: seq<Ref>, p: nat)
    requires p < |refs| && refs[p].cls < n
    requires forall x :: x in refs[..p] ==> x.cls < n
    ensures forall x :: x in refs[..p + 1] ==> x.cls < n
    ensures var counts := Counts(n, refs[..p]);
            Counts(n, refs[..p + 1]) == counts[refs[p].cls := counts[refs[p].cls] + 1]
  {
    assert refs[..p + 1][..p] == refs[..p];
  }

  lemma RegisterStep(s: Schema, r: Resource, counts: seq<nat>, x: Ref, j: Json, reg: Registry, st: Resource)
    requires Typed(s, r) && Depicts(s, r, x, j)
    requires Registered(s, counts, reg) && Blank(s, counts, st) && counts[x.cls] == x.idx
    ensures RegisterObject(s, j, reg, st).Ok?
    ensures var (reg', st') := RegisterObject(s, j, reg, st).value;
            var counts' := counts[x.cls := counts[x.cls] + 1];
            Registered(s, counts', reg') && Blank(s, counts', st')
  {
    ClassOfDepicted(s, r, x, j);
    FreshId(s, r, counts, reg, x);
    RegisteredNext(s, r, counts, reg, x);
  }

  lemma FreshId(s: Schema, r: Resource, counts: seq<nat>, reg: Registry, x: Ref)
    requires Typed(s, r) && Registered(s, counts, reg) && Valid(r, x) && counts[x.cls] == x.idx
    ensures IdOf(s, x) !in reg[x.cls]
  {
    var id := IdOf(s, x);
    forall k | 0 <= k < x.idx ensures IdOf(s, Ref(x.cls, k)) != id {
      if IdOf(s, Ref(x.cls, k)) == id {
        IdOfInjective(s, r, x, Ref(x.cls, k));
      }
    }
  }

  lemma RegisteredNext(s: Schema, r: Resource, counts: seq<nat>, reg: Registry, x: Ref)
    requires Typed(s, r) && Registered(s, counts, reg) && Valid(r, x) && counts[x.cls] == x.idx
    requires IdOf(s, x) !in reg[x.cls]
    ensures Registered(s, counts[x.cls := x.idx + 1], Record(reg, x.cls, IdOf(s, x), x.idx))
  {
  }

  // ----- filling -----

  /** What slot `f` of object `(c, i)` holds once all objects below `counts` are
      filled and, of object `(cc, counts[cc])`, the members named in `done`. */
  ghost function StageSlot(s: Schema, r: Resource, counts: seq<nat>, cc: nat, done: set<string>, c: nat, i: nat, f: nat): Slot
    requires Typed(s, r) && Valid(r, Ref(c, i)) && f < |r[c][i]|
    requires |counts| == |r| && cc < |r| && forall d :: 0 <= d < |r| ==> counts[d] <= |r[d]|
  {
    var feature := s.classes[c].features[f];
    assert ValidFeature(s, feature);
    if feature.kind.Container? && !feature.derived then
      if feature.target == cc && counts[cc] < |r[cc]| && Owns(s, r, Ref(cc, counts[cc]), done, c, i, f)
      then Links([counts[cc]])
      else Optional(LastOwner(s, r, feature.target, counts[feature.target], c, i, f))
    else if i < counts[c] || (c == cc && i == counts[c] && feature.name in done)
    then ReadBack(feature, r[c][i][f])
    else DefaultSlot(feature)
  }

  ghost predicate SameShape(r: Resource, st: Resource) {
    && |st| == |r|
    && (forall c :: 0 <= c < |r| ==> |st[c]| == |r[c]|)
    && (forall c, i :: 0 <= c < |r| && 0 <= i < |r[c]| ==> |st[c][i]| == |r[c][i]|)
  }

  ghost predicate Stage(s: Schema, r: Resource, counts: seq<nat>, cc: nat, done: set<string>, st: Resource)
    requires Typed(s, r)
    requires |counts| == |r| && cc < |r| && forall d :: 0 <= d < |r| ==> counts[d] <= |r[d]|
  {
    && SameShape(r, st)
    && forall c: nat, i: nat, f: nat :: InArena(st, c, i, f) ==>
         st[c][i][f] == StageSlot(s, r, counts, cc, done, c, i, f)
  }

  lemma SameResource(a: Resource, b: Resource)
    requires SameShape(a, b)
    requires forall c: nat, i: nat, f: nat :: InArena(a, c, i, f) ==> a[c][i][f] == b[c][i][f]
    ensures a == b
  {
    forall c | 0 <= c < |a| ensures a[c] == b[c] {
      forall i | 0 <= i < |a[c]| ensures a[c][i] == b[c][i] {
      }
    }
  }

  /** Pushing keys one at a time, skipping those already there. */
  function PushAll(old': seq<nat>, keys: seq<nat>): seq<nat>
    decreases |keys|
  {
    if keys == [] then old'
    else PushAll(if keys[0] in old' then old' else old' + [keys[0]], keys[1..])
  }

  lemma {:induction false} PushAllIsDedup(done: seq<nat>, keys: seq<nat>)
    ensures PushAll(Dedup(done), keys) == Dedup(done + keys)
    decreases |keys|
  {
    if keys == [] {
      assert done + keys == done;
    } else {
      var done' := done + [keys[0]];
      assert done'[..|done|] == done;
      assert done' + keys[1..] == done + keys;
      PushAllIsDedup(done', keys[1..]);
    }
  }

  /** `st'` is `st` with the reference slot `(c, i, f)` holding `links` and the
      back-pointer field of every child in `children` pointing at `i`. */
  ghost predicate Linked(st: Resource, st': Resource, c: nat, i: nat, f: nat, links: seq<nat>,
                         t: nat, back: Option<nat>, children: seq<nat>)
  {
    && SameShape(st, st')
    && forall c': nat, i': nat, f': nat :: InArena(st', c', i', f') ==>
         st'[c'][i'][f'] ==
           if c' == c && i' == i && f' == f then Links(links)
           else if back == Some(f') && c' == t && i' in children then Links([i])
           else st[c'][i'][f']
  }

  lemma IdTargetOfPoints(s: Schema, r: Resource, counts: seq<nat>, reg: Registry, x: Ref, j: Json)
    requires Typed(s, r) && Valid(r, x) && Registered(s, counts, reg) && x.idx < counts[x.cls] && Points(s, x, j)
    ensures IdTarget(reg, x.cls, j) == Ok(x.idx)
  {
  }

  lemma {:induction false} FillItemsLinks(s: Schema, r: Resource, counts: seq<nat>, reg: Registry, st: Resource,
                                          c: nat, i: nat, f: nat, t: nat, back: Option<nat>, keys: seq<nat>, items: seq<Json>)
    returns (st': Resource)
    requires Typed(s, r) && Registered(s, counts, reg) && t < |r| && counts[t] == |r[t]|
    requires |items| == |keys|
    requires forall k :: 0 <= k < |keys| ==> Valid(r, Ref(t, keys[k])) && Points(s, Ref(t, keys[k]), items[k])
    requires SameShape(r, st) && InArena(st, c, i, f) && st[c][i][f].Links?
    requires back.Some? ==> back.value < |s.classes[t].features| && !(t == c && back.value == f)
    ensures FillItems(reg, st, c, i, f, t, back, items) == Ok(st')
    ensures Linked(st, st', c, i, f, PushAll(st[c][i][f].keys, keys), t, back, keys)
    decreases |keys|
  {
    if keys == [] {
      st' := st;
    } else {
      var child := keys[0];
      assert Valid(r, Ref(t, child));
      IdTargetOfPoints(s, r, counts, reg, Ref(t, child), items[0]);
      var before := st[c][i][f].keys;
      var after := if child in before then before else before + [child];
      var pushed := if child in before then st else SetSlot(st, c, i, f, Links(after));
      var st1 := SetContainer(pushed, t, child, back, i);
      assert st[c][i][f] == Links(before);
      LinkedOne(st, pushed, c, i, f, after, t, back, child);
      st' := FillItemsLinks(s, r, counts, reg, st1, c, i, f, t, back, keys[1..], items[1..]);
      assert keys == [child] + keys[1..];
      LinkedCompose(st, st1, st', c, i, f, after, PushAll(after, keys[1..]), t, back, [child], keys[1..]);
    }
  }

  lemma LinkedOne(st: Resource, pushed: Resource, c: nat, i: nat, f: nat, links: seq<nat>, t: nat, back: Option<nat>, child: nat)
    requires InArena(st, c, i, f)
    requires pushed == SetSlot(st, c, i, f, Links(links)) || (pushed == st && st[c][i][f] == Links(links))
    requires back.Some? ==> InArena(st, t, child, back.value) && !(t == c && back.value == f)
    ensures Linked(st, SetContainer(pushed, t, child, back, i), c, i, f, links, t, back, [child])
  {
  }

  lemma LinkedCompose(st: Resource, st1: Resource, st2: Resource, c: nat, i: nat, f: nat, links1: seq<nat>, links2: seq<nat>,
                      t: nat, back: Option<nat>, children1: seq<nat>, children2: seq<nat>)
    requires Linked(st, st1, c, i, f, links1, t, back, children1)
    requires Linked(st1, st2, c, i, f, links2, t, back, children2)
    ensures Linked(st, st2, c, i, f, links2, t, back, children1 + children2)
  {
    forall c': nat, i': nat, f': nat | InArena(st2, c', i', f') ensures InArena(st1, c', i', f') {
    }
  }

  // ----- scalars -----

  lemma LoadSavedScalar(t: ScalarType, v: Scalar)
    requires ScalarFits(t, v)
    ensures LoadScalar(t, SaveScalar(v)) == if v.NotFinite? then None else Some(v)
    ensures SaveScalar(v).Null? <==> v.NotFinite?
  {
  }

  lemma {:induction false} LoadSavedScalars(t: ScalarType, vs: seq<Scalar>)
    requires forall k :: 0 <= k < |vs| ==> ScalarFits(t, vs[k])
    ensures if NotFinite in vs then LoadScalars(t, SaveScalars(vs)).Err? else LoadScalars(t, SaveScalars(vs)) == Ok(vs)
  {
    if vs != [] {
      LoadSavedScalar(t, vs[0]);
      LoadSavedScalars(t, vs[1..]);
      assert SaveScalars(vs)[1..] == SaveScalars(vs[1..]);
      assert vs == [vs[0]] + vs[1..];
    }
  }

  // ----- one member, one object, all objects -----

  /** The object being filled, with everything known about it and about the
      registry, which is complete by now. */
  ghost predicate Filling(s: Schema, r: Resource, counts: seq<nat>, reg: Registry, x: Ref, members: map<string, Json>) {
    && Typed(s, r)
    && Depicts(s, r, x, Obj(members))
    && |counts| == |r| && (forall d :: 0 <= d < |r| ==> counts[d] <= |r[d]|)
    && counts[x.cls] == x.idx
    && Registered(s, Sizes(r), reg)
  }

  function Sizes(r: Resource): (sizes: seq<nat>)
    ensures |sizes| == |r| && forall c :: 0 <= c < |r| ==> sizes[c] == |r[c]|
  {
    seq(|r|, c requires 0 <= c < |r| => |r[c]|)
  }

  /** Filling feature `f` of `x` advances the stage by that feature. */
  lemma StageAdvances(s: Schema, r: Resource, counts: seq<nat>, reg: Registry, x: Ref, members: map<string, Json>,
                      done: set<string>, st: Resource, st': Resource, f: nat)
    requires Filling(s, r, counts, reg, x, members) && Stage(s, r, counts, x.cls, done, st)
    requires f < |s.classes[x.cls].features| && IsSaved(s.classes[x.cls].features[f])
    requires SameShape(st, st')
    requires forall c: nat, i: nat, g: nat :: InArena(st', c, i, g) ==>
               st'[c][i][g] ==
                 if c == x.cls && i == x.idx && g == f then ReadBack(s.classes[c].features[f], r[c][i][f])
                 else if OwnsThrough(s, r, x, f, c, i, g) then Links([x.idx])
                 else st[c][i][g]
    ensures Stage(s, r, counts, x.cls, done + {s.classes[x.cls].features[f].name}, st')
  {
    var cls := s.classes[x.cls];
    var feature := cls.features[f];
    var done' := done + {feature.name};
    forall c: nat, i: nat, g: nat | InArena(st', c, i, g)
      ensures st'[c][i][g] == StageSlot(s, r, counts, x.cls, done', c, i, g)
    {
      assert InArena(st, c, i, g);
      var slotFeature := s.classes[c].features[g];
      assert ValidFeature(s, slotFeature);
      OwnsAdvances(s, r, x, done, f, c, i, g);
      assert c == x.cls && slotFeature.name == feature.name ==> g == f;
    }
  }

  lemma OwnsAdvances(s: Schema, r: Resource, x: Ref, done: set<string>, f: nat, c: nat, i: nat, g: nat)
    requires Typed(s, r) && Valid(r, x) && f < |s.classes[x.cls].features|
    requires c < |s.classes| && g < |s.classes[c].features|
    ensures Owns(s, r, x, done + {s.classes[x.cls].features[f].name}, c, i, g)
       <==> Owns(s, r, x, done, c, i, g) || OwnsThrough(s, r, x, f, c, i, g)
    ensures OwnsThrough(s, r, x, f, c, i, g) ==>
              s.classes[c].features[g].kind.Container? && s.classes[c].features[g].target == x.cls
              && !s.classes[c].features[g].derived
  {
    assert ValidFeature(s, s.classes[c].features[g]);
    assert ValidFeature(s, s.classes[x.cls].features[f]);
    var names := s.classes[x.cls].features;
    forall h | 0 <= h < |names| && names[h].name == names[f].name ensures h == f {
    }
  }

  lemma FillAttributeStage(s: Schema, r: Resource, counts: seq<nat>, reg: Registry, x: Ref, members: map<string, Json>,
                           done: set<string>, st: Resource, f: nat)
    returns (out: Result<Resource, LoadError>)
    requires Filling(s, r, counts, reg, x, members) && Stage(s, r, counts, x.cls, done, st)
    requires f < |s.classes[x.cls].features| && IsSaved(s.classes[x.cls].features[f])
    requires s.classes[x.cls].features[f].kind.Attribute?
    requires s.classes[x.cls].features[f].name in members && s.classes[x.cls].features[f].name !in done
    ensures out == FillAttribute(s, st, x.cls, x.idx, f, members[s.classes[x.cls].features[f].name])
    ensures out.Ok? <==> SlotLoadable(s.classes[x.cls].features[f], r[x.cls][x.idx][f])
    ensures out.Ok? ==> Stage(s, r, counts, x.cls, done + {s.classes[x.cls].features[f].name}, out.value)
  {
    var feature := s.classes[x.cls].features[f];
    var slot := r[x.cls][x.idx][f];
    assert ValidFeature(s, feature) && SlotFits(r, feature, slot);
    assert MemberOk(s, r, x, f, members);
    assert InArena(st, x.cls, x.idx, f);
    assert st[x.cls][x.idx][f] == DefaultSlot(feature);
    out := FillAttribute(s, st, x.cls, x.idx, f, members[feature.name]);
    if feature.many {
      LoadSavedScalars(feature.scalar, slot.values);
    } else {
      assert slot.values == [slot.values[0]];
      LoadSavedScalar(feature.scalar, slot.values[0]);
    }
    if out.Ok? {
      StageAdvances(s, r, counts, reg, x, members, done, st, out.value, f);
    }
  }

  lemma FillReferenceLinks(s: Schema, r: Resource, counts: seq<nat>, reg: Registry, x: Ref, members: map<string, Json>,
                           st: Resource, f: nat)
    returns (st': Resource)
    requires Filling(s, r, counts, reg, x, members) && SameShape(r, st)
    requires f < |s.classes[x.cls].features| && ValidFeature(s, s.classes[x.cls].features[f])
    requires IsSaved(s.classes[x.cls].features[f]) && !s.classes[x.cls].features[f].kind.Attribute?
    requires s.classes[x.cls].features[f].name in members
    requires InArena(st, x.cls, x.idx, f) && st[x.cls][x.idx][f] == Links([])
    ensures FillReference(s, reg, st, x.cls, x.idx, f, members[s.classes[x.cls].features[f].name]) == Ok(st')
    ensures var feature := s.classes[x.cls].features[f];
            && r[x.cls][x.idx][f].Links?
            && Linked(st, st', x.cls, x.idx, f, Dedup(r[x.cls][x.idx][f].keys), feature.target,
                      if feature.kind.Containment? then ContainerField(s, x.cls, feature) else None, r[x.cls][x.idx][f].keys)
  {
    assert |reg| == |s.classes|;
    hide FillItems, ContainerField, Linked, Registered, IdTarget, SetContainer, SetSlot, PushAll, Dedup, IsLink, IsInline;
    var feature := s.classes[x.cls].features[f];
    var slot := r[x.cls][x.idx][f];
    assert SlotFits(r, feature, slot);
    assert MemberOk(s, r, x, f, members);
    var back := if feature.kind.Containment? then ContainerField(s, x.cls, feature) else None;
    if feature.kind.Containment? {
      BackIsElsewhere(s, x.cls, f);
    }
    var values := MemberValues(feature, members);
    PushAllIsDedup([], slot.keys);
    NothingTwice();
    assert [] + slot.keys == slot.keys;
    st' := FillItemsLinks(s, r, Sizes(r), reg, st, x.cls, x.idx, f, feature.target, back, slot.keys, values);
    if !feature.many {
      assert values == [members[feature.name]];
      IdTargetOfPoints(s, r, Sizes(r), reg, Ref(feature.target, slot.keys[0]), values[0]);
    }
    ReferenceIsItems(s, reg, st, x.cls, x.idx, f, members, back);
  }

  lemma NothingTwice()
    ensures Dedup<nat>([]) == []
  {}

  /** A containment's back-pointer is a container, so never the containment itself. */
  lemma BackIsElsewhere(s: Schema, c: nat, f: nat)
    requires c < |s.classes| && f < |s.classes[c].features| && ValidFeature(s, s.classes[c].features[f])
    requires s.classes[c].features[f].kind.Containment?
    ensures ContainerField(s, c, s.classes[c].features[f]).Some? ==>
              var back := ContainerField(s, c, s.classes[c].features[f]).value;
              && back < |s.classes[s.classes[c].features[f].target].features|
              && !(s.classes[c].features[f].target == c && back == f)
  {}

  /** Filling a reference member is filling its values one by one. */
  lemma ReferenceIsItems(s: Schema, reg: Registry, st: Resource, c: nat, i: nat, f: nat, members: map<string, Json>, back: Option<nat>)
    requires ValidSchema(s) && |reg| == |s.classes| && c < |s.classes| && f < |s.classes[c].features|
    requires IsReference(s.classes[c].features[f]) && ValidFeature(s, s.classes[c].features[f])
    requires back == if s.classes[c].features[f].kind.Containment? then ContainerField(s, c, s.classes[c].features[f]) else None
    requires var feature := s.classes[c].features[f];
             && feature.name in members
             && (feature.many ==> members[feature.name].Arr?)
             && (!feature.many ==> LinksAt(st, c, i, f) == [] && IdTarget(reg, feature.target, members[feature.name]).Ok?)
    ensures FillReference(s, reg, st, c, i, f, members[s.classes[c].features[f].name])
         == FillItems(reg, st, c, i, f, s.classes[c].features[f].target, back, MemberValues(s.classes[c].features[f], members))
  {
    hide ValidSchema, ContainerField, SetContainer, SetSlot, IdTarget, FillItems;
    var feature := s.classes[c].features[f];
    if !feature.many {
      SingleFill(reg, st, c, i, f, feature.target, back, members[feature.name]);
    }
  }

  lemma FillReferenceStage(s: Schema, r: Resource, counts: seq<nat>, reg: Registry, x: Ref, members: map<string, Json>,
                           done: set<string>, st: Resource, f: nat)
    returns (st': Resource)
    requires Filling(s, r, counts, reg, x, members) && Stage(s, r, counts, x.cls, done, st)
    requires f < |s.classes[x.cls].features| && ValidFeature(s, s.classes[x.cls].features[f])
    requires IsSaved(s.classes[x.cls].features[f]) && !s.classes[x.cls].features[f].kind.Attribute?
    requires s.classes[x.cls].features[f].name in members && s.classes[x.cls].features[f].name !in done
    ensures FillReference(s, reg, st, x.cls, x.idx, f, members[s.classes[x.cls].features[f].name]) == Ok(st')
    ensures Stage(s, r, counts, x.cls, done + {s.classes[x.cls].features[f].name}, st')
  {
    var feature := s.classes[x.cls].features[f];
    assert InArena(st, x.cls, x.idx, f);
    assert st[x.cls][x.idx][f] == DefaultSlot(feature);
    st' := FillReferenceLinks(s, r, counts, reg, x, members, st, f);
    StageAdvances(s, r, counts, reg, x, members, done, st, st', f);
  }

  /** Filling one entry of an empty list is a single assignment. */
  lemma SingleFill(reg: Registry, st: Resource, c: nat, i: nat, f: nat, t: nat, back: Option<nat>, j: Json)
    requires t < |reg| && LinksAt(st, c, i, f) == [] && IdTarget(reg, t, j).Ok?
    ensures var child := IdTarget(reg, t, j).value;
            FillItems(reg, st, c, i, f, t, back, [j]) ==
            Ok(SetContainer(SetSlot(st, c, i, f, Links([child])), t, child, back, i))
  {
    var child := IdTarget(reg, t, j).value;
    assert [] + [child] == [child];
    assert [j][1..] == [];
  }

  /** Every feature the key names can be read back. */
  ghost predicate KeyLoadable(s: Schema, r: Resource, x: Ref, key: string)
    requires Typed(s, r) && Valid(r, x)
  {
    forall f :: 0 <= f < |s.classes[x.cls].features| && s.classes[x.cls].features[f].name == key ==>
      SlotLoadable(s.classes[x.cls].features[f], r[x.cls][x.idx][f])
  }

  lemma FillMemberStage(s: Schema, r: Resource, counts: seq<nat>, reg: Registry, x: Ref, members: map<string, Json>,
                        done: set<string>, st: Resource, key: string)
    returns (out: Result<Resource, LoadError>)
    requires Filling(s, r, counts, reg, x, members) && Stage(s, r, counts, x.cls, done, st)
    requires key in members && key !in done
    ensures out == FillMember(s, reg, st, x.cls, x.idx, key, members[key])
    ensures out.Ok? <==> KeyLoadable(s, r, x, key)
    ensures out.Ok? ==> Stage(s, r, counts, x.cls, done + {key}, out.value)
  {
    var cls := s.classes[x.cls];
    if key == KEY_TYPE || key == KEY_ID {
      out := Ok(st);
      forall f | 0 <= f < |cls.features| ensures cls.features[f].name != key {
        assert ValidFeature(s, cls.features[f]);
      }
      StageIgnores(s, r, counts, x.cls, done, st, key);
    } else {
      var f := FeatureOfKey(s, r, x, members, key);
      if cls.features[f].kind.Attribute? {
        out := FillAttributeStage(s, r, counts, reg, x, members, done, st, f);
      } else {
        var st' := FillReferenceStage(s, r, counts, reg, x, members, done, st, f);
        out := Ok(st');
      }
    }
  }

  lemma FeatureOfKey(s: Schema, r: Resource, x: Ref, members: map<string, Json>, key: string) returns (f: nat)
    requires Typed(s, r) && Depicts(s, r, x, Obj(members)) && key in members && key != KEY_TYPE && key != KEY_ID
    ensures FeatureNamed(s.classes[x.cls], key, 0) == Some(f)
    ensures f < |s.classes[x.cls].features| && ValidFeature(s, s.classes[x.cls].features[f])
    ensures IsSaved(s.classes[x.cls].features[f]) && s.classes[x.cls].features[f].name == key
    ensures !s.classes[x.cls].features[f].kind.Attribute? ==> SlotLoadable(s.classes[x.cls].features[f], r[x.cls][x.idx][f])
    ensures KeyLoadable(s, r, x, key) <==> SlotLoadable(s.classes[x.cls].features[f], r[x.cls][x.idx][f])
  {
    var cls := s.classes[x.cls];
    assert NamesFrom(cls, 0, key);
    f :| 0 <= f < |cls.features| && cls.features[f].name == key;
    assert ValidFeature(s, cls.features[f]) && MemberOk(s, r, x, f, members);
    assert SlotFits(r, cls.features[f], r[x.cls][x.idx][f]);
    assert forall g :: 0 <= g < |cls.features| && cls.features[g].name == key ==> g == f;
  }

  lemma StageIgnores(s: Schema, r: Resource, counts: seq<nat>, cc: nat, done: set<string>, st: Resource, key: string)
    requires Typed(s, r)
    requires |counts| == |r| && cc < |r| && forall d :: 0 <= d < |r| ==> counts[d] <= |r[d]|
    requires Stage(s, r, counts, cc, done, st)
    requires forall f :: 0 <= f < |s.classes[cc].features| ==> s.classes[cc].features[f].name != key
    ensures Stage(s, r, counts, cc, done + {key}, st)
  {
    forall c: nat, i: nat, g: nat | InArena(st, c, i, g)
      ensures StageSlot(s, r, counts, cc, done + {key}, c, i, g) == StageSlot(s, r, counts, cc, done, c, i, g)
    {
      if counts[cc] < |r[cc]| {
        assert Owns(s, r, Ref(cc, counts[cc]), done + {key}, c, i, g) <==> Owns(s, r, Ref(cc, counts[cc]), done, c, i, g);
      }
    }
  }

  function Elements(keys: seq<string>): set<string> {
    set k | k in keys
  }

  lemma {:induction false} FillMembersStage(s: Schema, r: Resource, counts: seq<nat>, reg: Registry, x: Ref,
                                            members: map<string, Json>, done: set<string>, st: Resource, keys: seq<string>)
    returns (out: Result<Resource, LoadError>)
    requires Filling(s, r, counts, reg, x, members) && Stage(s, r, counts, x.cls, done, st)
    requires NoDup(keys) && forall k :: k in keys ==> k in members && k !in done
    ensures out == FillMembers(s, reg, st, x.cls, x.idx, members, keys)
    ensures out.Ok? <==> forall k :: k in keys ==> KeyLoadable(s, r, x, k)
    ensures out.Ok? ==> Stage(s, r, counts, x.cls, done + Elements(keys), out.value)
    decreases |keys|
  {
    hide Stage, KeyLoadable, FillMember, Depicts, Registered;
    if keys == [] {
      out := Ok(st);
      assert done + Elements(keys) == done;
    } else {
      out := FillMemberStage(s, r, counts, reg, x, members, done, st, keys[0]);
      if out.Ok? {
        var rest := keys[1..];
        assert keys == [keys[0]] + rest && keys[0] !in rest;
        out := FillMembersStage(s, r, counts, reg, x, members, done + {keys[0]}, out.value, rest);
        assert done + {keys[0]} + Elements(rest) == done + Elements(keys);
      }
    }
  }

  /** Every feature of the object can be read back. */
  ghost predicate ObjectLoadable(s: Schema, r: Resource, x: Ref)
    requires Typed(s, r) && Valid(r, x)
  {
    forall f :: 0 <= f < |s.classes[x.cls].features| ==> SlotLoadable(s.classes[x.cls].features[f], r[x.cls][x.idx][f])
  }

  /** A feature that wrote no member holds its default. */
  lemma UnwrittenIsDefault(s: Schema, r: Resource, x: Ref, members: map<string, Json>, f: nat)
    requires Typed(s, r) && Depicts(s, r, x, Obj(members)) && f < |s.classes[x.cls].features|
    requires IsSaved(s.classes[x.cls].features[f]) && s.classes[x.cls].features[f].name !in members
    ensures ReadBack(s.classes[x.cls].features[f], r[x.cls][x.idx][f]) == DefaultSlot(s.classes[x.cls].features[f])
    ensures SlotLoadable(s.classes[x.cls].features[f], r[x.cls][x.idx][f])
    ensures s.classes[x.cls].features[f].kind.Containment? ==> r[x.cls][x.idx][f] == Links([])
  {
    var feature := s.classes[x.cls].features[f];
    assert ValidFeature(s, feature) && SlotFits(r, feature, r[x.cls][x.idx][f]) && MemberOk(s, r, x, f, members);
  }

  /** Once its written members are in, the whole object is in. */
  lemma StageNext(s: Schema, r: Resource, counts: seq<nat>, x: Ref, members: map<string, Json>, st: Resource, cc: nat)
    requires Typed(s, r) && Depicts(s, r, x, Obj(members)) && cc < |r|
    requires |counts| == |r| && forall d :: 0 <= d < |r| ==> counts[d] <= |r[d]|
    requires counts[x.cls] == x.idx
    requires Stage(s, r, counts, x.cls, members.Keys, st)
    ensures Stage(s, r, counts[x.cls := x.idx + 1], cc, {}, st)
  {
    var cls := s.classes[x.cls];
    var counts' := counts[x.cls := x.idx + 1];
    forall c: nat, i: nat, g: nat | InArena(st, c, i, g)
      ensures StageSlot(s, r, counts, x.cls, members.Keys, c, i, g) == StageSlot(s, r, counts', cc, {}, c, i, g)
    {
      var feature := s.classes[c].features[g];
      assert ValidFeature(s, feature);
      if feature.kind.Container? && !feature.derived {
        OwnsWritten(s, r, x, members, c, i, g);
      } else if c == x.cls && i == x.idx && feature.name !in members && !feature.derived {
        UnwrittenIsDefault(s, r, x, members, g);
      }
    }
  }

  lemma OwnsWritten(s: Schema, r: Resource, x: Ref, members: map<string, Json>, c: nat, i: nat, g: nat)
    requires Typed(s, r) && Depicts(s, r, x, Obj(members))
    ensures Owns(s, r, x, members.Keys, c, i, g) <==> Owns(s, r, x, FeatureNames(s.classes[x.cls]), c, i, g)
  {
    var cls := s.classes[x.cls];
    forall f | 0 <= f < |cls.features| && OwnsThrough(s, r, x, f, c, i, g) ensures cls.features[f].name in members {
      assert ValidFeature(s, cls.features[f]);
      if cls.features[f].name !in members {
        UnwrittenIsDefault(s, r, x, members, f);
      }
    }
  }

  lemma FillObjectStage(s: Schema, r: Resource, counts: seq<nat>, reg: Registry, x: Ref, j: Json, st: Resource,
                        ord: set<string> -> seq<string>, cc: nat)
    returns (out: Result<Resource, LoadError>)
    requires j.Obj? && Filling(s, r, counts, reg, x, j.members) && KeyOrder(ord) && cc < |r|
    requires Stage(s, r, counts, x.cls, {}, st)
    ensures out == FillObject(s, j, reg, st, ord)
    ensures out.Ok? <==> ObjectLoadable(s, r, x)
    ensures out.Ok? ==> Stage(s, r, counts[x.cls := x.idx + 1], cc, {}, out.value)
  {
    ClassOfDepicted(s, r, x, j);
    var keys := ord(j.members.Keys);
    out := FillMembersStage(s, r, counts, reg, x, j.members, {}, st, keys);
    assert {} + Elements(keys) == j.members.Keys;
    if out.Ok? {
      StageNext(s, r, counts, x, j.members, out.value, cc);
    }
    forall f | 0 <= f < |s.classes[x.cls].features| && s.classes[x.cls].features[f].name !in j.members
      ensures SlotLoadable(s.classes[x.cls].features[f], r[x.cls][x.idx][f])
    {
      var feature := s.classes[x.cls].features[f];
      assert ValidFeature(s, feature) && SlotFits(r, feature, r[x.cls][x.idx][f]) && MemberOk(s, r, x, f, j.members);
    }
    LoadableByKeys(s, r, x, j.members.Keys);
  }

  lemma LoadableByKeys(s: Schema, r: Resource, x: Ref, keys: set<string>)
    requires Typed(s, r) && Valid(r, x)
    requires forall f :: 0 <= f < |s.classes[x.cls].features| && s.classes[x.cls].features[f].name !in keys ==>
               SlotLoadable(s.classes[x.cls].features[f], r[x.cls][x.idx][f])
    ensures (forall k :: k in keys ==> KeyLoadable(s, r, x, k)) <==> ObjectLoadable(s, r, x)
  {
    forall f | (forall k :: k in keys ==> KeyLoadable(s, r, x, k)) && 0 <= f < |s.classes[x.cls].features|
      ensures SlotLoadable(s.classes[x.cls].features[f], r[x.cls][x.idx][f])
    {
      assert s.classes[x.cls].features[f].name in keys ==> KeyLoadable(s, r, x, s.classes[x.cls].features[f].name);
    }
  }

  /** The sorted listing of all objects, the first `p` of them filled. */
  ghost predicate FilledTo(s: Schema, r: Resource, refs: seq<Ref>, p: nat, st: Resource, cc: nat)
    requires Typed(s, r) && p <= |refs|
  {
    && cc < |r|
    && (forall x :: x in refs[..p] ==> x.cls < |r|)
    && (forall c :: 0 <= c < |r| ==> Counts(|r|, refs[..p])[c] <= |r[c]|)
    && Stage(s, r, Counts(|r|, refs[..p]), cc, {}, st)
  }

  lemma FillStep(s: Schema, r: Resource, objects: seq<Json>, refs: seq<Ref>, p: nat, reg: Registry,
                 st: Resource, ord: set<string> -> seq<string>, cc: nat)
    returns (out: Result<Resource, LoadError>)
    requires Typed(s, r) && Listing(s, r, objects, refs) && Complete(r, refs) && InKeyOrder(s, refs) && KeyOrder(ord)
    requires p < |refs| && Registered(s, Sizes(r), reg) && FilledTo(s, r, refs, p, st, cc)
    ensures out == FillObject(s, objects[p], reg, st, ord)
    ensures Valid(r, refs[p])
    ensures out.Ok? <==> ObjectLoadable(s, r, refs[p])
    ensures out.Ok? ==> FilledTo(s, r, refs, p + 1, out.value, cc)
  {
    hide Depicts, Stage, FillObject, Complete, InKeyOrder, ObjectLoadable, Registered, Counts, ValidSchema, WellTyped;
    var counts := NextCounts(s, r, refs, p);
    var x, j := refs[p], objects[p];
    assert Depicts(s, r, x, j);
    out := FillNext(s, r, counts, reg, x, j, st, ord, cc);
    if out.Ok? {
      var counts' := counts[x.cls := x.idx + 1];
      assert Counts(|r|, refs[..p + 1]) == counts';
      assert forall c :: 0 <= c < |r| ==> counts'[c] <= |r[c]|;
    }
  }

  lemma NextCounts(s: Schema, r: Resource, refs: seq<Ref>, p: nat) returns (counts: seq<nat>)
    requires Typed(s, r) && Complete(r, refs) && InKeyOrder(s, refs) && p < |refs|
    ensures forall x :: x in refs[..p] ==> x.cls < |r|
    ensures forall x :: x in refs[..p + 1] ==> x.cls < |r|
    ensures Valid(r, refs[p])
    ensures counts == Counts(|r|, refs[..p]) && counts[refs[p].cls] == refs[p].idx
    ensures Counts(|r|, refs[..p + 1]) == counts[refs[p].cls := refs[p].idx + 1]
    ensures forall c :: 0 <= c < |r| ==> counts[c] <= |r[c]|
  {
    SortedIsArenaOrder(s, r, refs, p);
    CountsNext(|r|, refs, p);
    counts := Counts(|r|, refs[..p]);
  }

  lemma FillNext(s: Schema, r: Resource, counts: seq<nat>, reg: Registry, x: Ref, j: Json, st: Resource,
                 ord: set<string> -> seq<string>, cc: nat)
    returns (out: Result<Resource, LoadError>)
    requires Typed(s, r) && Depicts(s, r, x, j) && KeyOrder(ord) && cc < |r|
    requires |counts| == |r| && (forall d :: 0 <= d < |r| ==> counts[d] <= |r[d]|) && counts[x.cls] == x.idx
    requires Registered(s, Sizes(r), reg) && Stage(s, r, counts, cc, {}, st)
    ensures out == FillObject(s, j, reg, st, ord)
    ensures out.Ok? <==> ObjectLoadable(s, r, x)
    ensures out.Ok? ==> Stage(s, r, counts[x.cls := x.idx + 1], cc, {}, out.value)
  {
    StageStart(s, r, counts, cc, x.cls, st);
    assert j == Obj(j.members);
    out := FillObjectStage(s, r, counts, reg, x, j, st, ord, cc);
  }

  lemma FilledToEnd(s: Schema, r: Resource, refs: seq<Ref>, st: Resource, cc: nat)
    requires Typed(s, r) && Complete(r, refs) && InKeyOrder(s, refs) && FilledTo(s, r, refs, |refs|, st, cc)
    ensures Stage(s, r, Sizes(r), cc, {}, st)
  {
    assert refs[..|refs|] == refs;
    forall c | 0 <= c < |r| ensures Counts(|r|, refs)[c] == |r[c]| {
      CompleteCounts(s, r, refs, c);
    }
    assert Counts(|r|, refs) == Sizes(r);
  }

  lemma {:induction false} FillFrom(s: Schema, r: Resource, objects: seq<Json>, refs: seq<Ref>, p: nat, reg: Registry,
                                    st: Resource, ord: set<string> -> seq<string>, cc: nat)
    returns (out: Result<Resource, LoadError>)
    requires Typed(s, r) && Listing(s, r, objects, refs) && Complete(r, refs) && InKeyOrder(s, refs) && KeyOrder(ord)
    requires p <= |refs| && Registered(s, Sizes(r), reg) && FilledTo(s, r, refs, p, st, cc)
    ensures forall q :: p <= q < |refs| ==> Valid(r, refs[q])
    ensures out == FillAll(s, objects[p..], reg, st, ord)
    ensures out.Ok? <==> forall q :: p <= q < |refs| ==> ObjectLoadable(s, r, refs[q])
    ensures out.Ok? ==> Stage(s, r, Sizes(r), cc, {}, out.value)
    decreases |refs| - p
  {
    if p == |refs| {
      out := Ok(st);
      FilledToEnd(s, r, refs, st, cc);
    } else {
      out := FillStep(s, r, objects, refs, p, reg, st, ord, cc);
      FillAllStep(s, objects, p, reg, st, ord);
      if out.Ok? {
        out := FillFrom(s, r, objects, refs, p + 1, reg, out.value, ord, cc);
      } else {
        AllValid(s, r, refs);
      }
    }
  }

  lemma AllValid(s: Schema, r: Resource, refs: seq<Ref>)
    requires Complete(r, refs)
    ensures forall q :: 0 <= q < |refs| ==> Valid(r, refs[q])
  {
    forall q | 0 <= q < |refs| ensures Valid(r, refs[q]) {
      assert refs[q] in refs;
    }
  }

  lemma FillAllStep(s: Schema, objects: seq<Json>, p: nat, reg: Registry, st: Resource, ord: set<string> -> seq<string>)
    requires ValidSchema(s) && |reg| == |s.classes| && KeyOrder(ord) && p < |objects|
    ensures FillAll(s, objects[p..], reg, st, ord) ==
            match FillObject(s, objects[p], reg, st, ord)
            case Err(e) => Err(e)
            case Ok(st') => FillAll(s, objects[p + 1..], reg, st', ord)
  {
    assert objects[p..][0] == objects[p] && objects[p..][1..] == objects[p + 1..];
  }

  /** With no member done, it does not matter which class is being filled. */
  lemma StageStart(s: Schema, r: Resource, counts: seq<nat>, cc: nat, cc': nat, st: Resource)
    requires Typed(s, r) && cc < |r| && cc' < |r|
    requires |counts| == |r| && forall d :: 0 <= d < |r| ==> counts[d] <= |r[d]|
    requires Stage(s, r, counts, cc, {}, st)
    ensures Stage(s, r, counts, cc', {}, st)
  {
    forall c: nat, i: nat, g: nat | InArena(st, c, i, g)
      ensures StageSlot(s, r, counts, cc, {}, c, i, g) == StageSlot(s, r, counts, cc', {}, c, i, g)
    {
    }
  }

  lemma BlankIsFirstStage(s: Schema, r: Resource, st: Resource, cc: nat)
    requires Typed(s, r) && Blank(s, Sizes(r), st) && cc < |r|
    ensures Stage(s, r, Counts(|r|, []), cc, {}, st)
  {
    var zero := Counts(|r|, []);
    forall c: nat, i: nat, g: nat | InArena(st, c, i, g) ensures st[c][i][g] == StageSlot(s, r, zero, cc, {}, c, i, g) {
      assert st[c][i] == DefaultObject(s.classes[c]);
      FirstStageSlot(s, r, zero, cc, c, i, g);
    }
  }

  lemma FirstStageSlot(s: Schema, r: Resource, zero: seq<nat>, cc: nat, c: nat, i: nat, g: nat)
    requires Typed(s, r) && Valid(r, Ref(c, i)) && g < |r[c][i]| && cc < |r|
    requires |zero| == |r| && forall d :: 0 <= d < |r| ==> zero[d] == 0
    ensures StageSlot(s, r, zero, cc, {}, c, i, g) == DefaultSlot(s.classes[c].features[g])
  {
    assert ValidFeature(s, s.classes[c].features[g]);
  }

  lemma LastStageIsNormalised(s: Schema, r: Resource, st: Resource, cc: nat)
    requires Typed(s, r) && cc < |r| && Stage(s, r, Sizes(r), cc, {}, st)
    ensures st == Normalise(s, r)
  {
    var n := Normalise(s, r);
    forall c: nat, i: nat, g: nat | InArena(st, c, i, g) ensures st[c][i][g] == n[c][i][g] {
      assert ValidFeature(s, s.classes[c].features[g]);
    }
    SameResource(st, n);
  }

  // ----- the theorems -----

  /** Loading a saved document, for every resource of every schema and every order
      in which the JSON library walks members: it fails exactly when a list holds a
      number that is not finite, and otherwise gives the resource with repeated
      references dropped and container pointers rebuilt. */
  lemma LoadOfSave(s: Schema, r: Resource, ord: set<string> -> seq<string>)
    requires Typed(s, r) && KeyOrder(ord)
    ensures var loaded := LoadDocument(s, SaveDocument(s, r), ord);
            if Loadable(s, r) then loaded == Ok(Normalise(s, r)) else loaded.Err?
  {
    hide InKeyOrder, ObjectLoadable, Depicts, Stage;
    var objects, refs := SortedSave(s, r);
    var reg, st := RegisterSave(s, r, objects, refs);
    if |r| == 0 {
      assert refs != [] ==> Valid(r, refs[0]);
      assert Normalise(s, r) == [] == st;
    } else {
      BlankIsFirstStage(s, r, st, 0);
      assert objects[0..] == objects && refs[..0] == [];
      var out := FillFrom(s, r, objects, refs, 0, reg, st, ord, 0);
      LoadableByObjects(s, r, refs);
      if out.Ok? {
        LastStageIsNormalised(s, r, out.value, 0);
      }
    }
  }

  /** The saved document, flattened and sorted: the arenas in order. */
  lemma SortedSave(s: Schema, r: Resource) returns (objects: seq<Json>, refs: seq<Ref>)
    requires Typed(s, r)
    ensures Header(s, SaveDocument(s, r)).Ok?
    ensures CollectRoots(s, Header(s, SaveDocument(s, r)).value).Ok?
    ensures objects == SortByKey(CollectRoots(s, Header(s, SaveDocument(s, r)).value).value)
    ensures Listing(s, r, objects, refs) && Complete(r, refs) && InKeyOrder(s, refs)
  {
    var collected, emitted := SaveEmitsEveryObjectOnce(s, r);
    refs := SortListing(s, r, collected, emitted);
    objects := SortByKey(collected);
    SortByKeySorts(collected);
    forall p, q | 0 <= p < q < |refs| ensures !KeyLess(KeyOf(s, refs[q]), KeyOf(s, refs[p])) {
      DocumentKeyOfDepicted(s, r, refs[p], objects[p]);
      DocumentKeyOfDepicted(s, r, refs[q], objects[q]);
    }
  }

  lemma RegisterSave(s: Schema, r: Resource, objects: seq<Json>, refs: seq<Ref>) returns (reg: Registry, st: Resource)
    requires Typed(s, r) && Listing(s, r, objects, refs) && Complete(r, refs) && InKeyOrder(s, refs)
    ensures RegisterAll(s, objects, EmptyRegistry(s), EmptyResource(s)) == Ok((reg, st))
    ensures Registered(s, Sizes(r), reg) && Blank(s, Sizes(r), st)
  {
    assert objects[0..] == objects && refs[..0] == [];
    reg, st := RegisterFrom(s, r, objects, refs, 0, EmptyRegistry(s), EmptyResource(s));
    forall c | 0 <= c < |r| ensures Counts(|r|, refs)[c] == |r[c]| {
      CompleteCounts(s, r, refs, c);
    }
    assert Counts(|r|, refs) == Sizes(r);
  }

  lemma LoadableByObjects(s: Schema, r: Resource, refs: seq<Ref>)
    requires Typed(s, r) && Complete(r, refs)
    ensures Loadable(s, r) <==> forall q :: 0 <= q < |refs| ==> ObjectLoadable(s, r, refs[q])
  {
    forall q | Loadable(s, r) && 0 <= q < |refs| ensures ObjectLoadable(s, r, refs[q]) {
      assert refs[q] in refs;
    }
    if forall q :: 0 <= q < |refs| ==> ObjectLoadable(s, r, refs[q]) {
      forall c, i | 0 <= c < |r| && 0 <= i < |r[c]| ensures ObjectLoadable(s, r, Ref(c, i)) {
        assert Valid(r, Ref(c, i)) && Ref(c, i) in refs;
      }
      forall c, i, f | 0 <= c < |r| && 0 <= i < |r[c]| && 0 <= f < |r[c][i]|
        ensures SlotLoadable(s.classes[c].features[f], r[c][i][f])
      {
        assert ObjectLoadable(s, r, Ref(c, i));
      }
    }
  }

  /** What a document can carry: every number is finite, no reference list repeats
      an entry, and every container field holds the highest-numbered object whose
      containment lists this one (nothing when there is none). */
  ghost predicate Faithful(s: Schema, r: Resource)
    requires Typed(s, r)
  {
    forall c, i, f :: 0 <= c < |r| && 0 <= i < |r[c]| && 0 <= f < |r[c][i]| ==> FaithfulSlot(s, r, c, i, f)
  }

  ghost predicate FaithfulSlot(s: Schema, r: Resource, c: nat, i: nat, f: nat)
    requires Typed(s, r) && Valid(r, Ref(c, i)) && f < |r[c][i]|
  {
    var feature := s.classes[c].features[f];
    var slot := r[c][i][f];
    assert ValidFeature(s, feature) && SlotFits(r, feature, slot);
    if feature.derived then true
    else match feature.kind
      case Attribute => NotFinite !in slot.values
      case Container => slot == Optional(LastOwner(s, r, feature.target, |r[feature.target]|, c, i, f))
      case _ => NoDup(slot.keys)
  }

  /** The round trip is the identity exactly for the faithful resources. */
  lemma RoundTripExactly(s: Schema, r: Resource, ord: set<string> -> seq<string>)
    requires Typed(s, r) && KeyOrder(ord)
    ensures LoadDocument(s, SaveDocument(s, r), ord) == Ok(r) <==> Faithful(s, r)
  {
    LoadOfSave(s, r, ord);
    var n := Normalise(s, r);
    forall c: nat, i: nat, f: nat | InArena(r, c, i, f)
      ensures SlotLoadable(s.classes[c].features[f], r[c][i][f]) && n[c][i][f] == r[c][i][f] <==> FaithfulSlot(s, r, c, i, f)
    {
      FaithfulSlotIsFixed(s, r, c, i, f);
    }
    if Faithful(s, r) {
      SameResource(n, r);
    }
    if Loadable(s, r) && n == r {
      forall c, i, f | 0 <= c < |r| && 0 <= i < |r[c]| && 0 <= f < |r[c][i]| ensures FaithfulSlot(s, r, c, i, f) {
        assert InArena(r, c, i, f);
      }
    }
  }

  lemma FaithfulSlotIsFixed(s: Schema, r: Resource, c: nat, i: nat, f: nat)
    requires Typed(s, r) && Valid(r, Ref(c, i)) && f < |r[c][i]|
    ensures SlotLoadable(s.classes[c].features[f], r[c][i][f]) && NormalSlot(s, r, c, i, f) == r[c][i][f]
       <==> FaithfulSlot(s, r, c, i, f)
  {
    var feature := s.classes[c].features[f];
    var slot := r[c][i][f];
    assert ValidFeature(s, feature) && SlotFits(r, feature, slot);
    if slot.Links? {
      DedupFixpoint(slot.keys);
    }
  }

  /** Container fields and containment lists agree: a container field names an
      object exactly when that object's containment lists this one. */
  ghost predicate ContainersAgree(s: Schema, r: Resource)
    requires Typed(s, r)
  {
    forall c, i, f, o :: 0 <= c < |r| && 0 <= i < |r[c]| && 0 <= f < |r[c][i]| && 0 <= o ==> ContainerAgrees(s, r, c, i, f, o)
  }

  ghost predicate ContainerAgrees(s: Schema, r: Resource, c: nat, i: nat, f: nat, o: nat)
    requires Typed(s, r) && Valid(r, Ref(c, i)) && f < |r[c][i]|
  {
    var feature := s.classes[c].features[f];
    assert SlotFits(r, feature, r[c][i][f]) && ValidFeature(s, feature);
    IsReference(feature) && feature.kind.Container? && o < |r[feature.target]| ==>
      (r[c][i][f] == Links([o])
       <==> Owns(s, r, Ref(feature.target, o), FeatureNames(s.classes[feature.target]), c, i, f))
  }

  lemma {:induction false} LastOwnerIsOwner(s: Schema, r: Resource, oc: nat, n: nat, c: nat, i: nat, f: nat)
    requires Typed(s, r) && oc < |r| && n <= |r[oc]|
    ensures var last := LastOwner(s, r, oc, n, c, i, f);
            && (last.Some? ==> Owns(s, r, Ref(oc, last.value), FeatureNames(s.classes[oc]), c, i, f))
            && (forall o :: 0 <= o < n && Owns(s, r, Ref(oc, o), FeatureNames(s.classes[oc]), c, i, f) ==>
                  last.Some? && o <= last.value)
  {
    hide Owns, FeatureNames, ValidSchema, WellTyped;
    if n > 0 {
      LastOwnerIsOwner(s, r, oc, n - 1, c, i, f);
    }
  }

  /** The header's claim: for finite numbers, lists without repetitions and
      container fields that agree with the containments, loading a saved document
      gives back the same arenas, indexes, fields and container pointers. */
  lemma RoundTripIdentity(s: Schema, r: Resource, ord: set<string> -> seq<string>)
    requires Typed(s, r) && KeyOrder(ord) && ContainersAgree(s, r)
    requires forall c, i, f :: 0 <= c < |r| && 0 <= i < |r[c]| && 0 <= f < |r[c][i]| ==>
               (r[c][i][f].Scalars? ==> NotFinite !in r[c][i][f].values) && (r[c][i][f].Links? ==> NoDup(r[c][i][f].keys))
    ensures LoadDocument(s, SaveDocument(s, r), ord) == Ok(r)
  {
    forall c, i, f | 0 <= c < |r| && 0 <= i < |r[c]| && 0 <= f < |r[c][i]| ensures FaithfulSlot(s, r, c, i, f) {
      var feature := s.classes[c].features[f];
      var slot := r[c][i][f];
      assert ValidFeature(s, feature) && SlotFits(r, feature, slot);
      if IsReference(feature) && feature.kind.Container? {
        var oc := feature.target;
        var last := LastOwner(s, r, oc, |r[oc]|, c, i, f);
        LastOwnerIsOwner(s, r, oc, |r[oc]|, c, i, f);
        if last.Some? {
          assert ContainerAgrees(s, r, c, i, f, last.value);
        }
        if slot.keys != [] {
          assert slot.keys == [slot.keys[0]];
          assert Valid(r, Ref(oc, slot.keys[0]));
          assert ContainerAgrees(s, r, c, i, f, slot.keys[0]);
        }
      }
    }
    RoundTripExactly(s, r, ord);
  }

  function PeersSchema(): Schema {
    Schema("m", [Class("Node", "node", [
      Feature("peers", CrossReference, false, true, false, TString, Text(""), 0, None)])])
  }

  /** The claim without its side conditions is false: an object that refers twice
      to itself comes back referring once. */
  lemma RepeatedReferenceIsLost(ord: set<string> -> seq<string>)
    requires KeyOrder(ord)
    ensures Typed(PeersSchema(), [[[Links([0, 0])]]])
    ensures LoadDocument(PeersSchema(), SaveDocument(PeersSchema(), [[[Links([0, 0])]]]), ord) != Ok([[[Links([0, 0])]]])
  {
    var s, r: Resource := PeersSchema(), [[[Links([0, 0])]]];
    assert r[0][0][0].keys[0] == r[0][0][0].keys[1];
    assert !FaithfulSlot(s, r, 0, 0, 0);
    RoundTripExactly(s, r, ord);
  }
}

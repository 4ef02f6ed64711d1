/** What a saved document looks like: every arena object is written inline
    exactly once, in full, and every other mention of it is a link. */
module SavedForm {
  import opened Common
  import opened JsonTree
  import opened Ids
  import opened Schemas
  import opened Saving
  import opened Loading

  ghost predicate Typed(s: Schema, r: Resource) {
    ValidSchema(s) && WellTyped(s, r)
  }

  ghost predicate IsLink(s: Schema, x: Ref, e: Json)
    requires x.cls < |s.classes|
  {
    e == RefObject(IdOf(s, x))
  }

  ghost predicate IsInline(s: Schema, x: Ref, e: Json)
    requires x.cls < |s.classes|
  {
    && Get(e, KEY_REF).None?
    && GetStr(e, KEY_ID) == Some(IdOf(s, x))
    && GetStr(e, KEY_TYPE) == Some(s.classes[x.cls].name)
  }

  ghost predicate Points(s: Schema, x: Ref, e: Json)
    requires x.cls < |s.classes|
  {
    IsLink(s, x, e) || IsInline(s, x, e)
  }

  /** The values a member holds: the array's items, the one value, or none. */
  function MemberValues(f: Feature, members: map<string, Json>): seq<Json> {
    if f.name !in members then []
    else if !f.many then [members[f.name]]
    else if members[f.name].Arr? then members[f.name].items
    else []
  }

  ghost predicate ValuesMatch(s: Schema, f: Feature, slot: Slot, values: seq<Json>)
    requires ValidFeature(s, f)
  {
    if f.kind.Attribute? then slot.Scalars? && values == SaveScalars(slot.values)
    else
      && slot.Links?
      && |values| == |slot.keys|
      && forall k :: 0 <= k < |values| ==> Points(s, Ref(f.target, slot.keys[k]), values[k])
  }

  ghost predicate MemberOk(s: Schema, r: Resource, x: Ref, f: nat, members: map<string, Json>)
    requires Typed(s, r) && Valid(r, x) && f < |s.classes[x.cls].features|
  {
    var feature := s.classes[x.cls].features[f];
    assert ValidFeature(s, feature);
    if IsSaved(feature) then
      && (feature.many ==> feature.name in members && members[feature.name].Arr?)
      && ValuesMatch(s, feature, r[x.cls][x.idx][f], MemberValues(feature, members))
    else feature.name !in members
  }

  /** `key` names a feature of the class at position `f` or later. */
  ghost predicate NamesFrom(cls: Class, f: nat, key: string) {
    exists g :: f <= g < |cls.features| && cls.features[g].name == key
  }

  /** `j` is object `x` written in full. */
  ghost predicate Depicts(s: Schema, r: Resource, x: Ref, j: Json)
    requires Typed(s, r)
  {
    && Valid(r, x)
    && j.Obj?
    && IsInline(s, x, j)
    && (forall f :: 0 <= f < |s.classes[x.cls].features| ==> MemberOk(s, r, x, f, j.members))
    && (forall k :: k in j.members ==> k == KEY_TYPE || k == KEY_ID || NamesFrom(s.classes[x.cls], 0, k))
  }

  /** `objects` depicts `refs`, each once and none visited before; afterwards
      exactly these are visited in addition. */
  ghost predicate Emitted(s: Schema, r: Resource, objects: seq<Json>, refs: seq<Ref>, before: set<Ref>, after: set<Ref>)
    requires Typed(s, r)
  {
    && |objects| == |refs|
    && (forall k :: 0 <= k < |refs| ==> Depicts(s, r, refs[k], objects[k]))
    && NoDup(refs)
    && (forall x :: x in refs ==> x !in before)
    && (forall x :: x in after <==> x in before || x in refs)
  }

  lemma EmittedConcat(s: Schema, r: Resource, o1: seq<Json>, rs1: seq<Ref>, o2: seq<Json>, rs2: seq<Ref>,
                      v0: set<Ref>, v1: set<Ref>, v2: set<Ref>)
    requires Typed(s, r)
    requires Emitted(s, r, o1, rs1, v0, v1) && Emitted(s, r, o2, rs2, v1, v2)
    ensures Emitted(s, r, o1 + o2, rs1 + rs2, v0, v2)
  {
    NoDupConcat(rs1, rs2);
  }

  lemma NothingEmitted(s: Schema, r: Resource, visited: set<Ref>)
    requires Typed(s, r)
    ensures Emitted(s, r, [], [], visited, visited)
  {
  }

  lemma EmittedKeeps(s: Schema, r: Resource, objects: seq<Json>, refs: seq<Ref>, before: set<Ref>, after: set<Ref>)
    requires Typed(s, r) && Emitted(s, r, objects, refs, before, after)
    ensures before <= after
  {
  }

  lemma DepictedIsInline(s: Schema, r: Resource, x: Ref, j: Json)
    requires Typed(s, r) && Depicts(s, r, x, j)
    ensures x.cls < |s.classes| && IsInline(s, x, j)
  {
  }

  /** What `SaveFeatures` adds: the members of the features from `f` on. */
  ghost predicate Written(s: Schema, r: Resource, x: Ref, f: nat, before: map<string, Json>, after: map<string, Json>)
    requires Typed(s, r) && Valid(r, x)
  {
    && (forall g :: f <= g < |s.classes[x.cls].features| ==> MemberOk(s, r, x, g, after))
    && (forall k :: k in before ==> k in after && after[k] == before[k])
    && (forall k :: k in after ==> k in before || NamesFrom(s.classes[x.cls], f, k))
  }

  /** A header and all features written: the object in full. */
  lemma WrittenDepicts(s: Schema, r: Resource, x: Ref, header: map<string, Json>, members: map<string, Json>)
    requires Typed(s, r) && Valid(r, x) && Written(s, r, x, 0, header, members)
    requires header == map[KEY_TYPE := Str(s.classes[x.cls].name), KEY_ID := Str(IdOf(s, x))]
    ensures Depicts(s, r, x, Obj(members))
  {
    hide MemberOk;
    var cls := s.classes[x.cls];
    forall g | 0 <= g < |cls.features| ensures cls.features[g].name != KEY_REF {
      assert ValidFeature(s, cls.features[g]);
    }
    assert KEY_TYPE in header && KEY_ID in header && KEY_REF !in header;
    assert KEY_REF !in members;
  }

  lemma OneEmitted(s: Schema, r: Resource, x: Ref, j: Json, visited: set<Ref>)
    requires Typed(s, r) && Depicts(s, r, x, j) && x !in visited
    ensures Emitted(s, r, [j], [x], visited, visited + {x})
  {
    hide Depicts;
  }

  lemma {:induction false} SaveObjectEmits(s: Schema, r: Resource, x: Ref, visited: set<Ref>) returns (refs: seq<Ref>)
    requires Typed(s, r) && Valid(r, x) && x !in visited
    ensures var (j, v) := SaveObject(s, r, x, visited);
            Depicts(s, r, x, j) && Emitted(s, r, CollectObject(s, x.cls, j), refs, visited, v)
    decreases AllRefs(r) - visited, 0, 0
  {
    assert x in AllRefs(r);
    var cls := s.classes[x.cls];
    var header := map[KEY_TYPE := Str(cls.name), KEY_ID := Str(IdOf(s, x))];
    forall g | 0 <= g < |cls.features| ensures cls.features[g].name !in header {
      assert ValidFeature(s, cls.features[g]);
    }
    hide Depicts, Emitted, Written, ValidFeature, WellTyped;
    var rest := SaveFeaturesEmits(s, r, x, 0, header, visited + {x});
    var (members, v) := SaveFeatures(s, r, x, 0, header, visited + {x});
    WrittenDepicts(s, r, x, header, members);
    OneEmitted(s, r, x, Obj(members), visited);
    refs := [x] + rest;
    EmittedConcat(s, r, [Obj(members)], [x], CollectFeatures(s, x.cls, 0, Obj(members)), rest, visited, visited + {x}, v);
  }

  lemma {:induction false} SaveFeaturesEmits(s: Schema, r: Resource, x: Ref, f: nat, members: map<string, Json>, visited: set<Ref>)
    returns (refs: seq<Ref>)
    requires Typed(s, r) && Valid(r, x) && f <= |s.classes[x.cls].features|
    requires forall g :: f <= g < |s.classes[x.cls].features| ==> s.classes[x.cls].features[g].name !in members
    ensures var (after, v) := SaveFeatures(s, r, x, f, members, visited);
            && Written(s, r, x, f, members, after)
            && Emitted(s, r, CollectFeatures(s, x.cls, f, Obj(after)), refs, visited, v)
    decreases AllRefs(r) - visited, 1, |s.classes[x.cls].features| - f
  {
    hide Depicts, ValuesMatch, MemberOk, CollectItems, SaveChildren;
    var cls := s.classes[x.cls];
    refs := [];
    if f < |cls.features| {
      var feature := cls.features[f];
      assert ValidFeature(s, feature);
      var values, v1, here := FeatureEmits(s, r, x, f, visited);
      var m1 := if IsSaved(feature) then Put(members, feature, values) else members;
      forall g | f < g < |cls.features| ensures cls.features[g].name !in m1 {
        assert cls.features[g].name != feature.name;
      }
      var rest := SaveFeaturesEmits(s, r, x, f + 1, m1, v1);
      var (after, v) := SaveFeatures(s, r, x, f + 1, m1, v1);
      SaveFeaturesStep(s, r, x, f, members, visited, values, v1);
      MemberWritten(s, r, x, f, members, values, after);
      CollectMemberValues(s, feature, after);
      EmittedConcat(s, r, CollectMember(s, feature, Obj(after)), here,
                    CollectFeatures(s, x.cls, f + 1, Obj(after)), rest, visited, v1, v);
      refs := here + rest;
    }
  }

  /** The values feature `f` is saved as, and the visited set afterwards. */
  ghost predicate FeatureSaved(s: Schema, r: Resource, x: Ref, f: nat, visited: set<Ref>, values: seq<Json>, after: set<Ref>)
    requires Typed(s, r) && Valid(r, x) && f < |s.classes[x.cls].features|
  {
    var feature := s.classes[x.cls].features[f];
    var slot := r[x.cls][x.idx][f];
    assert ValidFeature(s, feature) && SlotFits(r, feature, slot);
    if feature.derived || feature.kind.Container? then values == [] && after == visited
    else if feature.kind.Attribute? then values == SaveScalars(slot.values) && after == visited
    else if feature.kind.CrossReference? then values == RefObjects(s, feature.target, slot.keys) && after == visited
    else (values, after) == SaveChildren(s, r, feature.target, slot.keys, visited)
  }

  lemma SaveFeaturesStep(s: Schema, r: Resource, x: Ref, f: nat, members: map<string, Json>, visited: set<Ref>,
                         values: seq<Json>, after: set<Ref>)
    requires Typed(s, r) && Valid(r, x) && f < |s.classes[x.cls].features|
    requires FeatureSaved(s, r, x, f, visited, values, after)
    ensures SaveFeatures(s, r, x, f, members, visited)
         == SaveFeatures(s, r, x, f + 1,
                         if IsSaved(s.classes[x.cls].features[f]) then Put(members, s.classes[x.cls].features[f], values) else members,
                         after)
  {
  }

  lemma SaveFeaturesEnd(s: Schema, r: Resource, x: Ref, members: map<string, Json>, visited: set<Ref>)
    requires Typed(s, r) && Valid(r, x)
    ensures SaveFeatures(s, r, x, |s.classes[x.cls].features|, members, visited) == (members, visited)
  {
  }

  lemma {:induction false} FeatureEmits(s: Schema, r: Resource, x: Ref, f: nat, visited: set<Ref>)
    returns (values: seq<Json>, after: set<Ref>, refs: seq<Ref>)
    requires Typed(s, r) && Valid(r, x) && f < |s.classes[x.cls].features|
    ensures ValidFeature(s, s.classes[x.cls].features[f])
    ensures FeatureSaved(s, r, x, f, visited, values, after)
    ensures IsSaved(s.classes[x.cls].features[f]) ==>
              ValuesMatch(s, s.classes[x.cls].features[f], r[x.cls][x.idx][f], values)
    ensures var feature := s.classes[x.cls].features[f];
            Emitted(s, r, if feature.kind.Containment? then CollectItems(s, feature.target, values) else [], refs, visited, after)
    decreases AllRefs(r) - visited, 1, 0
  {
    var feature := s.classes[x.cls].features[f];
    var slot := r[x.cls][x.idx][f];
    assert ValidFeature(s, feature) && SlotFits(r, feature, slot);
    values, after, refs := [], visited, [];
    if !feature.derived {
      match feature.kind
      case Attribute => values := SaveScalars(slot.values);
      case CrossReference => values := RefObjects(s, feature.target, slot.keys);
      case Containment =>
        refs := SaveChildrenEmits(s, r, feature.target, slot.keys, visited);
        values := SaveChildren(s, r, feature.target, slot.keys, visited).0;
        after := SaveChildren(s, r, feature.target, slot.keys, visited).1;
      case Container =>
    }
  }

  lemma CollectMemberValues(s: Schema, feature: Feature, members: map<string, Json>)
    requires ValidSchema(s) && ValidFeature(s, feature)
    ensures CollectMember(s, feature, Obj(members))
         == if feature.kind.Containment? then CollectItems(s, feature.target, MemberValues(feature, members)) else []
  {
    var values := MemberValues(feature, members);
    if feature.kind.Containment? && !feature.many && values != [] {
      assert values[1..] == [];
      assert CollectItems(s, feature.target, values[1..]) == [];
    }
  }

  lemma MemberWritten(s: Schema, r: Resource, x: Ref, f: nat, members: map<string, Json>, values: seq<Json>, after: map<string, Json>)
    requires Typed(s, r) && Valid(r, x) && f < |s.classes[x.cls].features|
    requires ValidFeature(s, s.classes[x.cls].features[f])
    requires var feature := s.classes[x.cls].features[f];
             && feature.name !in members
             && (IsSaved(feature) ==> ValuesMatch(s, feature, r[x.cls][x.idx][f], values))
             && Written(s, r, x, f + 1, if IsSaved(feature) then Put(members, feature, values) else members, after)
    ensures Written(s, r, x, f, members, after)
    ensures IsSaved(s.classes[x.cls].features[f]) ==> MemberValues(s.classes[x.cls].features[f], after) == values
  {
    var cls := s.classes[x.cls];
    var feature := cls.features[f];
    var slot := r[x.cls][x.idx][f];
    assert SlotFits(r, feature, slot);
    assert !NamesFrom(cls, f + 1, feature.name);
    if IsSaved(feature) {
      var m1 := Put(members, feature, values);
      assert !feature.many ==> |values| <= 1;
      assert feature.name in after <==> feature.name in m1;
      assert MemberValues(feature, after) == values;
    }
    assert MemberOk(s, r, x, f, after);
    forall k | k in after ensures k in members || NamesFrom(cls, f, k) {
      if NamesFrom(cls, f + 1, k) {
        var g :| f + 1 <= g < |cls.features| && cls.features[g].name == k;
      }
    }
  }

  /** The value a contained object is saved as, and the visited set afterwards. */
  function SaveChild(s: Schema, r: Resource, x: Ref, visited: set<Ref>): (out: (Json, set<Ref>))
    requires ValidSchema(s) && WellTyped(s, r) && Valid(r, x)
    ensures visited <= out.1
  {
    if x in visited then (RefObject(IdOf(s, x)), visited) else SaveObject(s, r, x, visited)
  }

  lemma SaveChildrenEnd(s: Schema, r: Resource, t: nat, keys: seq<nat>, visited: set<Ref>)
    requires Typed(s, r) && t < |s.classes|
    ensures SaveChildren(s, r, t, keys[|keys|..], visited) == ([], visited)
  {
  }

  lemma SaveChildrenStep(s: Schema, r: Resource, t: nat, keys: seq<nat>, k: nat, visited: set<Ref>)
    requires Typed(s, r) && t < |s.classes| && k < |keys|
    requires forall i :: 0 <= i < |keys| ==> Valid(r, Ref(t, keys[i]))
    ensures var (item, v) := SaveChild(s, r, Ref(t, keys[k]), visited);
            var (items, v') := SaveChildren(s, r, t, keys[k + 1..], v);
            SaveChildren(s, r, t, keys[k..], visited) == ([item] + items, v')
  {
    assert keys[k..][1..] == keys[k + 1..] && keys[k..][0] == keys[k];
  }

  lemma {:induction false} SaveChildrenEmits(s: Schema, r: Resource, t: nat, keys: seq<nat>, visited: set<Ref>)
    returns (refs: seq<Ref>)
    requires Typed(s, r) && t < |s.classes|
    requires forall k :: 0 <= k < |keys| ==> Valid(r, Ref(t, keys[k]))
    ensures var (items, v) := SaveChildren(s, r, t, keys, visited);
            && (forall k :: 0 <= k < |keys| ==> Points(s, Ref(t, keys[k]), items[k]))
            && Emitted(s, r, CollectItems(s, t, items), refs, visited, v)
    decreases AllRefs(r) - visited, 0, |keys|
  {
    hide Depicts, Emitted, SaveObject, ValidSchema, WellTyped;
    refs := [];
    NothingEmitted(s, r, visited);
    if keys != [] {
      var child := Ref(t, keys[0]);
      var item, v, here, first := RefObject(IdOf(s, child)), visited, [], [];
      if child !in visited {
        here := SaveObjectEmits(s, r, child, visited);
        item := SaveObject(s, r, child, visited).0;
        v := SaveObject(s, r, child, visited).1;
        first := CollectObject(s, t, item);
        DepictedIsInline(s, r, child, item);
      }
      var rest := SaveChildrenEmits(s, r, t, keys[1..], v);
      var (items, v') := SaveChildren(s, r, t, keys[1..], v);
      assert SaveChildren(s, r, t, keys, visited) == ([item] + items, v');
      assert ([item] + items)[1..] == items;
      assert CollectItems(s, t, [item] + items) == first + CollectItems(s, t, items);
      EmittedConcat(s, r, first, here, CollectItems(s, t, items), rest, visited, v, v');
      refs := here + rest;
    }
  }

  /** The object comes at or after position `(c, i)` of the top-level walk. */
  predicate After(x: Ref, c: nat, i: nat) {
    x.cls > c || (x.cls == c && x.idx >= i)
  }

  lemma {:induction false} SaveRootsEmits(s: Schema, r: Resource, c: nat, i: nat, visited: set<Ref>)
    returns (objects: seq<Json>, refs: seq<Ref>)
    requires Typed(s, r) && c <= |r|
    requires c < |r| ==> i <= |r[c]|
    ensures var (items, v) := SaveRoots(s, r, c, i, visited);
            && CollectRoots(s, items) == Ok(objects)
            && Emitted(s, r, objects, refs, visited, v)
            && (forall x :: Valid(r, x) && After(x, c, i) ==> x in v)
    decreases |r| - c, if c < |r| then |r[c]| - i else 0
  {
    hide Depicts, Emitted, SaveObject;
    var (items, v) := SaveRoots(s, r, c, i, visited);
    NothingEmitted(s, r, visited);
    if c == |r| {
      objects, refs := [], [];
    } else if i == |r[c]| {
      objects, refs := SaveRootsEmits(s, r, c + 1, 0, visited);
    } else if Ref(c, i) in visited {
      objects, refs := SaveRootsEmits(s, r, c, i + 1, visited);
      EmittedKeeps(s, r, objects, refs, visited, v);
    } else {
      var x := Ref(c, i);
      var here := SaveObjectEmits(s, r, x, visited);
      var (item, v1) := SaveObject(s, r, x, visited);
      var restObjects, rest := SaveRootsEmits(s, r, c, i + 1, v1);
      var (items', v') := SaveRoots(s, r, c, i + 1, v1);
      assert items == [item] + items' && items[1..] == items';
      ClassOfDepicted(s, r, x, item);
      EmittedKeeps(s, r, restObjects, rest, v1, v');
      objects, refs := CollectObject(s, c, item) + restObjects, here + rest;
      EmittedConcat(s, r, CollectObject(s, c, item), here, restObjects, rest, visited, v1, v');
    }
  }

  lemma ClassOfDepicted(s: Schema, r: Resource, x: Ref, j: Json)
    requires Typed(s, r) && Depicts(s, r, x, j)
    ensures ClassOf(s, j) == Ok(x.cls)
  {
    var d := ClassNamed(s, s.classes[x.cls].name, 0);
    assert d.Some?;
  }

  /** Collecting the saved document yields every arena object, in full, exactly once. */
  lemma SaveEmitsEveryObjectOnce(s: Schema, r: Resource) returns (objects: seq<Json>, refs: seq<Ref>)
    requires Typed(s, r)
    ensures Header(s, SaveDocument(s, r)).Ok?
    ensures CollectRoots(s, Header(s, SaveDocument(s, r)).value) == Ok(objects)
    ensures |objects| == |refs| && NoDup(refs)
    ensures forall k :: 0 <= k < |refs| ==> Depicts(s, r, refs[k], objects[k])
    ensures forall x :: x in refs <==> Valid(r, x)
  {
    hide CollectRoots;
    objects, refs := SaveRootsEmits(s, r, 0, 0, {});
    forall x ensures x in refs <==> Valid(r, x) {
      if x in refs {
        var k :| 0 <= k < |refs| && refs[k] == x;
        assert Depicts(s, r, refs[k], objects[k]);
      }
    }
  }
}

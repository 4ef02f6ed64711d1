/** The loader against the documents it is given: it accepts exactly the
    acceptable ones, and the resource it returns is what the document says. */
module DocumentLoading {
  import opened Common
  import opened JsonTree
  import opened Ids
  import opened Schemas
  import opened Loading
  import opened Documents
  import opened Sorting
  import opened Places
  import opened LoadExact
  import opened RoundTrip
  import opened SaysOnce

  // ----- scalars -----

  /** The two's complement ranges of the integer types. */
  lemma IntegerWidths(n: int)
    ensures InRange(n, 8) <==> -128 <= n <= 127
    ensures InRange(n, 16) <==> -32768 <= n <= 32767
    ensures InRange(n, 32) <==> -2147483648 <= n <= 2147483647
    ensures InRange(n, 64) <==> -9223372036854775808 <= n <= 9223372036854775807
  {
    assert Pow2(7) == 128;
    assert Pow2(15) == 32768 by { assert Pow2(11) == 2048; }
    assert Pow2(31) == 2147483648 by { assert Pow2(19) == 524288; assert Pow2(23) == 8388608; assert Pow2(27) == 134217728; }
    assert Pow2(63) == 9223372036854775808 by {
      assert Pow2(35) == 34359738368;
      assert Pow2(39) == 549755813888;
      assert Pow2(43) == 8796093022208;
      assert Pow2(47) == 140737488355328;
      assert Pow2(51) == 2251799813685248;
      assert Pow2(55) == 36028797018963968;
      assert Pow2(59) == 576460752303423488;
    }
  }

  /** A value is read exactly as its wire form says. */
  lemma ScalarsAreRead(t: ScalarType, j: Json)
    ensures forall v :: LoadScalar(t, j) == Some(v) <==> Reads(t, j, v)
    ensures LoadScalar(t, j).Some? <==> Readable(t, j)
  {
    if LoadScalar(t, j).Some? {
      assert Reads(t, j, LoadScalar(t, j).value);
    }
  }

  // ----- places and ids -----

  /** The sorted objects of a document, where each stands, and what registration
      made of them. */
  ghost predicate Context(objects: seq<Json>, b: Ledger, places: seq<Place>) {
    Sound(b) && Sorted(b.schema, objects, b.list, places)
  }

  lemma StandsInList(s: Schema, objects: seq<Json>, list: seq<Json>, places: seq<Place>, p: Place, o: Json) returns (k: nat)
    requires ValidSchema(s) && Sorted(s, objects, list, places) && StandsAt(s, objects, p, o)
    ensures k < |list| && places[k] == p && list[k] == o
  {
    hide ValidSchema, Placed, StandsAt;
    assert p in places;
    k :| 0 <= k < |places| && places[k] == p;
    StandsAtOnce(s, objects, p, o, list[k]);
  }

  lemma IdentifiedInList(s: Schema, objects: seq<Json>, list: seq<Json>, places: seq<Place>, k: nat, c: nat, id: string)
    requires ValidSchema(s) && Sorted(s, objects, list, places) && k < |list|
    ensures Identified(s, objects, places[k], c, id) <==> Tagged(s, list[k], c, id)
  {
    hide ValidSchema, Placed, StandsAt, OfClass, HasId;
    assert StandsAt(s, objects, places[k], list[k]);
    if Identified(s, objects, places[k], c, id) {
      var o :| StandsAt(s, objects, places[k], o) && OfClass(s, o, c) && HasId(o, id);
      StandsAtOnce(s, objects, places[k], o, list[k]);
    }
  }

  lemma IdentifiedIsListed(s: Schema, objects: seq<Json>, list: seq<Json>, places: seq<Place>, p: Place, c: nat, id: string) returns (k: nat)
    requires ValidSchema(s) && Sorted(s, objects, list, places) && Identified(s, objects, p, c, id)
    ensures k < |list| && places[k] == p && Tagged(s, list[k], c, id)
  {
    hide ValidSchema, Placed, StandsAt, OfClass, HasId, Sorted;
    var o :| StandsAt(s, objects, p, o) && OfClass(s, o, c) && HasId(o, id);
    k := StandsInList(s, objects, list, places, p, o);
  }

  /** Every object has a class and an id, and no two objects share both. */
  lemma TagsAreNew(s: Schema, objects: seq<Json>, list: seq<Json>, places: seq<Place>)
    requires ValidSchema(s) && Sorted(s, objects, list, places)
    ensures NewFrom(s, list, 0) <==> (forall k :: 0 <= k < |list| ==> IsTagged(s, list[k])) && IdsUnique(s, objects)
  {
    hide ValidSchema, Placed, StandsAt, Tagged, Identified, PlaceBefore, SameTag;
    if NewFrom(s, list, 0) {
      forall p, q, c: nat, id | Identified(s, objects, p, c, id) && Identified(s, objects, q, c, id) ensures p == q {
        var k := IdentifiedIsListed(s, objects, list, places, p, c, id);
        var m := IdentifiedIsListed(s, objects, list, places, q, c, id);
        NewMeansApart(s, list, k, m, c, id);
      }
      forall k | 0 <= k < |list| ensures IsTagged(s, list[k]) {
        assert NewTag(s, list[..k], list[k]);
      }
    }
    if (forall k :: 0 <= k < |list| ==> IsTagged(s, list[k])) && IdsUnique(s, objects) {
      forall k, m | 0 <= m < k < |list| ensures !SameTag(s, list[..k][m], list[k]) {
        UniqueMeansApart(s, objects, list, places, m, k);
      }
    }
  }

  lemma UniqueMeansApart(s: Schema, objects: seq<Json>, list: seq<Json>, places: seq<Place>, m: nat, k: nat)
    requires ValidSchema(s) && Sorted(s, objects, list, places) && IdsUnique(s, objects) && m < k < |list|
    ensures !SameTag(s, list[m], list[k])
  {
    hide ValidSchema, Placed, StandsAt, Tagged, Identified, PlaceBefore;
    if c: nat, id :| Tagged(s, list[m], c, id) && Tagged(s, list[k], c, id) {
      IdentifiedInList(s, objects, list, places, m, c, id);
      IdentifiedInList(s, objects, list, places, k, c, id);
    }
  }

  lemma NewMeansApart(s: Schema, list: seq<Json>, k: nat, m: nat, c: nat, id: string)
    requires NewFrom(s, list, 0) && k < |list| && m < |list| && Tagged(s, list[k], c, id) && Tagged(s, list[m], c, id)
    ensures k == m
  {
    hide Tagged;
    assert SameTag(s, list[k], list[m]) && SameTag(s, list[m], list[k]);
    if k < m {
      NewApart(s, list, k, m);
    } else if m < k {
      NewApart(s, list, m, k);
    }
  }

  lemma NewApart(s: Schema, list: seq<Json>, m: nat, k: nat)
    requires NewFrom(s, list, 0) && m < k < |list|
    ensures !SameTag(s, list[m], list[k])
  {
    hide SameTag;
    assert NewTag(s, list[..k], list[k]) && list[..k][m] == list[m];
  }

  // ----- references -----

  /** The id an entry names, if it names one. */
  lemma TargetNames(reg: Registry, t: nat, e: Json)
    requires t < |reg|
    ensures IdTarget(reg, t, e).Ok? ==> exists id :: Names(e, id) && id in reg[t] && IdTarget(reg, t, e).value == reg[t][id]
    ensures forall id :: Names(e, id) && id in reg[t] ==> IdTarget(reg, t, e) == Ok(reg[t][id])
  {
    if IdTarget(reg, t, e).Ok? {
      var id := if Get(e, KEY_REF).Some? then Get(e, KEY_REF) else Get(e, KEY_ID);
      assert Names(e, id.value.s);
    }
  }

  /** A filed id belongs to an object of the document. */
  lemma FiledStands(objects: seq<Json>, b: Ledger, places: seq<Place>, t: nat, id: string) returns (k: nat)
    requires Context(objects, b, places) && t < |b.reg| && id in b.reg[t]
    ensures k < |b.list| && k < |places| && b.refs[k] == Ref(t, b.reg[t][id]) && Identified(b.schema, objects, places[k], t, id)
  {
    hide ValidSchema, OfClass, Identified, Placed;
    assert IsFiled(b.list, b.refs, Ref(t, b.reg[t][id]), id);
    k :| 0 <= k < |b.refs| && b.refs[k] == Ref(t, b.reg[t][id]) && HasId(b.list[k], id);
    assert Enrolled(b.schema, b.list[k], b.refs[k], b.reg);
    assert Tagged(b.schema, b.list[k], t, id);
    IdentifiedInList(b.schema, objects, b.list, places, k, t, id);
  }

  /** An object of the document is filed under its id. */
  lemma StandingIsFiled(objects: seq<Json>, b: Ledger, places: seq<Place>, p: Place, t: nat, id: string) returns (k: nat)
    requires Context(objects, b, places) && Identified(b.schema, objects, p, t, id)
    ensures k < |b.list| && k < |places| && places[k] == p && t < |b.reg| && id in b.reg[t] && b.refs[k] == Ref(t, b.reg[t][id])
  {
    hide ValidSchema, Identified, Placed, IsFiled;
    k := IdentifiedIsListed(b.schema, objects, b.list, places, p, t, id);
    assert Enrolled(b.schema, b.list[k], b.refs[k], b.reg);
    TagIs(b.schema, b.list[k]);
  }

  /** An entry resolves to an object exactly when it names the object's id. */
  lemma TargetIs(objects: seq<Json>, b: Ledger, places: seq<Place>, t: nat, e: Json, k: nat)
    requires Context(objects, b, places) && t < |b.reg| && k < |b.list| && k < |places|
    requires b.refs[k].cls == t
    ensures IdTarget(b.reg, t, e) == Ok(b.refs[k].idx) <==> exists id :: Names(e, id) && Identified(b.schema, objects, places[k], t, id)
  {
    TargetNames(b.reg, t, e);
    hide Sound, IdTarget, Names, Identified, Sorted;
    if IdTarget(b.reg, t, e) == Ok(b.refs[k].idx) {
      var id :| Names(e, id) && id in b.reg[t] && b.refs[k].idx == b.reg[t][id];
      var m := FiledStands(objects, b, places, t, id);
      ListedOnce(b, m, k);
    }
    if id :| Names(e, id) && Identified(b.schema, objects, places[k], t, id) {
      var m := StandingIsFiled(objects, b, places, places[k], t, id);
      PlacesOnce(objects, b, places, m, k);
    }
  }

  lemma PlacesOnce(objects: seq<Json>, b: Ledger, places: seq<Place>, m: nat, k: nat)
    requires Context(objects, b, places) && m < |places| && k < |places| && places[m] == places[k]
    ensures m == k
  {}

  lemma TargetResolves(objects: seq<Json>, b: Ledger, places: seq<Place>, t: nat, e: Json)
    requires Context(objects, b, places) && t < |b.reg|
    ensures IdTarget(b.reg, t, e).Ok? <==> Resolves(b.schema, objects, t, e)
    ensures IdTarget(b.reg, t, e).Ok? ==> Ref(t, IdTarget(b.reg, t, e).value) in b.refs
  {
    TargetNames(b.reg, t, e);
    hide Sound, IdTarget, Names, Identified, Sorted;
    if IdTarget(b.reg, t, e).Ok? {
      var id :| Names(e, id) && id in b.reg[t] && IdTarget(b.reg, t, e).value == b.reg[t][id];
      var k := FiledStands(objects, b, places, t, id);
    }
    if p, id :| Names(e, id) && Identified(b.schema, objects, p, t, id) {
      var k := StandingIsFiled(objects, b, places, p, t, id);
    }
  }

  // ----- acceptance -----

  lemma AllResolve(objects: seq<Json>, b: Ledger, places: seq<Place>, t: nat, entries: seq<Json>)
    requires Context(objects, b, places) && t < |b.reg|
    ensures AllTarget(b.reg, t, entries) <==> forall e :: e in entries ==> Resolves(b.schema, objects, t, e)
  {
    hide Indexed, ValidSchema, IdTarget, Resolves, Sorted;
    forall e | e in entries ensures IdTarget(b.reg, t, e).Ok? <==> Resolves(b.schema, objects, t, e) {
      TargetResolves(objects, b, places, t, e);
    }
    if forall e :: e in entries ==> Resolves(b.schema, objects, t, e) {
      forall k | 0 <= k < |entries| ensures IdTarget(b.reg, t, entries[k]).Ok? {
        assert entries[k] in entries;
      }
    }
  }

  lemma AllReadable(t: ScalarType, items: seq<Json>)
    ensures LoadScalars(t, items).Ok? <==> forall e :: e in items ==> Readable(t, e)
  {
    hide LoadScalar, LoadScalars, Readable;
    LoadScalarsExactly(t, items);
    forall e | e in items ensures LoadScalar(t, e).Some? <==> Readable(t, e) {
      ScalarsAreRead(t, e);
    }
    if forall e :: e in items ==> Readable(t, e) {
      forall k | 0 <= k < |items| ensures LoadScalar(t, items[k]).Some? {
        assert items[k] in items;
      }
    }
  }

  lemma MemberLoadsIsFits(objects: seq<Json>, b: Ledger, places: seq<Place>, feature: Feature, v: Json)
    requires Context(objects, b, places) && (!feature.kind.Attribute? ==> feature.target < |b.reg|)
    ensures MemberLoads(b.reg, feature, v) <==> MemberFits(b.schema, objects, feature, v)
  {
    hide Sound, IdTarget, Resolves, Sorted, LoadScalars, LoadScalar, Readable, AllTarget;
    if feature.kind.Attribute? {
      ScalarsAreRead(feature.scalar, v);
      if v.Arr? {
        AllReadable(feature.scalar, v.items);
      }
    } else if feature.many {
      if v.Arr? {
        AllResolve(objects, b, places, feature.target, v.items);
      }
    } else {
      AllResolve(objects, b, places, feature.target, [v]);
      assert [v][0] == v;
    }
  }

  lemma KeyLoadsIsFits(objects: seq<Json>, b: Ledger, places: seq<Place>, c: nat, key: string, v: Json)
    requires Context(objects, b, places) && c < |b.schema.classes|
    ensures KeyLoads(b.schema, b.reg, c, key, v) <==> KeyFits(b.schema, objects, c, key, v)
  {
    hide Indexed, Sorted, MemberLoads, MemberFits;
    var features := b.schema.classes[c].features;
    forall f | 0 <= f < |features| ensures KeyLoadsInto(b.schema, b.reg, c, f, v) <==> MemberFits(b.schema, objects, features[f], v) {
      assert ValidFeature(b.schema, features[f]);
      MemberLoadsIsFits(objects, b, places, features[f], v);
    }
  }

  lemma ObjectLoadsIsFits(objects: seq<Json>, b: Ledger, places: seq<Place>, k: nat)
    requires Context(objects, b, places) && k < |b.list|
    ensures ObjectLoads(b, k) <==> ObjectFits(b.schema, objects, b.list[k])
  {
    hide Indexed, Sorted, KeyLoads, KeyFits, ValidSchema;
    var s, c, o := b.schema, b.refs[k].cls, b.list[k];
    ClassInRange(b, k);
    TagIs(s, o);
    assert Tagged(s, o, c, IdText(o));
    forall key | key in o.members ensures KeyLoads(s, b.reg, c, key, o.members[key]) <==> KeyFits(s, objects, c, key, o.members[key]) {
      KeyLoadsIsFits(objects, b, places, c, key, o.members[key]);
    }
    if ObjectFits(s, objects, o) {
      var d: nat, id :| OfClass(s, o, d) && HasId(o, id) && forall key :: key in o.members ==> KeyFits(s, objects, d, key, o.members[key]);
      assert Tagged(s, o, d, id);
      assert d == c;
    }
  }

  // ----- what the slots say -----

  /** Where each arena entry stands in the document. */
  ghost function PlacesOf(refs: seq<Ref>, places: seq<Place>): (at: map<Ref, Place>)
    requires |refs| == |places|
    ensures forall x :: x in at <==> x in refs
  {
    map x | x in refs :: var k :| 0 <= k < |refs| && refs[k] == x; places[k]
  }

  lemma PlaceOf(objects: seq<Json>, b: Ledger, places: seq<Place>, k: nat)
    requires Context(objects, b, places) && k < |b.list|
    ensures |b.refs| == |places|
    ensures b.refs[k] in PlacesOf(b.refs, places) && PlacesOf(b.refs, places)[b.refs[k]] == places[k]
  {
    var x := b.refs[k];
    assert x in b.refs;
    hide Indexed, ValidSchema, StandsAt, Placed;
    forall m | 0 <= m < |b.refs| && b.refs[m] == x ensures m == k {
      ListedOnce(b, m, k);
    }
  }

  lemma DenotesIs(objects: seq<Json>, b: Ledger, places: seq<Place>, at: map<Ref, Place>, t: nat, e: Json, i: nat)
    requires Context(objects, b, places) && t < |b.reg| && |b.refs| == |places| && at == PlacesOf(b.refs, places)
    ensures Denotes(b.schema, objects, at, e, Ref(t, i)) <==> IdTarget(b.reg, t, e) == Ok(i)
  {
    var x := Ref(t, i);
    hide Sound, IdTarget, Resolves, Sorted, Identified, Names;
    if IdTarget(b.reg, t, e) == Ok(i) {
      TargetResolves(objects, b, places, t, e);
    }
    if x in b.refs {
      var k :| 0 <= k < |b.refs| && b.refs[k] == x;
      LedgerLength(b);
      PlaceOf(objects, b, places, k);
      TargetIs(objects, b, places, t, e, k);
    }
  }

  lemma LedgerLength(b: Ledger)
    requires Sound(b)
    ensures |b.refs| == |b.list| && |b.reg| == |b.schema.classes|
  {}

  /** An attribute's content is what the document says. */
  lemma AttributeContent(reg: Registry, feature: Feature, o: Json)
    requires feature.kind.Attribute? && !feature.derived && o.Obj?
    requires feature.name in o.members ==> MemberLoads(reg, feature, o.members[feature.name])
    ensures AttributeSays(feature, o, Content(reg, feature, o))
  {
    hide LoadScalar, LoadScalars, Reads;
    if feature.name in o.members && (feature.many || !o.members[feature.name].Null?) {
      var v := o.members[feature.name];
      if feature.many {
        LoadScalarsExactly(feature.scalar, v.items);
        forall k | 0 <= k < |v.items| ensures Reads(feature.scalar, v.items[k], LoadScalars(feature.scalar, v.items).value[k]) {
          ScalarsAreRead(feature.scalar, v.items[k]);
        }
      } else {
        ScalarsAreRead(feature.scalar, v);
      }
    }
  }

  lemma EntriesLoad(reg: Registry, feature: Feature, o: Json)
    requires !feature.kind.Attribute? && feature.target < |reg| && o.Obj?
    requires feature.name in o.members ==> MemberLoads(reg, feature, o.members[feature.name])
    ensures AllTarget(reg, feature.target, Entries(feature, o))
  {
    hide IdTarget;
  }

  /** A reference's content is what the document says. */
  lemma ReferenceContent(objects: seq<Json>, b: Ledger, places: seq<Place>, at: map<Ref, Place>, feature: Feature, o: Json)
    requires Context(objects, b, places) && |b.refs| == |places| && at == PlacesOf(b.refs, places)
    requires IsSaved(feature) && !feature.kind.Attribute? && feature.target < |b.reg| && AllTarget(b.reg, feature.target, Entries(feature, o))
    ensures ReferenceSays(b.schema, objects, at, feature, o, Content(b.reg, feature, o))
  {
    hide Indexed, ValidSchema, IdTarget, Sorted, Denotes, Entries, PlacesOf, FirstAppearances;
    var t, entries := feature.target, Entries(feature, o);
    var targets := Targets(b.reg, t, entries);
    forall k | 0 <= k < |targets| ensures Denotes(b.schema, objects, at, entries[k], Ref(t, targets[k])) {
      DenotesIs(objects, b, places, at, t, entries[k], targets[k]);
    }
    DedupKeepsFirst(targets);
    assert AllDenote(b.schema, objects, at, t, entries, targets);
  }

  /** The back-pointer of a containment is the field its declaration names. */
  lemma ContainerFieldIs(s: Schema, owner: nat, containment: Feature, f: nat)
    requires containment.target < |s.classes|
    ensures ContainerField(s, owner, containment) == Some(f) <==> PointsBack(s, owner, containment, f)
  {
    ContainerFieldFromIs(s, owner, containment, 0, f);
  }

  lemma {:induction false} ContainerFieldFromIs(s: Schema, owner: nat, containment: Feature, n: nat, f: nat)
    requires containment.target < |s.classes| && n <= |s.classes[containment.target].features|
    requires forall g :: 0 <= g < n ==> !IsBackPointer(s.classes[containment.target].features[g], owner, containment)
    ensures ContainerFieldFrom(s, containment.target, owner, containment.opposite, n) == Some(f) <==> PointsBack(s, owner, containment, f)
    decreases |s.classes[containment.target].features| - n
  {
    if n < |s.classes[containment.target].features| && !IsBackPointer(s.classes[containment.target].features[n], owner, containment) {
      ContainerFieldFromIs(s, owner, containment, n + 1, f);
    }
  }

  // ----- containers -----

  /** Ownership is containment as the document writes it. */
  lemma OwnsByIs(objects: seq<Json>, b: Ledger, places: seq<Place>, at: map<Ref, Place>, m: nat, g: nat, x: Ref, f: nat)
    requires Context(objects, b, places) && |b.refs| == |places| && at == PlacesOf(b.refs, places)
    requires m < |b.list| && OnSlot(b, m, g) && x.cls < |b.reg| && ObjectLoads(b, m)
    ensures OwnsBy(b, m, g, x, f) <==> ContainsThrough(b.schema, objects, at, b.refs[m].cls, b.list[m], g, x, f)
  {
    hide Indexed, Sorted, IdTarget, Denotes, Entries, PlacesOf, ContainerField, PointsBack, AllTarget, Targets;
    var s, c, o := b.schema, b.refs[m].cls, b.list[m];
    var containment := s.classes[c].features[g];
    assert ValidFeature(s, containment);
    if containment.kind.Containment? && containment.target == x.cls {
      ContainerFieldIs(s, c, containment, f);
      ContainmentLoads(b, m, g);
      TargetListed(objects, b, places, at, x, Entries(containment, o));
    }
  }

  lemma ContainmentLoads(b: Ledger, m: nat, g: nat)
    requires Sound(b) && m < |b.list| && OnSlot(b, m, g) && ObjectLoads(b, m)
    requires b.schema.classes[b.refs[m].cls].features[g].kind.Containment?
    ensures var containment := b.schema.classes[b.refs[m].cls].features[g];
            containment.target < |b.reg| && AllTarget(b.reg, containment.target, Entries(containment, b.list[m]))
  {
    hide Indexed;
    var containment := b.schema.classes[b.refs[m].cls].features[g];
    assert ValidFeature(b.schema, containment);
    FeatureLoads(b, m, g);
    EntriesLoad(b.reg, containment, b.list[m]);
  }

  /** A member of a loadable object loads into the feature of its name. */
  lemma FeatureLoads(b: Ledger, m: nat, g: nat)
    requires Sound(b) && m < |b.list| && OnSlot(b, m, g) && ObjectLoads(b, m)
    ensures var feature := b.schema.classes[b.refs[m].cls].features[g];
            feature.name in b.list[m].members ==> IsSaved(feature) && KeyLoadsInto(b.schema, b.reg, b.refs[m].cls, g, b.list[m].members[feature.name])
  {
    hide Indexed, KeyLoadsInto;
    var features := b.schema.classes[b.refs[m].cls].features;
    var key := features[g].name;
    assert ValidFeature(b.schema, features[g]);
    if key in b.list[m].members {
      assert KeyLoads(b.schema, b.reg, b.refs[m].cls, key, b.list[m].members[key]);
      forall f | 0 <= f < |features| && features[f].name == key ensures f == g {
      }
    }
  }

  lemma TargetListed(objects: seq<Json>, b: Ledger, places: seq<Place>, at: map<Ref, Place>, x: Ref, entries: seq<Json>)
    requires Context(objects, b, places) && |b.refs| == |places| && at == PlacesOf(b.refs, places)
    requires x.cls < |b.reg| && AllTarget(b.reg, x.cls, entries)
    ensures x.idx in Targets(b.reg, x.cls, entries) <==> exists e :: e in entries && Denotes(b.schema, objects, at, e, x)
  {
    hide Indexed, ValidSchema, Sorted, IdTarget, Denotes, PlacesOf;
    var targets := Targets(b.reg, x.cls, entries);
    assert x == Ref(x.cls, x.idx);
    forall k | 0 <= k < |entries| ensures Denotes(b.schema, objects, at, entries[k], x) <==> targets[k] == x.idx {
      DenotesIs(objects, b, places, at, x.cls, entries[k], x.idx);
    }
    if x.idx in targets {
      var k :| 0 <= k < |targets| && targets[k] == x.idx;
      assert entries[k] in entries;
    }
  }

  lemma OwnsAtAllIs(objects: seq<Json>, b: Ledger, places: seq<Place>, at: map<Ref, Place>, m: nat, x: Ref, f: nat)
    requires Context(objects, b, places) && |b.refs| == |places| && at == PlacesOf(b.refs, places)
    requires m < |b.list| && x.cls < |b.reg| && ObjectLoads(b, m)
    ensures OwnsAtAll(b, m, x, f) <==> Contains(b.schema, objects, at, b.refs[m], x, f)
  {
    hide Indexed, ValidSchema, Placed, StandsAt, OwnsBy, ContainsThrough, PlacesOf;
    var s, o := b.schema, b.list[m];
    ClassInRange(b, m);
    PlaceOf(objects, b, places, m);
    assert StandsAt(s, objects, at[b.refs[m]], o);
    forall g | 0 <= g < |s.classes[b.refs[m].cls].features|
      ensures OwnsBy(b, m, g, x, f) <==> ContainsThrough(s, objects, at, b.refs[m].cls, o, g, x, f)
    {
      OwnsByIs(objects, b, places, at, m, g, x, f);
    }
    if Contains(s, objects, at, b.refs[m], x, f) {
      var o', g :| StandsAt(s, objects, at[b.refs[m]], o') && 0 <= g < |s.classes[b.refs[m].cls].features|
                   && ContainsThrough(s, objects, at, b.refs[m].cls, o', g, x, f);
      StandsAtOnce(s, objects, places[m], o, o');
    }
  }

  /** The owner kept is the last in the list. */
  lemma {:induction false} LastOnIs(b: Ledger, n: nat, x: Ref, f: nat)
    requires Sound(b) && n <= |b.list|
    ensures var last := LastOn(b, n, x, f);
            && (last.None? ==> forall m :: 0 <= m < n ==> !OwnsAtAll(b, m, x, f))
            && (last.Some? ==> exists m :: 0 <= m < n && OwnsAtAll(b, m, x, f) && last.value == b.refs[m].idx
                                           && forall m' :: m < m' < n ==> !OwnsAtAll(b, m', x, f))
  {
    hide Indexed, ValidSchema, OwnsAtAll;
    if n > 0 && !OwnsAtAll(b, n - 1, x, f) {
      LastOnIs(b, n - 1, x, f);
      if LastOn(b, n, x, f).Some? {
        var m :| 0 <= m < n - 1 && OwnsAtAll(b, m, x, f) && LastOn(b, n, x, f).value == b.refs[m].idx
                 && forall m' :: m < m' < n - 1 ==> !OwnsAtAll(b, m', x, f);
        assert forall m' :: m < m' < n ==> !OwnsAtAll(b, m', x, f);
      }
    }
  }

  /** Whoever owns through a field is of the class the field points to. */
  lemma OwnerClass(b: Ledger, m: nat, x: Ref, f: nat)
    requires Sound(b) && m < |b.list| && OwnsAtAll(b, m, x, f) && x.cls < |b.schema.classes| && f < |b.schema.classes[x.cls].features|
    ensures b.refs[m].cls == b.schema.classes[x.cls].features[f].target
  {
    hide Indexed;
    ClassInRange(b, m);
    var g :| 0 <= g < |b.schema.classes[b.refs[m].cls].features| && OwnsBy(b, m, g, x, f);
    assert ValidFeature(b.schema, b.schema.classes[x.cls].features[f]);
    assert ValidFeature(b.schema, b.schema.classes[b.refs[m].cls].features[g]);
  }

  /** The container field points at the last object that contains this one. */
  lemma ContainerContent(objects: seq<Json>, b: Ledger, places: seq<Place>, at: map<Ref, Place>, x: Ref, f: nat)
    requires Context(objects, b, places) && |b.refs| == |places| && at == PlacesOf(b.refs, places)
    requires x.cls < |b.schema.classes| && f < |b.schema.classes[x.cls].features|
    requires forall m :: 0 <= m < |b.list| ==> ObjectLoads(b, m)
    ensures ContainerSays(b.schema, objects, at, x, f, b.schema.classes[x.cls].features[f].target, Optional(LastOn(b, |b.list|, x, f)))
  {
    hide Enrolled, IsFiled, ValidSchema, Sorted, OwnsAtAll, Contains, PlacesOf, ObjectLoads, LastOn;
    var t := b.schema.classes[x.cls].features[f].target;
    LedgerLength(b);
    var last := LastOn(b, |b.list|, x, f);
    LastOnIs(b, |b.list|, x, f);
    forall n: nat | Contains(b.schema, objects, at, Ref(t, n), x, f)
      ensures exists m :: 0 <= m < |b.list| && b.refs[m] == Ref(t, n) && OwnsAtAll(b, m, x, f)
    {
      ContainerListed(objects, b, places, at, Ref(t, n), x, f);
    }
    if last.Some? {
      var m :| 0 <= m < |b.list| && OwnsAtAll(b, m, x, f) && last.value == b.refs[m].idx
               && forall m' :: m < m' < |b.list| ==> !OwnsAtAll(b, m', x, f);
      OwnerClass(b, m, x, f);
      OwnsAtAllIs(objects, b, places, at, m, x, f);
      assert b.refs[m] == Ref(t, last.value);
      forall n: nat | Contains(b.schema, objects, at, Ref(t, n), x, f) ensures n <= last.value {
        var m' :| 0 <= m' < |b.list| && b.refs[m'] == Ref(t, n) && OwnsAtAll(b, m', x, f);
      }
    }
  }

  lemma ContainerListed(objects: seq<Json>, b: Ledger, places: seq<Place>, at: map<Ref, Place>, y: Ref, x: Ref, f: nat)
    requires Context(objects, b, places) && |b.refs| == |places| && at == PlacesOf(b.refs, places) && x.cls < |b.reg|
    requires forall m :: 0 <= m < |b.list| ==> ObjectLoads(b, m)
    requires Contains(b.schema, objects, at, y, x, f)
    ensures exists m :: 0 <= m < |b.list| && b.refs[m] == y && OwnsAtAll(b, m, x, f)
  {
    hide Indexed, ValidSchema, Sorted, OwnsAtAll, ContainsThrough, PlacesOf, ObjectLoads;
    LedgerLength(b);
    assert y in b.refs;
    var m :| 0 <= m < |b.refs| && b.refs[m] == y;
    OwnsAtAllIs(objects, b, places, at, m, x, f);
  }

  // ----- the loaded resource -----

  ghost predicate AllLoad(b: Ledger)
    requires Sound(b)
  {
    forall m :: 0 <= m < |b.list| ==> ObjectLoads(b, m)
  }

  lemma SlotIsSaid(objects: seq<Json>, b: Ledger, places: seq<Place>, at: map<Ref, Place>, k: nat, f: nat)
    requires Context(objects, b, places) && |b.refs| == |places| && at == PlacesOf(b.refs, places) && AllLoad(b)
    requires k < |b.list| && OnSlot(b, k, f)
    ensures SlotSays(b.schema, objects, at, b.refs[k], f, b.list[k], SlotOn(b, |b.list|, {}, k, f))
  {
    hide Indexed, Sorted, ContainerSays, ReferenceSays, AttributeSays, Content, LastOn, MemberLoads, PlacesOf;
    var feature := b.schema.classes[b.refs[k].cls].features[f];
    assert ValidFeature(b.schema, feature);
    assert ObjectLoads(b, k);
    FeatureLoads(b, k, f);
    if feature.derived {
      DerivedContent(b.reg, feature, b.list[k]);
    } else if feature.kind.Attribute? {
      AttributeContent(b.reg, feature, b.list[k]);
    } else if feature.kind.Container? {
      ContainerContent(objects, b, places, at, b.refs[k], f);
    } else {
      EntriesLoad(b.reg, feature, b.list[k]);
      ReferenceContent(objects, b, places, at, feature, b.list[k]);
    }
  }

  lemma DerivedContent(reg: Registry, feature: Feature, o: Json)
    requires feature.derived && feature.kind.Attribute?
    ensures Content(reg, feature, o) == NotStored
  {}

  lemma AtIs(objects: seq<Json>, b: Ledger, places: seq<Place>, at: map<Ref, Place>, x: Ref) returns (k: nat)
    requires Context(objects, b, places) && |b.refs| == |places| && at == PlacesOf(b.refs, places) && x in at
    ensures k < |b.list| && k < |places| && b.refs[k] == x && at[x] == places[k] && StandsAt(b.schema, objects, at[x], b.list[k])
  {
    hide Indexed, ValidSchema, StandsAt, Placed, PlacesOf;
    k :| 0 <= k < |b.refs| && b.refs[k] == x;
    PlaceOf(objects, b, places, k);
  }

  lemma AtOnce(objects: seq<Json>, b: Ledger, places: seq<Place>, at: map<Ref, Place>, x: Ref, y: Ref)
    requires Context(objects, b, places) && |b.refs| == |places| && at == PlacesOf(b.refs, places)
    requires x in at && y in at && at[x] == at[y]
    ensures x == y
  {
    hide Sound, Sorted, PlacesOf, StandsAt;
    var k := AtIs(objects, b, places, at, x);
    var m := AtIs(objects, b, places, at, y);
    PlacesOnce(objects, b, places, k, m);
  }

  lemma AtAll(objects: seq<Json>, b: Ledger, places: seq<Place>, at: map<Ref, Place>, p: Place, o: Json) returns (x: Ref)
    requires Context(objects, b, places) && |b.refs| == |places| && at == PlacesOf(b.refs, places) && StandsAt(b.schema, objects, p, o)
    ensures x in at && at[x] == p
  {
    hide Indexed, ValidSchema, PlacesOf, StandsAt, Placed;
    var k := StandsInList(b.schema, objects, b.list, places, p, o);
    PlaceOf(objects, b, places, k);
    x := b.refs[k];
  }

  lemma OccupiedIs(objects: seq<Json>, b: Ledger, places: seq<Place>, at: map<Ref, Place>, p: Place)
    requires Context(objects, b, places) && |b.refs| == |places| && at == PlacesOf(b.refs, places)
    ensures p in at.Values <==> Occupied(b.schema, objects, p)
  {
    hide Indexed, ValidSchema, Sorted, StandsAt, PlacesOf;
    if p in at.Values {
      var x :| x in at && at[x] == p;
      var k := AtIs(objects, b, places, at, x);
    }
    if o :| StandsAt(b.schema, objects, p, o) {
      var x := AtAll(objects, b, places, at, p, o);
    }
  }

  lemma AtIsArena(b: Ledger, places: seq<Place>, at: map<Ref, Place>, st: Resource)
    requires |b.refs| == |places| && at == PlacesOf(b.refs, places) && Shaped(b.schema, b.refs, st)
    ensures |st| == |b.schema.classes| && forall x :: x in at <==> Valid(st, x)
  {
    hide PlacesOf, Valid;
  }

  lemma ArenasArranged(objects: seq<Json>, b: Ledger, places: seq<Place>, at: map<Ref, Place>, st: Resource)
    requires Context(objects, b, places) && |b.refs| == |places| && at == PlacesOf(b.refs, places) && Shaped(b.schema, b.refs, st)
    ensures Arranged(b.schema, objects, at, st)
  {
    hide Shaped, Indexed, ValidSchema, Sorted, Occupied, PlacesOf, Valid;
    AtIsArena(b, places, at, st);
    forall x, y | x in at && y in at && at[x] == at[y] ensures x == y {
      AtOnce(objects, b, places, at, x, y);
    }
    forall p ensures p in at.Values <==> Occupied(b.schema, objects, p) {
      OccupiedIs(objects, b, places, at, p);
    }
  }

  lemma ArenasInOrder(objects: seq<Json>, b: Ledger, places: seq<Place>, at: map<Ref, Place>)
    requires Context(objects, b, places) && |b.refs| == |places| && at == PlacesOf(b.refs, places)
    ensures InIdOrder(b.schema, objects, at)
  {
    hide Indexed, ValidSchema, Sorted, StandsAt, PlacesOf, Identified, KeyLess, SortKey, PlaceBefore;
    forall x, y, id, id' | x in at && y in at && x.cls == y.cls && x.idx < y.idx
                           && Identified(b.schema, objects, at[x], x.cls, id) && Identified(b.schema, objects, at[y], y.cls, id')
      ensures KeyLess(SortKey(id), SortKey(id')) || (SortKey(id) == SortKey(id') && PlaceBefore(at[x], at[y]))
    {
      PairInOrder(objects, b, places, at, x, y, id, id');
    }
  }

  lemma PairInOrder(objects: seq<Json>, b: Ledger, places: seq<Place>, at: map<Ref, Place>, x: Ref, y: Ref, id: string, id': string)
    requires Context(objects, b, places) && |b.refs| == |places| && at == PlacesOf(b.refs, places)
    requires x in at && y in at && x.cls == y.cls && x.idx < y.idx
    requires Identified(b.schema, objects, at[x], x.cls, id) && Identified(b.schema, objects, at[y], y.cls, id')
    ensures KeyLess(SortKey(id), SortKey(id')) || (SortKey(id) == SortKey(id') && PlaceBefore(at[x], at[y]))
  {
    hide Indexed, ValidSchema, Sorted, StandsAt, PlacesOf, Identified, KeyLess, SortKey, PlaceBefore, OfClass;
    var k := AtIs(objects, b, places, at, x);
    var m := AtIs(objects, b, places, at, y);
    LedgerLength(b);
    PlacesLength(objects, b, places);
    IdentifiedInList(b.schema, objects, b.list, places, k, x.cls, id);
    IdentifiedInList(b.schema, objects, b.list, places, m, y.cls, id');
    LedgerIncreases(b);
    PlacesSorted(objects, b, places, k, m);
  }

  lemma PlacesLength(objects: seq<Json>, b: Ledger, places: seq<Place>)
    requires Context(objects, b, places)
    ensures |b.list| == |places|
  {}

  lemma LedgerIncreases(b: Ledger)
    requires Sound(b)
    ensures Increasing(b.refs)
  {}

  lemma PlacesSorted(objects: seq<Json>, b: Ledger, places: seq<Place>, k: nat, m: nat)
    requires Context(objects, b, places) && k < m < |b.list|
    ensures |places| == |b.list|
    ensures KeyLess(DocumentKey(b.list[k]), DocumentKey(b.list[m]))
            || (DocumentKey(b.list[k]) == DocumentKey(b.list[m]) && PlaceBefore(places[k], places[m]))
  {
    hide Sound, StandsAt, KeyLess, DocumentKey;
    assert PlacedPair((p: Place, q: Place) => PlaceBefore(p, q), b.list[k], places[k], b.list[m], places[m]);
  }

  /** What the last stage holds is what the document says. */
  lemma LastStageSays(j: Json, b: Ledger, places: seq<Place>, at: map<Ref, Place>, st: Resource)
    requires Sound(b) && HeaderFits(b.schema, j) && Context(j.members["objects"].items, b, places)
    requires |b.refs| == |places| && at == PlacesOf(b.refs, places) && AllLoad(b) && StageOn(b, |b.list|, {}, st)
    ensures Says(b.schema, j, at, st)
  {
    hide Indexed, ValidSchema, Sorted, Arranged, InIdOrder, SlotSays, SlotOn, PlacesOf, AllLoad;
    var objects := j.members["objects"].items;
    ArenasArranged(objects, b, places, at, st);
    ArenasInOrder(objects, b, places, at);
    forall x, o | x in at && StandsAt(b.schema, objects, at[x], o) ensures ObjectSays(b.schema, objects, at, x, o, st[x.cls][x.idx]) {
      var k :| 0 <= k < |b.refs| && b.refs[k] == x;
      PlaceOf(objects, b, places, k);
      ListedStands(objects, b, places, k, o);
      ClassInRange(b, k);
      assert Valid(st, x);
      forall f | 0 <= f < |b.schema.classes[x.cls].features| ensures SlotSays(b.schema, objects, at, x, f, o, st[x.cls][x.idx][f]) {
        assert OnSlot(b, k, f) && HoldsSlot(b, |b.list|, {}, st, k, f);
        SlotIsSaid(objects, b, places, at, k, f);
      }
    }
  }

  lemma ListedStands(objects: seq<Json>, b: Ledger, places: seq<Place>, k: nat, o: Json)
    requires Context(objects, b, places) && k < |b.list| && |places| == |b.list| && StandsAt(b.schema, objects, places[k], o)
    ensures o == b.list[k]
  {
    hide Indexed, ValidSchema, Placed, StandsAt;
    StandsAtOnce(b.schema, objects, places[k], o, b.list[k]);
  }

  lemma HeaderIs(s: Schema, j: Json)
    ensures Header(s, j).Ok? <==> HeaderFits(s, j)
    ensures HeaderFits(s, j) ==> Header(s, j) == Ok(j.members["objects"].items)
  {}

  /** Every document of a schema, in whatever order the JSON library walks members:
      loading accepts exactly the acceptable ones. */
  lemma AcceptsExactly(s: Schema, j: Json, ord: set<string> -> seq<string>)
    requires ValidSchema(s) && KeyOrder(ord)
    ensures LoadDocument(s, j, ord).Ok? <==> Acceptable(s, j)
    ensures LoadDocument(s, j, ord).Ok? ==> exists at :: Says(s, j, at, LoadDocument(s, j, ord).value)
  {
    HeaderIs(s, j);
    hide ValidSchema, Header, CollectRoots, Sorted, Says, ObjectFits, IdsUnique, KeyOrder;
    if HeaderFits(s, j) {
      var objects := j.members["objects"].items;
      assert objects[0..] == objects;
      var found := CollectRootsCovers(s, objects, 0);
      if CollectRoots(s, objects).Ok? {
        var places := SortPlaces(s, objects);
        var at := SortedExactly(s, j, SortByKey(CollectRoots(s, objects).value), places, ord);
      }
    }
  }

  lemma NothingFiled(s: Schema)
    requires ValidSchema(s)
    ensures Indexed(s, [], [], EmptyRegistry(s)) && Shaped(s, [], EmptyResource(s)) && Fresh(s, EmptyResource(s))
  {}

  /** All objects of the document are those of the list. */
  lemma FitsByList(s: Schema, objects: seq<Json>, list: seq<Json>, places: seq<Place>)
    requires ValidSchema(s) && Sorted(s, objects, list, places)
    ensures (forall p, o :: StandsAt(s, objects, p, o) ==> ObjectFits(s, objects, o))
       <==> (forall k :: 0 <= k < |list| ==> ObjectFits(s, objects, list[k]))
  {
    hide ValidSchema, Placed, StandsAt, ObjectFits;
    if forall k :: 0 <= k < |list| ==> ObjectFits(s, objects, list[k]) {
      forall p, o | StandsAt(s, objects, p, o) ensures ObjectFits(s, objects, o) {
        var k := StandsInList(s, objects, list, places, p, o);
      }
    }
  }

  lemma FittingIsTagged(s: Schema, objects: seq<Json>, list: seq<Json>)
    requires ValidSchema(s)
    ensures (forall k :: 0 <= k < |list| ==> ObjectFits(s, objects, list[k])) ==> forall k :: 0 <= k < |list| ==> IsTagged(s, list[k])
  {
    hide ValidSchema, KeyFits;
    forall k | 0 <= k < |list| && ObjectFits(s, objects, list[k]) ensures IsTagged(s, list[k]) {
      var c: nat, id :| OfClass(s, list[k], c) && HasId(list[k], id) && forall key :: key in list[k].members ==> KeyFits(s, objects, c, key, list[k].members[key]);
      assert Tagged(s, list[k], c, id);
    }
  }

  lemma IsContext(objects: seq<Json>, b: Ledger, places: seq<Place>)
    requires ValidSchema(b.schema) && Sorted(b.schema, objects, b.list, places) && Indexed(b.schema, b.list, b.refs, b.reg)
    ensures Sound(b) && Context(objects, b, places) && |b.refs| == |places|
  {
    hide ValidSchema, Placed, StandsAt, Enrolled, IsFiled;
  }

  /** Filling a fresh resource succeeds exactly when every object fits the document. */
  lemma FilledInContext(objects: seq<Json>, b: Ledger, places: seq<Place>, st: Resource, ord: set<string> -> seq<string>)
    requires Context(objects, b, places) && Shaped(b.schema, b.refs, st) && Fresh(b.schema, st) && KeyOrder(ord)
    ensures var out := FillAll(b.schema, b.list, b.reg, st, ord);
            && (out.Ok? <==> forall k :: 0 <= k < |b.list| ==> ObjectFits(b.schema, objects, b.list[k]))
            && (out.Ok? ==> AllLoad(b) && StageOn(b, |b.list|, {}, out.value))
  {
    hide Indexed, ValidSchema, Sorted, ObjectFits, ObjectLoads, KeyOrder, FillAll, Shaped, Fresh, StageOn;
    FirstStage(b, st);
    assert b.list[0..] == b.list;
    FillAllExactly(b, 0, st, ord);
    forall k | 0 <= k < |b.list| ensures ObjectLoads(b, k) <==> ObjectFits(b.schema, objects, b.list[k]) {
      ObjectLoadsIsFits(objects, b, places, k);
    }
  }

  lemma FilledExactly(s: Schema, j: Json, objects: seq<Json>, list: seq<Json>, places: seq<Place>, refs: seq<Ref>, reg: Registry, st: Resource,
                      ord: set<string> -> seq<string>)
    returns (at: map<Ref, Place>)
    requires ValidSchema(s) && KeyOrder(ord) && HeaderFits(s, j) && objects == j.members["objects"].items && Sorted(s, objects, list, places)
    requires Indexed(s, list, refs, reg) && Shaped(s, refs, st) && Fresh(s, st) && |reg| == |s.classes|
    ensures var out := FillAll(s, list, reg, st, ord);
            && (out.Ok? <==> forall k :: 0 <= k < |list| ==> ObjectFits(s, objects, list[k]))
            && (out.Ok? ==> Says(s, j, at, out.value))
  {
    hide *;
    var b := Ledger(s, list, refs, reg);
    IsContext(objects, b, places);
    at := PlacesOf(refs, places);
    FilledInContext(objects, b, places, st, ord);
    if FillAll(s, list, reg, st, ord).Ok? {
      LastStageSays(j, b, places, at, FillAll(s, list, reg, st, ord).value);
    }
  }

  lemma SortedExactly(s: Schema, j: Json, list: seq<Json>, places: seq<Place>, ord: set<string> -> seq<string>) returns (at: map<Ref, Place>)
    requires ValidSchema(s) && KeyOrder(ord) && HeaderFits(s, j) && Sorted(s, j.members["objects"].items, list, places)
    ensures var registered := RegisterAll(s, list, EmptyRegistry(s), EmptyResource(s));
            var out := if registered.Ok? then FillAll(s, list, registered.value.0, registered.value.1, ord) else Err(MissingId);
            var objects := j.members["objects"].items;
            && (out.Ok? <==> (forall p, o :: StandsAt(s, objects, p, o) ==> ObjectFits(s, objects, o)) && IdsUnique(s, objects))
            && (out.Ok? ==> Says(s, j, at, out.value))
  {
    hide ValidSchema, Indexed, Shaped, Fresh, Sorted, Says, ObjectFits, IdsUnique, KeyOrder, RegisterAll, FillAll, NewFrom, StandsAt;
    var objects := j.members["objects"].items;
    NothingFiled(s);
    assert list[..0] == [] && list[0..] == list;
    var refs := RegisterExactly(s, list, 0, [], EmptyRegistry(s), EmptyResource(s));
    TagsAreNew(s, objects, list, places);
    FitsByList(s, objects, list, places);
    if NewFrom(s, list, 0) {
      var (reg, st) := RegisterAll(s, list, EmptyRegistry(s), EmptyResource(s)).value;
      at := FilledExactly(s, j, objects, list, places, refs, reg, st, ord);
    } else {
      at := map[];
      FittingIsTagged(s, objects, list);
    }
  }

  /** Loading computes what the document says: it returns a resource if and only if
      the document is acceptable and says that resource. */
  lemma LoadsExactly(s: Schema, j: Json, ord: set<string> -> seq<string>, r: Resource)
    requires ValidSchema(s) && KeyOrder(ord)
    ensures LoadDocument(s, j, ord) == Ok(r) <==> Acceptable(s, j) && exists at :: Says(s, j, at, r)
  {
    hide ValidSchema, LoadDocument, Acceptable, Says, KeyOrder;
    AcceptsExactly(s, j, ord);
    if Acceptable(s, j) {
      var loaded := LoadDocument(s, j, ord).value;
      AcceptableHeader(s, j);
      var at' :| Says(s, j, at', loaded);
      if at :| Says(s, j, at, r) {
        SaysOneResource(s, j, at, r, at', loaded);
      }
    }
  }

  lemma AcceptableHeader(s: Schema, j: Json)
    requires ValidSchema(s) && Acceptable(s, j)
    ensures HeaderFits(s, j)
  {}

  // ----- the static type of what is loaded -----

  /** The declared defaults are values of their types. */
  ghost predicate DefaultsFit(s: Schema) {
    forall c, f :: 0 <= c < |s.classes| && 0 <= f < |s.classes[c].features| ==> DefaultFits(s.classes[c].features[f])
  }

  ghost predicate DefaultFits(f: Feature) {
    f.kind.Attribute? && !f.derived && f.required && !f.many ==> ScalarFits(f.scalar, f.initial)
  }

  lemma SaidValuesFit(feature: Feature, o: Json, r: Resource, slot: Slot)
    requires feature.kind.Attribute? && !feature.derived && DefaultFits(feature) && AttributeSays(feature, o, slot)
    ensures SlotFits(r, feature, slot)
  {
    hide InRange, Valid;
  }

  lemma SaidLinksFit(s: Schema, objects: seq<Json>, at: map<Ref, Place>, feature: Feature, o: Json, r: Resource, slot: Slot)
    requires ValidSchema(s) && IsReference(feature) && ReferenceSays(s, objects, at, feature, o, slot)
    requires forall x :: x in at <==> Valid(r, x)
    ensures SlotFits(r, feature, slot)
  {
    hide ValidSchema, Identified, Names, Valid, Denotes;
    var targets: seq<nat> :| AllDenote(s, objects, at, feature.target, Entries(feature, o), targets) && FirstAppearances(targets, slot.keys);
    forall k | 0 <= k < |slot.keys| ensures Valid(r, Ref(feature.target, slot.keys[k])) {
      assert slot.keys[k] in targets;
      var m :| 0 <= m < |targets| && targets[m] == slot.keys[k];
      DenotedIsLive(s, objects, at, Entries(feature, o)[m], Ref(feature.target, targets[m]));
    }
    FewAppear(targets, slot.keys);
  }

  /** No more appear first than appear. */
  lemma {:induction false} FewAppear(s: seq<nat>, kept: seq<nat>)
    requires FirstAppearances(s, kept)
    ensures |kept| <= |s|
  {
    var elements := set x | x in s;
    DistinctCount(kept, elements);
    ElementCount(s, elements);
  }

  lemma {:induction false} DistinctCount(kept: seq<nat>, elements: set<nat>)
    requires NoDup(kept) && forall x :: x in kept <==> x in elements
    ensures |kept| == |elements|
  {
    if kept == [] {
      assert elements == {};
    } else {
      var front, last := kept[..|kept| - 1], kept[|kept| - 1];
      assert kept == front + [last];
      DistinctCount(front, elements - {last});
    }
  }

  lemma {:induction false} ElementCount(s: seq<nat>, elements: set<nat>)
    requires forall x :: x in elements ==> x in s
    ensures |elements| <= |s|
  {
    if s == [] {
      assert elements == {};
    } else {
      var front, last := s[..|s| - 1], s[|s| - 1];
      assert s == front + [last];
      ElementCount(front, elements - {last});
    }
  }

  lemma DenotedIsLive(s: Schema, objects: seq<Json>, at: map<Ref, Place>, e: Json, x: Ref)
    requires ValidSchema(s) && Denotes(s, objects, at, e, x)
    ensures x in at
  {}

  lemma SaidOwnerFits(s: Schema, objects: seq<Json>, at: map<Ref, Place>, x: Ref, f: nat, feature: Feature, r: Resource, slot: Slot)
    requires ValidSchema(s) && IsReference(feature) && ContainerSays(s, objects, at, x, f, feature.target, slot)
    requires forall y :: y in at <==> Valid(r, y)
    ensures SlotFits(r, feature, slot)
  {
    hide ValidSchema, StandsAt, ContainsThrough, Valid;
    if slot.keys != [] {
      assert Contains(s, objects, at, Ref(feature.target, slot.keys[0]), x, f);
    }
  }

  lemma SaidSlotFits(s: Schema, objects: seq<Json>, at: map<Ref, Place>, x: Ref, f: nat, o: Json, r: Resource, slot: Slot)
    requires ValidSchema(s) && x.cls < |s.classes| && f < |s.classes[x.cls].features| && DefaultFits(s.classes[x.cls].features[f])
    requires SlotSays(s, objects, at, x, f, o, slot)
    requires forall y :: y in at <==> Valid(r, y)
    ensures SlotFits(r, s.classes[x.cls].features[f], slot)
  {
    var feature := s.classes[x.cls].features[f];
    assert ValidFeature(s, feature);
    hide ValidSchema, AttributeSays, ContainerSays, ReferenceSays, Valid;
    if !feature.derived && feature.kind.Attribute? {
      SaidValuesFit(feature, o, r, slot);
    } else if !feature.derived && feature.kind.Container? {
      SaidOwnerFits(s, objects, at, x, f, feature, r, slot);
    } else if !feature.derived {
      SaidLinksFit(s, objects, at, feature, o, r, slot);
    }
  }

  /** A resource that is what a document says has the generated structs' types,
      if no arena is larger than ids can number. */
  lemma SaidIsWellTyped(s: Schema, j: Json, at: map<Ref, Place>, r: Resource)
    requires ValidSchema(s) && DefaultsFit(s) && HeaderFits(s, j) && Says(s, j, at, r)
    requires forall c :: 0 <= c < |r| ==> |r[c]| <= U64_LIMIT
    ensures WellTyped(s, r)
  {
    hide ValidSchema, SlotSays, InIdOrder, StandsAt, SlotFits;
    var objects := j.members["objects"].items;
    forall c: nat, i: nat | c < |r| && i < |r[c]|
      ensures |r[c][i]| == |s.classes[c].features|
      ensures forall f :: 0 <= f < |r[c][i]| ==> SlotFits(r, s.classes[c].features[f], r[c][i][f])
    {
      var x := Ref(c, i);
      assert Valid(r, x) && x in at && at[x] in at.Values;
      var o :| StandsAt(s, objects, at[x], o);
      assert ObjectSays(s, objects, at, x, o, r[c][i]);
      forall f | 0 <= f < |r[c][i]| ensures SlotFits(r, s.classes[c].features[f], r[c][i][f]) {
        assert DefaultFits(s.classes[c].features[f]);
        SaidSlotFits(s, objects, at, x, f, o, r, r[c][i][f]);
      }
    }
  }
}

/** A document whose ids are unique says one resource: the description fixes the
    order of every arena and the value of every slot. */
module SaysOnce {
  import opened Common
  import opened JsonTree
  import opened Ids
  import opened Schemas
  import opened Documents
  import opened Sorting
  import opened Places

  // ----- the order of the arenas -----

  lemma {:induction false} PathBeforeAsymmetric(a: seq<Step>, b: seq<Step>)
    requires PathBefore(a, b)
    ensures !PathBefore(b, a)
  {
    if a != [] && a[0] == b[0] {
      PathBeforeAsymmetric(a[1..], b[1..]);
    }
  }

  ghost predicate IdBefore(id: string, p: Place, id': string, p': Place) {
    KeyLess(SortKey(id), SortKey(id')) || (SortKey(id) == SortKey(id') && PlaceBefore(p, p'))
  }

  lemma IdBeforeAsymmetric(id: string, p: Place, id': string, p': Place)
    requires IdBefore(id, p, id', p')
    ensures !IdBefore(id', p', id, p)
  {
    hide SortKey, KeyLess, PathBefore;
    if KeyLess(SortKey(id), SortKey(id')) {
      KeyLessWeak(SortKey(id), SortKey(id'), None);
    } else if p.root == p'.root {
      PathBeforeAsymmetric(p.path, p'.path);
    }
    NotBeforeItself(SortKey(id));
  }

  lemma NotBeforeItself(key: Option<(string, nat)>)
    ensures !KeyLess(key, key)
  {
    if KeyLess(key, key) {
      KeyLessWeak(key, key, key);
    }
  }

  /** Every object has a class and an id. */
  ghost predicate AllTagged(s: Schema, objects: seq<Json>)
    requires ValidSchema(s)
  {
    forall p :: Occupied(s, objects, p) ==> exists c: nat, id :: Identified(s, objects, p, c, id)
  }

  /** The arenas hold each object under its own class. */
  ghost predicate ClassesKept(s: Schema, objects: seq<Json>, at: map<Ref, Place>)
    requires ValidSchema(s)
  {
    forall x :: x in at ==> exists id :: Identified(s, objects, at[x], x.cls, id)
  }

  lemma ClassOnce(s: Schema, objects: seq<Json>, p: Place, c: nat, id: string, c': nat, id': string)
    requires ValidSchema(s) && Identified(s, objects, p, c, id) && Identified(s, objects, p, c', id')
    ensures c == c' && id == id'
  {
    hide StandsAt;
    var o :| StandsAt(s, objects, p, o) && OfClass(s, o, c) && HasId(o, id);
    var o' :| StandsAt(s, objects, p, o') && OfClass(s, o', c') && HasId(o', id');
    StandsAtOnce(s, objects, p, o, o');
  }

  ghost predicate Settled(s: Schema, objects: seq<Json>, at: map<Ref, Place>, r: Resource)
    requires ValidSchema(s)
  {
    Arranged(s, objects, at, r) && InIdOrder(s, objects, at) && ClassesKept(s, objects, at)
  }

  /** The place of `x` under one arrangement is taken, at or after `x`, under any
      other that agrees with it before `x`. */
  lemma FoundLater(s: Schema, objects: seq<Json>, at: map<Ref, Place>, r: Resource, at': map<Ref, Place>, r': Resource, x: Ref)
    returns (y: Ref)
    requires ValidSchema(s) && Settled(s, objects, at, r) && Settled(s, objects, at', r') && x in at
    requires forall i: nat :: i < x.idx ==> Ref(x.cls, i) in at && Ref(x.cls, i) in at' && at[Ref(x.cls, i)] == at'[Ref(x.cls, i)]
    ensures y in at' && at'[y] == at[x] && y.cls == x.cls && y.idx >= x.idx
  {
    hide ValidSchema, Occupied, Identified, InIdOrder, Valid;
    assert at[x] in at.Values;
    y :| y in at' && at'[y] == at[x];
    var id :| Identified(s, objects, at[x], x.cls, id);
    var id' :| Identified(s, objects, at'[y], y.cls, id');
    ClassOnce(s, objects, at[x], x.cls, id, y.cls, id');
    assert y == Ref(x.cls, y.idx);
  }

  /** Two arrangements of a document agree everywhere. */
  lemma {:induction false} SamePlace(s: Schema, objects: seq<Json>, at: map<Ref, Place>, r: Resource, at': map<Ref, Place>, r': Resource, x: Ref)
    requires ValidSchema(s) && Settled(s, objects, at, r) && Settled(s, objects, at', r') && x in at
    ensures x in at' && at[x] == at'[x]
    decreases x.idx
  {
    hide ValidSchema, Occupied, Identified, InIdOrder;
    forall i: nat | i < x.idx
      ensures Ref(x.cls, i) in at && Ref(x.cls, i) in at' && at[Ref(x.cls, i)] == at'[Ref(x.cls, i)]
    {
      assert Valid(r, x) && Valid(r, Ref(x.cls, i));
      SamePlace(s, objects, at, r, at', r', Ref(x.cls, i));
    }
    var y := FoundLater(s, objects, at, r, at', r', x);
    assert Valid(r', y) && Valid(r', x);
    if y != x {
      var z := FoundLater(s, objects, at', r', at, r, x);
      Crossed(s, objects, at, at', x, y, z);
    }
  }

  lemma InOrderIs(s: Schema, objects: seq<Json>, at: map<Ref, Place>, x: Ref, y: Ref, id: string, id': string)
    requires ValidSchema(s) && InIdOrder(s, objects, at) && x in at && y in at && x.cls == y.cls && x.idx < y.idx
    requires Identified(s, objects, at[x], x.cls, id) && Identified(s, objects, at[y], y.cls, id')
    ensures IdBefore(id, at[x], id', at[y])
  {
    hide ValidSchema, Identified, SortKey, KeyLess, PlaceBefore;
  }

  /** Two objects cannot stand in one order here and in the other there. */
  lemma Crossed(s: Schema, objects: seq<Json>, at: map<Ref, Place>, at': map<Ref, Place>, x: Ref, y: Ref, z: Ref)
    requires ValidSchema(s) && InIdOrder(s, objects, at) && InIdOrder(s, objects, at') && ClassesKept(s, objects, at) && ClassesKept(s, objects, at')
    requires x in at && x in at' && y in at' && z in at && y.cls == x.cls == z.cls
    requires at'[y] == at[x] && at[z] == at'[x] && y.idx > x.idx && z.idx >= x.idx
    ensures at[x] == at'[x]
  {
    hide ValidSchema, Identified, IdBefore, InIdOrder;
    if z != x {
      assert z.idx > x.idx by { assert z == Ref(z.cls, z.idx) && x == Ref(x.cls, x.idx); }
      var id :| Identified(s, objects, at[x], x.cls, id);
      var id' :| Identified(s, objects, at[z], z.cls, id');
      InOrderIs(s, objects, at, x, z, id, id');
      InOrderIs(s, objects, at', x, y, id', id);
      IdBeforeAsymmetric(id, at[x], id', at[z]);
    }
  }

  // ----- the slots -----

  lemma ReadsOnce(t: ScalarType, j: Json, v: Scalar, v': Scalar)
    requires Reads(t, j, v) && Reads(t, j, v')
    ensures v == v'
  {}

  lemma AttributeSaysOnce(feature: Feature, o: Json, slot: Slot, slot': Slot)
    requires AttributeSays(feature, o, slot) && AttributeSays(feature, o, slot')
    ensures slot == slot'
  {
    hide Reads, Entries;
    assert |slot.values| == |slot'.values|;
    forall k | 0 <= k < |slot.values| ensures slot.values[k] == slot'.values[k] {
      if !(Lacks(o, feature.name) || (!feature.many && Has(o, feature.name, Null))) {
        ReadsOnce(feature.scalar, Entries(feature, o)[k], slot.values[k], slot'.values[k]);
      }
    }
  }

  lemma NamesOnce(e: Json, id: string, id': string)
    requires Names(e, id) && Names(e, id')
    ensures id == id'
  {}

  lemma DenotesOnce(s: Schema, objects: seq<Json>, at: map<Ref, Place>, r: Resource, e: Json, x: Ref, y: Ref)
    requires ValidSchema(s) && IdsUnique(s, objects) && Arranged(s, objects, at, r)
    requires Denotes(s, objects, at, e, x) && Denotes(s, objects, at, e, y) && x.cls == y.cls
    ensures x == y
  {
    hide ValidSchema, Names, Identified, Occupied, Valid;
    var id :| Names(e, id) && Identified(s, objects, at[x], x.cls, id);
    var id' :| Names(e, id') && Identified(s, objects, at[y], y.cls, id');
    NamesOnce(e, id, id');
  }

  lemma TargetsOnce(s: Schema, objects: seq<Json>, at: map<Ref, Place>, r: Resource, t: nat, entries: seq<Json>, targets: seq<nat>, targets': seq<nat>)
    requires ValidSchema(s) && IdsUnique(s, objects) && Arranged(s, objects, at, r)
    requires AllDenote(s, objects, at, t, entries, targets) && AllDenote(s, objects, at, t, entries, targets')
    ensures targets == targets'
  {
    hide ValidSchema, IdsUnique, Arranged, Denotes;
    forall k | 0 <= k < |targets| ensures targets[k] == targets'[k] {
      DenotesOnce(s, objects, at, r, entries[k], Ref(t, targets[k]), Ref(t, targets'[k]));
    }
  }

  /** First appearances are in one order only. */
  lemma {:induction false} AppearOnce(s: seq<nat>, kept: seq<nat>, kept': seq<nat>, n: nat)
    requires FirstAppearances(s, kept) && FirstAppearances(s, kept') && n <= |kept|
    ensures n <= |kept'| && kept[..n] == kept'[..n]
  {
    if n > 0 {
      AppearOnce(s, kept, kept', n - 1);
      var a := kept[n - 1];
      assert a in kept;
      var q := IndexIn(kept', a);
      SamePrefix(kept, kept', n - 1, q);
      var b := kept'[n - 1];
      assert b in kept';
      var q' := IndexIn(kept, b);
      SamePrefix(kept', kept, n - 1, q');
      SameNext(s, kept, kept', n - 1, q, q', a, b);
      assert kept[..n] == kept[..n - 1] + [kept[n - 1]];
      assert kept'[..n] == kept'[..n - 1] + [kept'[n - 1]];
    }
  }

  lemma SameNext(s: seq<nat>, kept: seq<nat>, kept': seq<nat>, p: nat, q: nat, q': nat, a: nat, b: nat)
    requires FirstAppearances(s, kept) && FirstAppearances(s, kept')
    requires p <= q' < |kept| && p <= q < |kept'| && kept[p] == a == kept'[q] && kept'[p] == b == kept[q']
    ensures a == b
  {
    hide FirstAppearances, Precedes;
    if p < q' && p < q {
      AppearsBefore(s, kept, p, q', a, b);
      AppearsBefore(s, kept', p, q, b, a);
      NotBoth(s, a, b);
    }
  }

  lemma IndexIn(s: seq<nat>, x: nat) returns (k: nat)
    requires x in s
    ensures k < |s| && s[k] == x
  {
    k :| 0 <= k < |s| && s[k] == x;
  }

  /** What is not in the common prefix of one is not in that of the other. */
  lemma SamePrefix(kept: seq<nat>, kept': seq<nat>, n: nat, q: nat)
    requires NoDup(kept) && n < |kept| && n <= |kept'| && kept[..n] == kept'[..n] && q < |kept'| && kept'[q] == kept[n]
    ensures q >= n
  {
    forall i | 0 <= i < n ensures kept[i] == kept'[i] {
      assert kept[..n][i] == kept'[..n][i];
    }
  }

  /** `a` occurs somewhere before any `b`. */
  ghost predicate Precedes(s: seq<nat>, a: nat, b: nat) {
    exists m :: 0 <= m < |s| && s[m] == a && b !in s[..m]
  }

  lemma AppearsBefore(s: seq<nat>, kept: seq<nat>, k: nat, m: nat, a: nat, b: nat)
    requires FirstAppearances(s, kept) && k < m < |kept| && kept[k] == a && kept[m] == b
    ensures Precedes(s, a, b)
  {}

  lemma NotBoth(s: seq<nat>, a: nat, b: nat)
    requires Precedes(s, a, b) && Precedes(s, b, a)
    ensures a == b
  {
    var m :| 0 <= m < |s| && s[m] == a && b !in s[..m];
    var m' :| 0 <= m' < |s| && s[m'] == b && a !in s[..m'];
    forall i | 0 <= i < m' ensures s[i] != a {
      assert s[..m'][i] == s[i];
    }
    forall i | 0 <= i < m ensures s[i] != b {
      assert s[..m][i] == s[i];
    }
  }

  lemma ReferenceSaysOnce(s: Schema, objects: seq<Json>, at: map<Ref, Place>, r: Resource, feature: Feature, o: Json, slot: Slot, slot': Slot)
    requires ValidSchema(s) && IdsUnique(s, objects) && Arranged(s, objects, at, r)
    requires ReferenceSays(s, objects, at, feature, o, slot) && ReferenceSays(s, objects, at, feature, o, slot')
    ensures slot == slot'
  {
    hide ValidSchema, IdsUnique, Arranged, AllDenote, FirstAppearances;
    var targets: seq<nat> :| AllDenote(s, objects, at, feature.target, Entries(feature, o), targets) && FirstAppearances(targets, slot.keys);
    var targets': seq<nat> :| AllDenote(s, objects, at, feature.target, Entries(feature, o), targets') && FirstAppearances(targets', slot'.keys);
    TargetsOnce(s, objects, at, r, feature.target, Entries(feature, o), targets, targets');
    AppearOnce(targets, slot.keys, slot'.keys, |slot.keys|);
    AppearOnce(targets, slot'.keys, slot.keys, |slot'.keys|);
    assert slot.keys[..|slot.keys|] == slot.keys && slot'.keys[..|slot'.keys|] == slot'.keys;
  }

  lemma ContainerSaysOnce(s: Schema, objects: seq<Json>, at: map<Ref, Place>, x: Ref, f: nat, t: nat, slot: Slot, slot': Slot)
    requires ValidSchema(s) && ContainerSays(s, objects, at, x, f, t, slot) && ContainerSays(s, objects, at, x, f, t, slot')
    ensures slot == slot'
  {
    hide ValidSchema, Contains;
    if slot.keys != [] {
      assert Contains(s, objects, at, Ref(t, slot.keys[0]), x, f);
    }
    if slot'.keys != [] {
      assert Contains(s, objects, at, Ref(t, slot'.keys[0]), x, f);
    }
  }

  lemma SlotSaysOnce(s: Schema, objects: seq<Json>, at: map<Ref, Place>, r: Resource, x: Ref, f: nat, o: Json, slot: Slot, slot': Slot)
    requires ValidSchema(s) && IdsUnique(s, objects) && Arranged(s, objects, at, r)
    requires x.cls < |s.classes| && f < |s.classes[x.cls].features|
    requires SlotSays(s, objects, at, x, f, o, slot) && SlotSays(s, objects, at, x, f, o, slot')
    ensures slot == slot'
  {
    hide ValidSchema, IdsUnique, Arranged, AttributeSays, ContainerSays, ReferenceSays;
    var feature := s.classes[x.cls].features[f];
    if !feature.derived && feature.kind.Attribute? {
      AttributeSaysOnce(feature, o, slot, slot');
    } else if !feature.derived && feature.kind.Container? {
      ContainerSaysOnce(s, objects, at, x, f, feature.target, slot, slot');
    } else if !feature.derived {
      ReferenceSaysOnce(s, objects, at, r, feature, o, slot, slot');
    }
  }

  lemma ObjectSaysOnce(s: Schema, objects: seq<Json>, at: map<Ref, Place>, r: Resource, x: Ref, o: Json, a: Object, a': Object)
    requires ValidSchema(s) && IdsUnique(s, objects) && Arranged(s, objects, at, r)
    requires ObjectSays(s, objects, at, x, o, a) && ObjectSays(s, objects, at, x, o, a')
    ensures a == a'
  {
    hide ValidSchema, IdsUnique, Arranged, SlotSays;
    forall f | 0 <= f < |a| ensures a[f] == a'[f] {
      SlotSaysOnce(s, objects, at, r, x, f, o, a[f], a'[f]);
    }
  }

  lemma SaysKeepsClasses(s: Schema, j: Json, at: map<Ref, Place>, r: Resource)
    requires ValidSchema(s) && Acceptable(s, j) && Says(s, j, at, r)
    ensures Settled(s, j.members["objects"].items, at, r)
  {
    hide ValidSchema, IdsUnique, SlotSays, InIdOrder, StandsAt, KeyFits, Identified;
    var objects := j.members["objects"].items;
    forall x | x in at ensures exists id :: Identified(s, objects, at[x], x.cls, id) {
      assert at[x] in at.Values && Occupied(s, objects, at[x]);
      var o :| StandsAt(s, objects, at[x], o);
      assert ObjectSays(s, objects, at, x, o, r[x.cls][x.idx]) && ObjectFits(s, objects, o);
      var c: nat, id :| OfClass(s, o, c) && HasId(o, id);
      IdentifiedIs(s, objects, at[x], o, x.cls, id);
    }
  }

  lemma IdentifiedIs(s: Schema, objects: seq<Json>, p: Place, o: Json, c: nat, id: string)
    requires ValidSchema(s) && StandsAt(s, objects, p, o) && OfClass(s, o, c) && HasId(o, id)
    ensures Identified(s, objects, p, c, id)
  {}

  /** An acceptable document says at most one resource. */
  lemma SaysOneResource(s: Schema, j: Json, at: map<Ref, Place>, r: Resource, at': map<Ref, Place>, r': Resource)
    requires ValidSchema(s) && Acceptable(s, j) && Says(s, j, at, r) && Says(s, j, at', r')
    ensures r == r'
  {
    hide ValidSchema, ObjectSays, InIdOrder, StandsAt, ObjectFits, IdsUnique, Settled;
    var objects := j.members["objects"].items;
    SaysKeepsClasses(s, j, at, r);
    SaysKeepsClasses(s, j, at', r');
    forall x | x in at ensures x in at' && at[x] == at'[x] {
      SamePlace(s, objects, at, r, at', r', x);
    }
    forall x | x in at' ensures x in at {
      SamePlace(s, objects, at', r', at, r, x);
    }
    assert at == at';
    SameArenas(r, r', at);
    forall c: nat, i: nat | c < |r| && i < |r[c]| ensures r[c][i] == r'[c][i] {
      var x := Ref(c, i);
      assert Valid(r, x) && at[x] in at.Values;
      var o :| StandsAt(s, objects, at[x], o);
      ObjectSaysOnce(s, objects, at, r, x, o, r[c][i], r'[c][i]);
    }
    forall c | 0 <= c < |r| ensures r[c] == r'[c] {
    }
  }

  lemma SameArenas(r: Resource, r': Resource, at: map<Ref, Place>)
    requires |r| == |r'| && forall x :: (x in at <==> Valid(r, x)) && (x in at <==> Valid(r', x))
    ensures forall c :: 0 <= c < |r| ==> |r[c]| == |r'[c]|
  {
    forall c: nat | c < |r| ensures |r[c]| == |r'[c]| {
      assert !Valid(r, Ref(c, |r[c]|)) && !Valid(r', Ref(c, |r'[c]|));
      assert Valid(r', Ref(c, |r[c]|)) <==> Ref(c, |r[c]|) in at;
      assert Valid(r, Ref(c, |r'[c]|)) <==> Ref(c, |r'[c]|) in at;
    }
  }
}

/** Every document the serializer saves passes the artifact checker. */
module CheckedSave {
  import opened Common
  import opened JsonTree
  import opened Ids
  import opened Schemas
  import opened Saving
  import opened SavedForm
  import opened InstanceCheck

  /** An id becomes visited between `before` and `after`. */
  ghost predicate NewId(s: Schema, before: set<Ref>, after: set<Ref>, id: string) {
    exists x: Ref :: x in after && x !in before && x.cls < |s.classes| && IdOf(s, x) == id
  }

  ghost predicate LiveId(s: Schema, r: Resource, id: string)
    requires Typed(s, r)
  {
    exists x :: Valid(r, x) && IdOf(s, x) == id
  }

  /** `j` is clean, holds exactly the ids visited between `before` and `after`,
      each once, and refers only to ids of live objects. */
  ghost predicate Accounts(s: Schema, r: Resource, j: Json, before: set<Ref>, after: set<Ref>)
    requires Typed(s, r)
  {
    && NodesOk(j) && UniqueIds(j)
    && (forall id :: HasId(j, id) <==> NewId(s, before, after, id))
    && (forall p :: RefAt(j, p).Some? ==> LiveId(s, r, RefAt(j, p).value))
  }

  /** What the schema must add for ids to be canonical: no class singular is empty. */
  ghost predicate NamedClasses(s: Schema) {
    forall c :: 0 <= c < |s.classes| ==> s.classes[c].single != ""
  }

  lemma IdOfCanonical(s: Schema, r: Resource, x: Ref)
    requires Typed(s, r) && NamedClasses(s) && Valid(r, x)
    ensures Canonical(IdOf(s, x))
  {
    SortKeyOfInstanceId(s.classes[x.cls].single, x.idx);
  }

  /** A value without members or items has one path. */
  lemma LeafHasOnePath(j: Json, p: seq<Step>)
    requires !j.Obj? && (!j.Arr? || j.items == []) && At(j, p).Some?
    ensures p == []
  {
    assert forall step :: Down(j, step).None?;
  }

  lemma LeafAccounts(s: Schema, r: Resource, j: Json, v: set<Ref>)
    requires Typed(s, r) && !j.Obj? && (!j.Arr? || j.items == [])
    ensures Accounts(s, r, j, v, v)
  {
    forall p | At(j, p).Some? ensures p == [] {
      LeafHasOnePath(j, p);
    }
  }

  lemma LinkAccounts(s: Schema, r: Resource, x: Ref, v: set<Ref>)
    requires Typed(s, r) && Valid(r, x)
    ensures Accounts(s, r, RefObject(IdOf(s, x)), v, v)
  {
    var j := RefObject(IdOf(s, x));
    forall p | At(j, p).Some? ensures p == [] || (p == [Key(KEY_REF)] && At(j, p) == Some(Str(IdOf(s, x)))) {
      if p != [] {
        var target := Str(IdOf(s, x));
        assert p[0] == Key(KEY_REF) && Down(j, p[0]) == Some(target);
        LeafHasOnePath(target, p[1..]);
        assert p == [p[0]] + p[1..];
      }
    }
    assert forall p :: RefAt(j, p).Some? ==> RefAt(j, p).value == IdOf(s, x);
  }

  /** Two parts of `j` side by side: every path is empty or leads into `a` or into
      `b`, and different paths lead to different places. */
  ghost predicate Splits(j: Json, a: Json, b: Json, toA: seq<Step> -> seq<Step>, toB: seq<Step> -> seq<Step>) {
    && (forall p: seq<Step> :: p != [] && At(j, p).Some? ==>
          (exists q :: p == toA(q) && At(a, q) == At(j, p)) || (exists q :: q != [] && p == toB(q) && At(b, q) == At(j, p)))
    && (forall q :: At(a, q).Some? ==> At(j, toA(q)) == At(a, q) && toA(q) != [])
    && (forall q :: q != [] && At(b, q).Some? ==> At(j, toB(q)) == At(b, q) && toB(q) != [])
    && (forall q, q' :: toA(q) == toA(q') ==> q == q')
    && (forall q, q' :: q != [] && q' != [] && toB(q) == toB(q') ==> q == q')
  }

  /** Values saved one after the other account for the objects visited in turn. */
  lemma SplitAccounts(s: Schema, r: Resource, j: Json, a: Json, b: Json, toA: seq<Step> -> seq<Step>, toB: seq<Step> -> seq<Step>,
                      v0: set<Ref>, v1: set<Ref>, v2: set<Ref>)
    requires Typed(s, r) && Splits(j, a, b, toA, toB)
    requires Accounts(s, r, a, v0, v1) && Accounts(s, r, b, v1, v2)
    requires NodeOk(j) && GetStr(j, KEY_ID).None? && GetStr(j, KEY_REF).None? && GetStr(b, KEY_ID).None?
    requires v0 <= v1 <= v2 <= AllRefs(r)
    ensures Accounts(s, r, j, v0, v2)
  {
    hide Splits, NewId, HasId, UniqueIds, LiveId, NodeOk, At;
    forall p | At(j, p).Some? ensures NodeOk(At(j, p).value) && (RefAt(j, p).Some? ==> LiveId(s, r, RefAt(j, p).value)) {
      SplitNode(s, r, j, a, b, toA, toB, p);
    }
    SplitIds(s, r, j, a, b, toA, toB, v0, v1, v2);
    SplitUnique(s, r, j, a, b, toA, toB, v0, v1, v2);
  }

  lemma SplitNode(s: Schema, r: Resource, j: Json, a: Json, b: Json, toA: seq<Step> -> seq<Step>, toB: seq<Step> -> seq<Step>, p: seq<Step>)
    requires Typed(s, r) && Splits(j, a, b, toA, toB) && At(j, p).Some?
    requires NodesOk(a) && NodesOk(b) && NodeOk(j) && GetStr(j, KEY_REF).None?
    requires forall q :: RefAt(a, q).Some? ==> LiveId(s, r, RefAt(a, q).value)
    requires forall q :: RefAt(b, q).Some? ==> LiveId(s, r, RefAt(b, q).value)
    ensures NodeOk(At(j, p).value) && (RefAt(j, p).Some? ==> LiveId(s, r, RefAt(j, p).value))
  {
    hide LiveId, NodeOk;
    if p != [] {
      var inA, q := Locate(j, a, b, toA, toB, p);
      assert inA ==> RefAt(a, q) == RefAt(j, p);
      assert !inA ==> RefAt(b, q) == RefAt(j, p);
    }
  }

  lemma SplitIds(s: Schema, r: Resource, j: Json, a: Json, b: Json, toA: seq<Step> -> seq<Step>, toB: seq<Step> -> seq<Step>,
                 v0: set<Ref>, v1: set<Ref>, v2: set<Ref>)
    requires Typed(s, r) && Splits(j, a, b, toA, toB)
    requires Accounts(s, r, a, v0, v1) && Accounts(s, r, b, v1, v2)
    requires GetStr(j, KEY_ID).None? && GetStr(b, KEY_ID).None? && v0 <= v1 <= v2
    ensures forall id :: HasId(j, id) <==> NewId(s, v0, v2, id)
  {
    forall id ensures HasId(j, id) <==> NewId(s, v0, v2, id) {
      SplitHasId(j, a, b, toA, toB, id);
      NewIdSplits(s, v0, v1, v2, id);
    }
  }

  lemma NewIdSplits(s: Schema, v0: set<Ref>, v1: set<Ref>, v2: set<Ref>, id: string)
    requires v0 <= v1 <= v2
    ensures NewId(s, v0, v2, id) <==> NewId(s, v0, v1, id) || NewId(s, v1, v2, id)
  {
  }

  lemma SplitHasId(j: Json, a: Json, b: Json, toA: seq<Step> -> seq<Step>, toB: seq<Step> -> seq<Step>, id: string)
    requires Splits(j, a, b, toA, toB) && GetStr(j, KEY_ID).None? && GetStr(b, KEY_ID).None?
    ensures HasId(j, id) <==> HasId(a, id) || HasId(b, id)
  {
    if HasId(j, id) {
      var p :| IdAt(j, p) == Some(id);
      assert p != [];
      var inA, q := Locate(j, a, b, toA, toB, p);
      assert inA ==> IdAt(a, q) == Some(id);
      assert !inA ==> IdAt(b, q) == Some(id);
    }
    if HasId(a, id) {
      var q :| IdAt(a, q) == Some(id);
      FromA(j, a, b, toA, toB, q);
    }
    if HasId(b, id) {
      var q :| IdAt(b, q) == Some(id);
      FromB(j, a, b, toA, toB, q);
    }
  }

  lemma FromA(j: Json, a: Json, b: Json, toA: seq<Step> -> seq<Step>, toB: seq<Step> -> seq<Step>, q: seq<Step>)
    requires Splits(j, a, b, toA, toB) && IdAt(a, q).Some?
    ensures HasId(j, IdAt(a, q).value)
  {
    assert At(a, q).Some?;
    assert IdAt(j, toA(q)) == IdAt(a, q);
  }

  lemma FromB(j: Json, a: Json, b: Json, toA: seq<Step> -> seq<Step>, toB: seq<Step> -> seq<Step>, q: seq<Step>)
    requires Splits(j, a, b, toA, toB) && GetStr(b, KEY_ID).None? && IdAt(b, q).Some?
    ensures HasId(j, IdAt(b, q).value)
  {
    assert At(b, q).Some? && q != [];
    assert IdAt(j, toB(q)) == IdAt(b, q);
  }

  lemma SplitUnique(s: Schema, r: Resource, j: Json, a: Json, b: Json, toA: seq<Step> -> seq<Step>, toB: seq<Step> -> seq<Step>,
                    v0: set<Ref>, v1: set<Ref>, v2: set<Ref>)
    requires Typed(s, r) && Splits(j, a, b, toA, toB)
    requires Accounts(s, r, a, v0, v1) && Accounts(s, r, b, v1, v2)
    requires GetStr(j, KEY_ID).None? && GetStr(b, KEY_ID).None? && v0 <= v1 <= v2 <= AllRefs(r)
    ensures UniqueIds(j)
  {
    forall id | HasId(a, id) ensures !HasId(b, id) {
      if NewId(s, v1, v2, id) {
        var x: Ref :| x in v1 && x !in v0 && x.cls < |s.classes| && IdOf(s, x) == id;
        var y: Ref :| y in v2 && y !in v1 && y.cls < |s.classes| && IdOf(s, y) == id;
        assert x in AllRefs(r) && y in AllRefs(r);
        IdOfInjective(s, r, x, y);
      }
    }
    forall p, p' | IdAt(j, p).Some? && IdAt(j, p) == IdAt(j, p') ensures p == p' {
      assert p != [] && p' != [];
      var inA, q := Locate(j, a, b, toA, toB, p);
      var inA', q' := Locate(j, a, b, toA, toB, p');
      assert IdAt(if inA then a else b, q) == IdAt(j, p) && IdAt(if inA' then a else b, q') == IdAt(j, p');
      if inA != inA' {
        assert HasId(a, IdAt(j, p).value);
        assert HasId(b, IdAt(j, p).value);
      }
    }
  }

  /** Every place below the top lies in one of the two parts. */
  lemma Locate(j: Json, a: Json, b: Json, toA: seq<Step> -> seq<Step>, toB: seq<Step> -> seq<Step>, p: seq<Step>)
    returns (inA: bool, q: seq<Step>)
    requires Splits(j, a, b, toA, toB) && p != [] && At(j, p).Some?
    ensures inA ==> p == toA(q) && At(a, q) == At(j, p)
    ensures !inA ==> q != [] && p == toB(q) && At(b, q) == At(j, p)
  {
    hide At;
    if q' :| p == toA(q') && At(a, q') == At(j, p) {
      inA, q := true, q';
    } else {
      var q' :| q' != [] && p == toB(q') && At(b, q') == At(j, p);
      inA, q := false, q';
    }
  }

  // ----- arrays and members, one more at a time -----

  function ShiftHead(p: seq<Step>): seq<Step> {
    if p != [] && p[0].Index? then [Index(p[0].i + 1)] + p[1..] else p
  }

  lemma ConsSplits(item: Json, items: seq<Json>)
    ensures Splits(Arr([item] + items), item, Arr(items), (p: seq<Step>) => [Index(0)] + p, (p: seq<Step>) => ShiftHead(p))
  {
    var j, b := Arr([item] + items), Arr(items);
    var toA, toB := (p: seq<Step>) => [Index(0)] + p, (p: seq<Step>) => ShiftHead(p);
    forall p: seq<Step> | p != [] && At(j, p).Some?
      ensures (exists q :: p == toA(q) && At(item, q) == At(j, p)) || (exists q :: q != [] && p == toB(q) && At(b, q) == At(j, p))
    {
      assert p[0].Index?;
      assert p == [p[0]] + p[1..];
      if p[0].i == 0 {
        assert p == toA(p[1..]) && At(item, p[1..]) == At(j, p);
      } else {
        var q := [Index(p[0].i - 1)] + p[1..];
        assert q[1..] == p[1..];
        assert p == toB(q) && At(b, q) == At(j, p);
      }
    }
    forall q | At(item, q).Some? ensures At(j, toA(q)) == At(item, q) {
      assert toA(q)[1..] == q;
    }
    forall q | q != [] && At(b, q).Some? ensures At(j, toB(q)) == At(b, q) {
      assert toB(q)[1..] == q[1..];
    }
    forall q, q' | toA(q) == toA(q') ensures q == q' {
      assert toA(q)[1..] == q && toA(q')[1..] == q';
    }
    forall q, q' | q != [] && q' != [] && toB(q) == toB(q') ensures q == q' {
      assert toB(q)[0] == toB(q')[0];
      assert q[1..] == toB(q)[1..] == toB(q')[1..] == q'[1..];
      assert q == [q[0]] + q[1..] && q' == [q'[0]] + q'[1..];
    }
  }

  lemma MemberSplits(m: map<string, Json>, key: string, value: Json)
    requires key !in m
    ensures Splits(Obj(m[key := value]), value, Obj(m), (p: seq<Step>) => [Key(key)] + p, (p: seq<Step>) => p)
  {
    var j, b := Obj(m[key := value]), Obj(m);
    var toA, toB := (p: seq<Step>) => [Key(key)] + p, (p: seq<Step>) => p;
    forall p: seq<Step> | p != [] && At(j, p).Some?
      ensures (exists q :: p == toA(q) && At(value, q) == At(j, p)) || (exists q :: q != [] && p == toB(q) && At(b, q) == At(j, p))
    {
      assert p[0].Key?;
      assert p == [p[0]] + p[1..];
      if p[0].key == key {
        assert p == toA(p[1..]) && At(value, p[1..]) == At(j, p);
      } else {
        assert p == toB(p) && At(b, p) == At(j, p);
      }
    }
    forall q | At(value, q).Some? ensures At(j, toA(q)) == At(value, q) {
      assert toA(q)[1..] == q;
    }
    forall q, q' | toA(q) == toA(q') ensures q == q' {
      assert toA(q)[1..] == q && toA(q')[1..] == q';
    }
  }

  lemma ConsAccounts(s: Schema, r: Resource, item: Json, items: seq<Json>, v0: set<Ref>, v1: set<Ref>, v2: set<Ref>)
    requires Typed(s, r) && Accounts(s, r, item, v0, v1) && Accounts(s, r, Arr(items), v1, v2)
    requires v0 <= v1 <= v2 <= AllRefs(r)
    ensures Accounts(s, r, Arr([item] + items), v0, v2)
  {
    ConsSplits(item, items);
    SplitAccounts(s, r, Arr([item] + items), item, Arr(items), (p: seq<Step>) => [Index(0)] + p, (p: seq<Step>) => ShiftHead(p), v0, v1, v2);
  }

  lemma MemberAccounts(s: Schema, r: Resource, m: map<string, Json>, key: string, value: Json, v0: set<Ref>, v1: set<Ref>, v2: set<Ref>)
    requires Typed(s, r) && Accounts(s, r, value, v0, v1) && Accounts(s, r, Obj(m), v1, v2)
    requires v0 <= v1 <= v2 <= AllRefs(r)
    requires key !in m && key != KEY_ID && key != KEY_TYPE && key != KEY_REF
    requires KEY_ID !in m && KEY_TYPE !in m && KEY_REF !in m
    ensures Accounts(s, r, Obj(m[key := value]), v0, v2)
  {
    MemberSplits(m, key, value);
    SplitAccounts(s, r, Obj(m[key := value]), value, Obj(m), (p: seq<Step>) => [Key(key)] + p, (p: seq<Step>) => p, v0, v1, v2);
  }

  /** The only item of an array accounts for what the array accounts for. */
  lemma OnlyItemAccounts(s: Schema, r: Resource, item: Json, v0: set<Ref>, v1: set<Ref>)
    requires Typed(s, r) && Accounts(s, r, Arr([item]), v0, v1)
    ensures Accounts(s, r, item, v0, v1)
  {
    var j := Arr([item]);
    forall q ensures At(j, [Index(0)] + q) == At(item, q) {
      assert ([Index(0)] + q)[1..] == q;
    }
    forall p | p != [] && At(j, p).Some? ensures p == [Index(0)] + p[1..] {
    }
    forall p, q | IdAt(item, p).Some? && IdAt(item, p) == IdAt(item, q) ensures p == q {
      assert IdAt(j, [Index(0)] + p) == IdAt(j, [Index(0)] + q);
      assert ([Index(0)] + p)[1..] == p && ([Index(0)] + q)[1..] == q;
    }
    forall id ensures HasId(item, id) <==> HasId(j, id) {
      if HasId(j, id) {
        var p :| IdAt(j, p) == Some(id);
        assert IdAt(item, p[1..]) == Some(id);
      }
      if HasId(item, id) {
        var q :| IdAt(item, q) == Some(id);
        assert IdAt(j, [Index(0)] + q) == Some(id);
      }
    }
    forall p | RefAt(item, p).Some? ensures LiveId(s, r, RefAt(item, p).value) {
      assert RefAt(j, [Index(0)] + p) == RefAt(item, p);
    }
    forall p | At(item, p).Some? ensures NodeOk(At(item, p).value) {
      assert At(j, [Index(0)] + p) == At(item, p);
    }
  }

  /** An object's members and, in `full`, also its type and id. */
  ghost predicate WithHeader(m: map<string, Json>, full: map<string, Json>, name: string, id: string) {
    && KEY_ID !in m && KEY_TYPE !in m && KEY_REF !in m
    && full == m[KEY_TYPE := Str(name)][KEY_ID := Str(id)]
  }

  /** Below the object itself the header brings two texts and nothing else. */
  lemma HeaderPath(m: map<string, Json>, full: map<string, Json>, name: string, id: string, p: seq<Step>)
    requires WithHeader(m, full, name, id) && p != []
    ensures At(Obj(m), p).Some? ==> At(Obj(full), p) == At(Obj(m), p)
    ensures At(Obj(full), p).Some? ==> At(Obj(full), p) == At(Obj(m), p) || At(Obj(full), p).value.Str?
    ensures IdAt(Obj(full), p) == IdAt(Obj(m), p) && RefAt(Obj(full), p) == RefAt(Obj(m), p)
  {
    if p[0] == Key(KEY_TYPE) || p[0] == Key(KEY_ID) {
      assert p[1..] != [] ==> Down(full[p[0].key], p[1..][0]).None?;
    }
  }

  lemma HeaderIds(m: map<string, Json>, full: map<string, Json>, name: string, id: string)
    requires WithHeader(m, full, name, id) && Canonical(id)
    ensures NodesOk(Obj(m)) ==> NodesOk(Obj(full))
    ensures forall other :: HasId(Obj(full), other) <==> other == id || HasId(Obj(m), other)
    ensures UniqueIds(Obj(m)) && !HasId(Obj(m), id) ==> UniqueIds(Obj(full))
    ensures forall p :: RefAt(Obj(full), p) == RefAt(Obj(m), p)
  {
    var j, b := Obj(full), Obj(m);
    assert IdAt(j, []) == Some(id) && IdAt(b, []) == None && RefAt(j, []) == None == RefAt(b, []);
    CanonicalExactly(id);
    assert NodeOk(j) && At(j, []) == Some(j);
    forall p: seq<Step> | p != []
      ensures IdAt(j, p) == IdAt(b, p) && RefAt(j, p) == RefAt(b, p)
      ensures At(j, p).Some? ==> At(j, p) == At(b, p) || At(j, p).value.Str?
    {
      HeaderPath(m, full, name, id, p);
    }
    hide At, IdAt, RefAt;
    forall other ensures HasId(j, other) <==> other == id || HasId(b, other) {
      if HasId(b, other) {
        var p :| IdAt(b, p) == Some(other);
        assert IdAt(j, p) == Some(other);
      }
    }
  }

  /** Adding an object's own header to its members adds its own id. */
  lemma HeaderAccounts(s: Schema, r: Resource, m: map<string, Json>, full: map<string, Json>, x: Ref, v0: set<Ref>, v1: set<Ref>)
    requires Typed(s, r) && NamedClasses(s) && Valid(r, x) && x !in v0 && v0 + {x} <= v1 <= AllRefs(r)
    requires WithHeader(m, full, s.classes[x.cls].name, IdOf(s, x))
    requires Accounts(s, r, Obj(m), v0 + {x}, v1)
    ensures Accounts(s, r, Obj(full), v0, v1)
  {
    hide NodesOk, UniqueIds, HasId, RefAt, LiveId, NewId, WithHeader, ValidSchema;
    IdOfCanonical(s, r, x);
    OwnIdIsNew(s, r, Obj(m), x, v0, v1);
    HeaderIds(m, full, s.classes[x.cls].name, IdOf(s, x));
    forall id ensures HasId(Obj(full), id) <==> NewId(s, v0, v1, id) {
      NewIdSplits(s, v0, v0 + {x}, v1, id);
    }
  }

  lemma OwnIdIsNew(s: Schema, r: Resource, b: Json, x: Ref, v0: set<Ref>, v1: set<Ref>)
    requires Typed(s, r) && Valid(r, x) && x !in v0 && v0 + {x} <= v1 <= AllRefs(r)
    requires Accounts(s, r, b, v0 + {x}, v1)
    ensures !HasId(b, IdOf(s, x))
    ensures forall id :: NewId(s, v0, v0 + {x}, id) <==> id == IdOf(s, x)
  {
    forall y | y in v1 && y !in v0 + {x} ensures IdOf(s, y) != IdOf(s, x) {
      assert y in AllRefs(r);
      if IdOf(s, y) == IdOf(s, x) {
        IdOfInjective(s, r, x, y);
      }
    }
  }

  // ----- the saved document -----

  ghost predicate Quiet(s: Schema, r: Resource, items: seq<Json>)
    requires Typed(s, r)
  {
    forall k, v :: 0 <= k < |items| ==> Accounts(s, r, items[k], v, v)
  }

  lemma {:induction false} QuietAccounts(s: Schema, r: Resource, items: seq<Json>, v: set<Ref>)
    requires Typed(s, r) && Quiet(s, r, items) && v <= AllRefs(r)
    ensures Accounts(s, r, Arr(items), v, v)
  {
    if items == [] {
      LeafAccounts(s, r, Arr(items), v);
    } else {
      QuietAccounts(s, r, items[1..], v);
      ConsAccounts(s, r, items[0], items[1..], v, v, v);
      assert items == [items[0]] + items[1..];
    }
  }

  /** The members written for the features from position `f` on. */
  ghost function Tail(cls: Class, f: nat, m: map<string, Json>): map<string, Json> {
    map k | k in m && NamesFrom(cls, f, k) :: m[k]
  }

  lemma TailStep(s: Schema, cls: Class, f: nat, m: map<string, Json>)
    requires f < |cls.features|
    requires forall g :: f < g < |cls.features| ==> cls.features[g].name != cls.features[f].name
    ensures var name := cls.features[f].name;
            && name !in Tail(cls, f + 1, m)
            && Tail(cls, f, m) == if name in m then Tail(cls, f + 1, m)[name := m[name]] else Tail(cls, f + 1, m)
  {
    var name := cls.features[f].name;
    forall k ensures NamesFrom(cls, f, k) <==> k == name || NamesFrom(cls, f + 1, k) {
      if NamesFrom(cls, f, k) && k != name {
        var g :| f <= g < |cls.features| && cls.features[g].name == k;
      }
    }
  }

  /** The members of a saved object are its header and what its features wrote. */
  lemma SavedWithHeader(s: Schema, r: Resource, x: Ref, header: map<string, Json>, members: map<string, Json>)
    requires Typed(s, r) && Valid(r, x) && Written(s, r, x, 0, header, members)
    requires header == map[KEY_TYPE := Str(s.classes[x.cls].name), KEY_ID := Str(IdOf(s, x))]
    ensures WithHeader(Tail(s.classes[x.cls], 0, members), members, s.classes[x.cls].name, IdOf(s, x))
  {
    hide MemberOk;
    var cls := s.classes[x.cls];
    forall g | 0 <= g < |cls.features|
      ensures cls.features[g].name != KEY_TYPE && cls.features[g].name != KEY_ID && cls.features[g].name != KEY_REF
    {
      assert ValidFeature(s, cls.features[g]);
    }
    var m := Tail(cls, 0, members);
    assert KEY_TYPE in header && KEY_ID in header && KEY_REF !in header;
    assert members == m[KEY_TYPE := Str(cls.name)][KEY_ID := Str(IdOf(s, x))];
  }

  lemma {:induction false} SavedObjectAccounts(s: Schema, r: Resource, x: Ref, visited: set<Ref>)
    requires Typed(s, r) && NamedClasses(s) && Valid(r, x) && x !in visited && visited <= AllRefs(r)
    ensures var (j, v) := SaveObject(s, r, x, visited);
            v <= AllRefs(r) && Accounts(s, r, j, visited, v)
    decreases AllRefs(r) - visited, 0, 0
  {
    assert x in AllRefs(r);
    var cls := s.classes[x.cls];
    var header := map[KEY_TYPE := Str(cls.name), KEY_ID := Str(IdOf(s, x))];
    forall g | 0 <= g < |cls.features| ensures cls.features[g].name !in header {
      assert ValidFeature(s, cls.features[g]);
    }
    hide Accounts, Written, Emitted, NamedClasses, ValidSchema, WellTyped, ValidFeature, WithHeader, Tail;
    SavedFeaturesAccount(s, r, x, 0, header, visited + {x});
    var refs := SaveFeaturesEmits(s, r, x, 0, header, visited + {x});
    var (members, v) := SaveFeatures(s, r, x, 0, header, visited + {x});
    SavedWithHeader(s, r, x, header, members);
    HeaderAccounts(s, r, Tail(cls, 0, members), members, x, visited, v);
  }

  lemma {:induction false} SavedFeaturesAccount(s: Schema, r: Resource, x: Ref, f: nat, members: map<string, Json>, visited: set<Ref>)
    requires Typed(s, r) && NamedClasses(s) && Valid(r, x) && f <= |s.classes[x.cls].features| && visited <= AllRefs(r)
    requires forall g :: f <= g < |s.classes[x.cls].features| ==> s.classes[x.cls].features[g].name !in members
    ensures var (after, v) := SaveFeatures(s, r, x, f, members, visited);
            v <= AllRefs(r) && Accounts(s, r, Obj(Tail(s.classes[x.cls], f, after)), visited, v)
    decreases AllRefs(r) - visited, 1, |s.classes[x.cls].features| - f
  {
    var cls := s.classes[x.cls];
    if f == |cls.features| {
      assert Tail(cls, f, members) == map[];
      EmptyAccounts(s, r, visited);
    } else {
      var feature := cls.features[f];
      assert ValidFeature(s, feature);
      var values, v1 := SavedFeatureAccounts(s, r, x, f, visited);
      var m1 := if IsSaved(feature) then Put(members, feature, values) else members;
      SaveFeaturesStep(s, r, x, f, members, visited, values, v1);
      SavedFeaturesAccount(s, r, x, f + 1, m1, v1);
      AddFeature(s, r, x, f, members, m1, values, visited, v1);
    }
  }

  lemma AddFeature(s: Schema, r: Resource, x: Ref, f: nat, members: map<string, Json>, m1: map<string, Json>,
                   values: seq<Json>, visited: set<Ref>, v1: set<Ref>)
    requires Typed(s, r) && Valid(r, x) && f < |s.classes[x.cls].features|
    requires visited <= v1 <= AllRefs(r) && FeatureSaved(s, r, x, f, visited, values, v1)
    requires forall g :: f <= g < |s.classes[x.cls].features| ==> s.classes[x.cls].features[g].name !in members
    requires m1 == if IsSaved(s.classes[x.cls].features[f]) then Put(members, s.classes[x.cls].features[f], values) else members
    requires values == [] ==> visited == v1
    requires Accounts(s, r, Arr(values), visited, v1)
    requires |values| == 1 ==> Accounts(s, r, values[0], visited, v1)
    requires SaveFeatures(s, r, x, f + 1, m1, v1).1 <= AllRefs(r)
    requires Accounts(s, r, Obj(Tail(s.classes[x.cls], f + 1, SaveFeatures(s, r, x, f + 1, m1, v1).0)),
                      v1, SaveFeatures(s, r, x, f + 1, m1, v1).1)
    ensures Accounts(s, r, Obj(Tail(s.classes[x.cls], f, SaveFeatures(s, r, x, f + 1, m1, v1).0)),
                     visited, SaveFeatures(s, r, x, f + 1, m1, v1).1)
  {
    hide Accounts;
    var cls := s.classes[x.cls];
    var feature := cls.features[f];
    var (after, v) := SaveFeatures(s, r, x, f + 1, m1, v1);
    FeatureMember(s, r, x, f, members, m1, values, visited, v1);
    TailStep(s, cls, f, after);
    forall g | f <= g < |cls.features|
      ensures cls.features[g].name != KEY_TYPE && cls.features[g].name != KEY_ID && cls.features[g].name != KEY_REF
    {
      assert ValidFeature(s, cls.features[g]);
    }
    if IsSaved(feature) && feature.name in after {
      MemberAccounts(s, r, Tail(cls, f + 1, after), feature.name, after[feature.name], visited, v1, v);
    } else {
      assert visited == v1;
    }
  }

  /** The member written for feature `f` is still there once later features are written. */
  lemma FeatureMember(s: Schema, r: Resource, x: Ref, f: nat, members: map<string, Json>, m1: map<string, Json>,
                      values: seq<Json>, visited: set<Ref>, v1: set<Ref>)
    requires Typed(s, r) && Valid(r, x) && f < |s.classes[x.cls].features|
    requires FeatureSaved(s, r, x, f, visited, values, v1)
    requires forall g :: f <= g < |s.classes[x.cls].features| ==> s.classes[x.cls].features[g].name !in members
    requires m1 == if IsSaved(s.classes[x.cls].features[f]) then Put(members, s.classes[x.cls].features[f], values) else members
    ensures var feature, after := s.classes[x.cls].features[f], SaveFeatures(s, r, x, f + 1, m1, v1).0;
            && (!IsSaved(feature) ==> values == [])
            && (feature.name in after <==> IsSaved(feature) && (feature.many || values != []))
            && (feature.name in after ==> after[feature.name] == if feature.many then Arr(values) else values[0])
            && (!feature.many && IsSaved(feature) ==> |values| <= 1)
  {
    var feature := s.classes[x.cls].features[f];
    assert ValidFeature(s, feature) && SlotFits(r, feature, r[x.cls][x.idx][f]);
    forall g | f < g < |s.classes[x.cls].features| ensures s.classes[x.cls].features[g].name !in m1 {
      assert s.classes[x.cls].features[g].name != feature.name;
    }
    var refs := SaveFeaturesEmits(s, r, x, f + 1, m1, v1);
    assert !NamesFrom(s.classes[x.cls], f + 1, feature.name);
  }

  lemma EmptyAccounts(s: Schema, r: Resource, v: set<Ref>)
    requires Typed(s, r)
    ensures Accounts(s, r, Obj(map[]), v, v)
  {
    var j := Obj(map[]);
    assert forall step :: Down(j, step).None?;
    assert forall p :: At(j, p).Some? ==> p == [];
  }

  /** The member of one feature accounts for the objects it writes inline. */
  lemma {:induction false} SavedFeatureAccounts(s: Schema, r: Resource, x: Ref, f: nat, visited: set<Ref>)
    returns (values: seq<Json>, after: set<Ref>)
    requires Typed(s, r) && NamedClasses(s) && Valid(r, x) && f < |s.classes[x.cls].features| && visited <= AllRefs(r)
    ensures visited <= after <= AllRefs(r)
    ensures FeatureSaved(s, r, x, f, visited, values, after)
    ensures values == [] ==> visited == after
    ensures Accounts(s, r, Arr(values), visited, after)
    ensures |values| == 1 ==> Accounts(s, r, values[0], visited, after)
    decreases AllRefs(r) - visited, 1, 0
  {
    hide Accounts;
    var feature := s.classes[x.cls].features[f];
    var slot := r[x.cls][x.idx][f];
    assert ValidFeature(s, feature) && SlotFits(r, feature, slot);
    values, after := [], visited;
    if feature.derived || feature.kind.Container? {
      LeafAccounts(s, r, Arr([]), visited);
    } else if feature.kind.Containment? {
      values := SaveChildren(s, r, feature.target, slot.keys, visited).0;
      after := SaveChildren(s, r, feature.target, slot.keys, visited).1;
      SavedChildrenAccount(s, r, feature.target, slot.keys, visited);
    } else {
      values := if feature.kind.Attribute? then SaveScalars(slot.values) else RefObjects(s, feature.target, slot.keys);
      forall k, v | 0 <= k < |values| ensures Accounts(s, r, values[k], v, v) {
        if feature.kind.Attribute? {
          LeafAccounts(s, r, values[k], v);
        } else {
          LinkAccounts(s, r, Ref(feature.target, slot.keys[k]), v);
        }
      }
      QuietAccounts(s, r, values, visited);
    }
    if |values| == 1 {
      assert values == [values[0]];
      OnlyItemAccounts(s, r, values[0], visited, after);
    }
  }

  lemma {:induction false} SavedChildrenAccount(s: Schema, r: Resource, t: nat, keys: seq<nat>, visited: set<Ref>)
    requires Typed(s, r) && NamedClasses(s) && t < |s.classes| && visited <= AllRefs(r)
    requires forall k :: 0 <= k < |keys| ==> Valid(r, Ref(t, keys[k]))
    ensures var (items, v) := SaveChildren(s, r, t, keys, visited);
            v <= AllRefs(r) && Accounts(s, r, Arr(items), visited, v)
    decreases AllRefs(r) - visited, 0, |keys|
  {
    hide Accounts;
    if keys == [] {
      LeafAccounts(s, r, Arr([]), visited);
    } else {
      var child := Ref(t, keys[0]);
      var item, v := RefObject(IdOf(s, child)), visited;
      if child in visited {
        LinkAccounts(s, r, child, visited);
      } else {
        SavedObjectAccounts(s, r, child, visited);
        item := SaveObject(s, r, child, visited).0;
        v := SaveObject(s, r, child, visited).1;
      }
      SavedChildrenAccount(s, r, t, keys[1..], v);
      var (items, v') := SaveChildren(s, r, t, keys[1..], v);
      ConsAccounts(s, r, item, items, visited, v, v');
    }
  }

  lemma {:induction false} SavedRootsAccount(s: Schema, r: Resource, c: nat, i: nat, visited: set<Ref>)
    requires Typed(s, r) && NamedClasses(s) && c <= |r| && visited <= AllRefs(r)
    requires c < |r| ==> i <= |r[c]|
    ensures var (items, v) := SaveRoots(s, r, c, i, visited);
            && visited <= v <= AllRefs(r) && Accounts(s, r, Arr(items), visited, v)
            && forall k :: 0 <= k < |items| ==> items[k].Obj?
    decreases |r| - c, if c < |r| then |r[c]| - i else 0
  {
    hide Accounts;
    if c == |r| {
      LeafAccounts(s, r, Arr([]), visited);
    } else if i == |r[c]| {
      SavedRootsAccount(s, r, c + 1, 0, visited);
    } else if Ref(c, i) in visited {
      SavedRootsAccount(s, r, c, i + 1, visited);
    } else {
      SavedObjectAccounts(s, r, Ref(c, i), visited);
      var (item, v) := SaveObject(s, r, Ref(c, i), visited);
      SavedRootsAccount(s, r, c, i + 1, v);
      var (items, v') := SaveRoots(s, r, c, i + 1, v);
      ConsAccounts(s, r, item, items, visited, v, v');
    }
  }

  /** The independent checker accepts every saved document, provided the model and
      the class singulars have names. */
  lemma SavedDocumentsAreAccepted(s: Schema, r: Resource, ord: set<string> -> seq<string>)
    requires Typed(s, r) && NamedClasses(s) && s.model != "" && KeyOrder(ord)
    ensures CheckInstance(SaveDocument(s, r).members, ord) == []
  {
    hide Depicts, CheckInstance;
    var root := SaveDocument(s, r).members;
    SavedRootsAccount(s, r, 0, 0, {});
    var (items, v) := SaveRoots(s, r, 0, 0, {});
    var objects, refs := SaveRootsEmits(s, r, 0, 0, {});
    forall p | RefAt(Arr(items), p).Some? ensures HasId(Arr(items), RefAt(Arr(items), p).value) {
      var id := RefAt(Arr(items), p).value;
      assert LiveId(s, r, id);
      var x :| Valid(r, x) && IdOf(s, x) == id;
      assert x in v;
      assert NewId(s, {}, v, id);
    }
    CheckerDecides(root, ord);
  }
}

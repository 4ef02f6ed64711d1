/** Sorting the collected objects by canonical id restores, class by class, the
    arena order. */
module Sorting {
  import opened Common
  import opened JsonTree
  import opened Ids
  import opened Schemas
  import opened Loading
  import opened SavedForm

  // ----- the sort key is a strict total order -----

  lemma {:induction false} TextLessTrichotomy(a: string, b: string)
    ensures TextLess(a, b) || a == b || TextLess(b, a)
    ensures TextLess(a, b) ==> !TextLess(b, a) && a != b
  {
    if a != [] && b != [] && a[0] == b[0] {
      TextLessTrichotomy(a[1..], b[1..]);
      assert a == [a[0]] + a[1..] && b == [b[0]] + b[1..];
    }
  }

  lemma {:induction false} TextLessTransitive(a: string, b: string, c: string)
    requires TextLess(a, b) && TextLess(b, c)
    ensures TextLess(a, c)
  {
    if a != [] && a[0] == b[0] == c[0] {
      TextLessTransitive(a[1..], b[1..], c[1..]);
    }
  }

  /** If `x` precedes `y`, everything else precedes `y` or follows `x`. */
  lemma KeyLessWeak(x: Option<(string, nat)>, y: Option<(string, nat)>, z: Option<(string, nat)>)
    requires KeyLess(x, y)
    ensures KeyLess(x, z) || KeyLess(z, y)
    ensures !KeyLess(y, x)
  {
    if x.Some? {
      TextLessTrichotomy(x.value.0, y.value.0);
      if z.Some? {
        TextLessTrichotomy(x.value.0, z.value.0);
        TextLessTrichotomy(z.value.0, y.value.0);
        if TextLess(z.value.0, x.value.0) && TextLess(x.value.0, y.value.0) {
          TextLessTransitive(z.value.0, x.value.0, y.value.0);
        }
      }
    }
  }

  ghost predicate SortedByKey(objects: seq<Json>) {
    forall p, q :: 0 <= p < q < |objects| ==> !KeyLess(DocumentKey(objects[q]), DocumentKey(objects[p]))
  }

  /** The sort orders by key and keeps every object. */
  lemma {:induction false} InsertSorts(x: Json, objects: seq<Json>)
    requires SortedByKey(objects)
    ensures SortedByKey(Insert(x, objects))
    ensures multiset(Insert(x, objects)) == multiset(objects) + multiset{x}
  {
    hide DocumentKey, KeyLess, SortedByKey;
    if objects == [] {
      SortedAppend([], x);
      assert [] + [x] == [x];
    } else {
      var front, last := objects[..|objects| - 1], objects[|objects| - 1];
      assert objects == front + [last];
      SortedFront(front, last);
      if KeyLess(DocumentKey(x), DocumentKey(last)) {
        InsertSorts(x, front);
        KeyLessWeak(DocumentKey(x), DocumentKey(last), None);
        SortedBefore(front, x, last, Insert(x, front));
        SortedAppend(Insert(x, front), last);
      } else {
        SortedAfter(front, x, last);
        SortedAppend(objects, x);
      }
    }
  }

  /** Nothing in the list comes after the key. */
  ghost predicate NoneAfter(objects: seq<Json>, x: Json) {
    forall p :: 0 <= p < |objects| ==> !KeyLess(DocumentKey(x), DocumentKey(objects[p]))
  }

  lemma SortedAppend(objects: seq<Json>, x: Json)
    requires SortedByKey(objects) && NoneAfter(objects, x)
    ensures SortedByKey(objects + [x])
  {
    hide DocumentKey, KeyLess;
  }

  lemma SortedFront(front: seq<Json>, last: Json)
    requires SortedByKey(front + [last])
    ensures SortedByKey(front) && NoneAfter(front, last)
  {
    hide DocumentKey, KeyLess;
    var objects := front + [last];
    assert forall p :: 0 <= p < |front| ==> objects[p] == front[p];
    assert objects[|front|] == last;
  }

  lemma SortedBefore(front: seq<Json>, x: Json, last: Json, placed: seq<Json>)
    requires multiset(placed) == multiset(front) + multiset{x} && NoneAfter(front, last) && !KeyLess(DocumentKey(last), DocumentKey(x))
    ensures NoneAfter(placed, last)
  {
    hide DocumentKey, KeyLess;
    forall p | 0 <= p < |placed| ensures !KeyLess(DocumentKey(last), DocumentKey(placed[p])) {
      assert placed[p] in multiset(placed);
      if placed[p] != x {
        assert placed[p] in front;
      }
    }
  }

  lemma SortedAfter(front: seq<Json>, x: Json, last: Json)
    requires NoneAfter(front, last) && !KeyLess(DocumentKey(x), DocumentKey(last))
    ensures NoneAfter(front + [last], x)
  {
    hide DocumentKey, KeyLess;
    var objects := front + [last];
    forall p | 0 <= p < |objects| ensures !KeyLess(DocumentKey(x), DocumentKey(objects[p])) {
      if KeyLess(DocumentKey(x), DocumentKey(objects[p])) {
        KeyLessWeak(DocumentKey(x), DocumentKey(objects[p]), DocumentKey(last));
      }
    }
  }

  lemma {:induction false} SortByKeySorts(objects: seq<Json>)
    ensures SortedByKey(SortByKey(objects))
    ensures multiset(SortByKey(objects)) == multiset(objects)
  {
    if objects != [] {
      var front, last := objects[..|objects| - 1], objects[|objects| - 1];
      assert objects == front + [last];
      SortByKeySorts(front);
      InsertSorts(last, SortByKey(front));
    }
  }

  /** Ids without a `<prefix>/<number>` shape sort before all others. */
  lemma NonCanonicalIdsSortFirst(objects: seq<Json>, p: nat, q: nat)
    requires p < |SortByKey(objects)| && q < |SortByKey(objects)|
    requires DocumentKey(SortByKey(objects)[p]).None? && DocumentKey(SortByKey(objects)[q]).Some?
    ensures p < q
  {
    SortByKeySorts(objects);
    var sorted := SortByKey(objects);
    assert KeyLess(DocumentKey(sorted[p]), DocumentKey(sorted[q]));
    assert p != q;
  }

  /** The objects with equal keys, in order. */
  function WithKey(objects: seq<Json>, key: Option<(string, nat)>): seq<Json> {
    if objects == [] then []
    else
      var last := objects[|objects| - 1];
      WithKey(objects[..|objects| - 1], key) + if DocumentKey(last) == key then [last] else []
  }

  lemma WithKeySnoc(objects: seq<Json>, x: Json, key: Option<(string, nat)>)
    ensures WithKey(objects + [x], key) == WithKey(objects, key) + if DocumentKey(x) == key then [x] else []
  {
    assert (objects + [x])[..|objects|] == objects;
  }

  lemma {:induction false} InsertKeepsKey(x: Json, objects: seq<Json>, key: Option<(string, nat)>)
    ensures WithKey(Insert(x, objects), key) == WithKey(objects, key) + if DocumentKey(x) == key then [x] else []
  {
    hide DocumentKey, KeyLess;
    if objects != [] {
      var front, last := objects[..|objects| - 1], objects[|objects| - 1];
      if KeyLess(DocumentKey(x), DocumentKey(last)) {
        InsertKeepsKey(x, front, key);
        WithKeySnoc(Insert(x, front), last, key);
        KeyLessWeak(DocumentKey(x), DocumentKey(last), None);
      } else {
        WithKeySnoc(objects, x, key);
      }
    }
  }

  /** Objects with equal keys keep their document order. */
  lemma {:induction false} SortIsStable(objects: seq<Json>, key: Option<(string, nat)>)
    ensures WithKey(SortByKey(objects), key) == WithKey(objects, key)
  {
    if objects != [] {
      var front := objects[..|objects| - 1];
      SortIsStable(front, key);
      InsertKeepsKey(objects[|objects| - 1], SortByKey(front), key);
    }
  }

  // ----- depicted objects -----

  function KeyOf(s: Schema, x: Ref): Option<(string, nat)>
    requires x.cls < |s.classes|
  {
    Some((s.classes[x.cls].single, x.idx))
  }

  lemma DocumentKeyOfDepicted(s: Schema, r: Resource, x: Ref, j: Json)
    requires Typed(s, r) && Depicts(s, r, x, j)
    ensures DocumentKey(j) == KeyOf(s, x)
  {
    SortKeyOfInstanceId(s.classes[x.cls].single, x.idx);
  }

  ghost predicate Listing(s: Schema, r: Resource, objects: seq<Json>, refs: seq<Ref>)
    requires Typed(s, r)
  {
    && |objects| == |refs| && NoDup(refs)
    && forall k :: 0 <= k < |refs| ==> Depicts(s, r, refs[k], objects[k])
  }

  /** `objects` and `refs` are related entry by entry. */
  ghost predicate Paired<T(!new)>(related: (T, Json) -> bool, objects: seq<Json>, refs: seq<T>) {
    && |objects| == |refs| && NoDup(refs)
    && forall k :: 0 <= k < |refs| ==> related(refs[k], objects[k])
  }

  /** By key, and in the order `before` where keys are equal. */
  ghost predicate Placed<T(!new)>(before: (T, T) -> bool, objects: seq<Json>, refs: seq<T>)
    requires |objects| == |refs|
  {
    forall p, q :: 0 <= p < q < |refs| ==> PlacedPair(before, objects[p], refs[p], objects[q], refs[q])
  }

  ghost predicate PlacedPair<T>(before: (T, T) -> bool, j: Json, x: T, j': Json, x': T) {
    KeyLess(DocumentKey(j), DocumentKey(j')) || (DocumentKey(j) == DocumentKey(j') && before(x, x'))
  }

  lemma {:induction false} InsertPaired<T(!new)>(related: (T, Json) -> bool, before: (T, T) -> bool, x: T, j: Json,
                                                 objects: seq<Json>, refs: seq<T>)
    returns (out: seq<T>)
    requires Paired(related, objects, refs) && related(x, j) && x !in refs
    requires Placed(before, objects, refs) && forall y :: y in refs ==> before(y, x)
    ensures Paired(related, Insert(j, objects), out)
    ensures forall y :: y in out <==> y in refs || y == x
    ensures forall p :: 0 <= p < |out| ==> (out[p] == x && Insert(j, objects)[p] == j)
                                           || exists q :: 0 <= q < |refs| && out[p] == refs[q] && Insert(j, objects)[p] == objects[q]
    ensures Placed(before, Insert(j, objects), out)
  {
    hide DocumentKey, KeyLess, PlacedPair;
    if objects == [] {
      out := [x];
    } else {
      var n := |objects| - 1;
      if KeyLess(DocumentKey(j), DocumentKey(objects[n])) {
        assert refs == refs[..n] + [refs[n]];
        var front := InsertPaired(related, before, x, j, objects[..n], refs[..n]);
        assert refs[n] !in refs[..n];
        out := front + [refs[n]];
        assert Insert(j, objects) == Insert(j, objects[..n]) + [objects[n]];
        PlacedBefore(before, j, x, objects[n], refs[n]);
        forall p | 0 <= p < |front| ensures PlacedPair(before, Insert(j, objects)[p], out[p], objects[n], refs[n]) {
          assert out[p] == front[p] && Insert(j, objects)[p] == Insert(j, objects[..n])[p];
        }
      } else {
        out := refs + [x];
        forall p | 0 <= p < |refs| ensures PlacedPair(before, objects[p], refs[p], j, x) {
          assert refs[p] in refs;
          PlacedAfter(before, objects[p], refs[p], objects[n], refs[n], j, x, p == n);
        }
      }
    }
  }

  lemma PlacedBefore<T>(before: (T, T) -> bool, j: Json, x: T, j': Json, x': T)
    requires KeyLess(DocumentKey(j), DocumentKey(j'))
    ensures PlacedPair(before, j, x, j', x')
  {}

  /** What is not after the last is not after anything the last is not after. */
  lemma PlacedAfter<T>(before: (T, T) -> bool, j: Json, x: T, last: Json, y: T, j': Json, x': T, isLast: bool)
    requires if isLast then j == last else PlacedPair(before, j, x, last, y)
    requires !KeyLess(DocumentKey(j'), DocumentKey(last)) && before(x, x')
    ensures PlacedPair(before, j, x, j', x')
  {
    hide DocumentKey, KeyLess;
    KeyLessTotal(DocumentKey(j), DocumentKey(j'));
    if KeyLess(DocumentKey(j), DocumentKey(last)) {
      KeyLessWeak(DocumentKey(j), DocumentKey(last), DocumentKey(j'));
    }
  }

  lemma KeyLessTotal(x: Option<(string, nat)>, y: Option<(string, nat)>)
    ensures KeyLess(x, y) || x == y || KeyLess(y, x)
  {
    if x.Some? && y.Some? {
      TextLessTrichotomy(x.value.0, y.value.0);
    }
  }

  /** Sorting carries along whatever the objects are related to, and keeps the
      given order among equal keys. */
  lemma {:induction false} SortPaired<T(!new)>(related: (T, Json) -> bool, before: (T, T) -> bool, objects: seq<Json>, refs: seq<T>)
    returns (out: seq<T>)
    requires Paired(related, objects, refs)
    requires forall p, q :: 0 <= p < q < |refs| ==> before(refs[p], refs[q])
    ensures Paired(related, SortByKey(objects), out)
    ensures forall x :: x in out <==> x in refs
    ensures Placed(before, SortByKey(objects), out)
  {
    hide DocumentKey, KeyLess, PlacedPair, Insert;
    if objects == [] {
      out := [];
    } else {
      var n := |objects| - 1;
      assert refs == refs[..n] + [refs[n]];
      out := SortPaired(related, before, objects[..n], refs[..n]);
      assert refs[n] !in refs[..n];
      out := InsertPaired(related, before, refs[n], objects[n], SortByKey(objects[..n]), out);
    }
  }

  /** Sorting a listing gives a listing of the same objects. */
  lemma SortListing(s: Schema, r: Resource, objects: seq<Json>, refs: seq<Ref>) returns (out: seq<Ref>)
    requires Typed(s, r) && Listing(s, r, objects, refs)
    ensures Listing(s, r, SortByKey(objects), out)
    ensures forall x :: x in out <==> x in refs
  {
    var related := (x: Ref, j: Json) => Depicts(s, r, x, j);
    out := SortPaired(related, (x: Ref, y: Ref) => true, objects, refs);
    forall k | 0 <= k < |out| ensures Depicts(s, r, out[k], SortByKey(objects)[k]) {
      assert related(out[k], SortByKey(objects)[k]);
    }
  }

  // ----- class by class, the arena order -----

  /** How many objects of each class are listed. */
  function Counts(n: nat, refs: seq<Ref>): (counts: seq<nat>)
    requires forall x :: x in refs ==> x.cls < n
    ensures |counts| == n
  {
    if refs == [] then seq(n, c => 0)
    else
      var last := refs[|refs| - 1];
      var counts := Counts(n, refs[..|refs| - 1]);
      counts[last.cls := counts[last.cls] + 1]
  }

  ghost predicate Complete(r: Resource, refs: seq<Ref>) {
    NoDup(refs) && forall x :: x in refs <==> Valid(r, x)
  }

  ghost predicate InKeyOrder(s: Schema, refs: seq<Ref>)
    requires forall x :: x in refs ==> x.cls < |s.classes|
  {
    forall p, q :: 0 <= p < q < |refs| ==> !KeyLess(KeyOf(s, refs[q]), KeyOf(s, refs[p]))
  }

  /** In a complete list sorted by id, the first p entries hold, of each class,
      exactly the objects below its count, and the next entry is the next object
      of its class. */
  lemma {:induction false} SortedIsArenaOrder(s: Schema, r: Resource, refs: seq<Ref>, p: nat)
    requires Typed(s, r) && Complete(r, refs) && InKeyOrder(s, refs) && p <= |refs|
    ensures forall x :: x in refs[..p] ==> x.cls < |r|
    ensures forall x :: Valid(r, x) ==> (x in refs[..p] <==> x.idx < Counts(|r|, refs[..p])[x.cls])
    ensures forall c :: 0 <= c < |r| ==> Counts(|r|, refs[..p])[c] <= |r[c]|
    ensures p < |refs| ==> Valid(r, refs[p]) && refs[p].idx == Counts(|r|, refs[..p])[refs[p].cls]
  {
    hide ValidSchema, KeyLess, KeyOf, InKeyOrder, Complete;
    if p > 0 {
      SortedIsArenaOrder(s, r, refs, p - 1);
      PrefixCounts(r, refs, p - 1);
    }
    if p < |refs| {
      NextInArenaOrder(s, r, refs, p, Counts(|r|, refs[..p]));
    }
  }

  /** One more entry, and the counts still bound what is listed. */
  lemma PrefixCounts(r: Resource, refs: seq<Ref>, p: nat)
    requires Complete(r, refs) && p < |refs|
    requires forall x :: x in refs[..p] ==> x.cls < |r|
    requires forall x :: Valid(r, x) ==> (x in refs[..p] <==> x.idx < Counts(|r|, refs[..p])[x.cls])
    requires forall c :: 0 <= c < |r| ==> Counts(|r|, refs[..p])[c] <= |r[c]|
    requires Valid(r, refs[p]) && refs[p].idx == Counts(|r|, refs[..p])[refs[p].cls]
    ensures forall x :: x in refs[..p + 1] ==> x.cls < |r|
    ensures forall x :: Valid(r, x) ==> (x in refs[..p + 1] <==> x.idx < Counts(|r|, refs[..p + 1])[x.cls])
    ensures forall c :: 0 <= c < |r| ==> Counts(|r|, refs[..p + 1])[c] <= |r[c]|
  {
    hide Complete;
    var y, front, more := refs[p], refs[..p], refs[..p + 1];
    assert more == front + [y] && more[..p] == front;
    var before, after := Counts(|r|, front), Counts(|r|, more);
    assert after == before[y.cls := before[y.cls] + 1];
    hide Counts;
    forall x | Valid(r, x) ensures x in more <==> x.idx < after[x.cls] {
      assert x in more <==> x in front || x == y;
    }
  }

  lemma NextInArenaOrder(s: Schema, r: Resource, refs: seq<Ref>, p: nat, counts: seq<nat>)
    requires Typed(s, r) && Complete(r, refs) && InKeyOrder(s, refs) && p < |refs| && |counts| == |r|
    requires forall c :: 0 <= c < |r| ==> counts[c] <= |r[c]|
    requires forall x :: Valid(r, x) ==> (x in refs[..p] <==> x.idx < counts[x.cls])
    ensures Valid(r, refs[p]) && refs[p].idx == counts[refs[p].cls]
  {
    hide ValidSchema;
    var x := refs[p];
    assert x in refs && Valid(r, x);
    var count := counts[x.cls];
    assert forall q :: 0 <= q < p ==> refs[..p][q] == refs[q];
    assert x == Ref(x.cls, x.idx) && x !in refs[..p];
    var y := Ref(x.cls, count);
    assert y !in refs[..p] && Valid(r, y) && y in refs;
    var q :| 0 <= q < |refs| && refs[q] == y;
    TextLessTrichotomy(s.classes[x.cls].single, s.classes[x.cls].single);
  }

  /** A complete list counts every arena in full. */
  lemma CompleteCounts(s: Schema, r: Resource, refs: seq<Ref>, c: nat)
    requires Typed(s, r) && Complete(r, refs) && InKeyOrder(s, refs) && c < |r|
    ensures Counts(|r|, refs)[c] == |r[c]|
  {
    SortedIsArenaOrder(s, r, refs, |refs|);
    assert refs[..|refs|] == refs;
    var x := Ref(c, Counts(|r|, refs)[c]);
    assert x in refs <==> Valid(r, x);
  }
}

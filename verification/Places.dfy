/** Flattening a document lists exactly its objects, each once, in document order. */
module Places {
  import opened Common
  import opened JsonTree
  import opened Ids
  import opened Schemas
  import opened Loading
  import opened Documents
  import opened Sorting

  lemma {:induction false} PathBeforeIsStrict(a: seq<Step>)
    ensures !PathBefore(a, a)
  {
    if a != [] {
      PathBeforeIsStrict(a[1..]);
    }
  }

  /** `paths` are in document order. */
  ghost predicate InOrder(paths: seq<seq<Step>>) {
    forall a, b :: 0 <= a < b < |paths| ==> PathBefore(paths[a], paths[b])
  }

  /** `list` holds what the paths lead to, and those are all the paths into `j`
      whose first step is selected. */
  ghost predicate Covers(s: Schema, c: nat, j: Json, list: seq<Json>, paths: seq<seq<Step>>, sel: Step -> bool)
    requires ValidSchema(s) && c < |s.classes|
  {
    && |list| == |paths| && InOrder(paths)
    && (forall k :: 0 <= k < |paths| ==> paths[k] != [] && sel(paths[k][0]) && Along(s, c, j, paths[k]) == Some(list[k]))
    && (forall path: seq<Step> :: path != [] && sel(path[0]) && Along(s, c, j, path).Some? ==> path in paths)
  }

  /** `list` holds `j` and everything embedded in it. */
  ghost predicate CoversAll(s: Schema, c: nat, j: Json, list: seq<Json>, paths: seq<seq<Step>>)
    requires ValidSchema(s) && c < |s.classes|
  {
    && |list| == |paths| && InOrder(paths)
    && (forall k :: 0 <= k < |paths| ==> Along(s, c, j, paths[k]) == Some(list[k]))
    && (forall path: seq<Step> :: Along(s, c, j, path).Some? ==> path in paths)
  }

  lemma CoversConcat(s: Schema, c: nat, j: Json, list1: seq<Json>, paths1: seq<seq<Step>>, sel1: Step -> bool,
                     list2: seq<Json>, paths2: seq<seq<Step>>, sel2: Step -> bool, sel: Step -> bool)
    requires ValidSchema(s) && c < |s.classes|
    requires Covers(s, c, j, list1, paths1, sel1) && Covers(s, c, j, list2, paths2, sel2)
    requires forall step :: sel(step) <==> sel1(step) || sel2(step)
    requires forall a, b :: sel1(a) && sel2(b) ==> StepBefore(a, b)
    ensures Covers(s, c, j, list1 + list2, paths1 + paths2, sel)
  {
    hide ValidSchema, Along, StepBefore;
    forall a, b | 0 <= a < b < |paths1 + paths2| ensures PathBefore((paths1 + paths2)[a], (paths1 + paths2)[b]) {
      if a < |paths1| <= b {
        assert StepBefore(paths1[a][0], paths2[b - |paths1|][0]);
      }
    }
  }

  lemma CoversNothing(s: Schema, c: nat, j: Json, sel: Step -> bool)
    requires ValidSchema(s) && c < |s.classes|
    requires forall step :: sel(step) ==> Inside(s, c, j, step).None?
    ensures Covers(s, c, j, [], [], sel)
  {
  }

  lemma SameSelection(s: Schema, c: nat, j: Json, list: seq<Json>, paths: seq<seq<Step>>, sel: Step -> bool, sel': Step -> bool)
    requires ValidSchema(s) && c < |s.classes| && Covers(s, c, j, list, paths, sel)
    requires forall step :: sel(step) ==> sel'(step)
    requires forall step :: sel'(step) && !sel(step) ==> Inside(s, c, j, step).None?
    ensures Covers(s, c, j, list, paths, sel')
  {
    forall path: seq<Step> | path != [] && sel'(path[0]) && Along(s, c, j, path).Some? ensures path in paths {
      assert sel(path[0]);
    }
  }

  function Prefixed(step: Step, paths: seq<seq<Step>>): (out: seq<seq<Step>>)
    ensures |out| == |paths| && forall k :: 0 <= k < |paths| ==> out[k] == [step] + paths[k]
  {
    seq(|paths|, k requires 0 <= k < |paths| => [step] + paths[k])
  }

  /** What is inside an embedded object is one step further in. */
  lemma CoversStep(s: Schema, c: nat, j: Json, step: Step, list: seq<Json>, paths: seq<seq<Step>>, sel: Step -> bool)
    requires ValidSchema(s) && c < |s.classes| && Inside(s, c, j, step).Some?
    requires s.classes[c].features[step.feature].target < |s.classes|
    requires CoversAll(s, s.classes[c].features[step.feature].target, Inside(s, c, j, step).value, list, paths)
    requires forall x :: sel(x) <==> x == step
    ensures Covers(s, c, j, list, Prefixed(step, paths), sel)
  {
    hide ValidSchema, Inside;
    var out := Prefixed(step, paths);
    forall k | 0 <= k < |out| ensures out[k] != [] && sel(out[k][0]) && Along(s, c, j, out[k]) == Some(list[k]) {
      assert out[k][1..] == paths[k];
    }
    forall path: seq<Step> | path != [] && sel(path[0]) && Along(s, c, j, path).Some? ensures path in out {
      assert path[1..] in paths;
      var k :| 0 <= k < |paths| && paths[k] == path[1..];
      assert out[k] == path;
    }
    forall a, b | 0 <= a < b < |out| ensures PathBefore(out[a], out[b]) {
      assert out[a][1..] == paths[a] && out[b][1..] == paths[b];
    }
  }

  lemma {:induction false} CollectObjectCovers(s: Schema, c: nat, j: Json) returns (paths: seq<seq<Step>>)
    requires ValidSchema(s) && c < |s.classes|
    ensures CoversAll(s, c, j, CollectObject(s, c, j), paths)
    decreases j
  {
    var inner := CollectFeaturesCovers(s, c, 0, j);
    paths := [[]] + inner;
    CoversItself(s, c, j, CollectFeatures(s, c, 0, j), inner);
  }

  lemma CoversItself(s: Schema, c: nat, j: Json, list: seq<Json>, inner: seq<seq<Step>>)
    requires ValidSchema(s) && c < |s.classes| && Covers(s, c, j, list, inner, From(0))
    ensures CoversAll(s, c, j, [j] + list, [[]] + inner)
  {
    hide ValidSchema, Inside, StepBefore;
    var paths := [[]] + inner;
    assert Along(s, c, j, []) == Some(j);
    hide Along;
    forall path: seq<Step> | Along(s, c, j, path).Some? ensures path in paths {
      if path != [] {
        assert path in inner;
      }
    }
    forall a, b | 0 <= a < b < |paths| ensures PathBefore(paths[a], paths[b]) {
      assert paths[b] == inner[b - 1];
    }
  }

  function From(f: nat): Step -> bool {
    (step: Step) => step.feature >= f
  }

  function At(f: nat): Step -> bool {
    (step: Step) => step.feature == f
  }

  function ItemsFrom(f: nat, n: nat): Step -> bool {
    (step: Step) => step.feature == f && step.item >= n
  }

  function Only(f: nat, n: nat): Step -> bool {
    (step: Step) => step == Step(f, n)
  }

  lemma {:induction false} CollectFeaturesCovers(s: Schema, c: nat, f: nat, j: Json) returns (paths: seq<seq<Step>>)
    requires ValidSchema(s) && c < |s.classes| && f <= |s.classes[c].features|
    ensures Covers(s, c, j, CollectFeatures(s, c, f, j), paths, From(f))
    decreases j, |s.classes[c].features| - f
  {
    if f == |s.classes[c].features| {
      CoversNothing(s, c, j, From(f));
      paths := [];
    } else {
      var feature := s.classes[c].features[f];
      assert ValidFeature(s, feature);
      var here := CollectMemberCovers(s, c, f, j);
      var further := CollectFeaturesCovers(s, c, f + 1, j);
      paths := here + further;
      CoversConcat(s, c, j, CollectMember(s, feature, j), here, At(f), CollectFeatures(s, c, f + 1, j), further, From(f + 1), From(f));
    }
  }

  lemma {:induction false} CollectMemberCovers(s: Schema, c: nat, f: nat, j: Json) returns (paths: seq<seq<Step>>)
    requires ValidSchema(s) && c < |s.classes| && f < |s.classes[c].features| && ValidFeature(s, s.classes[c].features[f])
    ensures Covers(s, c, j, CollectMember(s, s.classes[c].features[f], j), paths, At(f))
    decreases j, 0
  {
    hide ValidSchema;
    var feature := s.classes[c].features[f];
    if !feature.kind.Containment? || Get(j, feature.name).None? {
      CoversNothing(s, c, j, At(f));
      paths := [];
    } else {
      var v := Get(j, feature.name).value;
      if feature.many && v.Arr? {
        paths := CollectItemsCovers(s, c, f, j, 0);
        assert v.items[0..] == v.items;
        SameSelection(s, c, j, CollectItems(s, feature.target, v.items), paths, ItemsFrom(f, 0), At(f));
      } else if !feature.many && Get(v, KEY_TYPE).Some? {
        var inner := CollectObjectCovers(s, feature.target, v);
        paths := Prefixed(Step(f, 0), inner);
        CoversStep(s, c, j, Step(f, 0), CollectObject(s, feature.target, v), inner, Only(f, 0));
        SameSelection(s, c, j, CollectObject(s, feature.target, v), paths, Only(f, 0), At(f));
      } else {
        CoversNothing(s, c, j, At(f));
        paths := [];
      }
    }
  }

  lemma {:induction false} CollectItemsCovers(s: Schema, c: nat, f: nat, j: Json, n: nat) returns (paths: seq<seq<Step>>)
    requires ValidSchema(s) && c < |s.classes| && f < |s.classes[c].features| && ValidFeature(s, s.classes[c].features[f])
    requires var feature := s.classes[c].features[f];
             && feature.kind.Containment? && feature.many && Get(j, feature.name).Some?
             && Get(j, feature.name).value.Arr? && n <= |Get(j, feature.name).value.items|
    ensures var feature := s.classes[c].features[f];
            Covers(s, c, j, CollectItems(s, feature.target, Get(j, feature.name).value.items[n..]), paths, ItemsFrom(f, n))
    decreases Get(j, s.classes[c].features[f].name).value.items[n..]
  {
    hide ValidSchema;
    var feature := s.classes[c].features[f];
    var items := Get(j, feature.name).value.items;
    if n == |items| {
      CoversNothing(s, c, j, ItemsFrom(f, n));
      paths := [];
    } else {
      assert items[n..][1..] == items[n + 1..] && items[n..][0] == items[n];
      var further := CollectItemsCovers(s, c, f, j, n + 1);
      if Get(items[n], KEY_TYPE).Some? {
        var inner := CollectObjectCovers(s, feature.target, items[n]);
        var here := Prefixed(Step(f, n), inner);
        CoversStep(s, c, j, Step(f, n), CollectObject(s, feature.target, items[n]), inner, Only(f, n));
        paths := here + further;
        CoversConcat(s, c, j, CollectObject(s, feature.target, items[n]), here, Only(f, n),
                     CollectItems(s, feature.target, items[n + 1..]), further, ItemsFrom(f, n + 1), ItemsFrom(f, n));
      } else {
        paths := further;
        assert CollectItems(s, feature.target, items[n..]) == CollectItems(s, feature.target, items[n + 1..]);
        SameSelection(s, c, j, CollectItems(s, feature.target, items[n + 1..]), paths, ItemsFrom(f, n + 1), ItemsFrom(f, n));
      }
    }
  }

  // ----- the whole document -----

  /** `list` holds the objects at `places`: all objects from top-level object `n` on. */
  ghost predicate CoversRoots(s: Schema, objects: seq<Json>, n: nat, list: seq<Json>, places: seq<Place>)
    requires ValidSchema(s)
  {
    && |list| == |places| && PlacesInOrder(places)
    && (forall k :: 0 <= k < |places| ==> places[k].root >= n && StandsAt(s, objects, places[k], list[k]))
    && (forall p, o :: StandsAt(s, objects, p, o) && p.root >= n ==> p in places)
  }

  ghost predicate PlacesInOrder(places: seq<Place>) {
    forall a, b :: 0 <= a < b < |places| ==> PlaceBefore(places[a], places[b])
  }

  function Rooted(n: nat, paths: seq<seq<Step>>): (out: seq<Place>)
    ensures |out| == |paths| && forall k :: 0 <= k < |paths| ==> out[k] == Place(n, paths[k])
  {
    seq(|paths|, k requires 0 <= k < |paths| => Place(n, paths[k]))
  }

  lemma RootsInOrder(n: nat, paths: seq<seq<Step>>, further: seq<Place>)
    requires InOrder(paths) && PlacesInOrder(further) && forall k :: 0 <= k < |further| ==> further[k].root >= n + 1
    ensures PlacesInOrder(Rooted(n, paths) + further)
  {
    hide PathBefore;
  }

  lemma StandsInside(s: Schema, objects: seq<Json>, p: Place, c: nat, o: Json)
    requires ValidSchema(s) && p.root < |objects| && OfClass(s, objects[p.root], c)
    ensures StandsAt(s, objects, p, o) <==> Along(s, c, objects[p.root], p.path) == Some(o)
  {
    hide Along, OfClass;
    ClassOfIs(s, objects[p.root]);
  }

  lemma RootCovers(s: Schema, objects: seq<Json>, n: nat, c: nat, list: seq<Json>, paths: seq<seq<Step>>, rest: seq<Json>, further: seq<Place>)
    requires ValidSchema(s) && n < |objects| && OfClass(s, objects[n], c) && CoversAll(s, c, objects[n], list, paths)
    requires CoversRoots(s, objects, n + 1, rest, further)
    ensures CoversRoots(s, objects, n, list + rest, Rooted(n, paths) + further)
  {
    hide Along, InOrder, PlacesInOrder, OfClass, StandsAt, ValidSchema;
    var here := Rooted(n, paths);
    var places := here + further;
    forall k | 0 <= k < |here| ensures StandsAt(s, objects, here[k], list[k]) {
      StandsInside(s, objects, here[k], c, list[k]);
    }
    RootsInOrder(n, paths, further);
    forall p, o | StandsAt(s, objects, p, o) && p.root >= n ensures p in places {
      if p.root == n {
        StandsInside(s, objects, p, c, o);
        assert p.path in paths;
        var k :| 0 <= k < |paths| && paths[k] == p.path;
        assert here[k] == p;
      } else {
        assert p in further;
      }
    }
  }

  lemma ClassOfIs(s: Schema, j: Json)
    requires ValidSchema(s)
    ensures ClassOf(s, j).Ok? ==> OfClass(s, j, ClassOf(s, j).value)
    ensures forall c: nat :: OfClass(s, j, c) ==> ClassOf(s, j) == Ok(c)
    ensures Classed(s, j) <==> ClassOf(s, j).Ok?
  {
    if ClassOf(s, j).Ok? {
      assert OfClass(s, j, ClassOf(s, j).value);
    }
  }

  ghost predicate RootsClassed(s: Schema, objects: seq<Json>, n: nat) {
    forall k :: n <= k < |objects| ==> Classed(s, objects[k])
  }

  /** Flattening succeeds exactly when every top-level object has a known class. */
  lemma {:induction false} CollectRootsCovers(s: Schema, objects: seq<Json>, n: nat) returns (places: seq<Place>)
    requires ValidSchema(s) && n <= |objects|
    ensures CollectRoots(s, objects[n..]).Ok? <==> RootsClassed(s, objects, n)
    ensures CollectRoots(s, objects[n..]).Ok? ==> CoversRoots(s, objects, n, CollectRoots(s, objects[n..]).value, places)
    decreases |objects| - n
  {
    hide ClassOf, OfClass, Classed, CollectObject, Along;
    places := [];
    if n < |objects| {
      assert objects[n..][0] == objects[n] && objects[n..][1..] == objects[n + 1..];
      ClassOfIs(s, objects[n]);
      assert RootsClassed(s, objects, n) <==> Classed(s, objects[n]) && RootsClassed(s, objects, n + 1);
      var further := CollectRootsCovers(s, objects, n + 1);
      if ClassOf(s, objects[n]).Ok? {
        var c := ClassOf(s, objects[n]).value;
        assert c < |s.classes|;
        var paths := CollectObjectCovers(s, c, objects[n]);
        if RootsClassed(s, objects, n + 1) {
          RootCovers(s, objects, n, c, CollectObject(s, c, objects[n]), paths, CollectRoots(s, objects[n + 1..]).value, further);
          places := Rooted(n, paths) + further;
        }
      }
    }
  }

  /** One object to a place. */
  lemma StandsAtOnce(s: Schema, objects: seq<Json>, p: Place, o: Json, o': Json)
    requires ValidSchema(s) && StandsAt(s, objects, p, o) && StandsAt(s, objects, p, o')
    ensures o == o'
  {
    hide Along;
    var c: nat :| OfClass(s, objects[p.root], c) && Along(s, c, objects[p.root], p.path) == Some(o);
    var d: nat :| OfClass(s, objects[p.root], d) && Along(s, d, objects[p.root], p.path) == Some(o');
    assert c == d;
  }

  /** The sorted objects, each with its place: every place once, by id, and among
      equal sort keys in document order. */
  ghost predicate Sorted(s: Schema, objects: seq<Json>, sorted: seq<Json>, places: seq<Place>)
    requires ValidSchema(s)
  {
    && |sorted| == |places| && NoDup(places)
    && (forall k :: 0 <= k < |places| ==> StandsAt(s, objects, places[k], sorted[k]))
    && (forall p, o :: StandsAt(s, objects, p, o) ==> p in places)
    && Placed((p: Place, q: Place) => PlaceBefore(p, q), sorted, places)
  }

  lemma SortPlaces(s: Schema, objects: seq<Json>) returns (places: seq<Place>)
    requires ValidSchema(s) && CollectRoots(s, objects).Ok?
    ensures Sorted(s, objects, SortByKey(CollectRoots(s, objects).value), places)
  {
    hide CollectRoots, StandsAt, Placed;
    assert objects[0..] == objects;
    var collected := CollectRoots(s, objects).value;
    var found := CollectRootsCovers(s, objects, 0);
    forall a, b | 0 <= a < b < |found| ensures found[a] != found[b] {
      PathBeforeIsStrict(found[a].path);
    }
    var related := (p: Place, o: Json) => StandsAt(s, objects, p, o);
    var before := (p: Place, q: Place) => PlaceBefore(p, q);
    places := SortPaired(related, before, collected, found);
    forall k | 0 <= k < |places| ensures StandsAt(s, objects, places[k], SortByKey(collected)[k]) {
      assert related(places[k], SortByKey(collected)[k]);
    }
  }
}

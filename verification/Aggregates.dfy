/** Aggregates of a domain model: what is contained in what, whose root is determined,
    and the two rules drawn from it. */
module Aggregates {
  import opened Common

  /** A class, by package and name. */
  type Key = (string, string)

  datatype Kind = Containment | CrossReference | Other

  /** A feature; its type names a class or it does not. */
  datatype Feature = Feature(name: string, kind: Kind, target: Option<Key>)

  datatype Class = Class(key: Key, features: seq<Feature>)

  type Model = seq<Class>

  type Edges = map<Key, seq<Key>>

  ghost predicate Owns(model: Model, a: Key, b: Key) {
    exists i, j :: 0 <= i < |model| && 0 <= j < |model[i].features| && model[i].key == a
                   && model[i].features[j] == Feature(model[i].features[j].name, Containment, Some(b))
  }

  ghost predicate Refers(model: Model, a: Key, name: string, b: Key) {
    exists i, j :: 0 <= i < |model| && 0 <= j < |model[i].features| && model[i].key == a
                   && model[i].features[j] == Feature(name, CrossReference, Some(b))
  }

  predicate Edge(edges: Edges, a: Key, b: Key) {
    a in edges && b in edges[a]
  }

  function Push(edges: Edges, k: Key, v: Key): (out: Edges)
    ensures forall a, b :: Edge(out, a, b) <==> Edge(edges, a, b) || (a == k && b == v)
    ensures (forall a :: a in edges ==> edges[a] != []) ==> forall a :: a in out ==> out[a] != []
  {
    edges[k := (if k in edges then edges[k] else []) + [v]]
  }

  // ----- containment, however indirect -----

  ghost predicate Chain(edges: Edges, path: seq<Key>) {
    forall i :: 0 <= i < |path| - 1 ==> Edge(edges, path[i], path[i + 1])
  }

  /** `b` is contained in `a`, directly or not. */
  ghost predicate Contains(edges: Edges, a: Key, b: Key) {
    exists path: seq<Key> :: |path| >= 2 && path[0] == a && path[|path| - 1] == b && Chain(edges, path)
  }

  lemma ContainsDirectly(edges: Edges, a: Key, b: Key)
    requires Edge(edges, a, b)
    ensures Contains(edges, a, b)
  {
    assert Chain(edges, [a, b]);
  }

  lemma ContainsFurther(edges: Edges, a: Key, b: Key, c: Key)
    requires (a == b || Contains(edges, a, b)) && Edge(edges, b, c)
    ensures Contains(edges, a, c)
  {
    if a == b {
      ContainsDirectly(edges, a, c);
    } else {
      var path: seq<Key> :| |path| >= 2 && path[0] == a && path[|path| - 1] == b && Chain(edges, path);
      assert Chain(edges, path + [c]);
    }
  }

  lemma ContainsAbove(edges: Edges, a: Key, b: Key, c: Key)
    requires Edge(edges, a, b) && (b == c || Contains(edges, b, c))
    ensures Contains(edges, a, c)
  {
    if b == c {
      ContainsDirectly(edges, a, c);
    } else {
      var path: seq<Key> :| |path| >= 2 && path[0] == b && path[|path| - 1] == c && Chain(edges, path);
      var longer := [a] + path;
      forall i | 0 <= i < |longer| - 1 ensures Edge(edges, longer[i], longer[i + 1]) {
        if i > 0 {
          assert Edge(edges, path[i - 1], path[i]);
        }
      }
      assert Chain(edges, longer) && longer[|longer| - 1] == c;
    }
  }

  lemma LastEdge(edges: Edges, a: Key, b: Key)
    requires Contains(edges, a, b)
    ensures exists o :: Edge(edges, o, b)
  {
    var path: seq<Key> :| |path| >= 2 && path[0] == a && path[|path| - 1] == b && Chain(edges, path);
    assert Edge(edges, path[|path| - 2], path[|path| - 1]);
  }

  /** The worklist of `Reaches`: everything seen is contained in `from`, and what a
      settled class owns is seen. */
  ghost predicate Descending(edges: Edges, from: Key, visited: set<Key>, stack: seq<Key>) {
    && (forall k :: k in visited ==> Contains(edges, from, k))
    && (forall k :: k in stack ==> k == from || k in visited)
    && (forall a, b :: (a == from || a in visited) && a !in stack && Edge(edges, a, b) ==> b in visited)
  }

  lemma {:induction false} DescendedAll(edges: Edges, from: Key, visited: set<Key>, path: seq<Key>, k: nat)
    requires Descending(edges, from, visited, []) && Chain(edges, path) && path != [] && path[0] == from
    requires 0 < k < |path|
    ensures path[k] in visited
  {
    if k > 1 {
      DescendedAll(edges, from, visited, path, k - 1);
    }
    assert Edge(edges, path[k - 1], path[k]);
  }

  ghost function Owned(edges: Edges): set<Key> {
    set a, b | a in edges && b in edges[a] :: b
  }

  lemma OwnedTarget(edges: Edges, a: Key, b: Key)
    requires Edge(edges, a, b)
    ensures b in Owned(edges)
  {}

  /** Whether `to` is contained in `from`. */
  method Reaches(edges: Edges, from: Key, to: Key) returns (r: bool)
    ensures r <==> Contains(edges, from, to)
  {
    hide Contains, Owned;
    var visited: set<Key> := {};
    var stack := [from];
    while stack != []
      invariant Descending(edges, from, visited, stack) && to !in visited && visited <= Owned(edges)
      decreases |Owned(edges) - visited|, |stack|
    {
      var current := stack[|stack| - 1];
      var found;
      found, visited, stack := Descend(edges, from, to, visited, stack);
      if found { return true; }
    }
    if Contains(edges, from, to) {
      NotDescended(edges, from, to, visited);
    }
    return false;
  }

  lemma NotDescended(edges: Edges, from: Key, to: Key, visited: set<Key>)
    requires Descending(edges, from, visited, []) && Contains(edges, from, to)
    ensures to in visited
  {
    var path: seq<Key> :| |path| >= 2 && path[0] == from && path[|path| - 1] == to && Chain(edges, path);
    DescendedAll(edges, from, visited, path, |path| - 1);
  }

  /** One popped class: its targets, stopping at `to`. */
  method Descend(edges: Edges, from: Key, to: Key, visited0: set<Key>, stack0: seq<Key>)
    returns (found: bool, visited: set<Key>, stack: seq<Key>)
    requires stack0 != [] && Descending(edges, from, visited0, stack0) && to !in visited0 && visited0 <= Owned(edges)
    ensures found ==> Contains(edges, from, to)
    ensures !found ==> Descending(edges, from, visited, stack) && to !in visited && visited <= Owned(edges)
    ensures !found ==> |Owned(edges) - visited| < |Owned(edges) - visited0| || (visited == visited0 && |stack| < |stack0|)
  {
    hide Contains, Owned;
    var current := stack0[|stack0| - 1];
    found, visited, stack := false, visited0, stack0[..|stack0| - 1];
    assert stack0 == stack + [current];
    var nexts := if current in edges then edges[current] else [];
    for i := 0 to |nexts|
      invariant visited0 <= visited <= Owned(edges) && to !in visited
      invariant forall k :: k in visited ==> Contains(edges, from, k)
      invariant forall k :: k in stack ==> k == from || k in visited
      invariant forall k :: k in visited ==> k in visited0 || k in stack
      invariant forall k :: k in stack0 ==> k in stack || k == current
      invariant forall j :: 0 <= j < i ==> nexts[j] in visited
      invariant visited == visited0 ==> stack == stack0[..|stack0| - 1]
    {
      assert Edge(edges, current, nexts[i]);
      OwnedTarget(edges, current, nexts[i]);
      ContainsFurther(edges, from, current, nexts[i]);
      if nexts[i] == to {
        return true, visited, stack;
      }
      if nexts[i] !in visited {
        visited := visited + {nexts[i]};
        stack := stack + [nexts[i]];
      }
    }
    if visited != visited0 {
      Shrinks(Owned(edges), visited0, visited);
    }
    assert forall b :: Edge(edges, current, b) ==> b in nexts;
    assert forall b :: b in nexts ==> b in visited;
  }

  lemma Shrinks<T>(all: set<T>, less: set<T>, more: set<T>)
    requires less < more <= all
    ensures |all - more| < |all - less|
  {
    var x :| x in more && x !in less;
    assert all - more <= (all - less) - {x};
    Subsets(all - more, (all - less) - {x});
  }

  lemma {:induction false} Subsets<T>(a: set<T>, b: set<T>)
    requires a <= b
    ensures |a| <= |b|
  {
    if x :| x in a {
      Subsets(a - {x}, b - {x});
    }
  }

  // ----- the root of an aggregate -----

  ghost predicate ContainerFree(edges: Edges, x: Key) {
    forall a :: !Edge(edges, a, x)
  }

  /** At the top of some containment chain that ends in c. */
  ghost predicate Top(edges: Edges, c: Key, x: Key) {
    ContainerFree(edges, x) && (x == c || Contains(edges, x, c))
  }

  ghost predicate IsRoot(edges: Edges, c: Key, x: Key) {
    Top(edges, c, x) && forall y :: Top(edges, c, y) ==> y == x
  }

  /** The edges turned round, the owners taken in any order. */
  method ContainersOf(edges: Edges) returns (containers: Edges)
    ensures forall a, b :: Edge(containers, b, a) <==> Edge(edges, a, b)
    ensures forall b :: b in containers ==> containers[b] != []
  {
    hide Push;
    containers := map[];
    var left := edges.Keys;
    while left != {}
      invariant left <= edges.Keys
      invariant forall a, b :: Edge(containers, b, a) <==> Edge(edges, a, b) && a !in left
      invariant forall b :: b in containers ==> containers[b] != []
    {
      var owner :| owner in left;
      var before := containers;
      for i := 0 to |edges[owner]|
        invariant forall a, b :: Edge(containers, b, a) <==> Edge(before, b, a) || (a == owner && b in edges[owner][..i])
        invariant forall b :: b in containers ==> containers[b] != []
      {
        containers := Push(containers, edges[owner][i], owner);
      }
      assert edges[owner][..|edges[owner]|] == edges[owner];
      left := left - {owner};
    }
  }

  /** Climbing from c: what is visited or waiting is c or contains it, and the
      containers of what is visited are visited or waiting. */
  ghost predicate Climbing(edges: Edges, c: Key, visited: set<Key>, stack: seq<Key>, roots: seq<Key>) {
    && (c in visited || c in stack)
    && (forall k :: k in visited || k in stack ==> k == c || Contains(edges, k, c))
    && (forall a, b :: Edge(edges, a, b) && b in visited ==> a in visited || a in stack)
    && (forall k :: k in roots <==> k in visited && ContainerFree(edges, k))
    && NoDup(roots)
  }

  /** The root is the only container-free class that is c or contains it, when there
      is exactly one; the order in which edges are met does not matter. */
  method AggregateRoot(edges: Edges, c: Key) returns (r: Option<Key>)
    ensures r.Some? ==> IsRoot(edges, c, r.value)
    ensures r.None? ==> forall x :: !IsRoot(edges, c, x)
  {
    hide Contains, ContainerFree, Climbing, IsRoot, Edge;
    var containers := ContainersOf(edges);
    var roots: seq<Key> := [];
    var visited: set<Key> := {};
    var stack := [c];
    ghost var nodes := edges.Keys + {c};
    ClimbStart(edges, c);
    while stack != []
      invariant Climbing(edges, c, visited, stack, roots)
      invariant visited <= nodes && forall k :: k in stack ==> k in nodes
      decreases |nodes - visited|, |stack|
    {
      var current := stack[|stack| - 1];
      assert stack == stack[..|stack| - 1] + [current];
      stack := stack[..|stack| - 1];
      if current in visited {
        ClimbSkip(edges, c, visited, stack, roots, current);
        continue;
      }
      ClimbStep(edges, containers, c, visited, stack, roots, current);
      Shrinks(nodes, visited, visited + {current});
      visited := visited + {current};
      if current !in containers {
        roots := roots + [current];
      } else {
        stack := stack + containers[current];
      }
    }
    ClimbedAll(edges, c, visited, roots);
    r := if |roots| == 1 then Some(roots[0]) else None;
    OneRoot(edges, c, roots);
  }

  lemma ClimbStart(edges: Edges, c: Key)
    ensures Climbing(edges, c, {}, [c], [])
  {}

  lemma ClimbSkip(edges: Edges, c: Key, visited: set<Key>, stack: seq<Key>, roots: seq<Key>, current: Key)
    requires Climbing(edges, c, visited, stack + [current], roots) && current in visited
    ensures Climbing(edges, c, visited, stack, roots)
  {
    hide Contains, ContainerFree, Edge;
    assert forall k :: k in stack ==> k in stack + [current];
  }

  lemma ClimbStep(edges: Edges, containers: Edges, c: Key, visited: set<Key>, stack: seq<Key>, roots: seq<Key>, current: Key)
    requires Climbing(edges, c, visited, stack + [current], roots) && current !in visited
    requires forall a, b :: Edge(containers, b, a) <==> Edge(edges, a, b)
    requires forall b :: b in containers ==> containers[b] != []
    ensures current !in containers ==> Climbing(edges, c, visited + {current}, stack, roots + [current])
    ensures current in containers ==> Climbing(edges, c, visited + {current}, stack + containers[current], roots)
    ensures current in containers ==> forall a :: a in containers[current] ==> a in edges.Keys
  {
    hide Contains, Edge;
    assert forall k :: k in stack + [current] <==> k in stack || k == current;
    OwnersKnown(edges, containers, c, current);
    assert current !in roots;
    if current in containers {
      assert forall k :: k in stack + containers[current] <==> k in stack || k in containers[current];
    } else {
      assert forall a :: !Edge(edges, a, current);
      assert forall k :: k in roots + [current] <==> k in roots || k == current;
    }
  }

  lemma OwnersKnown(edges: Edges, containers: Edges, c: Key, current: Key)
    requires forall a, b :: Edge(containers, b, a) <==> Edge(edges, a, b)
    requires forall b :: b in containers ==> containers[b] != []
    requires current == c || Contains(edges, current, c)
    ensures current !in containers <==> ContainerFree(edges, current)
    ensures current in containers ==> forall a :: a in containers[current] <==> Edge(edges, a, current)
    ensures current in containers ==> forall a :: a in containers[current] ==> a in edges.Keys && Contains(edges, a, c)
  {
    if current in containers {
      var first := containers[current][0];
      assert Edge(containers, current, first);
      assert Edge(edges, first, current);
      forall a | a in containers[current] ensures a in edges.Keys && Contains(edges, a, c) {
        assert Edge(containers, current, a);
        ContainsAbove(edges, a, current, c);
      }
      forall a | Edge(edges, a, current) ensures a in containers[current] {
        assert Edge(containers, current, a);
      }
    } else {
      forall a ensures !Edge(edges, a, current) {
        assert !Edge(containers, current, a);
      }
    }
  }

  lemma ClimbedAll(edges: Edges, c: Key, visited: set<Key>, roots: seq<Key>)
    requires Climbing(edges, c, visited, [], roots)
    ensures NoDup(roots) && forall x :: x in roots <==> Top(edges, c, x)
  {
    forall x | Top(edges, c, x) ensures x in roots {
      if x != c {
        var path: seq<Key> :| |path| >= 2 && path[0] == x && path[|path| - 1] == c && Chain(edges, path);
        ClimbedAlong(edges, c, visited, roots, path, 0);
      }
    }
  }

  lemma {:induction false} ClimbedAlong(edges: Edges, c: Key, visited: set<Key>, roots: seq<Key>, path: seq<Key>, k: nat)
    requires Climbing(edges, c, visited, [], roots) && Chain(edges, path)
    requires k < |path| && path[|path| - 1] == c
    ensures path[k] in visited
    decreases |path| - k
  {
    if k < |path| - 1 {
      ClimbedAlong(edges, c, visited, roots, path, k + 1);
      assert Edge(edges, path[k], path[k + 1]);
    }
  }

  lemma OneRoot(edges: Edges, c: Key, roots: seq<Key>)
    requires NoDup(roots) && forall x :: x in roots <==> Top(edges, c, x)
    ensures |roots| == 1 ==> IsRoot(edges, c, roots[0])
    ensures |roots| != 1 ==> forall x :: !IsRoot(edges, c, x)
  {
    hide Top;
    if |roots| >= 2 {
      assert roots[0] in roots && roots[1] in roots && roots[0] != roots[1];
    }
  }

  // ----- the rules -----

  /** What the first n features of a class add. */
  function WithFeatures(c: Class, n: nat, before: Edges): Edges
    requires n <= |c.features|
  {
    if n == 0 then before
    else
      var f := c.features[n - 1];
      var edges := WithFeatures(c, n - 1, before);
      if f.kind == Containment && f.target.Some? then Push(edges, c.key, f.target.value) else edges
  }

  /** A class to every class it owns, in the order of the model. */
  function Containments(model: Model): Edges
    decreases |model|
  {
    if model == [] then map[]
    else
      var last := model[|model| - 1];
      WithFeatures(last, |last.features|, Containments(model[..|model| - 1]))
  }

  method ContainmentEdges(model: Model) returns (edges: Edges)
    ensures edges == Containments(model)
    ensures forall a, b :: Edge(edges, a, b) <==> Owns(model, a, b)
  {
    hide Push, Owns;
    edges := map[];
    for i := 0 to |model|
      invariant edges == Containments(model[..i])
    {
      var before := edges;
      for j := 0 to |model[i].features|
        invariant edges == WithFeatures(model[i], j, before)
      {
        var f := model[i].features[j];
        if f.kind == Containment && f.target.Some? {
          edges := Push(edges, model[i].key, f.target.value);
        }
      }
      assert model[..i + 1][..i] == model[..i];
    }
    assert model[..|model|] == model;
    ContainmentsAreOwned(model);
  }

  lemma {:induction false} FeaturesOwn(c: Class, n: nat, before: Edges)
    requires n <= |c.features|
    ensures forall a, b :: Edge(WithFeatures(c, n, before), a, b) <==> Edge(before, a, b) || OwnsBefore(c, n, a, b)
  {
    hide Push, Edge;
    if n > 0 {
      FeaturesOwn(c, n - 1, before);
    }
  }

  /** The edges are exactly the containment features between classes. */
  lemma {:induction false} ContainmentsAreOwned(model: Model)
    ensures forall a, b :: Edge(Containments(model), a, b) <==> Owns(model, a, b)
    decreases |model|
  {
    hide Owns, OwnsBefore, WithFeatures, Edge;
    if model == [] {
      NothingOwned();
    } else {
      var n := |model| - 1;
      ContainmentsAreOwned(model[..n]);
      OwnsStep(model, n);
      FeaturesOwn(model[n], |model[n].features|, Containments(model[..n]));
      assert model[..n + 1] == model;
    }
  }

  ghost predicate OwnsBefore(c: Class, n: nat, a: Key, b: Key)
    requires n <= |c.features|
  {
    c.key == a && exists j :: 0 <= j < n && c.features[j].kind == Containment && c.features[j].target == Some(b)
  }

  lemma NothingOwned()
    ensures forall a, b :: !Owns([], a, b) && !Edge(map[], a, b)
  {}

  lemma OwnsStep(model: Model, i: nat)
    requires i < |model|
    ensures forall a, b :: Owns(model[..i + 1], a, b) <==> Owns(model[..i], a, b) || OwnsBefore(model[i], |model[i].features|, a, b)
  {
    forall a, b | Owns(model[..i + 1], a, b) ensures Owns(model[..i], a, b) || OwnsBefore(model[i], |model[i].features|, a, b) {
      var k, j :| 0 <= k < i + 1 && 0 <= j < |model[k].features| && model[k].key == a
                  && model[k].features[j] == Feature(model[k].features[j].name, Containment, Some(b));
      if k < i {
        assert model[..i][k] == model[k];
      }
    }
    forall a, b | Owns(model[..i], a, b) ensures Owns(model[..i + 1], a, b) {
      var k, j :| 0 <= k < i && 0 <= j < |model[..i][k].features| && model[..i][k].key == a
                  && model[..i][k].features[j] == Feature(model[..i][k].features[j].name, Containment, Some(b));
      assert model[..i + 1][k] == model[..i][k];
    }
    forall a, b | OwnsBefore(model[i], |model[i].features|, a, b) ensures Owns(model[..i + 1], a, b) {
      var j :| 0 <= j < |model[i].features| && model[i].features[j].kind == Containment && model[i].features[j].target == Some(b);
      assert model[..i + 1][i] == model[i];
    }
  }

  /** Another designed entity contains the candidate. */
  ghost predicate NonRoot(edges: Edges, entities: seq<Key>, candidate: Key) {
    exists d :: d in entities && d != candidate && Contains(edges, d, candidate)
  }

  /** Rule 6: of the entities that declare a repository, exactly those another
      designed entity contains are reported. */
  method CheckBoundary(model: Model, candidates: seq<Key>, entities: seq<Key>)
    returns (reported: seq<(Key, Key)>)
    ensures forall c, d :: (c, d) in reported ==> c in candidates && d in entities && c != d && Contains(Containments(model), d, c)
    ensures forall c :: c in candidates ==> (NonRoot(Containments(model), entities, c) <==> exists d :: (c, d) in reported)
  {
    hide Contains, Containments;
    var edges := ContainmentEdges(model);
    reported := [];
    for i := 0 to |candidates|
      invariant forall c, d :: (c, d) in reported ==> c in candidates && d in entities && c != d && Contains(edges, d, c)
      invariant forall k :: 0 <= k < i ==> (NonRoot(edges, entities, candidates[k]) <==> exists d :: (candidates[k], d) in reported)
    {
      var c := candidates[i];
      var owner := FirstContainer(edges, entities, c);
      ghost var before := reported;
      if owner.Some? {
        reported := reported + [(c, owner.value)];
        assert (c, owner.value) in reported;
      }
      assert forall p :: p in before ==> p in reported;
      assert forall p :: p in reported ==> p in before || (owner.Some? && p == (c, owner.value));
    }
  }

  method FirstContainer(edges: Edges, entities: seq<Key>, c: Key) returns (owner: Option<Key>)
    ensures owner.Some? ==> owner.value in entities && owner.value != c && Contains(edges, owner.value, c)
    ensures owner.None? ==> !NonRoot(edges, entities, c)
  {
    hide Contains;
    for j := 0 to |entities|
      invariant forall k :: 0 <= k < j ==> entities[k] == c || !Contains(edges, entities[k], c)
    {
      if entities[j] != c {
        var contained := Reaches(edges, entities[j], c);
        if contained { return Some(entities[j]); }
      }
    }
    return None;
  }

  /** The target has a root other than itself, and the source belongs elsewhere. */
  ghost predicate Escapes(edges: Edges, source: Key, target: Key) {
    exists rs, rt :: IsRoot(edges, source, rs) && IsRoot(edges, target, rt) && target != rt && rs != rt
  }

  /** Rule 13: nothing is reported exactly when no cross reference between classes of
      determined roots points at a foreign non-root. */
  method CheckReferences(model: Model) returns (reported: seq<(Key, string, Key)>)
    ensures forall s, f, t :: (s, f, t) in reported <==> Refers(model, s, f, t) && Escapes(Containments(model), s, t)
  {
    hide IsRoot, Containments;
    var edges := ContainmentEdges(model);
    reported := [];
    for i := 0 to |model|
      invariant forall s, f, t :: (s, f, t) in reported <==> Refers(model[..i], s, f, t) && Escapes(edges, s, t)
    {
      var found := ClassEscapes(edges, model[i]);
      RefersStep(model, i);
      reported := reported + found;
    }
    assert model[..|model|] == model;
  }

  ghost predicate RefersBefore(c: Class, n: nat, a: Key, name: string, b: Key)
    requires n <= |c.features|
  {
    c.key == a && exists j :: 0 <= j < n && c.features[j] == Feature(name, CrossReference, Some(b))
  }

  method ClassEscapes(edges: Edges, c: Class) returns (found: seq<(Key, string, Key)>)
    ensures forall s, f, t :: (s, f, t) in found <==> RefersBefore(c, |c.features|, s, f, t) && Escapes(edges, s, t)
  {
    hide Escapes;
    found := [];
    for j := 0 to |c.features|
      invariant forall s, f, t :: (s, f, t) in found <==> RefersBefore(c, j, s, f, t) && Escapes(edges, s, t)
    {
      var feature := c.features[j];
      if feature.kind == CrossReference && feature.target.Some? {
        var escapes := DoesEscape(edges, c.key, feature.target.value);
        if escapes {
          found := found + [(c.key, feature.name, feature.target.value)];
        }
      }
    }
  }

  method DoesEscape(edges: Edges, source: Key, target: Key) returns (r: bool)
    ensures r <==> Escapes(edges, source, target)
  {
    hide Top;
    var root := AggregateRoot(edges, target);
    if root.None? || root.value == target { return false; }
    var sourceRoot := AggregateRoot(edges, source);
    if sourceRoot.None? || sourceRoot.value == root.value { return false; }
    return true;
  }

  lemma RefersStep(model: Model, i: nat)
    requires i < |model|
    ensures forall s, f, t :: Refers(model[..i + 1], s, f, t) <==> Refers(model[..i], s, f, t) || RefersBefore(model[i], |model[i].features|, s, f, t)
  {
    forall s, f, t | Refers(model[..i + 1], s, f, t) ensures Refers(model[..i], s, f, t) || RefersBefore(model[i], |model[i].features|, s, f, t) {
      var k, j :| 0 <= k < i + 1 && 0 <= j < |model[k].features| && model[k].key == s && model[k].features[j] == Feature(f, CrossReference, Some(t));
      if k < i {
        assert model[..i][k] == model[k];
      }
    }
    forall s, f, t | Refers(model[..i], s, f, t) ensures Refers(model[..i + 1], s, f, t) {
      var k, j :| 0 <= k < i && 0 <= j < |model[..i][k].features| && model[..i][k].key == s && model[..i][k].features[j] == Feature(f, CrossReference, Some(t));
      assert model[..i + 1][k] == model[..i][k];
    }
    forall s, f, t | RefersBefore(model[i], |model[i].features|, s, f, t) ensures Refers(model[..i + 1], s, f, t) {
      var j :| 0 <= j < |model[i].features| && model[i].features[j] == Feature(f, CrossReference, Some(t));
      assert model[..i + 1][i] == model[i];
    }
  }

  // ----- what the root is good for -----

  /** At most one class is the root of a class, and a root is its own root. */
  lemma RootsAreTheirOwn(edges: Edges, c: Key, x: Key)
    requires IsRoot(edges, c, x)
    ensures IsRoot(edges, x, x)
    ensures forall y :: IsRoot(edges, c, y) ==> y == x
  {
    assert Top(edges, x, x);
    forall y | Top(edges, x, y) ensures y == x {
      if Contains(edges, y, x) {
        LastEdge(edges, y, x);
        assert false;
      }
    }
  }
}

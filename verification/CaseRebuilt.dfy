/** The emitted plan rebuilds the declared tree: every item in one place, every sentry
    its own, every reference resolved. */
module CaseRebuilt {
  import opened Common
  import opened Ids
  import opened CasePlans
  import opened CaseEmission

  // ----- ids do not collide -----

  lemma TableIdsDiffer(c: string, c': string)
    requires TableId(c) == TableId(c')
    ensures c == c'
  {
    assert TableId(c)[9..] == c && TableId(c')[9..] == c';
  }

  lemma DiscretionaryIdsDiffer(x: string, y: string)
    requires DiscretionaryId(x) == DiscretionaryId(y)
    ensures x == y
  {
    assert DiscretionaryId(x)[5..] == x && DiscretionaryId(y)[5..] == y;
  }

  // ----- the tree and its flat form -----

  lemma {:induction false} StagedConcat(a: seq<PlanItem>, b: seq<PlanItem>)
    ensures Staged(a + b) == Staged(a) + Staged(b)
  {
    if a == [] {
      assert a + b == b;
    } else {
      assert (a + b)[1..] == a[1..] + b;
      StagedConcat(a[1..], b);
    }
  }

  /** Each name of the tree is a root name or listed by a stage, as often in all. */
  lemma {:induction false} NamesAreRootsOrStaged(items: seq<Item>, names: Names)
    ensures multiset(TreeNames(items)) == multiset(RootNames(items)) + multiset(Staged(Flatten(items, names)))
    decreases items
  {
    hide Flatten, FirstFlat, FirstNames, TreeNames, Staged, RootNames;
    if items == [] {
      NothingStaged(names);
    } else {
      FlattenFirst(items, names);
      FirstRootsOrStaged(items[0], names);
      NamesAreRootsOrStaged(items[1..], names);
      StagedConcat(FirstFlat(items[0], names), Flatten(items[1..], names));
      assert RootNames(items) == [items[0].name] + RootNames(items[1..]);
      Balance(FirstNames(items[0]), TreeNames(items[1..]), items[0].name, RootNames(items[1..]),
              Staged(FirstFlat(items[0], names)), Staged(Flatten(items[1..], names)));
    }
  }

  lemma NothingStaged(names: Names)
    ensures TreeNames([]) == [] && RootNames([]) == [] && Staged(Flatten([], names)) == []
  {}

  lemma Balance(n: seq<string>, n': seq<string>, name: string, roots: seq<string>, staged: seq<string>, staged': seq<string>)
    requires multiset(n) == multiset{name} + multiset(staged) && multiset(n') == multiset(roots) + multiset(staged')
    ensures multiset(n + n') == multiset([name] + roots) + multiset(staged + staged')
  {
    assert multiset([name] + roots) == multiset{name} + multiset(roots);
  }

  lemma {:induction false} FirstRootsOrStaged(item: Item, names: Names)
    ensures multiset(FirstNames(item)) == multiset{item.name} + multiset(Staged(FirstFlat(item, names)))
    decreases item
  {
    InnerRootsOrStaged(item, names);
    FirstStaged(item, names);
    hide Flatten, FlatOf, Staged, TreeNames, Inner;
    StagedConcat([FlatOf(item, names)], Flatten(Inner(item), names));
    assert multiset([item.name] + TreeNames(Inner(item))) == multiset{item.name} + multiset(TreeNames(Inner(item)));
  }

  lemma FirstStaged(item: Item, names: Names)
    ensures Staged([FlatOf(item, names)]) == RootNames(Inner(item))
  {
    var first := [FlatOf(item, names)];
    assert first[1..] == [] && ChildrenOf(first[0]) == RootNames(Inner(item));
  }

  lemma {:induction false} InnerRootsOrStaged(item: Item, names: Names)
    ensures multiset(TreeNames(Inner(item))) == multiset(RootNames(Inner(item))) + multiset(Staged(Flatten(Inner(item), names)))
    decreases item, 0
  {
    if item.kind.Stage? {
      NamesAreRootsOrStaged(item.kind.items, names);
    }
  }

  lemma {:induction false} NoDupCounts<T(!new)>(s: seq<T>)
    ensures NoDup(s) <==> forall x :: multiset(s)[x] <= 1
  {
    if s != [] {
      var front, last := s[..|s| - 1], s[|s| - 1];
      NoDupCounts(front);
      assert s == front + [last];
      assert multiset(s) == multiset(front) + multiset{last};
      if NoDup(s) {
        assert NoDup(front) && last !in front;
      }
      if forall x :: multiset(s)[x] <= 1 {
        forall x ensures multiset(front)[x] <= 1 {
          assert multiset(s)[x] <= 1;
        }
        assert multiset(s)[last] <= 1;
        assert last !in front;
        NoDupConcat(front, [last]);
      }
    }
  }

  /** With distinct names, every item is a root or in exactly one stage's list. */
  lemma RootXorStaged(items: seq<Item>, names: Names, name: string)
    requires NoDup(TreeNames(items)) && name in TreeNames(items)
    ensures NoDup(Staged(Flatten(items, names)))
    ensures name in RootNames(items) <==> name !in Staged(Flatten(items, names))
  {
    var all, roots, staged := TreeNames(items), RootNames(items), Staged(Flatten(items, names));
    NamesAreRootsOrStaged(items, names);
    NoDupCounts(all);
    NoDupCounts(staged);
    assert multiset(all)[name] == multiset(roots)[name] + multiset(staged)[name];
    forall x ensures multiset(staged)[x] <= 1 {
      assert multiset(all)[x] == multiset(roots)[x] + multiset(staged)[x];
    }
    assert name in all && multiset(all)[name] >= 1;
    assert name in roots <==> multiset(roots)[name] > 0;
    assert name in staged <==> multiset(staged)[name] > 0;
  }

  lemma StagedFirst(flat: seq<PlanItem>)
    requires flat != []
    ensures Staged(flat) == ChildrenOf(flat[0]) + Staged(flat[1..])
  {}

  lemma StagedAt(flat: seq<PlanItem>, i: nat)
    requires i < |flat|
    ensures Staged(flat) == Staged(flat[..i]) + ChildrenOf(flat[i]) + Staged(flat[i + 1..])
  {
    hide Staged;
    assert flat == flat[..i] + flat[i..] && flat[i..][1..] == flat[i + 1..];
    StagedConcat(flat[..i], flat[i..]);
    StagedFirst(flat[i..]);
    Associates(Staged(flat[..i]), ChildrenOf(flat[i]), Staged(flat[i + 1..]));
  }

  lemma {:induction false} StagedSomewhere(flat: seq<PlanItem>, name: string)
    ensures name in Staged(flat) <==> exists i :: 0 <= i < |flat| && name in ChildrenOf(flat[i])
  {
    if flat != [] {
      StagedSomewhere(flat[1..], name);
      assert forall i :: 0 < i < |flat| ==> flat[i] == flat[1..][i - 1];
      if name in Staged(flat[1..]) {
        var i :| 0 <= i < |flat[1..]| && name in ChildrenOf(flat[1..][i]);
        assert flat[i + 1] == flat[1..][i];
      }
    }
  }

  /** Two stages never list the same name. */
  lemma ListedOnce(flat: seq<PlanItem>, i: nat, j: nat, name: string)
    requires NoDup(Staged(flat)) && i < |flat| && j < |flat| && name in ChildrenOf(flat[i]) && name in ChildrenOf(flat[j])
    ensures i == j
  {
    if i < j {
      ListedTwice(flat, i, j, name);
    } else if j < i {
      ListedTwice(flat, j, i, name);
    }
  }

  lemma ListedTwice(flat: seq<PlanItem>, i: nat, j: nat, name: string)
    requires i < j < |flat| && name in ChildrenOf(flat[i]) && name in ChildrenOf(flat[j])
    ensures !NoDup(Staged(flat))
  {
    hide Staged, ChildrenOf;
    StagedAt(flat, j);
    StagedSomewhere(flat[..j], name);
    assert flat[..j][i] == flat[i];
    var before, here := Staged(flat[..j]), ChildrenOf(flat[j]);
    var a :| 0 <= a < |before| && before[a] == name;
    var b :| 0 <= b < |here| && here[b] == name;
    assert Staged(flat)[a] == Staged(flat)[|before| + b];
  }

  lemma ListIsDistinct(flat: seq<PlanItem>, i: nat)
    requires NoDup(Staged(flat)) && i < |flat|
    ensures NoDup(ChildrenOf(flat[i]))
  {
    StagedAt(flat, i);
    MiddleIsDistinct(Staged(flat[..i]), ChildrenOf(flat[i]), Staged(flat[i + 1..]));
  }

  lemma MiddleIsDistinct(a: seq<string>, b: seq<string>, c: seq<string>)
    requires NoDup(a + b + c)
    ensures NoDup(b)
  {
    var all := a + b + c;
    forall i, j | 0 <= i < j < |b| ensures b[i] != b[j] {
      assert all[|a| + i] == b[i] && all[|a| + j] == b[j];
    }
  }

  /** The context found is the stage that lists the name, and the root only when none
      does. */
  lemma {:induction false} ContextListsIt(flat: seq<PlanItem>, root: string, name: string)
    ensures name !in Staged(flat) ==> ContextOf(flat, root, name) == root
    ensures name in Staged(flat) ==>
              exists i :: 0 <= i < |flat| && name in ChildrenOf(flat[i]) && ContextOf(flat, root, name) == flat[i].name
  {
    if flat != [] && name !in ChildrenOf(flat[0]) {
      ContextListsIt(flat[1..], root, name);
      if name in Staged(flat[1..]) {
        var i :| 0 <= i < |flat[1..]| && name in ChildrenOf(flat[1..][i]) && ContextOf(flat[1..], root, name) == flat[1..][i].name;
        assert flat[i + 1] == flat[1..][i];
      }
    }
  }

  // ----- the maps -----

  lemma {:induction false} ItemsUpTo(flat: seq<PlanItem>, root: string, n: nat)
    requires n <= |flat| && NoDup(NamesOf(flat))
    ensures forall i :: 0 <= i < n ==> flat[i].name in PlanUpTo(flat, root, n).items
                                       && PlanUpTo(flat, root, n).items[flat[i].name] == EngineOf(flat, flat[i])
    ensures forall k :: k in PlanUpTo(flat, root, n).items ==> exists i :: 0 <= i < n && flat[i].name == k
  {
    hide EngineOf, PutCriteria, PutTable, ContextOf;
    if n > 0 {
      ItemsUpTo(flat, root, n - 1);
      forall i | 0 <= i < n - 1 ensures flat[i].name != flat[n - 1].name {
        assert NamesOf(flat)[i] != NamesOf(flat)[n - 1];
      }
    }
  }

  /** The engine items are exactly the plan items and the root; an item of the root's
      own name, and only that, is overwritten. */
  lemma NothingOverwritten(flat: seq<PlanItem>, root: string)
    requires NoDup(NamesOf(flat))
    ensures var plan := Emitted(flat, root);
            (forall i :: 0 <= i < |flat| ==> flat[i].name in plan.items && plan.items[flat[i].name] == EngineOf(flat, flat[i]))
            <==> root !in NamesOf(flat)
  {
    hide EngineOf, RootOf;
    ItemsUpTo(flat, root, |flat|);
    hide PlanUpTo;
    if root in NamesOf(flat) {
      var i :| 0 <= i < |flat| && NamesOf(flat)[i] == root;
      assert flat[i].name == root;
      NoItemIsRoot(flat, flat[i]);
    }
  }

  /** The root completes by itself, a stage of the case does not. */
  lemma NoItemIsRoot(flat: seq<PlanItem>, p: PlanItem)
    ensures EngineOf(flat, p) != RootOf(flat)
  {
    hide Kept, Unstaged, SentryIds, EngineControlOf;
  }

  function CriteriaOf(p: PlanItem, exit: bool): seq<Criterion> {
    if exit then p.exit else p.entry
  }

  /** Every criterion of every item keeps its own sentry. */
  lemma {:induction false} SentriesUpTo(flat: seq<PlanItem>, root: string, n: nat, i: nat, exit: bool, k: nat)
    requires i < n <= |flat| && NoDup(NamesOf(flat)) && k < |CriteriaOf(flat[i], exit)|
    ensures var id := SentryId(flat[i].name, exit, k);
            id in PlanUpTo(flat, root, n).sentries && PlanUpTo(flat, root, n).sentries[id] == SentryOf(CriteriaOf(flat[i], exit)[k])
  {
    hide SentryId, PutCriteria, PutTable, ContextOf, EngineOf;
    var p, id := flat[n - 1], SentryId(flat[i].name, exit, k);
    var before := PlanUpTo(flat, root, n - 1).sentries;
    var between := PutCriteria(before, p.name, false, p.entry);
    CriteriaPut(before, p.name, false, p.entry);
    CriteriaPut(between, p.name, true, p.exit);
    forall side: bool, m: nat | i < n - 1 || side != exit ensures id != SentryId(p.name, side, m) {
      OtherSentry(flat, i, n - 1, exit, k, side, m);
    }
    if i < n - 1 {
      SentriesUpTo(flat, root, n - 1, i, exit, k);
    }
  }

  lemma OtherSentry(flat: seq<PlanItem>, i: nat, j: nat, exit: bool, k: nat, side: bool, m: nat)
    requires NoDup(NamesOf(flat)) && i <= j < |flat| && (i != j || side != exit)
    ensures SentryId(flat[i].name, exit, k) != SentryId(flat[j].name, side, m)
  {
    assert i != j ==> NamesOf(flat)[i] != NamesOf(flat)[j];
    if SentryId(flat[i].name, exit, k) == SentryId(flat[j].name, side, m) {
      SentryIdsDiffer(flat[i].name, exit, k, flat[j].name, side, m);
      assert false;
    }
  }

  /** The first n items: x is discretionary, in the context c. */
  ghost predicate Planned(flat: seq<PlanItem>, root: string, n: nat, c: string, x: string)
    requires n <= |flat|
  {
    exists i :: 0 <= i < n && flat[i].name == x && flat[i].manual && ContextOf(flat, root, x) == c
  }

  ghost predicate TablesOk(flat: seq<PlanItem>, root: string, n: nat, plan: Plan)
    requires n <= |flat|
  {
    TablesHold(flat, root, n, plan) && DiscretionaryHold(flat, root, n, plan)
  }

  ghost predicate TablesHold(flat: seq<PlanItem>, root: string, n: nat, plan: Plan)
    requires n <= |flat|
  {
    && (forall t :: t in plan.tables ==> t == TableId(plan.tables[t].context) && NoDup(plan.tables[t].items) && plan.tables[t].items != [])
    && (forall t, d :: t in plan.tables && d in plan.tables[t].items ==>
          exists x :: d == DiscretionaryId(x) && Planned(flat, root, n, plan.tables[t].context, x))
    && (forall c, x :: Planned(flat, root, n, c, x) ==> TableId(c) in plan.tables && DiscretionaryId(x) in plan.tables[TableId(c)].items)
  }

  ghost predicate DiscretionaryHold(flat: seq<PlanItem>, root: string, n: nat, plan: Plan)
    requires n <= |flat|
  {
    && (forall d :: d in plan.discretionary <==> exists c, x :: d == DiscretionaryId(x) && Planned(flat, root, n, c, x))
    && (forall x :: DiscretionaryId(x) in plan.discretionary ==> plan.discretionary[DiscretionaryId(x)] == x)
  }

  lemma PlannedStep(flat: seq<PlanItem>, root: string, n: nat, m: nat)
    requires n < |flat| && m == n + 1
    ensures forall c, x :: Planned(flat, root, m, c, x) <==>
              Planned(flat, root, n, c, x) || (flat[n].manual && x == flat[n].name && c == ContextOf(flat, root, x))
  {
    hide ContextOf;
    forall c, x ensures Planned(flat, root, m, c, x) <==>
                        Planned(flat, root, n, c, x) || (flat[n].manual && x == flat[n].name && c == ContextOf(flat, root, x))
    {
      if Planned(flat, root, m, c, x) {
        var i :| 0 <= i < m && flat[i].name == x && flat[i].manual && ContextOf(flat, root, x) == c;
      }
      if Planned(flat, root, n, c, x) {
        var i :| 0 <= i < n && flat[i].name == x && flat[i].manual && ContextOf(flat, root, x) == c;
      }
      if flat[n].manual && x == flat[n].name && c == ContextOf(flat, root, x) {
        assert 0 <= n < m;
      }
    }
  }

  lemma NewlyPlanned(flat: seq<PlanItem>, root: string, n: nat, c: string)
    requires n < |flat| && NoDup(NamesOf(flat))
    ensures !Planned(flat, root, n, c, flat[n].name)
  {
    forall i | 0 <= i < n ensures flat[i].name != flat[n].name {
      assert NamesOf(flat)[i] != NamesOf(flat)[n];
    }
  }

  lemma {:induction false} TablesUpTo(flat: seq<PlanItem>, root: string, n: nat)
    requires n <= |flat| && NoDup(NamesOf(flat))
    ensures TablesOk(flat, root, n, PlanUpTo(flat, root, n))
  {
    hide TablesOk, PutItem;
    if n == 0 {
      NoTables(flat, root);
    } else {
      TablesUpTo(flat, root, n - 1);
      TableStep(flat, root, n - 1, n, PlanUpTo(flat, root, n - 1));
    }
  }

  lemma NoTables(flat: seq<PlanItem>, root: string)
    ensures TablesOk(flat, root, 0, PlanUpTo(flat, root, 0))
  {
    forall c, x ensures !Planned(flat, root, 0, c, x) {}
  }

  lemma TableStep(flat: seq<PlanItem>, root: string, n: nat, m: nat, plan: Plan)
    requires n < |flat| && m == n + 1 && NoDup(NamesOf(flat)) && TablesOk(flat, root, n, plan)
    ensures TablesOk(flat, root, m, PutItem(flat, root, plan, flat[n]))
  {
    PlannedStep(flat, root, n, m);
    hide ContextOf, EngineOf, PutCriteria, Planned;
    var p := flat[n];
    if p.manual {
      var c := ContextOf(flat, root, p.name);
      NewlyPlanned(flat, root, n, c);
      forall x | DiscretionaryId(x) == DiscretionaryId(p.name) ensures x == p.name {
        DiscretionaryIdsDiffer(x, p.name);
      }
      forall c' | TableId(c') == TableId(c) ensures c' == c {
        TableIdsDiffer(c', c);
      }
      TablePut(flat, root, n, m, plan, PutItem(flat, root, plan, p), c, p.name);
    }
  }

  lemma TablePut(flat: seq<PlanItem>, root: string, n: nat, m: nat, plan: Plan, after: Plan, c: string, name: string)
    requires n <= |flat| && m <= |flat| && TablesOk(flat, root, n, plan)
    requires after.tables == PutTable(plan.tables, c, name) && after.discretionary == plan.discretionary[DiscretionaryId(name) := name]
    requires !Planned(flat, root, n, c, name)
    requires forall x :: DiscretionaryId(x) == DiscretionaryId(name) ==> x == name
    requires forall c' :: TableId(c') == TableId(c) ==> c' == c
    requires forall c', x :: Planned(flat, root, m, c', x) <==> Planned(flat, root, n, c', x) || (x == name && c' == c)
    ensures TablesOk(flat, root, m, after)
  {
    hide ContextOf, EngineOf, PutCriteria, Planned, DiscretionaryId, TableId, TablesHold, DiscretionaryHold;
    TablesPut(flat, root, n, m, plan, after, c, name);
    DiscretionaryPut(flat, root, n, m, plan, after, c, name);
  }

  lemma DiscretionaryPut(flat: seq<PlanItem>, root: string, n: nat, m: nat, plan: Plan, after: Plan, c: string, name: string)
    requires n <= |flat| && m <= |flat| && DiscretionaryHold(flat, root, n, plan)
    requires after.discretionary == plan.discretionary[DiscretionaryId(name) := name]
    requires forall x :: DiscretionaryId(x) == DiscretionaryId(name) ==> x == name
    requires forall c', x :: Planned(flat, root, m, c', x) <==> Planned(flat, root, n, c', x) || (x == name && c' == c)
    ensures DiscretionaryHold(flat, root, m, after)
  {
    hide Planned, DiscretionaryId;
    assert Planned(flat, root, m, c, name);
    forall d | d in after.discretionary && d != DiscretionaryId(name)
      ensures exists c', x :: d == DiscretionaryId(x) && Planned(flat, root, m, c', x)
    {
      var c', x :| d == DiscretionaryId(x) && Planned(flat, root, n, c', x);
      assert Planned(flat, root, m, c', x);
    }
  }

  lemma TablesPut(flat: seq<PlanItem>, root: string, n: nat, m: nat, plan: Plan, after: Plan, c: string, name: string)
    requires n <= |flat| && m <= |flat| && TablesHold(flat, root, n, plan)
    requires after.tables == PutTable(plan.tables, c, name)
    requires !Planned(flat, root, n, c, name)
    requires forall x :: DiscretionaryId(x) == DiscretionaryId(name) ==> x == name
    requires forall c' :: TableId(c') == TableId(c) ==> c' == c
    requires forall c', x :: Planned(flat, root, m, c', x) <==> Planned(flat, root, n, c', x) || (x == name && c' == c)
    ensures TablesHold(flat, root, m, after)
  {
    hide ContextOf, EngineOf, PutCriteria, Planned, DiscretionaryId, TableId;
    var id, d := TableId(c), DiscretionaryId(name);
    var before := if id in plan.tables then plan.tables[id].items else [];
    assert id in plan.tables ==> plan.tables[id].context == c;
    assert d !in before;
    assert after.tables == plan.tables[id := Table(c, before + [d])];
    NoDupConcat(before, [d]);
    hide NoDup;
    var t' := after.tables;
    assert forall t :: t in t' <==> t in plan.tables || t == id;
    assert forall t :: t in plan.tables && t != id ==> t'[t] == plan.tables[t];
  }

  // ----- one place for every item -----

  /** The emitted stage s lists n. */
  ghost predicate Lists(plan: Plan, s: string, n: string) {
    s in plan.items && plan.items[s].kind.EngineStage? && n in plan.items[s].kind.children
  }

  /** The emitted table t plans n. */
  ghost predicate Plans(plan: Plan, t: string, n: string) {
    t in plan.tables && DiscretionaryId(n) in plan.tables[t].items
  }

  lemma {:induction false} UnstagedAre(flat: seq<PlanItem>, staged: seq<string>)
    requires NoDup(NamesOf(flat))
    ensures NoDup(Unstaged(flat, staged))
    ensures forall n :: n in Unstaged(flat, staged) <==> exists k :: 0 <= k < |flat| && flat[k].name == n && !flat[k].manual && n !in staged
  {
    if flat != [] {
      var front, last := flat[..|flat| - 1], flat[|flat| - 1];
      forall i, j | 0 <= i < j < |front| ensures NamesOf(front)[i] != NamesOf(front)[j] {
        assert NamesOf(flat)[i] != NamesOf(flat)[j];
      }
      UnstagedAre(front, staged);
      forall k | 0 <= k < |front| ensures front[k].name != last.name {
        assert NamesOf(flat)[k] != NamesOf(flat)[|flat| - 1];
      }
      assert forall k :: 0 <= k < |front| ==> flat[k] == front[k];
    }
  }

  lemma SameName(flat: seq<PlanItem>, i: nat, j: nat)
    requires NoDup(NamesOf(flat)) && i < |flat| && j < |flat| && flat[i].name == flat[j].name
    ensures i == j
  {
    assert NamesOf(flat)[i] == NamesOf(flat)[j];
  }

  lemma ManualIs(flat: seq<PlanItem>, i: nat)
    requires NoDup(NamesOf(flat)) && i < |flat|
    ensures Manual(flat, flat[i].name) <==> flat[i].manual
  {
    if Manual(flat, flat[i].name) {
      var j :| 0 <= j < |flat| && flat[j].name == flat[i].name && flat[j].manual;
      SameName(flat, i, j);
    }
  }

  /** A stage lists the item exactly when it is the item's context. */
  lemma ListedByContext(flat: seq<PlanItem>, root: string, i: nat, j: nat)
    requires NoDup(NamesOf(flat)) && NoDup(Staged(flat)) && root !in NamesOf(flat) && i < |flat| && j < |flat|
    ensures flat[i].name in ChildrenOf(flat[j]) <==> ContextOf(flat, root, flat[i].name) == flat[j].name
  {
    hide ContextOf, Staged;
    var name := flat[i].name;
    ContextListsIt(flat, root, name);
    StagedSomewhere(flat, name);
    assert NamesOf(flat)[j] == flat[j].name;
    if name in Staged(flat) {
      var k :| 0 <= k < |flat| && name in ChildrenOf(flat[k]) && ContextOf(flat, root, name) == flat[k].name;
      if name in ChildrenOf(flat[j]) {
        ListedOnce(flat, j, k, name);
      } else if flat[k].name == flat[j].name {
        SameName(flat, j, k);
        assert false;
      }
    }
  }

  lemma StageLists(flat: seq<PlanItem>, root: string, i: nat, j: nat)
    requires NoDup(NamesOf(flat)) && NoDup(Staged(flat)) && root !in NamesOf(flat) && i < |flat| && j < |flat|
    ensures Lists(Emitted(flat, root), flat[j].name, flat[i].name) <==> !flat[i].manual && ContextOf(flat, root, flat[i].name) == flat[j].name
  {
    NothingOverwritten(flat, root);
    ManualIs(flat, i);
    ListedByContext(flat, root, i, j);
    hide ContextOf, Staged, PlanUpTo, Emitted, Manual;
    assert Emitted(flat, root).items[flat[j].name] == EngineOf(flat, flat[j]);
  }

  lemma RootLists(flat: seq<PlanItem>, root: string, i: nat)
    requires NoDup(NamesOf(flat)) && root !in NamesOf(flat) && i < |flat|
    ensures Lists(Emitted(flat, root), root, flat[i].name) <==> !flat[i].manual && ContextOf(flat, root, flat[i].name) == root
  {
    UnstagedAre(flat, Staged(flat));
    ContextListsIt(flat, root, flat[i].name);
    hide ContextOf, Staged, PlanUpTo, Unstaged;
    var name := flat[i].name;
    if name in Staged(flat) {
      var k :| 0 <= k < |flat| && name in ChildrenOf(flat[k]) && ContextOf(flat, root, name) == flat[k].name;
      assert NamesOf(flat)[k] == flat[k].name;
    }
    if k :| 0 <= k < |flat| && flat[k].name == name && !flat[k].manual && name !in Staged(flat) {
      SameName(flat, i, k);
    }
  }

  lemma OnlyTheseItems(flat: seq<PlanItem>, root: string, s: string)
    requires NoDup(NamesOf(flat)) && s in Emitted(flat, root).items && s != root
    ensures exists j :: 0 <= j < |flat| && flat[j].name == s
  {
    ItemsUpTo(flat, root, |flat|);
  }

  lemma TablesPlan(flat: seq<PlanItem>, root: string, i: nat, t: string)
    requires NoDup(NamesOf(flat)) && i < |flat|
    ensures Plans(Emitted(flat, root), t, flat[i].name) <==> flat[i].manual && t == TableId(ContextOf(flat, root, flat[i].name))
  {
    TablesUpTo(flat, root, |flat|);
    hide ContextOf, PlanUpTo, DiscretionaryId, TableId;
    var plan, x := Emitted(flat, root), flat[i].name;
    assert plan.tables == PlanUpTo(flat, root, |flat|).tables;
    if Plans(plan, t, x) {
      var y :| DiscretionaryId(x) == DiscretionaryId(y) && Planned(flat, root, |flat|, plan.tables[t].context, y);
      DiscretionaryIdsDiffer(x, y);
      var k :| 0 <= k < |flat| && flat[k].name == x && flat[k].manual && ContextOf(flat, root, x) == plan.tables[t].context;
      SameName(flat, i, k);
    }
    if flat[i].manual {
      assert Planned(flat, root, |flat|, ContextOf(flat, root, x), x);
    }
  }

  /** Every item is in exactly one place: the children list of its declaring stage, or
      that stage's planning table when it is discretionary; top-level items likewise
      under the root. */
  lemma PlacedOnce(items: seq<Item>, names: Names, root: string, i: nat)
    requires NoDup(TreeNames(items)) && root !in TreeNames(items) && i < |Flatten(items, names)|
    ensures var flat := Flatten(items, names);
            var plan, p, parent := Emitted(flat, root), flat[i], ContextOf(flat, root, flat[i].name);
            && (p.name in RootNames(items) <==> parent == root)
            && (parent != root ==> exists j :: 0 <= j < |flat| && flat[j].name == parent && p.name in ChildrenOf(flat[j]))
            && (forall s :: Lists(plan, s, p.name) <==> !p.manual && s == parent)
            && (forall t :: Plans(plan, t, p.name) <==> p.manual && t == TableId(parent))
  {
    var flat := Flatten(items, names);
    var p, parent := flat[i], ContextOf(flat, root, flat[i].name);
    FlattenNames(items, names);
    assert NamesOf(flat)[i] == p.name;
    RootXorStaged(items, names, p.name);
    ContextListsIt(flat, root, p.name);
    hide ContextOf, Staged, PlanUpTo, Emitted, Flatten, TreeNames, TableId, Lists, Plans;
    if p.name in Staged(flat) {
      var k :| 0 <= k < |flat| && p.name in ChildrenOf(flat[k]) && parent == flat[k].name;
      assert NamesOf(flat)[k] == flat[k].name;
    }
    forall s ensures Lists(Emitted(flat, root), s, p.name) <==> !p.manual && s == parent {
      ListsOnlyContext(flat, root, i, s);
    }
    forall t { TablesPlan(flat, root, i, t); }
  }

  lemma ListsOnlyContext(flat: seq<PlanItem>, root: string, i: nat, s: string)
    requires NoDup(NamesOf(flat)) && NoDup(Staged(flat)) && root !in NamesOf(flat) && i < |flat|
    ensures Lists(Emitted(flat, root), s, flat[i].name) <==> !flat[i].manual && s == ContextOf(flat, root, flat[i].name)
  {
    if s == root {
      RootLists(flat, root, i);
    } else if j :| 0 <= j < |flat| && flat[j].name == s {
      StageLists(flat, root, i, j);
    } else {
      if s in Emitted(flat, root).items {
        OnlyTheseItems(flat, root, s);
        assert false;
      }
      ContextListsIt(flat, root, flat[i].name);
    }
  }

  /** No list and no table names an item twice. */
  lemma NoRepetition(items: seq<Item>, names: Names, root: string)
    requires NoDup(TreeNames(items)) && root !in TreeNames(items)
    ensures var plan := Emitted(Flatten(items, names), root);
            && (forall s :: s in plan.items && plan.items[s].kind.EngineStage? ==> NoDup(plan.items[s].kind.children))
            && (forall t :: t in plan.tables ==> NoDup(plan.tables[t].items) && t == TableId(plan.tables[t].context))
  {
    FlattenNames(items, names);
    StagedIsDistinct(items, names);
    hide Flatten, TreeNames, Emitted, Staged;
    ListsAreDistinct(Flatten(items, names), root);
    TablesAreDistinct(Flatten(items, names), root);
  }

  lemma TablesAreDistinct(flat: seq<PlanItem>, root: string)
    requires NoDup(NamesOf(flat))
    ensures var plan := Emitted(flat, root);
            forall t :: t in plan.tables ==> NoDup(plan.tables[t].items) && t == TableId(plan.tables[t].context)
  {
    TablesUpTo(flat, root, |flat|);
    hide ContextOf, PlanUpTo, Planned, RootOf;
  }

  lemma ListsAreDistinct(flat: seq<PlanItem>, root: string)
    requires NoDup(NamesOf(flat)) && NoDup(Staged(flat)) && root !in NamesOf(flat)
    ensures var plan := Emitted(flat, root);
            forall s :: s in plan.items && plan.items[s].kind.EngineStage? ==> NoDup(plan.items[s].kind.children)
  {
    var plan := Emitted(flat, root);
    UnstagedAre(flat, Staged(flat));
    NothingOverwritten(flat, root);
    hide ContextOf, Staged, Unstaged, PlanUpTo;
    forall s | s in plan.items && plan.items[s].kind.EngineStage? ensures NoDup(plan.items[s].kind.children) {
      if s != root {
        OnlyTheseItems(flat, root, s);
        var j :| 0 <= j < |flat| && flat[j].name == s;
        ListIsDistinct(flat, j);
      }
    }
  }

  lemma StagedIsDistinct(items: seq<Item>, names: Names)
    requires NoDup(TreeNames(items))
    ensures NoDup(Staged(Flatten(items, names)))
    ensures forall n :: n in Staged(Flatten(items, names)) ==> n in TreeNames(items)
  {
    var all, staged := TreeNames(items), Staged(Flatten(items, names));
    NamesAreRootsOrStaged(items, names);
    hide TreeNames, Flatten, Staged;
    NoDupCounts(all);
    NoDupCounts(staged);
    forall x ensures multiset(staged)[x] <= multiset(all)[x] {
      assert multiset(all)[x] == multiset(RootNames(items))[x] + multiset(staged)[x];
    }
    forall n | n in staged ensures n in all {
      assert multiset(staged)[n] > 0;
      assert multiset(all)[n] > 0;
    }
  }

  // ----- every reference resolves -----

  /** Sentries come from criteria only. */
  lemma {:induction false} CriteriaKeys(before: map<string, Sentry>, name: string, exit: bool, criteria: seq<Criterion>)
    ensures forall k :: k in PutCriteria(before, name, exit, criteria) ==>
              || (k in before && PutCriteria(before, name, exit, criteria)[k] == before[k])
              || exists c :: c in criteria && PutCriteria(before, name, exit, criteria)[k] == SentryOf(c)
  {
    hide SentryId;
    if criteria != [] {
      CriteriaKeys(before, name, exit, criteria[..|criteria| - 1]);
    }
  }

  ghost predicate SomeCriterion(flat: seq<PlanItem>, s: Sentry) {
    exists i, c :: 0 <= i < |flat| && (c in flat[i].entry || c in flat[i].exit) && s == SentryOf(c)
  }

  lemma {:induction false} SentriesAreCriteria(flat: seq<PlanItem>, root: string, n: nat)
    requires n <= |flat|
    ensures forall k :: k in PlanUpTo(flat, root, n).sentries ==> SomeCriterion(flat, PlanUpTo(flat, root, n).sentries[k])
  {
    hide EngineOf, PutTable, ContextOf, PutCriteria;
    if n > 0 {
      SentriesAreCriteria(flat, root, n - 1);
      var p, before := flat[n - 1], PlanUpTo(flat, root, n - 1).sentries;
      CriteriaKeys(before, p.name, false, p.entry);
      CriteriaKeys(PutCriteria(before, p.name, false, p.entry), p.name, true, p.exit);
    }
  }

  ghost predicate PartResolved(names: Names, part: OnPart) {
    (part.OnItem? ==> part.source in names.items) && (part.OnFile? ==> part.source in names.files) && (part.OnEvent? ==> part.name in names.events)
  }

  lemma {:induction false} PartsResolved(names: Names, parts: seq<Part>)
    ensures forall p :: p in LowerParts(names, parts) ==> PartResolved(names, p)
  {
    if parts != [] {
      PartsResolved(names, parts[..|parts| - 1]);
    }
  }

  /** Every flat item is the form of some item of the tree. */
  lemma {:induction false} FlatIsOf(items: seq<Item>, names: Names)
    ensures forall p :: p in Flatten(items, names) ==> exists item :: p == FlatOf(item, names)
    decreases items
  {
    hide FlatOf;
    if items != [] {
      FlattenFirst(items, names);
      if items[0].kind.Stage? {
        FlatIsOf(items[0].kind.items, names);
      }
      FlatIsOf(items[1..], names);
    }
  }

  /** The engine's part names an item of the plan or of the case file. */
  ghost predicate Sourced(names: Names, e: EnginePart) {
    (e.EnginePlanItem? ==> e.source in names.items) && (e.EngineFileItem? ==> e.source in names.files)
  }

  lemma {:induction false} EnginePartsSourced(names: Names, parts: seq<OnPart>)
    requires forall p :: p in parts ==> PartResolved(names, p)
    ensures forall e :: e in EngineParts(parts) ==> Sourced(names, e)
  {
    if parts != [] {
      var front, last := parts[..|parts| - 1], parts[|parts| - 1];
      assert last in parts && forall p :: p in front ==> p in parts;
      EnginePartsSourced(names, front);
    }
  }

  lemma CriteriaResolved(items: seq<Item>, names: Names, s: Sentry)
    requires SomeCriterion(Flatten(items, names), s)
    ensures forall e :: e in s.parts ==> Sourced(names, e)
  {
    hide Flatten;
    var flat := Flatten(items, names);
    FlatIsOf(items, names);
    var i, c :| 0 <= i < |flat| && (c in flat[i].entry || c in flat[i].exit) && s == SentryOf(c);
    assert flat[i] in flat;
    var item :| flat[i] == FlatOf(item, names);
    var criteria := if c in flat[i].entry then item.entry else item.exit;
    var k :| 0 <= k < |criteria| && LowerCriterion(names, criteria[k]) == c;
    PartsResolved(names, criteria[k].parts);
    EnginePartsSourced(names, c.parts);
  }

  /** A watched source is an item of the plan or of the case file. */
  ghost predicate Watches(plan: Plan, names: Names, e: EnginePart) {
    (e.EnginePlanItem? ==> e.source in plan.items) && (e.EngineFileItem? ==> e.source in names.files)
  }

  /** Children, sentries, tables, discretionary items and watched sources: whatever the
      plan refers to, it has. */
  lemma ReferencesResolve(items: seq<Item>, names: Names, root: string)
    requires NoDup(TreeNames(items)) && root !in TreeNames(items) && names.items == TreeNames(items)
    ensures var plan := Emitted(Flatten(items, names), root);
            && (forall s, n :: Lists(plan, s, n) ==> n in plan.items)
            && (forall k, id :: k in plan.items && (id in plan.items[k].entry || id in plan.items[k].exit) ==> id in plan.sentries)
            && (forall t :: t in plan.tables ==> plan.tables[t].context in plan.items)
            && (forall t, d :: t in plan.tables && d in plan.tables[t].items ==> d in plan.discretionary)
            && (forall d :: d in plan.discretionary ==> plan.discretionary[d] in plan.items)
            && (forall id, p :: id in plan.sentries && p in plan.sentries[id].parts ==> Watches(plan, names, p))
  {
    var flat := Flatten(items, names);
    FlattenNames(items, names);
    NamesAreItems(flat, root);
    StagedIsDistinct(items, names);
    hide Flatten, TreeNames, Emitted, PlanUpTo;
    ListedResolve(flat, root);
    SentryRefsResolve(flat, root);
    TablesResolve(flat, root);
    PartsOfSentriesResolve(items, names, root);
    var plan := Emitted(flat, root);
    forall id, p | id in plan.sentries && p in plan.sentries[id].parts ensures Watches(plan, names, p) {
      assert Sourced(names, p);
      assert p.EnginePlanItem? ==> p.source in NamesOf(flat);
    }
  }

  lemma NamesAreItems(flat: seq<PlanItem>, root: string)
    requires NoDup(NamesOf(flat))
    ensures root in Emitted(flat, root).items
    ensures forall n :: n in NamesOf(flat) ==> n in Emitted(flat, root).items
  {
    ItemsUpTo(flat, root, |flat|);
    forall n | n in NamesOf(flat) ensures n in Emitted(flat, root).items {
      var i :| 0 <= i < |flat| && NamesOf(flat)[i] == n;
      assert flat[i].name == n;
    }
  }

  lemma ListedResolve(flat: seq<PlanItem>, root: string)
    requires NoDup(NamesOf(flat)) && root !in NamesOf(flat) && forall n :: n in Staged(flat) ==> n in NamesOf(flat)
    ensures forall s, n :: Lists(Emitted(flat, root), s, n) ==> n in NamesOf(flat)
  {
    UnstagedAre(flat, Staged(flat));
    NothingOverwritten(flat, root);
    hide Staged, Unstaged, PlanUpTo;
    forall s, n | Lists(Emitted(flat, root), s, n) ensures n in NamesOf(flat) {
      if s == root {
        var k :| 0 <= k < |flat| && flat[k].name == n;
        assert NamesOf(flat)[k] == n;
      } else {
        OnlyTheseItems(flat, root, s);
        var j :| 0 <= j < |flat| && flat[j].name == s;
        assert n in ChildrenOf(flat[j]);
        StagedSomewhere(flat, n);
      }
    }
  }

  lemma SentryRefsResolve(flat: seq<PlanItem>, root: string)
    requires NoDup(NamesOf(flat)) && root !in NamesOf(flat)
    ensures var plan := Emitted(flat, root);
            forall k, id :: k in plan.items && (id in plan.items[k].entry || id in plan.items[k].exit) ==> id in plan.sentries
  {
    var plan := Emitted(flat, root);
    NothingOverwritten(flat, root);
    hide PlanUpTo, SentryId, ContextOf, Staged, Unstaged;
    forall k, id | k in plan.items && (id in plan.items[k].entry || id in plan.items[k].exit) ensures id in plan.sentries {
      if k != root {
        OnlyTheseItems(flat, root, k);
        var i :| 0 <= i < |flat| && flat[i].name == k;
        var exit := id in plan.items[k].exit;
        var ids := SentryIds(k, exit, |CriteriaOf(flat[i], exit)|);
        var n :| 0 <= n < |ids| && ids[n] == id;
        SentriesUpTo(flat, root, |flat|, i, exit, n);
      }
    }
  }

  lemma TablesResolve(flat: seq<PlanItem>, root: string)
    requires NoDup(NamesOf(flat))
    ensures var plan := Emitted(flat, root);
            && (forall t :: t in plan.tables ==> plan.tables[t].context == root || plan.tables[t].context in NamesOf(flat))
            && (forall t, d :: t in plan.tables && d in plan.tables[t].items ==> d in plan.discretionary)
            && (forall d :: d in plan.discretionary ==> plan.discretionary[d] in NamesOf(flat))
  {
    TablesUpTo(flat, root, |flat|);
    hide PlanUpTo, DiscretionaryId, TableId, ContextOf;
    var plan := Emitted(flat, root);
    forall t | t in plan.tables ensures plan.tables[t].context == root || plan.tables[t].context in NamesOf(flat) {
      var d := plan.tables[t].items[0];
      assert d in plan.tables[t].items;
      var x :| d == DiscretionaryId(x) && Planned(flat, root, |flat|, plan.tables[t].context, x);
      ContextListsIt(flat, root, x);
      if x in Staged(flat) {
        var i :| 0 <= i < |flat| && x in ChildrenOf(flat[i]) && ContextOf(flat, root, x) == flat[i].name;
        assert NamesOf(flat)[i] == flat[i].name;
      }
    }
    forall d | d in plan.discretionary ensures plan.discretionary[d] in NamesOf(flat) {
      var c, x :| d == DiscretionaryId(x) && Planned(flat, root, |flat|, c, x);
      var i :| 0 <= i < |flat| && flat[i].name == x;
      assert NamesOf(flat)[i] == x;
    }
  }

  lemma PartsOfSentriesResolve(items: seq<Item>, names: Names, root: string)
    ensures var plan := Emitted(Flatten(items, names), root);
            forall id, e :: id in plan.sentries && e in plan.sentries[id].parts ==> Sourced(names, e)
  {
    var flat := Flatten(items, names);
    SentriesAreCriteria(flat, root, |flat|);
    hide PlanUpTo, Flatten, SomeCriterion;
    var plan := Emitted(flat, root);
    assert plan.sentries == PlanUpTo(flat, root, |flat|).sentries;
    forall id, e | id in plan.sentries && e in plan.sentries[id].parts ensures Sourced(names, e) {
      CriteriaResolved(items, names, plan.sentries[id]);
    }
  }

  /** No two criteria share a sentry: each one's sentry watches, part by part, what it
      watches, under its condition. */
  lemma SentriesKept(items: seq<Item>, names: Names, root: string, i: nat, exit: bool, k: nat)
    requires NoDup(TreeNames(items)) && i < |Flatten(items, names)| && k < |CriteriaOf(Flatten(items, names)[i], exit)|
    requires Translates(CriteriaOf(Flatten(items, names)[i], exit)[k])
    ensures var flat := Flatten(items, names);
            var plan, id := Emitted(flat, root), SentryId(flat[i].name, exit, k);
            id in plan.sentries && SentryWatches(plan.sentries[id], CriteriaOf(flat[i], exit)[k])
  {
    FlattenNames(items, names);
    SentriesUpTo(Flatten(items, names), root, |Flatten(items, names)|, i, exit, k);
    TranslatedWatches(CriteriaOf(Flatten(items, names)[i], exit)[k]);
  }

  // ----- every declared item, as the engine gets it -----

  /** The item is declared in the tree, at whatever depth. */
  predicate InTree(items: seq<Item>, item: Item)
    decreases items
  {
    items != [] && (items[0] == item || (items[0].kind.Stage? && InTree(items[0].kind.items, item)) || InTree(items[1..], item))
  }

  lemma {:induction false} InTreeIsFlat(items: seq<Item>, names: Names, item: Item)
    requires InTree(items, item)
    ensures FlatOf(item, names) in Flatten(items, names)
    decreases items
  {
    hide FlatOf;
    FlattenFirst(items, names);
    if items[0].kind.Stage? && InTree(items[0].kind.items, item) {
      InTreeIsFlat(items[0].kind.items, names, item);
    } else if items[0] != item {
      InTreeIsFlat(items[1..], names, item);
    }
  }

  lemma {:induction false} InTreeIsOk(items: seq<Item>, names: Names, item: Item)
    requires InTree(items, item) && AllOk(names, items)
    ensures ItemOk(names, item)
    decreases items
  {
    hide ItemOk;
    if items[0].kind.Stage? && InTree(items[0].kind.items, item) {
      InTreeIsOk(items[0].kind.items, names, item);
    } else if items[0] != item {
      InTreeIsOk(items[1..], names, item);
    }
  }

  lemma {:induction false} InnerInTree(items: seq<Item>, stage: Item, k: nat)
    requires InTree(items, stage) && stage.kind.Stage? && k < |stage.kind.items|
    ensures InTree(items, stage.kind.items[k])
    decreases items
  {
    if items[0] == stage {
      ListedInTree(stage.kind.items, k);
    } else if items[0].kind.Stage? && InTree(items[0].kind.items, stage) {
      InnerInTree(items[0].kind.items, stage, k);
    } else {
      InnerInTree(items[1..], stage, k);
    }
  }

  lemma {:induction false} ListedInTree(items: seq<Item>, k: nat)
    requires k < |items|
    ensures InTree(items, items[k])
  {
    if k > 0 {
      ListedInTree(items[1..], k - 1);
    }
  }

  ghost predicate Precedes(names: seq<string>, a: string, b: string) {
    exists i, j :: 0 <= i < j < |names| && names[i] == a && names[j] == b
  }

  lemma PrecedesWithin(before: seq<string>, names: seq<string>, after: seq<string>, a: string, b: string)
    requires Precedes(names, a, b)
    ensures Precedes(before + names + after, a, b)
  {
    var i, j :| 0 <= i < j < |names| && names[i] == a && names[j] == b;
    var all := before + names + after;
    assert all[|before| + i] == a && all[|before| + j] == b;
  }

  lemma {:induction false} RootIsNamed(items: seq<Item>, k: nat)
    requires k < |items|
    ensures items[k].name in TreeNames(items)
  {
    if k > 0 {
      RootIsNamed(items[1..], k - 1);
    }
  }

  /** The flat form has every stage before its children. */
  lemma {:induction false} StageBeforeChildren(items: seq<Item>, stage: Item, k: nat)
    requires InTree(items, stage) && stage.kind.Stage? && k < |stage.kind.items|
    ensures Precedes(TreeNames(items), stage.name, stage.kind.items[k].name)
    decreases items
  {
    var child := stage.kind.items[k].name;
    var inner, rest := if items[0].kind.Stage? then TreeNames(items[0].kind.items) else [], TreeNames(items[1..]);
    assert TreeNames(items) == [items[0].name] + inner + rest;
    if items[0] == stage {
      RootIsNamed(stage.kind.items, k);
      var j :| 0 <= j < |inner| && inner[j] == child;
      assert ([stage.name] + inner + rest)[0] == stage.name && ([stage.name] + inner + rest)[1 + j] == child;
    } else if items[0].kind.Stage? && InTree(items[0].kind.items, stage) {
      StageBeforeChildren(items[0].kind.items, stage, k);
      PrecedesWithin([items[0].name], inner, rest, stage.name, child);
    } else {
      StageBeforeChildren(items[1..], stage, k);
      PrecedesWithin([items[0].name] + inner, rest, [], stage.name, child);
      assert [items[0].name] + inner + rest + [] == [items[0].name] + inner + rest;
    }
  }

  /** The names of the items that are not discretionary, in order. */
  ghost predicate PlannedNames(items: seq<Item>, names: seq<string>) {
    var planned := Selected(items, (item: Item) => !item.manual);
    |names| == |planned| && forall i :: 0 <= i < |names| ==> names[i] == planned[i].name
  }

  ghost predicate KindMade(item: Item, kind: EngineKind) {
    && (item.kind.Task? ==> kind == UserTask(item.performer, item.manual))
    && (item.kind.Service? ==> item.execute.Some?
                               && kind == ProcessTask(item.execute.value.alias + "." + item.execute.value.service + "." + item.execute.value.operation))
    && (item.kind.Milestone? ==> kind == EngineMilestone)
    && (item.kind.Stage? ==> kind.EngineStage? && !kind.autoComplete && PlannedNames(item.kind.items, kind.children))
  }

  ghost predicate ControlMade(item: Item, control: Option<EngineControl>) {
    && (control.None? <==> !item.required && !item.auto && !item.repeats)
    && (control.Some? ==>
          && control.value.required == (if item.required then Some(Always) else None)
          && control.value.repetition == (if item.repeats then Some(Always) else None)
          && control.value.manualActivation == (if item.auto then Some(Feel("true")) else None))
  }

  /** The engine's part watches the source and the event written. */
  ghost predicate PartWatched(names: Names, written: Part, e: EnginePart) {
    && written.Dotted? && e.source == written.source
    && (e.EngineFileItem? ==> written.source in names.files && Spelled(written.word, e.transition))
    && (e.EnginePlanItem? ==> written.source !in names.files && written.source in names.items && Spelled(written.word, e.event))
  }

  ghost predicate TriggerWatched(names: Names, t: Trigger, s: Sentry) {
    && |s.parts| == |t.parts| && (forall j :: 0 <= j < |t.parts| ==> PartWatched(names, t.parts[j], s.parts[j]))
    && (s.ifPart.None? <==> t.when.None?)
    && (t.when.Some? ==> s.ifPart == t.when.value.feel)
  }

  ghost predicate TriggersWatched(names: Names, plan: Plan, triggers: seq<Trigger>, ids: seq<string>) {
    |ids| == |triggers| && forall n :: 0 <= n < |ids| ==> ids[n] in plan.sentries && TriggerWatched(names, triggers[n], plan.sentries[ids[n]])
  }

  /** The engine item is what the item declares: its kind, its rules, and for each of
      its triggers a sentry that watches what is written. */
  ghost predicate Made(names: Names, plan: Plan, item: Item, e: EngineItem) {
    && KindMade(item, e.kind) && ControlMade(item, e.control)
    && TriggersWatched(names, plan, item.entry, e.entry) && TriggersWatched(names, plan, item.exit, e.exit)
  }

  lemma WatchedAsWritten(names: Names, t: Trigger, s: Sentry)
    requires TriggerOk(names, t) && SentryWatches(s, LowerCriterion(names, t))
    ensures TriggerWatched(names, t, s)
  {
    PartsSay(names, t.parts);
    hide LowerParts, LowerPart, Spelled, ItemWord, FileWord;
    var parts := LowerParts(names, t.parts);
    forall j | 0 <= j < |t.parts| ensures PartWatched(names, t.parts[j], s.parts[j]) {
      assert Says(names, t.parts[j], parts[j]) && PartWatches(s.parts[j], parts[j]);
    }
  }

  lemma ControlsMade(item: Item, names: Names)
    ensures ControlMade(item, EngineControlOf(FlatOf(item, names)))
  {
    hide FlatKindOf, LowerCriteria;
  }

  lemma {:induction false} KeptArePlanned(flat: seq<PlanItem>, items: seq<Item>)
    requires forall k :: 0 <= k < |items| ==> (Manual(flat, items[k].name) <==> items[k].manual)
    ensures PlannedNames(items, Kept(flat, RootNames(items)))
  {
    hide Manual;
    if items != [] {
      var n := |items| - 1;
      KeptArePlanned(flat, items[..n]);
      assert RootNames(items)[..n] == RootNames(items[..n]) && RootNames(items)[n] == items[n].name;
    }
  }

  lemma KindsMade(items: seq<Item>, names: Names, item: Item)
    requires NoDup(TreeNames(items)) && InTree(items, item) && ItemOk(names, item)
    ensures KindMade(item, EngineKindOf(Flatten(items, names), FlatOf(item, names)))
  {
    var flat := Flatten(items, names);
    hide Flatten, TreeNames, InTree, PlannedNames, Kept, Manual;
    if item.kind.Stage? {
      FlattenNames(items, names);
      forall k | 0 <= k < |item.kind.items| ensures Manual(flat, item.kind.items[k].name) <==> item.kind.items[k].manual {
        InnerInTree(items, item, k);
        InTreeIsFlat(items, names, item.kind.items[k]);
        var p := FlatOf(item.kind.items[k], names);
        var i: nat :| i < |flat| && flat[i] == p;
        ManualIs(flat, i);
      }
      KeptArePlanned(flat, item.kind.items);
    }
  }

  /** Every declared item of a case in order is in the emitted plan, under its own name
      and as declared. */
  lemma EveryItemMade(items: seq<Item>, names: Names, root: string, item: Item)
    requires NoDup(TreeNames(items)) && root !in TreeNames(items) && AllOk(names, items) && InTree(items, item)
    requires forall p :: p in Flatten(items, names) ==> Emittable(p)
    ensures var plan := Emitted(Flatten(items, names), root);
            item.name in plan.items && Made(names, plan, item, plan.items[item.name])
  {
    var flat := Flatten(items, names);
    var plan := Emitted(flat, root);
    InTreeIsOk(items, names, item);
    InTreeIsFlat(items, names, item);
    FlattenNames(items, names);
    var p := FlatOf(item, names);
    var i :| 0 <= i < |flat| && flat[i] == p;
    NothingOverwritten(flat, root);
    KindsMade(items, names, item);
    ControlsMade(item, names);
    TriggersMade(items, names, root, item, i, false);
    TriggersMade(items, names, root, item, i, true);
    hide Flatten, TreeNames, Emitted, AllOk, InTree, KindMade, ControlMade, TriggersWatched, EngineKindOf, EngineControlOf;
    assert plan.items[item.name] == EngineOf(flat, p);
  }

  lemma TriggersMade(items: seq<Item>, names: Names, root: string, item: Item, i: nat, exit: bool)
    requires NoDup(TreeNames(items)) && ItemOk(names, item)
    requires i < |Flatten(items, names)| && Flatten(items, names)[i] == FlatOf(item, names) && Emittable(FlatOf(item, names))
    ensures var triggers := if exit then item.exit else item.entry;
            TriggersWatched(names, Emitted(Flatten(items, names), root), triggers, SentryIds(item.name, exit, |triggers|))
  {
    var p, triggers := FlatOf(item, names), if exit then item.exit else item.entry;
    var criteria := CriteriaOf(p, exit);
    var plan := Emitted(Flatten(items, names), root);
    assert criteria == LowerCriteria(names, triggers);
    hide Flatten, TreeNames, Emitted, SentryWatches, TriggerWatched, TriggerOk, Translates, SentryId, LowerCriterion;
    forall n | 0 <= n < |triggers|
      ensures SentryId(item.name, exit, n) in plan.sentries && TriggerWatched(names, triggers[n], plan.sentries[SentryId(item.name, exit, n)])
    {
      assert criteria[n] in criteria && triggers[n] in triggers;
      SentriesKept(items, names, root, i, exit, n);
      WatchedAsWritten(names, triggers[n], plan.sentries[SentryId(item.name, exit, n)]);
    }
  }

  // ----- control rules -----

  lemma {:induction false} EmittedItems(flat: seq<PlanItem>, root: string, n: nat)
    requires n <= |flat|
    ensures forall k :: k in PlanUpTo(flat, root, n).items ==>
              exists i :: 0 <= i < n && flat[i].name == k && PlanUpTo(flat, root, n).items[k] == EngineOf(flat, flat[i])
  {
    hide EngineOf, PutCriteria, PutTable, ContextOf;
    if n > 0 {
      EmittedItems(flat, root, n - 1);
    }
  }

  /** An item has a manual activation rule if and only if it is marked `auto`. */
  predicate Activation(e: EngineItem, auto: bool) {
    if auto then e.control.Some? && e.control.value.manualActivation == Some(Feel("true"))
    else e.control.None? || e.control.value.manualActivation.None?
  }

  lemma AutoReadsTrue(flat: seq<PlanItem>, item: Item, names: Names)
    ensures Activation(EngineOf(flat, FlatOf(item, names)), item.auto)
  {
    hide Kept, LowerCriteria;
  }

  /** `auto` is documented as an explicit FALSE manual activation rule, which starts an
      item without a human. Lowering writes the override `false`, and emission turns
      that into the rule TRUE: no plan emitted from a lowered case starts anything by
      itself. */
  lemma NothingStartsByItself(items: seq<Item>, names: Names, root: string, k: string)
    requires k in Emitted(Flatten(items, names), root).items
    ensures var e := Emitted(Flatten(items, names), root).items[k]; Activation(e, false) || Activation(e, true)
  {
    hide Flatten, EngineOf, RootOf, FlatOf;
    var flat := Flatten(items, names);
    EmittedItems(flat, root, |flat|);
    FlatIsOf(items, names);
    hide PlanUpTo;
    if k != root {
      var i :| 0 <= i < |flat| && flat[i].name == k && PlanUpTo(flat, root, |flat|).items[k] == EngineOf(flat, flat[i]);
      assert flat[i] in flat;
      var item :| flat[i] == FlatOf(item, names);
      AutoReadsTrue(flat, item, names);
    } else {
      RootHasNoRules(flat);
    }
  }

  lemma RootHasNoRules(flat: seq<PlanItem>)
    ensures Activation(RootOf(flat), false)
  {}
}

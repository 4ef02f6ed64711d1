/** The validator of designed machines: its stages in order, each reporting exactly
    the problems its rule names. */
module MachineValidator {
  import opened Common
  import opened Machines

  // ----- stage by stage -----

  method CheckTerminals(m: Authored) returns (kept: seq<string>, problems: seq<Problem>)
    ensures kept == Dedup(m.terminals)
    ensures forall p :: p in problems <==> p.DuplicateTerminal? && TwiceTerminal(m.terminals, |m.terminals|, p.state)
  {
    hide TwiceTerminal;
    kept, problems := [], [];
    NoProblemsYet(m);
    assert m.terminals[..|m.terminals|] == m.terminals;
    for i := 0 to |m.terminals|
      invariant kept == Dedup(m.terminals[..i])
      invariant forall p :: p in problems <==> p.DuplicateTerminal? && TwiceTerminal(m.terminals, i, p.state)
    {
      var t := m.terminals[i];
      assert m.terminals[..i + 1][..i] == m.terminals[..i];
      TerminalStep(m.terminals, i);
      if t in kept {
        problems := problems + [DuplicateTerminal(t)];
      } else {
        kept := kept + [t];
      }
    }
  }

  lemma NoProblemsYet(m: Authored)
    ensures forall s :: !TwiceTerminal(m.terminals, 0, s)
    ensures forall p :: !EdgeProblem(m.edges, 0, p)
  {}

  lemma TerminalStep(terminals: seq<string>, k: nat)
    requires k < |terminals|
    ensures forall s :: TwiceTerminal(terminals, k + 1, s) <==> TwiceTerminal(terminals, k, s) || (s == terminals[k] && s in terminals[..k])
  {
    forall s | s == terminals[k] && s in terminals[..k] ensures TwiceTerminal(terminals, k + 1, s) {
      var i :| 0 <= i < k && terminals[..k][i] == s;
      assert terminals[i] == s;
    }
    forall s | TwiceTerminal(terminals, k + 1, s) && !TwiceTerminal(terminals, k, s) ensures s == terminals[k] && s in terminals[..k] {
      var i, j :| 0 <= i < j < k + 1 && terminals[i] == terminals[j] == s;
      assert terminals[..k][i] == s;
    }
  }

  /** The edge problems of the first n edges. */
  ghost predicate EdgeProblem(edges: seq<Edge>, n: nat, p: Problem)
    requires n <= |edges|
  {
    || (p.DuplicateTransition? && RepeatsEdge(edges, n, p.from, p.to))
    || (p.TriggerClash? && TwoTargets(edges, n, p.trigger, p.from))
  }

  /** What one more edge adds to them, given the rows kept so far. */
  ghost predicate NewProblem(rows: seq<Row>, e: Edge, p: Problem) {
    || (RowOf(e) in rows && p == DuplicateTransition(e.from, e.to))
    || (RowOf(e) !in rows && e.trigger.Some? && p == TriggerClash(e.trigger.value, e.from) && Clashes(rows, e))
  }

  predicate Clashes(rows: seq<Row>, e: Edge) {
    exists k :: 0 <= k < |rows| && rows[k].0 == e.from && rows[k].2 == e.trigger
  }

  /** Duplicate rows are dropped; a trigger leaves a state once. */
  method CheckEdges(m: Authored) returns (rows: seq<Row>, problems: seq<Problem>, ok: bool)
    ensures rows == Dedup(RowsOf(m.edges))
    ensures forall p :: p in problems <==> EdgeProblem(m.edges, |m.edges|, p)
    ensures ok <==> forall p :: p in problems ==> !p.TriggerClash?
  {
    hide EdgeProblem, RowsOf, RowOf, NewProblem, Dedup;
    rows, problems, ok := [], [], true;
    NoProblemsYet(m);
    NoRowsYet(m.edges);
    for i := 0 to |m.edges|
      invariant rows == Dedup(RowsOf(m.edges[..i]))
      invariant forall p :: p in problems <==> EdgeProblem(m.edges, i, p)
      invariant ok <==> forall p :: p in problems ==> !p.TriggerClash?
    {
      RowsGrow(m.edges, i);
      EdgeStep(m.edges, i);
      var found := CheckEdge(rows, m.edges[i]);
      problems := problems + found;
      ok := ok && (found == [] || !found[0].TriggerClash?);
      if RowOf(m.edges[i]) !in rows {
        rows := rows + [RowOf(m.edges[i])];
      }
    }
    assert m.edges[..|m.edges|] == m.edges;
  }

  method CheckEdge(rows: seq<Row>, e: Edge) returns (found: seq<Problem>)
    ensures |found| <= 1 && forall p :: p in found <==> NewProblem(rows, e, p)
  {
    if RowOf(e) in rows {
      return [DuplicateTransition(e.from, e.to)];
    }
    if e.trigger.Some? {
      var clashing := exists k :: 0 <= k < |rows| && rows[k].0 == e.from && rows[k].2 == e.trigger;
      if clashing {
        return [TriggerClash(e.trigger.value, e.from)];
      }
    }
    return [];
  }

  lemma NoRowsYet(edges: seq<Edge>)
    ensures Dedup(RowsOf(edges[..0])) == []
  {}

  lemma RowsGrow(edges: seq<Edge>, k: nat)
    requires k < |edges|
    ensures var rows := Dedup(RowsOf(edges[..k]));
            Dedup(RowsOf(edges[..k + 1])) == if RowOf(edges[k]) in rows then rows else rows + [RowOf(edges[k])]
  {
    var longer := RowsOf(edges[..k + 1]);
    assert longer == RowsOf(edges[..k]) + [RowOf(edges[k])];
    assert longer[..k] == RowsOf(edges[..k]);
  }

  lemma RowKept(edges: seq<Edge>, k: nat)
    requires k <= |edges|
    ensures forall row :: row in Dedup(RowsOf(edges[..k])) <==> exists i :: 0 <= i < k && RowOf(edges[i]) == row
  {
    var rows := RowsOf(edges[..k]);
    forall i | 0 <= i < k ensures RowOf(edges[i]) in rows {
      assert rows[i] == RowOf(edges[i]);
    }
    forall row | row in rows ensures exists i :: 0 <= i < k && RowOf(edges[i]) == row {
      var i :| 0 <= i < |rows| && rows[i] == row;
      assert RowOf(edges[i]) == row;
    }
  }

  lemma EdgeStep(edges: seq<Edge>, k: nat)
    requires k < |edges|
    ensures forall p :: EdgeProblem(edges, k + 1, p) <==> EdgeProblem(edges, k, p) || NewProblem(Dedup(RowsOf(edges[..k])), edges[k], p)
  {
    hide RepeatsEdge, TwoTargets, RowsOf, Clashes, Dedup;
    forall from, to { DuplicateStep(edges, k, from, to); }
    forall trigger, from { ClashStep(edges, k, trigger, from); }
  }

  lemma DuplicateStep(edges: seq<Edge>, k: nat, from: string, to: string)
    requires k < |edges|
    ensures RepeatsEdge(edges, k + 1, from, to) <==>
              || RepeatsEdge(edges, k, from, to)
              || (RowOf(edges[k]) in Dedup(RowsOf(edges[..k])) && edges[k].from == from && edges[k].to == to)
  {
    hide Dedup, RowsOf;
    RowKept(edges, k);
  }

  /** A repeated row adds no clash: its first occurrence made it already. */
  lemma ClashStep(edges: seq<Edge>, k: nat, trigger: string, from: string)
    requires k < |edges|
    ensures var e, rows := edges[k], Dedup(RowsOf(edges[..k]));
            TwoTargets(edges, k + 1, trigger, from) <==>
              || TwoTargets(edges, k, trigger, from)
              || (RowOf(e) !in rows && Leaves(e, from, trigger) && Clashes(rows, e))
  {
    hide Dedup, RowsOf;
    var e, rows := edges[k], Dedup(RowsOf(edges[..k]));
    RowKept(edges, k);
    if Clashes(rows, e) {
      var r :| 0 <= r < |rows| && rows[r].0 == e.from && rows[r].2 == e.trigger;
      assert rows[r] in rows;
    }
    if TwoTargets(edges, k + 1, trigger, from) {
      var i, j :| 0 <= i < k + 1 && 0 <= j < k + 1 && Leaves(edges[i], from, trigger) && Leaves(edges[j], from, trigger)
                  && edges[i].to != edges[j].to;
      if i == k || j == k {
        var other := if i < k then i else j;
        assert RowOf(edges[other]) in rows;
        if RowOf(e) in rows {
          var d :| 0 <= d < k && RowOf(edges[d]) == RowOf(e);
          assert Leaves(edges[d], from, trigger) && edges[d].to != edges[other].to;
        }
      }
    }
  }

  method CheckExits(m: Authored, terminals: seq<string>) returns (problems: seq<Problem>)
    requires forall s :: s in terminals <==> s in m.terminals
    ensures forall p :: p in problems <==> p.TerminalExit? && p.from in m.terminals && HasRow(RowsOf(m.edges), p.from, p.to)
  {
    problems := [];
    for i := 0 to |m.edges|
      invariant forall p :: p in problems <==>
                  p.TerminalExit? && p.from in m.terminals && exists k :: 0 <= k < i && Links(RowOf(m.edges[k]), p.from, p.to)
    {
      if m.edges[i].from in terminals {
        problems := problems + [TerminalExit(m.edges[i].from, m.edges[i].to)];
      }
    }
  }

  method CheckGuards(m: Authored, c: Context) returns (problems: seq<Problem>)
    ensures forall p :: p in problems <==> p.BadGuard? && exists i :: 0 <= i < |m.edges| && Misguarded(m.edges[i], c, p.from, p.to)
  {
    problems := [];
    for i := 0 to |m.edges|
      invariant forall p :: p in problems <==> p.BadGuard? && exists k :: 0 <= k < i && Misguarded(m.edges[k], c, p.from, p.to)
    {
      if m.edges[i].guard.Some? && GuardFails(m.edges[i].guard.value, c) {
        problems := problems + [BadGuard(m.edges[i].from, m.edges[i].to)];
      }
    }
  }

  /** The initial state, the terminals, then every endpoint not yet listed. */
  method DeclaredStates(m: Authored, terminals: seq<string>, rows: seq<Row>) returns (states: seq<string>)
    requires forall s :: s in terminals <==> s in m.terminals
    requires forall r :: r in rows <==> r in RowsOf(m.edges)
    ensures forall s :: s in states <==> Declares(m, s)
  {
    states := (if Anchor(m).Some? then [Anchor(m).value] else []) + terminals;
    for i := 0 to |rows|
      invariant forall s :: s in states <==>
                  Anchor(m) == Some(s) || s in m.terminals || exists k :: 0 <= k < i && Touches(rows[k], s)
    {
      if rows[i].0 !in states {
        states := states + [rows[i].0];
      }
      if rows[i].1 !in states {
        states := states + [rows[i].1];
      }
    }
    SameRows(rows, RowsOf(m.edges));
    assert forall s :: Endpoint(rows, s) <==> exists k :: 0 <= k < |rows| && Touches(rows[k], s);
  }

  // ----- reachability -----

  /** The worklist: everything seen is reached, and everything a settled state leads
      to is seen. */
  ghost predicate Exploring(rows: seq<Row>, start: string, seen: seq<string>, frontier: seq<string>) {
    && NoDup(seen) && start in seen
    && (forall s :: s in frontier ==> s in seen)
    && (forall s :: s in seen ==> Reaches(rows, start, s))
    && (forall a, b :: a in seen && a !in frontier && HasRow(rows, a, b) ==> b in seen)
  }

  method Explore(rows: seq<Row>, start: string) returns (seen: seq<string>)
    ensures forall s :: s in seen <==> Reaches(rows, start, s)
  {
    seen := [start];
    var frontier := [start];
    StartReached(rows, start);
    ghost var nodes := {start} + (set r | r in rows :: r.1);
    while frontier != []
      invariant Exploring(rows, start, seen, frontier)
      invariant forall s :: s in seen ==> s in nodes
      decreases |nodes| - |seen|, |frontier|
    {
      ghost var before := |seen|;
      var state := frontier[|frontier| - 1];
      SeenFits(seen, nodes);
      seen, frontier := Expand(rows, start, seen, frontier, nodes);
      SeenFits(seen, nodes);
    }
    forall s | Reaches(rows, start, s) ensures s in seen {
      Closed(rows, start, seen, s);
    }
  }

  lemma StartReached(rows: seq<Row>, start: string)
    ensures Reaches(rows, start, start)
  {
    assert Path(rows, start, [start]);
  }

  lemma {:induction false} SeenFits(seen: seq<string>, nodes: set<string>)
    requires NoDup(seen) && forall s :: s in seen ==> s in nodes
    ensures |seen| <= |nodes|
  {
    if seen != [] {
      var last := seen[|seen| - 1];
      var front := seen[..|seen| - 1];
      assert forall s :: s in front ==> s in nodes - {last};
      SeenFits(front, nodes - {last});
    }
  }

  /** One popped state: its unseen targets are seen and put on the frontier, the
      edges taken from the last to the first. */
  method Expand(rows: seq<Row>, start: string, seen0: seq<string>, frontier0: seq<string>, ghost nodes: set<string>)
    returns (seen: seq<string>, frontier: seq<string>)
    requires frontier0 != [] && Exploring(rows, start, seen0, frontier0)
    requires nodes == {start} + (set r | r in rows :: r.1) && forall s :: s in seen0 ==> s in nodes
    ensures Exploring(rows, start, seen, frontier) && forall s :: s in seen ==> s in nodes
    ensures |seen| > |seen0| || (|seen| == |seen0| && |frontier| < |frontier0|)
  {
    var state := frontier0[|frontier0| - 1];
    seen, frontier := seen0, frontier0[..|frontier0| - 1];
    assert frontier0 == frontier + [state];
    var k := |rows|;
    while k > 0
      invariant 0 <= k <= |rows|
      invariant NoDup(seen) && start in seen && (forall s :: s in frontier ==> s in seen)
      invariant forall s :: s in seen0 ==> s in seen
      invariant forall s :: s in seen ==> s in seen0 || s in frontier
      invariant forall s :: s in frontier0 ==> s in frontier || s == state
      invariant forall s :: s in seen ==> Reaches(rows, start, s) && s in nodes
      invariant forall j :: k <= j < |rows| && rows[j].0 == state ==> rows[j].1 in seen
      invariant |seen| > |seen0| || (|seen| == |seen0| && |frontier| < |frontier0|)
    {
      k := k - 1;
      if rows[k].0 == state && rows[k].1 !in seen {
        assert state in frontier0;
        ReachesNext(rows, start, state, k);
        seen := seen + [rows[k].1];
        frontier := frontier + [rows[k].1];
      }
    }
    forall a, b | a in seen && a !in frontier && HasRow(rows, a, b) ensures b in seen {
      var i :| 0 <= i < |rows| && Links(rows[i], a, b);
      if a != state {
        assert a in seen0 && a !in frontier0;
      }
    }
  }

  lemma ReachesNext(rows: seq<Row>, start: string, s: string, k: nat)
    requires k < |rows| && rows[k].0 == s && Reaches(rows, start, s)
    ensures Reaches(rows, start, rows[k].1)
  {
    var run: seq<string> :| Path(rows, start, run) && run[|run| - 1] == s;
    var longer := run + [rows[k].1];
    assert Links(rows[k], s, rows[k].1);
    assert Path(rows, start, longer);
  }

  lemma {:induction false} Closed(rows: seq<Row>, start: string, seen: seq<string>, s: string)
    requires Exploring(rows, start, seen, []) && Reaches(rows, start, s)
    ensures s in seen
  {
    var run: seq<string> :| Path(rows, start, run) && run[|run| - 1] == s;
    ClosedAlong(rows, start, seen, run, |run| - 1);
  }

  lemma {:induction false} ClosedAlong(rows: seq<Row>, start: string, seen: seq<string>, run: seq<string>, k: nat)
    requires Exploring(rows, start, seen, []) && Path(rows, start, run) && k < |run|
    ensures run[k] in seen
  {
    if k > 0 {
      ClosedAlong(rows, start, seen, run, k - 1);
      assert HasRow(rows, run[k - 1], run[k]);
    }
  }

  // ----- the whole validator -----

  /** Machines are closed over their enum, connected, and live. */
  method CheckStates(m: Authored, c: Context, states: seq<string>, terminals: seq<string>, rows: seq<Row>) returns (problems: seq<Problem>)
    requires forall s :: s in states <==> Declares(m, s)
    requires forall s :: s in terminals <==> s in m.terminals
    requires forall r :: r in rows <==> r in RowsOf(m.edges)
    ensures forall p :: p in problems <==> StateProblem(p) && Holds(p, m, c)
  {
    hide Declares, HasExit, Reaches;
    problems := [];
    SameRows(rows, RowsOf(m.edges));
    if c.literals.Some? {
      problems := Report(states, s => s !in c.literals.value, s => NotALiteral(s));
    }
    if Anchor(m).Some? {
      var seen := Explore(rows, Anchor(m).value);
      var lost := Report(states, s => s !in seen, s => Unreachable(s));
      var exits := Sources(rows);
      var stuck := Report(states, s => s !in terminals && s !in exits, s => Stuck(s));
      problems := problems + lost + stuck;
    } else {
      NothingDeclared(m);
    }
  }

  predicate StateProblem(p: Problem) {
    p.NotALiteral? || p.Unreachable? || p.Stuck?
  }

  lemma NothingDeclared(m: Authored)
    requires Anchor(m).None?
    ensures forall s :: !Declares(m, s)
  {}

  /** One report for each state that fails, in order. */
  method Report(states: seq<string>, fails: string -> bool, report: string -> Problem) returns (problems: seq<Problem>)
    ensures forall p :: p in problems <==> exists i :: 0 <= i < |states| && fails(states[i]) && p == report(states[i])
  {
    problems := [];
    for i := 0 to |states|
      invariant forall p :: p in problems <==> exists k :: 0 <= k < i && fails(states[k]) && p == report(states[k])
    {
      if fails(states[i]) {
        problems := problems + [report(states[i])];
      }
    }
  }

  /** The states some edge leaves, sorted in the source, here in edge order. */
  method Sources(rows: seq<Row>) returns (sources: seq<string>)
    ensures forall s :: s in sources <==> HasExit(rows, s)
  {
    sources := [];
    for i := 0 to |rows|
      invariant forall s :: s in sources <==> exists k :: 0 <= k < i && rows[k].0 == s
    {
      sources := sources + [rows[i].0];
    }
  }

  predicate Setup(p: Problem) {
    p.NotAnEntity? || p.NotAnEnum? || p.UnknownFeature? || p.WrongFeatureType? || p.NoInitialState?
  }

  method CheckSetup(m: Authored, c: Context) returns (problems: seq<Problem>)
    ensures forall p :: p in problems <==> Setup(p) && Holds(p, m, c)
  {
    problems := [];
    if !c.entity { problems := problems + [NotAnEntity]; }
    if !c.isEnum { problems := problems + [NotAnEnum]; }
    match c.binding {
      case NoSuchFeature => problems := problems + [UnknownFeature];
      case OtherType => problems := problems + [WrongFeatureType];
      case Unresolved =>
      case Bound =>
    }
    if m.initial.None? { problems := problems + [NoInitialState]; }
  }

  /** The problems reported are exactly those that hold, whatever the machine; and
      the machine lowers unless one that is not tolerated is among them. */
  method LowerMachine(m: Authored, c: Context) returns (out: Option<Machine>, problems: seq<Problem>)
    ensures forall p :: p in problems <==> Holds(p, m, c)
    ensures out.Some? <==> forall p :: Holds(p, m, c) ==> Tolerated(p)
    ensures out.Some? ==> m.initial.Some?
    ensures out.Some? ==> out.value == Machine(m.field, m.initial.value, Dedup(m.terminals), AttachGuards(Dedup(RowsOf(m.edges)), m.edges))
  {
    hide Declares, Endpoint, HasRow, HasExit, Reaches, TwiceTerminal, RepeatsEdge, TwoTargets, Misguarded, Dedup, RowsOf, AttachGuards;
    var setup := CheckSetup(m, c);
    var terminals, twice := CheckTerminals(m);
    var rows, edges, deterministic := CheckEdges(m);
    var exits := CheckExits(m, terminals);
    var states := DeclaredStates(m, terminals, rows);
    var broken := CheckStates(m, c, states, terminals, rows);
    var guards := CheckGuards(m, c);
    problems := setup + twice + edges + exits + broken + guards;
    forall p ensures p in problems <==> Holds(p, m, c) {
      ProblemCovered(m, c, p, setup, twice, edges, exits, broken, guards);
    }
    var ok := setup == [] && deterministic && exits == [] && broken == [];
    OkMeansTolerated(m, c, problems, setup, twice, edges, exits, broken, guards);
    if !ok {
      return None, problems;
    }
    assert m.initial.Some? by {
      assert Setup(NoInitialState) && NoInitialState !in setup;
    }
    out := Some(Machine(m.field, Anchor(m).value, terminals, AttachGuards(rows, m.edges)));
  }

  lemma ProblemCovered(m: Authored, c: Context, p: Problem, setup: seq<Problem>, twice: seq<Problem>, edges: seq<Problem>,
                       exits: seq<Problem>, broken: seq<Problem>, guards: seq<Problem>)
    requires p in setup <==> Setup(p) && Holds(p, m, c)
    requires p in twice <==> p.DuplicateTerminal? && TwiceTerminal(m.terminals, |m.terminals|, p.state)
    requires p in edges <==> EdgeProblem(m.edges, |m.edges|, p)
    requires p in exits <==> p.TerminalExit? && p.from in m.terminals && HasRow(RowsOf(m.edges), p.from, p.to)
    requires p in broken <==> StateProblem(p) && Holds(p, m, c)
    requires p in guards <==> p.BadGuard? && exists i :: 0 <= i < |m.edges| && Misguarded(m.edges[i], c, p.from, p.to)
    ensures p in setup + twice + edges + exits + broken + guards <==> Holds(p, m, c)
  {
    hide Declares, Endpoint, HasRow, HasExit, Reaches, TwiceTerminal, RepeatsEdge, TwoTargets, Misguarded;
  }

  lemma OkMeansTolerated(m: Authored, c: Context, problems: seq<Problem>, setup: seq<Problem>, twice: seq<Problem>, edges: seq<Problem>,
                         exits: seq<Problem>, broken: seq<Problem>, guards: seq<Problem>)
    requires problems == setup + twice + edges + exits + broken + guards
    requires forall p :: p in problems <==> Holds(p, m, c)
    requires forall p :: p in setup ==> Setup(p)
    requires forall p :: p in twice ==> p.DuplicateTerminal?
    requires forall p :: p in edges ==> p.DuplicateTransition? || p.TriggerClash?
    requires forall p :: p in exits ==> p.TerminalExit?
    requires forall p :: p in broken ==> StateProblem(p)
    requires forall p :: p in guards ==> p.BadGuard?
    ensures (setup == [] && (forall p :: p in edges ==> !p.TriggerClash?) && exits == [] && broken == []) <==>
              forall p :: Holds(p, m, c) ==> Tolerated(p)
  {
    hide Holds;
    if setup != [] { assert setup[0] in problems; }
    if exits != [] { assert exits[0] in problems; }
    if broken != [] { assert broken[0] in problems; }
    forall p | p in edges ensures p in problems {}
  }
}

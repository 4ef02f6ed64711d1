/** What a machine without problems promises: nothing of it dropped when it lowers,
    and every run sound. */
module MachineRuns {
  import opened Common
  import opened Machines
  import opened MachineValidator

  /** The machine as the artifact carries it: every edge, with its own guard. */
  function Published(m: Authored): Machine
    requires m.initial.Some?
  {
    Machine(m.field, m.initial.value, m.terminals, seq(|m.edges|, i requires 0 <= i < |m.edges| => Faithful(m.edges[i])))
  }

  lemma NoProblems(m: Authored, c: Context, problems: seq<Problem>)
    requires forall p :: p in problems <==> Holds(p, m, c)
    ensures problems == [] <==> Sound(m, c)
    ensures Sound(m, c) ==> forall p :: Holds(p, m, c) ==> Tolerated(p)
  {
    hide Holds;
    if problems != [] {
      assert problems[0] in problems;
    }
  }

  /** A sound machine has no duplicate, so positions agree and every edge keeps its
      own guard. */
  lemma SoundIsFaithful(m: Authored, c: Context)
    requires Sound(m, c)
    ensures m.initial.Some?
    ensures Machine(m.field, m.initial.value, Dedup(m.terminals), AttachGuards(Dedup(RowsOf(m.edges)), m.edges)) == Published(m)
  {
    assert !Holds(NoInitialState, m, c);
    forall i, j | 0 <= i < j < |m.terminals| ensures m.terminals[i] != m.terminals[j] {
      assert !Holds(DuplicateTerminal(m.terminals[i]), m, c);
    }
    SoundRowsDiffer(m, c);
    DedupFixpoint(m.terminals);
    DedupFixpoint(RowsOf(m.edges));
  }

  lemma SoundRowsDiffer(m: Authored, c: Context)
    requires Sound(m, c)
    ensures NoDup(RowsOf(m.edges))
  {
    var rows := RowsOf(m.edges);
    forall i, j | 0 <= i < j < |rows| ensures rows[i] != rows[j] {
      assert !Holds(DuplicateTransition(m.edges[j].from, m.edges[j].to), m, c);
      assert !RepeatsEdge(m.edges, |m.edges|, m.edges[j].from, m.edges[j].to);
    }
  }

  /** Dropping a duplicate row shifts the guards behind it: the kept edge B -> C takes
      the duplicate's guard. Such a machine is never published. */
  lemma DroppedRowShiftsGuards(c: Context)
    ensures var ab, dup, bc := Edge("A", "B", None, None), Edge("A", "B", None, Some(Guard("g", true, true))), Edge("B", "C", None, None);
            var m := Authored("f", Some("A"), ["C"], [ab, dup, bc]);
            && AttachGuards(Dedup(RowsOf(m.edges)), m.edges) == [Faithful(ab), Faithful(bc).(guard := Some("g"))]
            && !Sound(m, c)
  {
    var ab, dup, bc := Edge("A", "B", None, None), Edge("A", "B", None, Some(Guard("g", true, true))), Edge("B", "C", None, None);
    var m := Authored("f", Some("A"), ["C"], [ab, dup, bc]);
    var edges := m.edges;
    ThreeRows(edges);
    assert RowOf(edges[0]) == RowOf(edges[1]);
    assert Holds(DuplicateTransition("A", "B"), m, c);
  }

  lemma ThreeRows(edges: seq<Edge>)
    requires |edges| == 3 && RowOf(edges[0]) == RowOf(edges[1]) != RowOf(edges[2])
    ensures Dedup(RowsOf(edges)) == [RowOf(edges[0]), RowOf(edges[2])]
  {
    hide Dedup, RowsOf;
    NoRowsYet(edges);
    RowsGrow(edges, 0);
    RowsGrow(edges, 1);
    RowsGrow(edges, 2);
    assert edges[..3] == edges;
  }

  // ----- every run of a published machine -----

  predicate Takes(t: Transition, s: string, s': string) {
    t.from == s && t.to == s'
  }

  predicate Step(pm: Machine, s: string, s': string) {
    exists i :: 0 <= i < |pm.transitions| && Takes(pm.transitions[i], s, s')
  }

  predicate Run(pm: Machine, run: seq<string>) {
    && run != [] && run[0] == pm.initial
    && forall i :: 0 <= i < |run| - 1 ==> Step(pm, run[i], run[i + 1])
  }

  predicate InMachine(pm: Machine, s: string) {
    s == pm.initial || s in pm.terminals || exists i :: 0 <= i < |pm.transitions| && (pm.transitions[i].from == s || pm.transitions[i].to == s)
  }

  lemma StepsAreRows(m: Authored)
    requires m.initial.Some?
    ensures forall a, b :: Step(Published(m), a, b) <==> HasRow(RowsOf(m.edges), a, b)
    ensures forall s :: InMachine(Published(m), s) <==> Declares(m, s)
    ensures forall run: seq<string> :: Run(Published(m), run) <==> Path(RowsOf(m.edges), m.initial.value, run)
  {
    var pm, rows := Published(m), RowsOf(m.edges);
    forall i, a, b | 0 <= i < |rows| ensures Links(rows[i], a, b) <==> Takes(pm.transitions[i], a, b) {}
    forall i, s | 0 <= i < |rows| ensures Touches(rows[i], s) <==> pm.transitions[i].from == s || pm.transitions[i].to == s {}
  }

  /** Every state a run visits is declared by the machine, and a literal of its enum
      where the literals were looked up. When they are is `DesignArtifacts`' matter. */
  lemma RunsVisitDeclared(m: Authored, c: Context, run: seq<string>, k: nat)
    requires Sound(m, c) && m.initial.Some? && Run(Published(m), run) && k < |run|
    ensures InMachine(Published(m), run[k])
    ensures c.literals.Some? ==> run[k] in c.literals.value
  {
    StepsAreRows(m);
    if k > 0 {
      assert Step(Published(m), run[k - 1], run[k]);
    }
    assert Declares(m, run[k]);
    assert !Holds(NotALiteral(run[k]), m, c);
  }

  /** Every state the artifact declares is on some run. */
  lemma EveryStateIsOnARun(m: Authored, c: Context, s: string)
    requires Sound(m, c) && m.initial.Some? && InMachine(Published(m), s)
    ensures exists run: seq<string> :: Run(Published(m), run) && s in run
  {
    StepsAreRows(m);
    assert !Holds(Unreachable(s), m, c);
    var run: seq<string> :| Path(RowsOf(m.edges), m.initial.value, run) && run[|run| - 1] == s;
    assert Run(Published(m), run) && s in run;
  }

  ghost predicate Stops(pm: Machine, s: string) {
    forall s' :: !Step(pm, s, s')
  }

  /** A run can go no further exactly when it is in a terminal state. */
  lemma RunsStopExactlyInTerminals(m: Authored, c: Context, run: seq<string>)
    requires Sound(m, c) && m.initial.Some? && Run(Published(m), run)
    ensures run[|run| - 1] in m.terminals <==> Stops(Published(m), run[|run| - 1])
  {
    var last := run[|run| - 1];
    StepsAreRows(m);
    RunsVisitDeclared(m, c, run, |run| - 1);
    forall s | Step(Published(m), last, s) ensures last !in m.terminals {
      assert !Holds(TerminalExit(last, s), m, c);
    }
    assert !Holds(Stuck(last), m, c);
    var rows := RowsOf(m.edges);
    if HasExit(rows, last) {
      var i :| 0 <= i < |rows| && rows[i].0 == last;
      assert Links(rows[i], last, rows[i].1);
      assert Step(Published(m), last, rows[i].1);
    }
  }

  /** An explicit trigger names at most one edge of a state. */
  lemma TriggersAreDeterministic(m: Authored, c: Context, i: nat, j: nat)
    requires Sound(m, c) && m.initial.Some? && i < |m.edges| && j < |m.edges|
    requires var ts := Published(m).transitions; ts[i].trigger.Some? && ts[i].trigger == ts[j].trigger && ts[i].from == ts[j].from
    ensures i == j
  {
    var trigger, from := m.edges[i].trigger.value, m.edges[i].from;
    assert !Holds(TriggerClash(trigger, from), m, c);
    assert Leaves(m.edges[i], from, trigger) && Leaves(m.edges[j], from, trigger);
    SoundRowsDiffer(m, c);
    assert RowsOf(m.edges)[i] == RowsOf(m.edges)[j];
  }
}

/** The statechart form of a designed machine, and why the two run alike. */
module Statecharts {
  import opened Common
  import opened Machines
  import opened MachineRuns

  datatype ChartEdge = ChartEdge(event: string, target: string, guard: Option<string>)

  datatype Node = Node(name: string, final: bool, exits: seq<ChartEdge>)

  datatype Chart = Chart(initial: string, states: seq<Node>)

  /** The name of a bare arrow's event is derived from its target: `Lowered` is the
      lower-casing of a first character. */
  type Lowered = string -> string

  function EventOf(lower: Lowered, t: Transition): string {
    match t.trigger
    case Some(name) => name
    case None => if t.to == "" then "" else lower(t.to[..1]) + t.to[1..]
  }

  function EdgeOf(lower: Lowered, t: Transition): ChartEdge {
    ChartEdge(EventOf(lower, t), t.to, t.guard)
  }

  /** What the statechart form of a transition is: it leads where the transition
      leads, under the same guard, on its trigger, or on the name of its target
      with the first character lower-cased. */
  ghost predicate Carries(lower: Lowered, t: Transition, e: ChartEdge) {
    && e.target == t.to
    && e.guard == t.guard
    && (t.trigger.Some? ==> e.event == t.trigger.value)
    && (t.trigger.None? && t.to == [] ==> e.event == [])
    && (t.trigger.None? && t.to != [] ==> e.event == lower([t.to[0]]) + t.to[1..])
  }

  lemma EdgeCarries(lower: Lowered, t: Transition, e: ChartEdge)
    ensures Carries(lower, t, e) <==> e == EdgeOf(lower, t)
  {
    if t.to != [] {
      assert t.to[..1] == [t.to[0]];
    }
  }

  // ----- the canonical order of states -----

  function Endpoints(ts: seq<Transition>): (names: seq<string>)
    ensures forall s :: s in names <==> exists i :: 0 <= i < |ts| && (ts[i].from == s || ts[i].to == s)
    ensures |names| == 2 * |ts| && forall i :: 0 <= i < |ts| ==> names[2 * i] == ts[i].from && names[2 * i + 1] == ts[i].to
  {
    if ts == [] then []
    else
      var names := Endpoints(ts[..|ts| - 1]) + [ts[|ts| - 1].from, ts[|ts| - 1].to];
      assert forall s :: s in names <==> s in Endpoints(ts[..|ts| - 1]) || s == ts[|ts| - 1].from || s == ts[|ts| - 1].to;
      assert forall i :: 0 <= i < |ts| - 1 ==> ts[i] == ts[..|ts| - 1][i];
      names
  }

  /** Initial, terminals, then endpoints, each at its first appearance. */
  function States(pm: Machine): (names: seq<string>)
    ensures NoDup(names) && forall s :: s in names <==> InMachine(pm, s)
    ensures FirstAppearances([pm.initial] + pm.terminals + Endpoints(pm.transitions), names)
  {
    DedupKeepsFirst([pm.initial] + pm.terminals + Endpoints(pm.transitions));
    Dedup([pm.initial] + pm.terminals + Endpoints(pm.transitions))
  }

  method Push(states: seq<string>, s: string, ghost listed: seq<string>) returns (out: seq<string>)
    requires states == Dedup(listed)
    ensures out == Dedup(listed + [s])
  {
    assert (listed + [s])[..|listed|] == listed;
    out := if s in states then states else states + [s];
  }

  method PushTerminals(start: seq<string>, terminals: seq<string>, ghost listed: seq<string>) returns (states: seq<string>)
    requires start == Dedup(listed)
    ensures states == Dedup(listed + terminals)
  {
    hide Dedup;
    states := start;
    assert listed + terminals[..0] == listed;
    for i := 0 to |terminals|
      invariant states == Dedup(listed + terminals[..i])
    {
      states := Push(states, terminals[i], listed + terminals[..i]);
      assert listed + terminals[..i] + [terminals[i]] == listed + terminals[..i + 1];
    }
    assert terminals[..|terminals|] == terminals;
  }

  method PushEndpoints(start: seq<string>, ts: seq<Transition>, ghost listed: seq<string>) returns (states: seq<string>)
    requires start == Dedup(listed)
    ensures states == Dedup(listed + Endpoints(ts))
  {
    hide Dedup;
    states := start;
    assert listed + Endpoints(ts[..0]) == listed;
    for i := 0 to |ts|
      invariant states == Dedup(listed + Endpoints(ts[..i]))
    {
      ghost var before := listed + Endpoints(ts[..i]);
      states := Push(states, ts[i].from, before);
      states := Push(states, ts[i].to, before + [ts[i].from]);
      assert ts[..i + 1][..i] == ts[..i];
      assert before + [ts[i].from] + [ts[i].to] == listed + Endpoints(ts[..i + 1]);
    }
    assert ts[..|ts|] == ts;
  }

  method StatesOf(pm: Machine) returns (states: seq<string>)
    ensures states == States(pm)
  {
    assert [] + [pm.initial] == [pm.initial];
    states := Push([], pm.initial, []);
    states := PushTerminals(states, pm.terminals, [pm.initial]);
    states := PushEndpoints(states, pm.transitions, [pm.initial] + pm.terminals);
  }

  // ----- the lowering -----

  /** The edges out of a state among the first n transitions, in artifact order. */
  function Exits(lower: Lowered, ts: seq<Transition>, s: string): seq<ChartEdge> {
    if ts == [] then []
    else
      var last := ts[|ts| - 1];
      Exits(lower, ts[..|ts| - 1], s) + if last.from == s then [EdgeOf(lower, last)] else []
  }

  function NodeOf(lower: Lowered, pm: Machine, ts: seq<Transition>, s: string): Node {
    Node(s, s in pm.terminals, Exits(lower, ts, s))
  }

  /** The transitions out of a state, in artifact order. */
  ghost function Out(ts: seq<Transition>, s: string): seq<Transition> {
    Selected(ts, (t: Transition) => t.from == s)
  }

  /** `exits` carry the transitions out of `s`, one for one. */
  ghost predicate CarriesAll(lower: Lowered, ts: seq<Transition>, s: string, exits: seq<ChartEdge>) {
    |exits| == |Out(ts, s)| && forall i :: 0 <= i < |exits| ==> Carries(lower, Out(ts, s)[i], exits[i])
  }

  ghost predicate IsNodeOf(lower: Lowered, pm: Machine, s: string, node: Node) {
    node.name == s && (node.final <==> s in pm.terminals) && CarriesAll(lower, pm.transitions, s, node.exits)
  }

  /** The chart has the machine's states in canonical order, the terminals final, and
      each with exactly its own transitions in artifact order. */
  ghost predicate IsChartOf(lower: Lowered, pm: Machine, chart: Chart) {
    && chart.initial == pm.initial && |chart.states| == |States(pm)|
    && forall k :: 0 <= k < |chart.states| ==> IsNodeOf(lower, pm, States(pm)[k], chart.states[k])
  }

  lemma {:induction false} ExitsCarry(lower: Lowered, ts: seq<Transition>, s: string, exits: seq<ChartEdge>)
    ensures CarriesAll(lower, ts, s, exits) <==> exits == Exits(lower, ts, s)
  {
    if ts != [] {
      var front, last := ts[..|ts| - 1], ts[|ts| - 1];
      ExitsCarry(lower, front, s, Exits(lower, front, s));
      var made, out := Exits(lower, ts, s), Out(ts, s);
      EdgeCarries(lower, last, EdgeOf(lower, last));
      assert CarriesAll(lower, ts, s, made);
      if CarriesAll(lower, ts, s, exits) {
        forall i | 0 <= i < |exits| ensures exits[i] == made[i] {
          EdgeCarries(lower, out[i], exits[i]);
          EdgeCarries(lower, out[i], made[i]);
        }
      }
    }
  }

  lemma NodeIs(lower: Lowered, pm: Machine, s: string, node: Node)
    ensures IsNodeOf(lower, pm, s, node) <==> node == NodeOf(lower, pm, pm.transitions, s)
  {
    ExitsCarry(lower, pm.transitions, s, node.exits);
  }

  /** Looking up an edge's source never fails. */
  method LowerChart(lower: Lowered, pm: Machine) returns (chart: Chart)
    ensures IsChartOf(lower, pm, chart)
  {
    hide States, InMachine, IsNodeOf;
    var names := StatesOf(pm);
    var states := seq(|names|, k requires 0 <= k < |names| => Node(names[k], names[k] in pm.terminals, []));
    for i := 0 to |pm.transitions|
      invariant |states| == |names|
      invariant forall k :: 0 <= k < |states| ==> states[k] == NodeOf(lower, pm, pm.transitions[..i], names[k])
    {
      var t := pm.transitions[i];
      SourceIsListed(pm, i);
      var k := 0;
      while states[k].name != t.from
        invariant 0 <= k < |states|
        invariant forall j :: 0 <= j < k ==> names[j] != t.from
        invariant t.from in names
        decreases |states| - k
      {
        assert names[k] != t.from && exists j :: 0 <= j < |names| && names[j] == t.from;
        k := k + 1;
      }
      states := states[k := states[k].(exits := states[k].exits + [EdgeOf(lower, t)])];
      assert pm.transitions[..i + 1][..i] == pm.transitions[..i];
    }
    assert pm.transitions[..|pm.transitions|] == pm.transitions;
    chart := Chart(pm.initial, states);
    forall k | 0 <= k < |states| ensures IsNodeOf(lower, pm, names[k], states[k]) {
      NodeIs(lower, pm, names[k], states[k]);
    }
  }

  lemma SourceIsListed(pm: Machine, i: nat)
    requires i < |pm.transitions|
    ensures pm.transitions[i].from in States(pm) && NoDup(States(pm))
  {
    assert InMachine(pm, pm.transitions[i].from);
  }

  // ----- the two run alike -----

  /** What an observer of a step sees: the event, the guard it is subject to, and
      the state it leads to. */
  datatype Label = Label(event: string, guard: Option<string>, target: string)

  /** The transition leads to the label's target under the label's guard, on the
      label's event: its trigger, or its target's name lower-cased at the front. */
  ghost predicate Fires(lower: Lowered, t: Transition, l: Label) {
    && t.to == l.target
    && t.guard == l.guard
    && match t.trigger
       case Some(name) => l.event == name
       case None => if |l.target| == 0 then l.event == "" else l.event == lower([l.target[0]]) + l.target[1..]
  }

  ghost predicate MachineStep(lower: Lowered, pm: Machine, s: string, l: Label) {
    exists i :: 0 <= i < |pm.transitions| && pm.transitions[i].from == s && Fires(lower, pm.transitions[i], l)
  }

  ghost predicate ChartStep(chart: Chart, s: string, l: Label) {
    exists k :: 0 <= k < |chart.states| && chart.states[k].name == s && ChartEdge(l.event, l.target, l.guard) in chart.states[k].exits
  }

  lemma {:induction false} ExitsAre(lower: Lowered, ts: seq<Transition>, s: string, e: ChartEdge)
    ensures e in Exits(lower, ts, s) <==> exists i :: 0 <= i < |ts| && ts[i].from == s && EdgeOf(lower, ts[i]) == e
  {
    if ts != [] {
      var front := ts[..|ts| - 1];
      ExitsAre(lower, front, s, e);
      if e in Exits(lower, front, s) {
        var i :| 0 <= i < |front| && front[i].from == s && EdgeOf(lower, front[i]) == e;
        assert ts[i] == front[i];
      }
      if i :| 0 <= i < |ts| && ts[i].from == s && EdgeOf(lower, ts[i]) == e {
        assert i < |front| ==> front[i] == ts[i];
      }
    }
  }

  lemma FiresIs(lower: Lowered, t: Transition, l: Label)
    ensures Fires(lower, t, l) <==> EdgeOf(lower, t) == ChartEdge(l.event, l.target, l.guard)
  {
    EdgeCarries(lower, t, ChartEdge(l.event, l.target, l.guard));
  }

  lemma ChartNodes(lower: Lowered, pm: Machine, chart: Chart)
    requires IsChartOf(lower, pm, chart)
    ensures forall k :: 0 <= k < |chart.states| ==> chart.states[k] == NodeOf(lower, pm, pm.transitions, States(pm)[k])
  {
    hide IsNodeOf, States, NodeOf;
    forall k | 0 <= k < |chart.states| ensures chart.states[k] == NodeOf(lower, pm, pm.transitions, States(pm)[k]) {
      NodeIs(lower, pm, States(pm)[k], chart.states[k]);
    }
  }

  /** From every state, machine and chart take the same labelled steps. */
  lemma StepsAgree(lower: Lowered, pm: Machine, chart: Chart, s: string, l: Label)
    requires IsChartOf(lower, pm, chart)
    ensures MachineStep(lower, pm, s, l) <==> ChartStep(chart, s, l)
  {
    hide IsNodeOf, States, Fires, EdgeOf;
    var e := ChartEdge(l.event, l.target, l.guard);
    ExitsAre(lower, pm.transitions, s, e);
    forall i | 0 <= i < |pm.transitions| ensures Fires(lower, pm.transitions[i], l) <==> EdgeOf(lower, pm.transitions[i]) == e {
      FiresIs(lower, pm.transitions[i], l);
    }
    ChartNodes(lower, pm, chart);
    if MachineStep(lower, pm, s, l) {
      var i :| 0 <= i < |pm.transitions| && pm.transitions[i].from == s && EdgeOf(lower, pm.transitions[i]) == e;
      SourceIsListed(pm, i);
      var k :| 0 <= k < |States(pm)| && States(pm)[k] == s;
      assert chart.states[k].name == s;
    }
  }

  /** The state a trace's i-th step is taken from. */
  function Before(initial: string, trace: seq<Label>, i: nat): string
    requires i < |trace|
  {
    if i == 0 then initial else trace[i - 1].target
  }

  ghost predicate MachineRun(lower: Lowered, pm: Machine, trace: seq<Label>) {
    forall i :: 0 <= i < |trace| ==> MachineStep(lower, pm, Before(pm.initial, trace, i), trace[i])
  }

  ghost predicate ChartRun(chart: Chart, trace: seq<Label>) {
    forall i :: 0 <= i < |trace| ==> ChartStep(chart, Before(chart.initial, trace, i), trace[i])
  }

  /** Hence the same runs, event by event and guard by guard. */
  lemma RunsAgree(lower: Lowered, pm: Machine, chart: Chart, trace: seq<Label>)
    requires IsChartOf(lower, pm, chart)
    ensures MachineRun(lower, pm, trace) <==> ChartRun(chart, trace)
  {
    forall i | 0 <= i < |trace|
      ensures MachineStep(lower, pm, Before(pm.initial, trace, i), trace[i]) <==> ChartStep(chart, Before(pm.initial, trace, i), trace[i])
    {
      StepsAgree(lower, pm, chart, Before(pm.initial, trace, i), trace[i]);
    }
  }

  lemma NoExits(lower: Lowered, pm: Machine, s: string)
    ensures Exits(lower, pm.transitions, s) == [] <==> Stops(pm, s)
  {
    var exits := Exits(lower, pm.transitions, s);
    if exits != [] {
      ExitsAre(lower, pm.transitions, s, exits[0]);
      var i :| 0 <= i < |pm.transitions| && pm.transitions[i].from == s && EdgeOf(lower, pm.transitions[i]) == exits[0];
      assert Takes(pm.transitions[i], s, pm.transitions[i].to);
      assert Step(pm, s, pm.transitions[i].to);
    } else if s' :| Step(pm, s, s') {
      var i :| 0 <= i < |pm.transitions| && Takes(pm.transitions[i], s, s');
      ExitsAre(lower, pm.transitions, s, EdgeOf(lower, pm.transitions[i]));
      assert false;
    }
  }

  lemma RunPrefix(pm: Machine, run: seq<string>, j: nat)
    requires Run(pm, run) && j < |run|
    ensures Run(pm, run[..j + 1])
  {
    var upTo := run[..j + 1];
    forall i | 0 <= i < |upTo| - 1 ensures Step(pm, upTo[i], upTo[i + 1]) {
      assert Step(pm, run[i], run[i + 1]);
    }
  }

  lemma TerminalsAreStops(m: Authored, c: Context, s: string)
    requires Sound(m, c) && m.initial.Some? && InMachine(Published(m), s)
    ensures s in m.terminals <==> Stops(Published(m), s)
  {
    hide Sound, InMachine, Stops, Step;
    var pm := Published(m);
    EveryStateIsOnARun(m, c, s);
    var run: seq<string> :| Run(pm, run) && s in run;
    var j :| 0 <= j < |run| && run[j] == s;
    var upTo := run[..j + 1];
    RunPrefix(pm, run, j);
    RunsStopExactlyInTerminals(m, c, upTo);
  }

  /** In the chart of a published machine a node is final exactly when nothing leaves
      it. */
  lemma FinalNodesAreDeadEnds(lower: Lowered, m: Authored, c: Context, chart: Chart, k: nat)
    requires Sound(m, c) && m.initial.Some? && IsChartOf(lower, Published(m), chart) && k < |chart.states|
    ensures chart.states[k].final <==> chart.states[k].exits == []
  {
    hide Sound, InMachine, Stops, Exits;
    var pm := Published(m);
    ChartNodes(lower, pm, chart);
    var s := States(pm)[k];
    assert s in States(pm);
    TerminalsAreStops(m, c, s);
    NoExits(lower, pm, s);
  }

  // ----- conservation -----

  /** How often the nodes named `s` have the edge. */
  function EdgeCount(states: seq<Node>, s: string, e: ChartEdge): nat {
    if states == [] then 0
    else
      var last := states[|states| - 1];
      EdgeCount(states[..|states| - 1], s, e) + if last.name == s then multiset(last.exits)[e] else 0
  }

  /** How many transitions out of `s` the edge carries. */
  ghost function TransitionCount(lower: Lowered, ts: seq<Transition>, s: string, e: ChartEdge): nat {
    if ts == [] then 0
    else
      var last := ts[|ts| - 1];
      TransitionCount(lower, ts[..|ts| - 1], s, e) + if last.from == s && Carries(lower, last, e) then 1 else 0
  }

  lemma {:induction false} ExitsCount(lower: Lowered, ts: seq<Transition>, s: string, e: ChartEdge)
    ensures multiset(Exits(lower, ts, s))[e] == TransitionCount(lower, ts, s, e)
  {
    if ts != [] {
      ExitsCount(lower, ts[..|ts| - 1], s, e);
      EdgeCarries(lower, ts[|ts| - 1], e);
    }
  }

  lemma {:induction false} NoTransitions(lower: Lowered, ts: seq<Transition>, s: string, e: ChartEdge)
    requires forall i :: 0 <= i < |ts| ==> ts[i].from != s
    ensures TransitionCount(lower, ts, s, e) == 0
  {
    if ts != [] {
      NoTransitions(lower, ts[..|ts| - 1], s, e);
    }
  }

  /** Among nodes with distinct names, those up to `n` count the edge if one of them
      is named `s`. */
  lemma {:induction false} CountUpTo(lower: Lowered, pm: Machine, chart: Chart, n: nat, s: string, e: ChartEdge)
    requires IsChartOf(lower, pm, chart) && n <= |chart.states|
    ensures EdgeCount(chart.states[..n], s, e) == if s in States(pm)[..n] then TransitionCount(lower, pm.transitions, s, e) else 0
  {
    hide States, IsNodeOf, Exits;
    if n > 0 {
      CountUpTo(lower, pm, chart, n - 1, s, e);
      assert chart.states[..n][..n - 1] == chart.states[..n - 1];
      assert States(pm)[..n] == States(pm)[..n - 1] + [States(pm)[n - 1]];
      ChartNodes(lower, pm, chart);
      ExitsCount(lower, pm.transitions, s, e);
      assert States(pm)[n - 1] !in States(pm)[..n - 1];
    }
  }

  /** Every edge is in the chart as often as the machine has a transition it carries,
      at the state that transition leaves. */
  lemma EdgesConserved(lower: Lowered, pm: Machine, chart: Chart, s: string, e: ChartEdge)
    requires IsChartOf(lower, pm, chart)
    ensures EdgeCount(chart.states, s, e) == TransitionCount(lower, pm.transitions, s, e)
  {
    CountUpTo(lower, pm, chart, |chart.states|, s, e);
    assert chart.states[..|chart.states|] == chart.states && States(pm)[..|States(pm)|] == States(pm);
    if s !in States(pm) {
      forall i | 0 <= i < |pm.transitions| ensures pm.transitions[i].from != s {
        SourceIsListed(pm, i);
      }
      NoTransitions(lower, pm.transitions, s, e);
    }
  }
}

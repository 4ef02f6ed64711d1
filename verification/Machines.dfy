/** Designed state machines: what is authored, what the artifact carries, and what a
    problem with an authored machine is. */
module Machines {
  import opened Common

  /** A guard condition's text, whether it parses, and whether it types as a boolean
      where the domain's types are known. */
  datatype Guard = Guard(text: string, parses: bool, boolean: bool)

  datatype Edge = Edge(from: string, to: string, trigger: Option<string>, guard: Option<Guard>)

  datatype Authored = Authored(field: string, initial: Option<string>, terminals: seq<string>, edges: seq<Edge>)

  /** How the machine's field and enum resolve against the domain: the class or the
      union model may be unknown, and the literals are known only with it. */
  datatype Binding = Unresolved | NoSuchFeature | OtherType | Bound

  datatype Context = Context(entity: bool, isEnum: bool, binding: Binding, literals: Option<seq<string>>)

  datatype Problem =
    | NotAnEntity
    | NotAnEnum
    | UnknownFeature
    | WrongFeatureType
    | NoInitialState
    | DuplicateTerminal(state: string)
    | DuplicateTransition(from: string, to: string)
    | TriggerClash(trigger: string, from: string)
    | TerminalExit(from: string, to: string)
    | NotALiteral(state: string)
    | Unreachable(state: string)
    | Stuck(state: string)
    | BadGuard(from: string, to: string)

  datatype Transition = Transition(from: string, to: string, trigger: Option<string>, guard: Option<string>)

  datatype Machine = Machine(field: string, initial: string, terminals: seq<string>, transitions: seq<Transition>)

  // ----- rows -----

  /** What makes two edges the same declaration: the guard does not. */
  type Row = (string, string, Option<string>)

  function RowOf(e: Edge): Row {
    (e.from, e.to, e.trigger)
  }

  function RowsOf(edges: seq<Edge>): (rows: seq<Row>)
    ensures |rows| == |edges| && forall i :: 0 <= i < |rows| ==> rows[i] == RowOf(edges[i])
  {
    seq(|edges|, i requires 0 <= i < |edges| => RowOf(edges[i]))
  }

  /** Guards go back onto the kept rows by position. */
  function AttachGuards(rows: seq<Row>, edges: seq<Edge>): (out: seq<Transition>)
    ensures |out| == |rows|
  {
    seq(|rows|, i requires 0 <= i < |rows| =>
      var (from, to, trigger) := rows[i];
      Transition(from, to, trigger, if i < |edges| then GuardText(edges[i]) else None))
  }

  function GuardText(e: Edge): Option<string> {
    match e.guard
    case None => None
    case Some(g) => Some(g.text)
  }

  function Faithful(e: Edge): Transition {
    Transition(e.from, e.to, e.trigger, GuardText(e))
  }

  // ----- states, runs -----

  /** The initial state a broken machine is checked from: a terminal, else the first
      edge's source. */
  function Anchor(m: Authored): Option<string> {
    if m.initial.Some? then m.initial
    else if m.terminals != [] then Some(m.terminals[0])
    else if m.edges != [] then Some(m.edges[0].from)
    else None
  }

  predicate Touches(r: Row, s: string) {
    r.0 == s || r.1 == s
  }

  predicate Endpoint(rows: seq<Row>, s: string) {
    exists i :: 0 <= i < |rows| && Touches(rows[i], s)
  }

  predicate Declares(m: Authored, s: string) {
    Anchor(m) == Some(s) || s in m.terminals || Endpoint(RowsOf(m.edges), s)
  }

  predicate Links(r: Row, from: string, to: string) {
    r.0 == from && r.1 == to
  }

  predicate HasRow(rows: seq<Row>, from: string, to: string) {
    exists i :: 0 <= i < |rows| && Links(rows[i], from, to)
  }

  predicate HasExit(rows: seq<Row>, s: string) {
    exists i :: 0 <= i < |rows| && rows[i].0 == s
  }

  /** Dropping repeated rows changes none of these. */
  lemma SameRows(rows: seq<Row>, rows': seq<Row>)
    requires forall r :: r in rows <==> r in rows'
    ensures forall s :: Endpoint(rows, s) <==> Endpoint(rows', s)
    ensures forall s :: HasExit(rows, s) <==> HasExit(rows', s)
    ensures forall a, b :: HasRow(rows, a, b) <==> HasRow(rows', a, b)
    ensures forall a, b :: Reaches(rows, a, b) <==> Reaches(rows', a, b)
  {
    SomeRows(rows, rows');
    SomeRows(rows', rows);
    forall a, b | Reaches(rows, a, b) ensures Reaches(rows', a, b) {
      var run: seq<string> :| Path(rows, a, run) && run[|run| - 1] == b;
      assert Path(rows', a, run);
    }
    forall a, b | Reaches(rows', a, b) ensures Reaches(rows, a, b) {
      var run: seq<string> :| Path(rows', a, run) && run[|run| - 1] == b;
      assert Path(rows, a, run);
    }
  }

  lemma SomeRows(rows: seq<Row>, rows': seq<Row>)
    requires forall r :: r in rows ==> r in rows'
    ensures forall s | Endpoint(rows, s) :: Endpoint(rows', s)
    ensures forall s | HasExit(rows, s) :: HasExit(rows', s)
    ensures forall a, b | HasRow(rows, a, b) :: HasRow(rows', a, b)
  {
    forall s | Endpoint(rows, s) ensures Endpoint(rows', s) {
      var i :| 0 <= i < |rows| && Touches(rows[i], s);
      assert rows[i] in rows;
      var j :| 0 <= j < |rows'| && rows'[j] == rows[i];
    }
    forall s | HasExit(rows, s) ensures HasExit(rows', s) {
      var i :| 0 <= i < |rows| && rows[i].0 == s;
      assert rows[i] in rows;
      var j :| 0 <= j < |rows'| && rows'[j] == rows[i];
    }
    forall a, b | HasRow(rows, a, b) ensures HasRow(rows', a, b) {
      var i :| 0 <= i < |rows| && Links(rows[i], a, b);
      assert rows[i] in rows;
      var j :| 0 <= j < |rows'| && rows'[j] == rows[i];
    }
  }

  /** A run: from the start, each next state is the target of an edge. */
  predicate Path(rows: seq<Row>, start: string, run: seq<string>) {
    && run != [] && run[0] == start
    && forall i :: 0 <= i < |run| - 1 ==> HasRow(rows, run[i], run[i + 1])
  }

  ghost predicate Reaches(rows: seq<Row>, start: string, s: string) {
    exists run: seq<string> :: Path(rows, start, run) && run[|run| - 1] == s
  }

  /** A state is declared terminal twice among the first n. */
  ghost predicate TwiceTerminal(terminals: seq<string>, n: nat, s: string)
    requires n <= |terminals|
  {
    exists i, j :: 0 <= i < j < n && terminals[i] == terminals[j] == s
  }

  /** An edge repeats an earlier one among the first n, guards aside. */
  ghost predicate RepeatsEdge(edges: seq<Edge>, n: nat, from: string, to: string)
    requires n <= |edges|
  {
    exists i, j :: 0 <= i < j < n && RowOf(edges[i]) == RowOf(edges[j]) && edges[j].from == from && edges[j].to == to
  }

  predicate Leaves(e: Edge, from: string, trigger: string) {
    e.from == from && e.trigger == Some(trigger)
  }

  /** Among the first n edges, a trigger leaves a state for two targets. */
  ghost predicate TwoTargets(edges: seq<Edge>, n: nat, trigger: string, from: string)
    requires n <= |edges|
  {
    exists i, j :: 0 <= i < n && 0 <= j < n && Leaves(edges[i], from, trigger) && Leaves(edges[j], from, trigger) && edges[i].to != edges[j].to
  }

  /** With the class or the union model unknown a guard is only parsed. */
  predicate GuardFails(g: Guard, c: Context) {
    !g.parses || (!c.binding.Unresolved? && !g.boolean)
  }

  predicate Misguarded(e: Edge, c: Context, from: string, to: string) {
    e.from == from && e.to == to && e.guard.Some? && GuardFails(e.guard.value, c)
  }

  /** Exactly when each problem is reported. */
  ghost predicate Holds(p: Problem, m: Authored, c: Context) {
    match p
    case NotAnEntity => !c.entity
    case NotAnEnum => !c.isEnum
    case UnknownFeature => c.binding.NoSuchFeature?
    case WrongFeatureType => c.binding.OtherType?
    case NoInitialState => m.initial.None?
    case DuplicateTerminal(s) => TwiceTerminal(m.terminals, |m.terminals|, s)
    case DuplicateTransition(from, to) => RepeatsEdge(m.edges, |m.edges|, from, to)
    case TriggerClash(trigger, from) => TwoTargets(m.edges, |m.edges|, trigger, from)
    case TerminalExit(from, to) => from in m.terminals && HasRow(RowsOf(m.edges), from, to)
    case NotALiteral(s) => c.literals.Some? && Declares(m, s) && s !in c.literals.value
    case Unreachable(s) => Anchor(m).Some? && Declares(m, s) && !Reaches(RowsOf(m.edges), Anchor(m).value, s)
    case Stuck(s) => Declares(m, s) && s !in m.terminals && !HasExit(RowsOf(m.edges), s)
    case BadGuard(from, to) => exists i :: 0 <= i < |m.edges| && Misguarded(m.edges[i], c, from, to)
  }

  /** Problems the validator reports but that do not stop it from lowering. */
  predicate Tolerated(p: Problem) {
    p.DuplicateTerminal? || p.DuplicateTransition? || p.BadGuard?
  }

  ghost predicate Sound(m: Authored, c: Context) {
    forall p :: !Holds(p, m, c)
  }
}

/** The decision information graph of a `.dmn` model: requirements resolve, and no
    decision requires itself, however indirectly. */
module Decisions {
  import opened Common

  datatype Requirement = Requirement(requiring: string, required: string)

  type Edges = map<string, seq<string>>

  datatype Color = White | Gray | Black

  predicate Edge(edges: Edges, a: string, b: string) {
    a in edges && b in edges[a]
  }

  /** A closed path of real edges: it ends where it starts. */
  predicate Cycle(edges: Edges, c: seq<string>) {
    && |c| >= 2 && c[0] == c[|c| - 1]
    && forall i :: 0 <= i < |c| - 1 ==> Edge(edges, c[i], c[i + 1])
  }

  /** Each node comes after everything it requires. */
  ghost predicate EvaluationOrder(edges: Edges, order: seq<string>) {
    && NoDup(order)
    && forall i, b :: 0 <= i < |order| && Edge(edges, order[i], b) ==> b in order[..i]
  }

  // ----- an evaluation order excludes cycles -----

  lemma Position(order: seq<string>, i: nat, b: string) returns (j: nat)
    requires i <= |order| && b in order[..i]
    ensures j < i && order[j] == b
  {
    j :| 0 <= j < i && order[..i][j] == b;
  }

  /** Walking k edges from a placed node comes at least k places down. */
  lemma {:induction false} WalksDown(edges: Edges, order: seq<string>, c: seq<string>, start: nat, k: nat) returns (p: nat)
    requires EvaluationOrder(edges, order) && Cycle(edges, c) && k < |c|
    requires start < |order| && order[start] == c[0]
    ensures p + k <= start && order[p] == c[k]
  {
    if k == 0 {
      p := start;
    } else {
      var q := WalksDown(edges, order, c, start, k - 1);
      assert Edge(edges, order[q], c[k]);
      p := Position(order, q, c[k]);
    }
  }

  lemma OrderedIsAcyclic(edges: Edges, order: seq<string>, c: seq<string>)
    requires EvaluationOrder(edges, order) && c != [] && c[0] in order
    ensures !Cycle(edges, c)
  {
    if Cycle(edges, c) {
      var start :| 0 <= start < |order| && order[start] == c[0];
      var p := WalksDown(edges, order, c, start, |c| - 1);
      assert false;
    }
  }

  // ----- the search -----

  /** White is unseen, gray is on the stack, black is finished; the stack is a path,
      and the finishing order is an evaluation order so far. */
  ghost predicate Searching(edges: Edges, color: map<string, Color>, stack: seq<string>, finished: seq<string>) {
    && NoDup(stack) && NoDup(finished)
    && (forall v :: v in color ==> (color[v].Gray? <==> v in stack) && (color[v].Black? <==> v in finished))
    && (forall v :: v in stack || v in finished ==> v in color)
    && (forall i :: 0 <= i < |stack| - 1 ==> Edge(edges, stack[i], stack[i + 1]))
    && (forall i, b :: 0 <= i < |finished| && Edge(edges, finished[i], b) && b in color ==> b in finished[..i])
  }

  function Whites(color: map<string, Color>): set<string> {
    set v | v in color && color[v].White?
  }

  lemma Enter(edges: Edges, color: map<string, Color>, stack: seq<string>, finished: seq<string>, node: string)
    requires Searching(edges, color, stack, finished) && node in color && color[node].White?
    requires stack != [] ==> Edge(edges, stack[|stack| - 1], node)
    ensures Searching(edges, color[node := Gray], stack + [node], finished)
    ensures Whites(color[node := Gray]) < Whites(color)
  {
    assert node in Whites(color);
  }

  lemma Leave(edges: Edges, color: map<string, Color>, stack: seq<string>, finished: seq<string>, node: string)
    requires Searching(edges, color, stack + [node], finished)
    requires forall b :: Edge(edges, node, b) && b in color ==> b in finished
    ensures Searching(edges, color[node := Black], stack, finished + [node])
    ensures Whites(color[node := Black]) == Whites(color)
  {
    var all := stack + [node];
    var finished' := finished + [node];
    assert all[|stack|] == node && node in all;
    assert forall i :: 0 <= i < |stack| ==> all[i] == stack[i];
    assert forall v :: v in stack <==> v in all && v != node;
    assert color[node].Gray? && node !in finished;
    assert forall v :: v in finished' <==> v in finished || v == node;
    forall i, b | 0 <= i < |finished'| && Edge(edges, finished'[i], b) && b in color ensures b in finished'[..i] {
      assert finished'[..i] == finished[..i];
    }
  }

  lemma GrayIsStacked(edges: Edges, color: map<string, Color>, stack: seq<string>, finished: seq<string>)
    requires Searching(edges, color, stack, finished)
    ensures forall v :: v in color ==> (color[v].Gray? <==> v in stack) && (color[v].Black? <==> v in finished)
    ensures forall i :: 0 <= i < |stack| - 1 ==> Edge(edges, stack[i], stack[i + 1])
  {}

  class CycleSearch {
    const edges: Edges
    var color: map<string, Color>
    var stack: seq<string>
    ghost var finished: seq<string>

    constructor (edges: Edges, decisions: seq<string>)
      ensures this.edges == edges && stack == [] && finished == [] && Valid()
      ensures color.Keys == (set d | d in decisions) && forall d :: d in color ==> color[d].White?
    {
      this.edges := edges;
      color := map d | d in decisions :: White;
      stack, finished := [], [];
    }

    ghost predicate Valid()
      reads this
    {
      Searching(edges, color, stack, finished)
    }

    /** From the last gray node the edge to the gray node `next` closes a cycle. */
    method CloseCycle(next: string) returns (cycle: seq<string>)
      requires Valid() && next in stack && Edge(edges, stack[|stack| - 1], next)
      ensures Cycle(edges, cycle)
    {
      GrayIsStacked(edges, color, stack, finished);
      hide Searching;
      var start := 0;
      while stack[start] != next
        invariant 0 <= start < |stack|
        invariant next in stack[start..]
        decreases |stack| - start
      {
        assert stack[start..] == [stack[start]] + stack[start + 1..];
        start := start + 1;
      }
      cycle := stack[start..] + [next];
      forall i | 0 <= i < |cycle| - 1 ensures Edge(edges, cycle[i], cycle[i + 1]) {
        if i < |cycle| - 2 {
          assert cycle[i] == stack[start + i] && cycle[i + 1] == stack[start + i + 1];
        }
      }
    }

    /** Either a cycle is found, or node and everything it leads to is finished and
        the stack is as it was. */
    method Visit(node: string) returns (cycle: Option<seq<string>>)
      requires Valid() && node in color && color[node].White?
      requires stack != [] ==> Edge(edges, stack[|stack| - 1], node)
      modifies this
      ensures cycle.Some? ==> Cycle(edges, cycle.value)
      ensures cycle.None? ==> Valid() && stack == old(stack) && node in finished && old(finished) <= finished
      ensures cycle.None? ==> color.Keys == old(color.Keys) && Whites(color) < old(Whites(color))
      decreases Whites(color)
    {
      hide Searching, Whites;
      Enter(edges, color, stack, finished, node);
      color := color[node := Gray];
      stack := stack + [node];
      var nexts := if node in edges then edges[node] else [];
      for i := 0 to |nexts|
        invariant Valid() && stack == old(stack) + [node] && old(finished) <= finished
        invariant color.Keys == old(color.Keys) && Whites(color) < old(Whites(color))
        invariant forall k :: 0 <= k < i && nexts[k] in color ==> nexts[k] in finished
      {
        var next := nexts[i];
        GrayIsStacked(edges, color, stack, finished);
        if next in color {
          if color[next].Gray? {
            var closed := CloseCycle(next);
            return Some(closed);
          } else if color[next].White? {
            cycle := Visit(next);
            if cycle.Some? { return; }
          }
        }
      }
      assert forall b :: Edge(edges, node, b) ==> exists k :: 0 <= k < |nexts| && nexts[k] == b;
      Leave(edges, color, old(stack), finished, node);
      stack := stack[..|stack| - 1];
      assert stack == old(stack);
      color := color[node := Black];
      finished := finished + [node];
      cycle := None;
    }

    /** Finds a cycle, or else an evaluation order of all decisions. */
    method FindDecisionCycle(decisions: seq<string>) returns (cycle: Option<seq<string>>, ghost order: seq<string>)
      requires Valid() && stack == [] && finished == []
      requires color.Keys == (set d | d in decisions)
      requires forall a, b :: Edge(edges, a, b) ==> a in decisions && b in decisions
      modifies this
      ensures cycle.Some? ==> Cycle(edges, cycle.value)
      ensures cycle.None? ==> EvaluationOrder(edges, order) && forall d :: d in order <==> d in decisions
    {
      hide Searching, Whites;
      order := [];
      for i := 0 to |decisions|
        invariant Valid() && stack == [] && color.Keys == (set d | d in decisions)
        invariant forall k :: 0 <= k < i ==> decisions[k] in finished
      {
        GrayIsStacked(edges, color, stack, finished);
        assert decisions[i] in color.Keys;
        if color[decisions[i]].White? {
          cycle := Visit(decisions[i]);
          if cycle.Some? { return; }
        }
      }
      FinishedIsOrder(edges, color, finished, decisions);
      cycle, order := None, finished;
    }
  }

  lemma FinishedIsOrder(edges: Edges, color: map<string, Color>, finished: seq<string>, decisions: seq<string>)
    requires Searching(edges, color, [], finished) && color.Keys == (set d | d in decisions)
    requires forall a, b :: Edge(edges, a, b) ==> a in decisions && b in decisions
    requires forall k :: 0 <= k < |decisions| ==> decisions[k] in finished
    ensures EvaluationOrder(edges, finished) && forall d :: d in finished <==> d in decisions
  {
    forall b ensures b in color <==> b in decisions {
      assert b in color <==> b in color.Keys;
    }
  }

  // ----- the rules -----

  datatype Problem = NotADecision(name: string) | UnknownRequired(name: string, requiring: string) | DecisionCycle(path: seq<string>)

  /** Edges between decisions only; an input ends a path. */
  method BuildEdges(decisions: seq<string>, requirements: seq<Requirement>) returns (edges: Edges)
    ensures forall a, b :: Edge(edges, a, b) <==> a in decisions && b in decisions && Requirement(a, b) in requirements
  {
    edges := map[];
    for i := 0 to |requirements|
      invariant forall a, b :: Edge(edges, a, b) <==> a in decisions && b in decisions && Requirement(a, b) in requirements[..i]
    {
      var r := requirements[i];
      if r.requiring in decisions && r.required in decisions {
        var targets := if r.requiring in edges then edges[r.requiring] else [];
        edges := edges[r.requiring := targets + [r.required]];
      }
    }
    assert requirements[..|requirements|] == requirements;
  }

  predicate Resolves(decisions: seq<string>, inputs: seq<string>, r: Requirement) {
    r.requiring in decisions && (r.required in inputs || r.required in decisions)
  }

  ghost predicate Requires(decisions: seq<string>, requirements: seq<Requirement>, a: string, b: string) {
    a in decisions && b in decisions && Requirement(a, b) in requirements
  }

  /** A chain of decisions, each requiring the next, that comes back to its start. */
  ghost predicate RequiresItself(decisions: seq<string>, requirements: seq<Requirement>, c: seq<string>) {
    && |c| >= 2 && c[0] == c[|c| - 1]
    && forall i :: 0 <= i < |c| - 1 ==> Requires(decisions, requirements, c[i], c[i + 1])
  }

  /** Decisions in an order in which each comes after all it requires. */
  ghost predicate Evaluable(decisions: seq<string>, requirements: seq<Requirement>, order: seq<string>) {
    && NoDup(order) && (forall d :: d in order <==> d in decisions)
    && forall i, b :: 0 <= i < |order| && Requires(decisions, requirements, order[i], b) ==> b in order[..i]
  }

  /** The resolution and acyclicity rules report nothing exactly when every
      requirement resolves and no decision requires itself; the decisions then have
      an evaluation order. A reported path is a real one. */
  method CheckRequirements(decisions: seq<string>, inputs: seq<string>, models: seq<string>, sources: seq<string>,
                           requirements: seq<Requirement>, knowledge: seq<Requirement>, authority: seq<Requirement>)
    returns (problems: seq<Problem>, ghost order: seq<string>)
    ensures problems == [] <==>
              && (forall r :: r in requirements ==> Resolves(decisions, inputs, r))
              && (forall r :: r in knowledge ==> r.requiring in decisions && r.required in models)
              && (forall r :: r in authority ==> r.requiring in decisions && r.required in sources)
              && !(exists c: seq<string> :: RequiresItself(decisions, requirements, c))
    ensures problems == [] ==> Evaluable(decisions, requirements, order)
    ensures forall p :: p in problems && p.DecisionCycle? ==> RequiresItself(decisions, requirements, p.path)
  {
    problems := [];
    for i := 0 to |requirements|
      invariant problems == [] <==> forall k :: 0 <= k < i ==> Resolves(decisions, inputs, requirements[k])
      invariant forall p :: p in problems ==> !p.DecisionCycle?
    {
      var r := requirements[i];
      if r.requiring !in decisions {
        problems := problems + [NotADecision(r.requiring)];
      } else if r.required !in inputs && r.required !in decisions {
        problems := problems + [UnknownRequired(r.required, r.requiring)];
      }
    }
    var inKnowledge := CheckCarried(decisions, models, knowledge);
    var inAuthority := CheckCarried(decisions, sources, authority);
    problems := problems + inKnowledge + inAuthority;
    var edges := BuildEdges(decisions, requirements);
    var search := new CycleSearch(edges, decisions);
    var cycle;
    cycle, order := search.FindDecisionCycle(decisions);
    SearchDecides(decisions, requirements, edges, cycle, order);
    if cycle.Some? {
      problems := problems + [DecisionCycle(cycle.value)];
    }
  }

  /** A requirement is carried by a decision and names one of the declared targets. */
  method CheckCarried(decisions: seq<string>, targets: seq<string>, requirements: seq<Requirement>) returns (problems: seq<Problem>)
    ensures problems == [] <==> forall r :: r in requirements ==> r.requiring in decisions && r.required in targets
    ensures forall p :: p in problems ==> !p.DecisionCycle?
  {
    problems := [];
    for i := 0 to |requirements|
      invariant problems == [] <==> forall k :: 0 <= k < i ==> requirements[k].requiring in decisions && requirements[k].required in targets
      invariant forall p :: p in problems ==> !p.DecisionCycle?
    {
      var r := requirements[i];
      if r.requiring !in decisions {
        problems := problems + [NotADecision(r.requiring)];
      } else if r.required !in targets {
        problems := problems + [UnknownRequired(r.required, r.requiring)];
      }
    }
  }

  lemma SearchDecides(decisions: seq<string>, requirements: seq<Requirement>, edges: Edges, cycle: Option<seq<string>>, order: seq<string>)
    requires forall a, b :: Edge(edges, a, b) <==> Requires(decisions, requirements, a, b)
    requires cycle.Some? ==> Cycle(edges, cycle.value)
    requires cycle.None? ==> EvaluationOrder(edges, order) && forall d :: d in order <==> d in decisions
    ensures cycle.Some? ==> RequiresItself(decisions, requirements, cycle.value)
    ensures cycle.None? ==> Evaluable(decisions, requirements, order)
    ensures cycle.None? ==> !(exists c: seq<string> :: RequiresItself(decisions, requirements, c))
  {
    if cycle.None? {
      forall c: seq<string> ensures !RequiresItself(decisions, requirements, c) {
        if RequiresItself(decisions, requirements, c) {
          assert Requires(decisions, requirements, c[0], c[1]);
          assert Cycle(edges, c);
          OrderedIsAcyclic(edges, order, c);
          assert false;
        }
      }
    }
  }
}

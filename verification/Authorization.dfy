/** From inherited grants to Cedar policies, and to agent manifests: two projections
    of one authorization model. */
module Authorization {
  import opened Common
  import opened Conditions

  datatype Kind = Human | Agent

  datatype Actor = Actor(name: string, parent: Option<string>, kind: Option<Kind>)

  datatype Effect = Permit | Forbid

  /** One entry of a grant or delegation: an effect, or Cedar text passed through. */
  datatype Entry = Entry(effect: Effect, capability: string, when: Option<Condition>, obligations: seq<string>, cedar: Option<string>)

  datatype Grant = Grant(actor: string, entries: seq<Entry>)

  datatype Capability = Capability(name: string, cls: string)

  /** Authority handed to an actor for a purpose; who hands it over does not matter here. */
  datatype Delegation = Delegation(name: string, purpose: Option<string>, to: string, entries: seq<Entry>)

  /** One `actors` block. */
  datatype Block = Block(actors: seq<Actor>, capabilities: seq<Capability>, grants: seq<Grant>, delegations: seq<Delegation>)

  // ----- lineage -----

  /** The parent of the first actor of that name. */
  function ParentOf(actors: seq<Actor>, name: string): Option<string> {
    if actors == [] then None
    else if actors[0].name == name then actors[0].parent
    else ParentOf(actors[1..], name)
  }

  /** The first declaration of a name decides its parent. */
  lemma {:induction false} FirstDecidesParent(actors: seq<Actor>, i: nat)
    requires i < |actors| && forall k :: 0 <= k < i ==> actors[k].name != actors[i].name
    ensures ParentOf(actors, actors[i].name) == actors[i].parent
  {
    if i > 0 {
      assert actors[1..][i - 1] == actors[i] && forall k :: 0 <= k < i - 1 ==> actors[1..][k] == actors[k + 1];
      FirstDecidesParent(actors[1..], i - 1);
    }
  }

  lemma {:induction false} UndeclaredHasNoParent(actors: seq<Actor>, name: string)
    requires forall a :: a in actors ==> a.name != name
    ensures ParentOf(actors, name).None?
  {
    if actors != [] {
      UndeclaredHasNoParent(actors[1..], name);
    }
  }

  type Parent = string -> Option<string>

  function Declared(actors: seq<Actor>): Parent {
    name => ParentOf(actors, name)
  }

  function Recorded(parents: map<string, string>): Parent {
    name => if name in parents then Some(parents[name]) else None
  }

  ghost predicate Chain(up: Parent, chain: seq<string>) {
    forall i :: 0 <= i < |chain| - 1 ==> up(chain[i]) == Some(chain[i + 1])
  }

  /** `ancestor` is on the actor's `extends` chain; every actor is on its own. */
  ghost predicate Inherits(up: Parent, actor: string, ancestor: string) {
    exists chain: seq<string> :: chain != [] && chain[0] == actor && chain[|chain| - 1] == ancestor && Chain(up, chain)
  }

  lemma InheritsItself(up: Parent, actor: string)
    ensures Inherits(up, actor, actor)
  {
    assert Chain(up, [actor]);
  }

  lemma InheritsNext(up: Parent, actor: string, name: string, parent: string)
    requires Inherits(up, actor, name) && up(name) == Some(parent)
    ensures Inherits(up, actor, parent)
  {
    var chain: seq<string> :| chain != [] && chain[0] == actor && chain[|chain| - 1] == name && Chain(up, chain);
    assert Chain(up, chain + [parent]);
  }

  lemma SameParents(up: Parent, up': Parent)
    requires forall n :: up(n) == up'(n)
    ensures forall a, b :: Inherits(up, a, b) <==> Inherits(up', a, b)
  {
    forall chain: seq<string> ensures Chain(up, chain) <==> Chain(up', chain) {}
  }

  /** A walk up the chain: everything seen is inherited, and the parent of what was
      seen is seen, or next. */
  ghost predicate Walking(up: Parent, actor: string, seen: seq<string>, next: Option<string>) {
    && NoDup(seen)
    && (forall n :: n in seen ==> Inherits(up, actor, n))
    && (next.Some? ==> Inherits(up, actor, next.value))
    && (forall n :: n in seen && up(n).Some? ==> up(n).value in seen || up(n) == next)
    && (actor in seen || next == Some(actor))
  }

  /** The whole walk: a chain without repetition that cannot be continued. */
  ghost predicate IsLineage(up: Parent, actor: string, lineage: seq<string>) {
    && NoDup(lineage) && lineage != [] && lineage[0] == actor && Chain(up, lineage)
    && var next := up(lineage[|lineage| - 1]); next.None? || next.value in lineage
  }

  lemma {:induction false} LineagesAgree(up: Parent, actor: string, a: seq<string>, b: seq<string>, k: nat)
    requires IsLineage(up, actor, a) && IsLineage(up, actor, b) && k < |a|
    ensures k < |b| && a[k] == b[k]
  {
    if k > 0 {
      LineagesAgree(up, actor, a, b, k - 1);
      if k == |b| {
        var j :| 0 <= j < |b| && b[j] == a[k];
        LineagesAgree(up, actor, a, b, j);
        assert false;
      }
    }
  }

  lemma WalkStep(up: Parent, actor: string, seen: seq<string>, name: string)
    requires Walking(up, actor, seen, Some(name)) && name !in seen
    ensures Walking(up, actor, seen + [name], up(name))
  {
    hide Inherits;
    if up(name).Some? {
      InheritsNext(up, actor, name, up(name).value);
    }
  }

  lemma WalkStart(up: Parent, actor: string)
    ensures Walking(up, actor, [], Some(actor))
  {
    InheritsItself(up, actor);
  }

  lemma WalkedAll(up: Parent, actor: string, seen: seq<string>, next: Option<string>)
    requires Walking(up, actor, seen, next) && (next.Some? ==> next.value in seen)
    ensures forall n :: n in seen <==> Inherits(up, actor, n)
  {
    forall n | Inherits(up, actor, n) ensures n in seen {
      var chain: seq<string> :| chain != [] && chain[0] == actor && chain[|chain| - 1] == n && Chain(up, chain);
      WalkedAlong(up, actor, seen, next, chain, |chain| - 1);
    }
  }

  lemma {:induction false} WalkedAlong(up: Parent, actor: string, seen: seq<string>, next: Option<string>, chain: seq<string>, k: nat)
    requires Walking(up, actor, seen, next) && (next.Some? ==> next.value in seen)
    requires k < |chain| && chain[0] == actor && Chain(up, chain)
    ensures chain[k] in seen
  {
    if k > 0 {
      WalkedAlong(up, actor, seen, next, chain, k - 1);
    }
  }

  ghost function Names(actors: seq<Actor>, actor: string): set<string> {
    {actor} + set a | a in actors && a.parent.Some? :: a.parent.value
  }

  lemma {:induction false} ParentIsNamed(actors: seq<Actor>, actor: string, name: string)
    ensures ParentOf(actors, name).Some? ==> ParentOf(actors, name).value in Names(actors, actor)
  {
    if actors != [] {
      ParentIsNamed(actors[1..], actor, name);
    }
  }

  lemma {:induction false} DistinctFit(seen: seq<string>, names: set<string>)
    requires NoDup(seen) && forall n :: n in seen ==> n in names
    ensures |seen| <= |names|
  {
    if seen != [] {
      var last := seen[|seen| - 1];
      assert forall n :: n in seen[..|seen| - 1] ==> n in names - {last};
      DistinctFit(seen[..|seen| - 1], names - {last});
    }
  }

  /** Self and every ancestor, nearest first; a cycle stops the walk. */
  method LineageWalk(parents: map<string, string>, actor: string) returns (lineage: seq<string>)
    ensures IsLineage(Recorded(parents), actor, lineage)
    ensures forall n :: n in lineage <==> Inherits(Recorded(parents), actor, n)
  {
    hide Inherits, Walking;
    ghost var up := Recorded(parents);
    ghost var names := {actor} + parents.Values;
    lineage := [];
    var current := Some(actor);
    WalkStart(up, actor);
    while current.Some? && current.value !in lineage
      invariant Walking(up, actor, lineage, current)
      invariant forall n :: n in lineage ==> n in names
      invariant current.Some? ==> current.value in names
      invariant Chain(up, lineage)
      invariant if lineage == [] then current == Some(actor) else lineage[0] == actor && current == up(lineage[|lineage| - 1])
      decreases |names| - |lineage|
    {
      WalkStep(up, actor, lineage, current.value);
      lineage := lineage + [current.value];
      WalkIsDistinct(up, actor, lineage, up(current.value));
      DistinctFit(lineage, names);
      current := if current.value in parents then Some(parents[current.value]) else None;
    }
    WalkIsDistinct(up, actor, lineage, current);
    WalkedAll(up, actor, lineage, current);
  }

  lemma WalkIsDistinct(up: Parent, actor: string, seen: seq<string>, next: Option<string>)
    requires Walking(up, actor, seen, next)
    ensures NoDup(seen)
    ensures forall n :: n in seen ==> Inherits(up, actor, n)
    ensures next.Some? ==> Inherits(up, actor, next.value)
  {}

  /** Whether the actor or an ancestor passes a test, stopping where one does or where
      the chain repeats. */
  method AnyInLineage(actors: seq<Actor>, actor: string, test: string -> bool) returns (r: bool)
    ensures r <==> exists n :: Inherits(Declared(actors), actor, n) && test(n)
  {
    hide Inherits, Walking;
    ghost var up := Declared(actors);
    var seen: seq<string> := [];
    var current := Some(actor);
    WalkStart(up, actor);
    while current.Some?
      invariant Walking(up, actor, seen, current) && forall n :: n in seen ==> !test(n)
      invariant forall n :: n in seen ==> n in Names(actors, actor)
      invariant current.Some? ==> current.value in Names(actors, actor)
      decreases |Names(actors, actor)| - |seen|, current.Some?
    {
      WalkIsDistinct(up, actor, seen, current);
      if current.value in seen { break; }
      if test(current.value) { return true; }
      ParentIsNamed(actors, actor, current.value);
      WalkStep(up, actor, seen, current.value);
      seen := seen + [current.value];
      current := ParentOf(actors, current.value);
      WalkIsDistinct(up, actor, seen, current);
      DistinctFit(seen, Names(actors, actor));
    }
    WalkedAll(up, actor, seen, current);
    return false;
  }

  method LineageContains(actors: seq<Actor>, actor: string, ancestor: string) returns (r: bool)
    ensures r <==> Inherits(Declared(actors), actor, ancestor)
  {
    hide Inherits;
    r := AnyInLineage(actors, actor, name => name == ancestor);
  }

  // ----- policies -----

  /** A Cedar policy of the generated form, or passed-through text. */
  datatype Policy =
    | Rule(effect: Effect, principal: string, action: string, resource: string, when: Option<Condition>, obligations: seq<string>)
    | Verbatim(text: string)

  /** The class of the first capability of the name. */
  function ClassOf(capabilities: seq<Capability>, name: string): (cls: Option<string>)
    ensures cls.None? <==> forall c :: c in capabilities ==> c.name != name
    ensures cls.Some? ==> Capability(name, cls.value) in capabilities
  {
    if capabilities == [] then None
    else if capabilities[0].name == name then Some(capabilities[0].cls)
    else ClassOf(capabilities[1..], name)
  }

  predicate IsEntry(b: Block, actor: string, e: Entry) {
    exists g :: g in b.grants && g.actor == actor && e in g.entries
  }

  /** The rule one entry gives one inheriting actor. */
  function RuleFor(e: Entry, principal: string, cls: string): Policy {
    Rule(e.effect, principal, e.capability, cls, e.when, e.obligations)
  }

  /** The policies one entry gives: its text as it stands, or a rule for each declared
      actor holding the grant. */
  ghost predicate FromEntry(b: Block, granted: string, e: Entry, p: Policy) {
    if e.cedar.Some? then p == Verbatim(e.cedar.value)
    else exists a :: a in b.actors && GivesRule(b, granted, e, a, p)
  }

  ghost predicate GivesRule(b: Block, granted: string, e: Entry, a: Actor, p: Policy) {
    && Inherits(Declared(b.actors), a.name, granted)
    && ClassOf(b.capabilities, e.capability).Some?
    && p == Rule(e.effect, a.name, e.capability, ClassOf(b.capabilities, e.capability).value, e.when, e.obligations)
  }

  /** The policy is what some entry gives. */
  ghost predicate Derived(b: Block, p: Policy) {
    exists granted, e :: IsEntry(b, granted, e) && FromEntry(b, granted, e, p)
  }

  ghost function Holding(actors: seq<Actor>, actor: string): Actor -> bool {
    (a: Actor) => Inherits(Declared(actors), a.name, actor)
  }

  /** The actors holding an actor's authority, in declaration order. */
  method ActorsInheriting(actors: seq<Actor>, actor: string) returns (out: seq<Actor>)
    ensures out == Selected(actors, Holding(actors, actor))
    ensures forall a :: a in out <==> a in actors && Inherits(Declared(actors), a.name, actor)
  {
    hide Inherits;
    ghost var keep := Holding(actors, actor);
    out := [];
    for i := 0 to |actors|
      invariant out == Selected(actors[..i], keep)
    {
      SelectedNext(actors, i, keep);
      var inherits := LineageContains(actors, actors[i].name, actor);
      if inherits {
        out := out + [actors[i]];
      }
    }
    assert actors[..|actors|] == actors;
  }

  function RulesFor(e: Entry, holders: seq<Actor>, cls: string): (rules: seq<Policy>)
    ensures |rules| == |holders| && forall i :: 0 <= i < |rules| ==> rules[i] == RuleFor(e, holders[i].name, cls)
  {
    seq(|holders|, i requires 0 <= i < |holders| => RuleFor(e, holders[i].name, cls))
  }

  /** The policies of one entry in the order they are written. */
  ghost function PoliciesOf(b: Block, granted: string, e: Entry): seq<Policy> {
    if e.cedar.Some? then [Verbatim(e.cedar.value)]
    else
      match ClassOf(b.capabilities, e.capability)
      case None => []
      case Some(cls) => RulesFor(e, Selected(b.actors, Holding(b.actors, granted)), cls)
  }

  /** The policies of the first n entries of a grant. */
  ghost function GrantList(b: Block, g: Grant, n: nat): seq<Policy>
    requires n <= |g.entries|
  {
    if n == 0 then [] else GrantList(b, g, n - 1) + PoliciesOf(b, g.actor, g.entries[n - 1])
  }

  /** The policies of the first n grants. */
  ghost function PolicyList(b: Block, n: nat): seq<Policy>
    requires n <= |b.grants|
  {
    if n == 0 then [] else PolicyList(b, n - 1) + GrantList(b, b.grants[n - 1], |b.grants[n - 1].entries|)
  }

  method EntryPolicies(b: Block, granted: string, e: Entry) returns (out: Result<seq<Policy>, string>)
    ensures out.Err? <==> e.cedar.None? && ClassOf(b.capabilities, e.capability).None?
    ensures out.Ok? ==> out.value == PoliciesOf(b, granted, e)
  {
    hide Inherits, Selected;
    if e.cedar.Some? {
      return Ok([Verbatim(e.cedar.value)]);
    }
    var cls := ClassOf(b.capabilities, e.capability);
    if cls.None? {
      return Err(e.capability);
    }
    var holders := ActorsInheriting(b.actors, granted);
    var policies: seq<Policy> := [];
    for i := 0 to |holders|
      invariant policies == RulesFor(e, holders, cls.value)[..i]
    {
      policies := policies + [RuleFor(e, holders[i].name, cls.value)];
    }
    out := Ok(policies);
  }

  lemma EntryGives(b: Block, granted: string, e: Entry)
    ensures forall p :: p in PoliciesOf(b, granted, e) <==> FromEntry(b, granted, e, p)
  {
    hide Inherits;
    var holders := Selected(b.actors, Holding(b.actors, granted));
    forall p | p in PoliciesOf(b, granted, e) ensures FromEntry(b, granted, e, p) {
      if e.cedar.None? {
        var rules := PoliciesOf(b, granted, e);
        var k :| 0 <= k < |rules| && rules[k] == p;
        assert holders[k] in holders && GivesRule(b, granted, e, holders[k], p);
      }
    }
    forall p | FromEntry(b, granted, e, p) ensures p in PoliciesOf(b, granted, e) {
      if e.cedar.None? {
        var a :| a in b.actors && GivesRule(b, granted, e, a, p);
        assert a in holders;
        var k :| 0 <= k < |holders| && holders[k] == a;
        assert PoliciesOf(b, granted, e)[k] == p;
      }
    }
  }

  /** The policy set of a block: exactly the policies its entries give, in the order
      of the grants, or an error for an entry on an undeclared capability. */
  method PolicySet(b: Block) returns (out: Result<seq<Policy>, string>)
    ensures out.Ok? <==> forall actor, e :: IsEntry(b, actor, e) && e.cedar.None? ==> ClassOf(b.capabilities, e.capability).Some?
    ensures out.Ok? ==> out.value == PolicyList(b, |b.grants|)
    ensures out.Ok? ==> forall p :: p in out.value <==> Derived(b, p)
  {
    hide PoliciesOf, Derived;
    var policies: seq<Policy> := [];
    for i := 0 to |b.grants|
      invariant forall k, j :: 0 <= k < i && 0 <= j < |b.grants[k].entries| && b.grants[k].entries[j].cedar.None? ==>
                  ClassOf(b.capabilities, b.grants[k].entries[j].capability).Some?
      invariant policies == PolicyList(b, i)
    {
      var g := b.grants[i];
      var found := GrantPolicies(b, g);
      if found.Err? {
        var j :| 0 <= j < |g.entries| && g.entries[j].cedar.None? && ClassOf(b.capabilities, g.entries[j].capability).None?;
        assert IsEntry(b, g.actor, g.entries[j]);
        return Err(found.error);
      }
      policies := policies + found.value;
    }
    PolicyListIsDerived(b);
    EveryEntry(b);
    out := Ok(policies);
  }

  method GrantPolicies(b: Block, g: Grant) returns (out: Result<seq<Policy>, string>)
    ensures out.Ok? <==> forall j :: 0 <= j < |g.entries| && g.entries[j].cedar.None? ==> ClassOf(b.capabilities, g.entries[j].capability).Some?
    ensures out.Ok? ==> out.value == GrantList(b, g, |g.entries|)
  {
    hide PoliciesOf;
    var policies: seq<Policy> := [];
    for j := 0 to |g.entries|
      invariant forall k :: 0 <= k < j && g.entries[k].cedar.None? ==> ClassOf(b.capabilities, g.entries[k].capability).Some?
      invariant policies == GrantList(b, g, j)
    {
      var found := EntryPolicies(b, g.actor, g.entries[j]);
      if found.Err? { return found; }
      policies := policies + found.value;
    }
    out := Ok(policies);
  }

  ghost predicate FromGrant(b: Block, g: Grant, n: nat, p: Policy)
    requires n <= |g.entries|
  {
    exists k :: 0 <= k < n && FromEntry(b, g.actor, g.entries[k], p)
  }

  lemma {:induction false} GrantGives(b: Block, g: Grant, n: nat)
    requires n <= |g.entries|
    ensures forall p :: p in GrantList(b, g, n) <==> FromGrant(b, g, n, p)
  {
    hide FromEntry, PoliciesOf;
    if n > 0 {
      GrantGives(b, g, n - 1);
      EntryGives(b, g.actor, g.entries[n - 1]);
    }
  }

  lemma {:induction false} ListGives(b: Block, n: nat)
    requires n <= |b.grants|
    ensures forall p :: p in PolicyList(b, n) <==> exists k :: 0 <= k < n && FromGrant(b, b.grants[k], |b.grants[k].entries|, p)
  {
    hide FromGrant, GrantList;
    if n > 0 {
      ListGives(b, n - 1);
      GrantGives(b, b.grants[n - 1], |b.grants[n - 1].entries|);
    }
  }

  /** The written policies are exactly those some entry gives. */
  lemma PolicyListIsDerived(b: Block)
    ensures forall p :: p in PolicyList(b, |b.grants|) <==> Derived(b, p)
  {
    hide FromEntry, PolicyList;
    ListGives(b, |b.grants|);
    forall p | Derived(b, p) ensures exists k :: 0 <= k < |b.grants| && FromGrant(b, b.grants[k], |b.grants[k].entries|, p) {
      var granted, e :| IsEntry(b, granted, e) && FromEntry(b, granted, e, p);
      var g :| g in b.grants && g.actor == granted && e in g.entries;
      var k :| 0 <= k < |b.grants| && b.grants[k] == g;
      var j :| 0 <= j < |g.entries| && g.entries[j] == e;
    }
    forall p, k | 0 <= k < |b.grants| && FromGrant(b, b.grants[k], |b.grants[k].entries|, p) ensures Derived(b, p) {
      var j :| 0 <= j < |b.grants[k].entries| && FromEntry(b, b.grants[k].actor, b.grants[k].entries[j], p);
      assert IsEntry(b, b.grants[k].actor, b.grants[k].entries[j]);
    }
  }

  lemma EveryEntry(b: Block)
    ensures (forall actor, e :: IsEntry(b, actor, e) && e.cedar.None? ==> ClassOf(b.capabilities, e.capability).Some?) <==>
            (forall k, j :: 0 <= k < |b.grants| && 0 <= j < |b.grants[k].entries| && b.grants[k].entries[j].cedar.None? ==>
               ClassOf(b.capabilities, b.grants[k].entries[j].capability).Some?)
  {
    forall k, j | 0 <= k < |b.grants| && 0 <= j < |b.grants[k].entries| ensures IsEntry(b, b.grants[k].actor, b.grants[k].entries[j]) {}
    forall actor, e | IsEntry(b, actor, e)
      ensures exists k, j :: 0 <= k < |b.grants| && 0 <= j < |b.grants[k].entries| && b.grants[k].entries[j] == e
    {
      var g :| g in b.grants && g.actor == actor && e in g.entries;
      var k :| 0 <= k < |b.grants| && b.grants[k] == g;
      var j :| 0 <= j < |b.grants[k].entries| && b.grants[k].entries[j] == e;
    }
  }

  // ----- deciding requests -----

  datatype Request = Request(principal: string, action: string, resource: string)

  /** Cedar's answer: a policy applies when the types match exactly and its condition
      holds; passed-through text applies as Cedar reads it. */
  type Holds = Condition -> bool
  type Reading = (string, Request) -> Option<Effect>

  predicate Applies(p: Policy, q: Request, holds: Holds, reading: Reading, effect: Effect) {
    match p
    case Rule(e, principal, action, resource, when, _) =>
      e == effect && principal == q.principal && action == q.action && resource == q.resource && (when.Some? ==> holds(when.value))
    case Verbatim(text) => reading(text, q) == Some(effect)
  }

  /** Default deny; forbid wins. */
  predicate Allowed(policies: seq<Policy>, q: Request, holds: Holds, reading: Reading) {
    && (exists p :: p in policies && Applies(p, q, holds, reading, Permit))
    && !(exists p :: p in policies && Applies(p, q, holds, reading, Forbid))
  }

  /** An entry granted to the actor or an ancestor gives this effect. */
  ghost predicate Granted(b: Block, q: Request, holds: Holds, effect: Effect) {
    exists granted, e :: IsEntry(b, granted, e) && EntryCovers(b, granted, e, q, holds, effect)
  }

  ghost predicate EntryCovers(b: Block, granted: string, e: Entry, q: Request, holds: Holds, effect: Effect) {
    && e.cedar.None? && e.effect == effect && e.capability == q.action
    && Inherits(Declared(b.actors), q.principal, granted)
    && ClassOf(b.capabilities, e.capability) == Some(q.resource)
    && (e.when.Some? ==> holds(e.when.value))
  }

  predicate IsActor(b: Block, name: string) {
    exists a :: a in b.actors && a.name == name
  }

  predicate NothingVerbatim(b: Block) {
    forall g, e :: g in b.grants && e in g.entries ==> e.cedar.None?
  }

  lemma AppliesExactlyWhenGranted(b: Block, policies: seq<Policy>, q: Request, holds: Holds, reading: Reading, effect: Effect)
    requires NothingVerbatim(b) && forall p :: p in policies <==> Derived(b, p)
    ensures (exists p :: p in policies && Applies(p, q, holds, reading, effect)) <==> IsActor(b, q.principal) && Granted(b, q, holds, effect)
  {
    hide Inherits;
    if p :| p in policies && Applies(p, q, holds, reading, effect) {
      var granted, e :| IsEntry(b, granted, e) && FromEntry(b, granted, e, p);
      var g :| g in b.grants && g.actor == granted && e in g.entries;
      assert EntryCovers(b, granted, e, q, holds, effect);
    }
    if IsActor(b, q.principal) && Granted(b, q, holds, effect) {
      var granted, e :| IsEntry(b, granted, e) && EntryCovers(b, granted, e, q, holds, effect);
      var a :| a in b.actors && a.name == q.principal;
      var p := RuleFor(e, a.name, q.resource);
      assert GivesRule(b, granted, e, a, p);
      assert FromEntry(b, granted, e, p);
      assert Derived(b, p) && Applies(p, q, holds, reading, effect);
    }
  }

  /** The policy set decides every request exactly as the inherited grants do. */
  lemma DecidesAsGranted(b: Block, policies: seq<Policy>, q: Request, holds: Holds, reading: Reading)
    requires NothingVerbatim(b) && forall p :: p in policies <==> Derived(b, p)
    ensures Allowed(policies, q, holds, reading) <==>
              IsActor(b, q.principal) && Granted(b, q, holds, Permit) && !Granted(b, q, holds, Forbid)
  {
    hide Derived, Applies, Granted;
    AppliesExactlyWhenGranted(b, policies, q, holds, reading, Permit);
    AppliesExactlyWhenGranted(b, policies, q, holds, reading, Forbid);
  }

  // ----- the schema's principal types -----

  predicate Mentions(grants: seq<Grant>, actor: string, capability: string) {
    exists g, e :: g in grants && g.actor == actor && e in g.entries && e.cedar.None? && e.capability == capability
  }

  predicate Delegates(delegations: seq<Delegation>, actor: string, capability: string) {
    exists d, e :: d in delegations && d.to == actor && e in d.entries && e.cedar.None? && e.capability == capability
  }

  /** The capability's authority reaches the actor, by grant or delegation. */
  ghost predicate Reached(b: Block, actor: string, capability: string) {
    exists n :: Inherits(Declared(b.actors), actor, n) && Addressed(b, n, capability)
  }

  /** An entry on the capability, with no passed-through text, of a grant or a
      delegation to the actor. */
  ghost predicate Addressed(b: Block, actor: string, capability: string) {
    || (exists g, e :: g in b.grants && e in g.entries && e.cedar.None? && e.capability == capability && g.actor == actor)
    || (exists d, e :: d in b.delegations && e in d.entries && e.cedar.None? && e.capability == capability && d.to == actor)
  }

  /** Whether the capability's authority reaches the actor or one of its ancestors. */
  method ReachesCapability(b: Block, actor: string, capability: string) returns (r: bool)
    ensures r <==> Reached(b, actor, capability)
  {
    hide Inherits;
    var names := (n: string) => Mentions(b.grants, n, capability) || Delegates(b.delegations, n, capability);
    forall n ensures names(n) <==> Addressed(b, n, capability) {
    }
    r := AnyInLineage(b.actors, actor, names);
  }

  function ActorNames(actors: seq<Actor>): (names: seq<string>)
    ensures |names| == |actors| && forall i :: 0 <= i < |names| ==> names[i] == actors[i].name
  {
    seq(|actors|, i requires 0 <= i < |actors| => actors[i].name)
  }

  ghost function Admitted(b: Block, capability: string): Actor -> bool {
    (a: Actor) => Reached(b, a.name, capability)
  }

  /** The actors whose requests for a capability the schema admits, in declaration
      order. */
  method PrincipalTypes(b: Block, capability: string) returns (out: seq<string>)
    ensures out == ActorNames(Selected(b.actors, Admitted(b, capability)))
    ensures forall n :: n in out <==> IsActor(b, n) && Reached(b, n, capability)
  {
    hide Reached;
    ghost var keep := Admitted(b, capability);
    out := [];
    for i := 0 to |b.actors|
      invariant out == ActorNames(Selected(b.actors[..i], keep))
    {
      SelectedNext(b.actors, i, keep);
      var reached := ReachesCapability(b, b.actors[i].name, capability);
      if reached {
        out := out + [b.actors[i].name];
      }
    }
    assert b.actors[..|b.actors|] == b.actors;
    SelectedNames(b, capability);
  }

  lemma SelectedNames(b: Block, capability: string)
    ensures forall n :: n in ActorNames(Selected(b.actors, Admitted(b, capability))) <==> IsActor(b, n) && Reached(b, n, capability)
  {
    hide Reached;
    var kept := Selected(b.actors, Admitted(b, capability));
    forall n | n in ActorNames(kept) ensures IsActor(b, n) && Reached(b, n, capability) {
      var k :| 0 <= k < |kept| && ActorNames(kept)[k] == n;
      assert kept[k] in kept;
    }
    forall n | IsActor(b, n) && Reached(b, n, capability) ensures n in ActorNames(kept) {
      var a :| a in b.actors && a.name == n;
      assert a in kept;
      var k :| 0 <= k < |kept| && kept[k] == a;
      assert ActorNames(kept)[k] == n;
    }
  }

  /** Every policy's principal is admitted by its action's principal types. */
  lemma PrincipalsAreAdmitted(b: Block, p: Policy, types: seq<string>)
    requires Derived(b, p) && p.Rule?
    requires forall n :: n in types <==> IsActor(b, n) && Reached(b, n, p.action)
    ensures p.principal in types
  {
    hide Inherits;
    var granted, e :| IsEntry(b, granted, e) && FromEntry(b, granted, e, p);
    var g :| g in b.grants && g.actor == granted && e in g.entries;
    assert Mentions(b.grants, granted, e.capability);
  }

  // ----- agent manifests -----

  /** A delegated permit as the manifest offers it. */
  datatype Offered = Offered(capability: string, when: Option<Condition>, obligations: seq<string>)

  datatype Offer = Offer(name: string, purpose: Option<string>, entries: seq<Offered>)

  datatype Manifest = Manifest(agent: string, tools: seq<string>, delegations: seq<Offer>)

  // Blocks are pooled: their actors, grants and delegations one block after another.

  function ActorsIn(blocks: seq<Block>): seq<Actor> {
    if blocks == [] then [] else ActorsIn(blocks[..|blocks| - 1]) + blocks[|blocks| - 1].actors
  }

  function GrantsIn(blocks: seq<Block>): seq<Grant> {
    if blocks == [] then [] else GrantsIn(blocks[..|blocks| - 1]) + blocks[|blocks| - 1].grants
  }

  function DelegationsIn(blocks: seq<Block>): seq<Delegation> {
    if blocks == [] then [] else DelegationsIn(blocks[..|blocks| - 1]) + blocks[|blocks| - 1].delegations
  }

  predicate DistinctActors(actors: seq<Actor>) {
    forall i, j :: 0 <= i < j < |actors| ==> actors[i].name != actors[j].name
  }

  /** The parent the first so named actor that has one has. */
  function PooledParent(actors: seq<Actor>, name: string): Option<string> {
    if actors == [] then None
    else
      var last := actors[|actors| - 1];
      var before := PooledParent(actors[..|actors| - 1], name);
      if before.None? && last.name == name then last.parent else before
  }

  /** The i-th declaration is the first of its name to say something. */
  ghost predicate FirstToSay(actors: seq<Actor>, i: nat, says: Actor -> bool) {
    i < |actors| && says(actors[i]) && forall k :: 0 <= k < i && actors[k].name == actors[i].name ==> !says(actors[k])
  }

  lemma {:induction false} PooledParentIs(actors: seq<Actor>, name: string)
    ensures PooledParent(actors, name).None? <==> forall a :: a in actors && a.name == name ==> a.parent.None?
    ensures PooledParent(actors, name).Some? ==>
              exists i: nat :: FirstToSay(actors, i, (a: Actor) => a.parent.Some?) && actors[i].name == name && actors[i].parent == PooledParent(actors, name)
  {
    if actors != [] {
      var front, last := actors[..|actors| - 1], actors[|actors| - 1];
      assert actors == front + [last];
      PooledParentIs(front, name);
      if PooledParent(front, name).Some? {
        var i: nat :| FirstToSay(front, i, (a: Actor) => a.parent.Some?) && front[i].name == name && front[i].parent == PooledParent(front, name);
        assert FirstToSay(actors, i, (a: Actor) => a.parent.Some?);
      } else if PooledParent(actors, name).Some? {
        assert FirstToSay(actors, |front|, (a: Actor) => a.parent.Some?) by {
          assert forall k :: 0 <= k < |front| ==> actors[k] in front;
        }
      }
    }
  }

  function Pooled(actors: seq<Actor>): Parent {
    name => PooledParent(actors, name)
  }

  /** A permit entry on the capability, granted to the actor or an ancestor. */
  ghost predicate Tool(grants: seq<Grant>, lineage: seq<string>, capability: string) {
    exists g, e :: g in grants && g.actor in lineage && Usable(g, e, capability)
  }

  predicate Usable(g: Grant, e: Entry, capability: string) {
    e in g.entries && e.effect == Permit && e.cedar.None? && e.capability == capability
  }

  /** The usable permits of the first n entries, in order. */
  function EntryTools(g: Grant, n: nat): seq<string>
    requires n <= |g.entries|
  {
    if n == 0 then []
    else
      var e := g.entries[n - 1];
      EntryTools(g, n - 1) + if e.effect == Permit && e.cedar.None? then [e.capability] else []
  }

  /** Those of the first n grants that name a lineage member. */
  function MemberTools(grants: seq<Grant>, member: string, n: nat): seq<string>
    requires n <= |grants|
  {
    if n == 0 then []
    else
      var g := grants[n - 1];
      MemberTools(grants, member, n - 1) + if g.actor == member then EntryTools(g, |g.entries|) else []
  }

  /** Those of the first n lineage members. */
  function LineageTools(grants: seq<Grant>, lineage: seq<string>, n: nat): seq<string>
    requires n <= |lineage|
  {
    if n == 0 then [] else LineageTools(grants, lineage, n - 1) + MemberTools(grants, lineage[n - 1], |grants|)
  }

  // Where a tool comes from: the lineage member, the grant and the entry.
  datatype Spot = Spot(member: nat, grant: nat, entry: nat)

  ghost predicate SpotBefore(x: Spot, y: Spot) {
    x.member < y.member || (x.member == y.member && (x.grant < y.grant || (x.grant == y.grant && x.entry < y.entry)))
  }

  /** At this spot the tool is permitted: an entry of a grant to the lineage member. */
  ghost predicate Gives(grants: seq<Grant>, lineage: seq<string>, x: Spot, capability: string) {
    && x.member < |lineage| && x.grant < |grants| && grants[x.grant].actor == lineage[x.member] && x.entry < |grants[x.grant].entries|
    && var e := grants[x.grant].entries[x.entry]; e.effect == Permit && e.cedar.None? && e.capability == capability
  }

  /** The tools in the order of the lineage, then of the grants, then of the entries,
      each where it is first permitted. */
  ghost predicate FirstPermitted(grants: seq<Grant>, lineage: seq<string>, tools: seq<string>) {
    forall a, b :: 0 <= a < b < |tools| ==> FirstAt(grants, lineage, tools[a], tools[b])
  }

  /** Somewhere the one is permitted before anywhere the other is. */
  ghost predicate FirstAt(grants: seq<Grant>, lineage: seq<string>, tool: string, other: string) {
    exists x :: Gives(grants, lineage, x, tool) && forall y :: Gives(grants, lineage, y, other) ==> SpotBefore(x, y)
  }

  /** The spots of a list of tools: in order, and all there are where `sel` holds. */
  ghost predicate Spotted(grants: seq<Grant>, lineage: seq<string>, tools: seq<string>, spots: seq<Spot>, sel: Spot -> bool) {
    && |tools| == |spots|
    && (forall i, j :: 0 <= i < j < |spots| ==> SpotBefore(spots[i], spots[j]))
    && (forall i :: 0 <= i < |spots| ==> sel(spots[i]) && Gives(grants, lineage, spots[i], tools[i]))
    && (forall x, c :: sel(x) && Gives(grants, lineage, x, c) ==> x in spots)
  }

  lemma SpottedConcat(grants: seq<Grant>, lineage: seq<string>, tools1: seq<string>, spots1: seq<Spot>, sel1: Spot -> bool,
                      tools2: seq<string>, spots2: seq<Spot>, sel2: Spot -> bool, sel: Spot -> bool)
    requires Spotted(grants, lineage, tools1, spots1, sel1) && Spotted(grants, lineage, tools2, spots2, sel2)
    requires forall x :: sel(x) <==> sel1(x) || sel2(x)
    requires forall x, y :: sel1(x) && sel2(y) ==> SpotBefore(x, y)
    ensures Spotted(grants, lineage, tools1 + tools2, spots1 + spots2, sel)
  {
    hide Gives, SpotBefore;
    var spots := spots1 + spots2;
    forall i, j | 0 <= i < j < |spots| ensures SpotBefore(spots[i], spots[j]) {
      if i < |spots1| <= j {
        assert sel1(spots1[i]) && sel2(spots2[j - |spots1|]);
      }
    }
  }

  lemma SpottedNothing(grants: seq<Grant>, lineage: seq<string>, sel: Spot -> bool)
    requires forall x, c :: sel(x) ==> !Gives(grants, lineage, x, c)
    ensures Spotted(grants, lineage, [], [], sel)
  {}

  function Entries(m: nat, g: nat, n: nat): Spot -> bool {
    (x: Spot) => x.member == m && x.grant == g && x.entry < n
  }

  function EntryAt(m: nat, g: nat, n: nat): Spot -> bool {
    (x: Spot) => x == Spot(m, g, n)
  }

  function GrantsOf(m: nat, n: nat): Spot -> bool {
    (x: Spot) => x.member == m && x.grant < n
  }

  function Members(n: nat): Spot -> bool {
    (x: Spot) => x.member < n
  }

  lemma {:induction false} EntrySpots(grants: seq<Grant>, lineage: seq<string>, m: nat, g: nat, n: nat) returns (spots: seq<Spot>)
    requires m < |lineage| && g < |grants| && grants[g].actor == lineage[m] && n <= |grants[g].entries|
    ensures Spotted(grants, lineage, EntryTools(grants[g], n), spots, Entries(m, g, n))
  {
    if n == 0 {
      SpottedNothing(grants, lineage, Entries(m, g, 0));
      spots := [];
    } else {
      var before := EntrySpots(grants, lineage, m, g, n - 1);
      var e := grants[g].entries[n - 1];
      if e.effect == Permit && e.cedar.None? {
        assert Spotted(grants, lineage, [e.capability], [Spot(m, g, n - 1)], EntryAt(m, g, n - 1));
        spots := before + [Spot(m, g, n - 1)];
        SpottedConcat(grants, lineage, EntryTools(grants[g], n - 1), before, Entries(m, g, n - 1),
                      [e.capability], [Spot(m, g, n - 1)], EntryAt(m, g, n - 1), Entries(m, g, n));
      } else {
        SpottedNothing(grants, lineage, EntryAt(m, g, n - 1));
        spots := before + [];
        SpottedConcat(grants, lineage, EntryTools(grants[g], n - 1), before, Entries(m, g, n - 1),
                      [], [], EntryAt(m, g, n - 1), Entries(m, g, n));
      }
    }
  }

  lemma {:induction false} MemberSpots(grants: seq<Grant>, lineage: seq<string>, m: nat, n: nat) returns (spots: seq<Spot>)
    requires m < |lineage| && n <= |grants|
    ensures Spotted(grants, lineage, MemberTools(grants, lineage[m], n), spots, GrantsOf(m, n))
  {
    if n == 0 {
      SpottedNothing(grants, lineage, GrantsOf(m, 0));
      spots := [];
    } else {
      var before := MemberSpots(grants, lineage, m, n - 1);
      var g := grants[n - 1];
      var here, tools := [], [];
      var all := (x: Spot) => x.member == m && x.grant == n - 1;
      if g.actor == lineage[m] {
        here := EntrySpots(grants, lineage, m, n - 1, |g.entries|);
        tools := EntryTools(g, |g.entries|);
        assert Spotted(grants, lineage, tools, here, all);
      } else {
        SpottedNothing(grants, lineage, all);
      }
      spots := before + here;
      SpottedConcat(grants, lineage, MemberTools(grants, lineage[m], n - 1), before, GrantsOf(m, n - 1), tools, here, all, GrantsOf(m, n));
    }
  }

  lemma {:induction false} LineageSpots(grants: seq<Grant>, lineage: seq<string>, n: nat) returns (spots: seq<Spot>)
    requires n <= |lineage|
    ensures Spotted(grants, lineage, LineageTools(grants, lineage, n), spots, Members(n))
  {
    if n == 0 {
      SpottedNothing(grants, lineage, Members(0));
      spots := [];
    } else {
      var before := LineageSpots(grants, lineage, n - 1);
      var here := MemberSpots(grants, lineage, n - 1, |grants|);
      var all := (x: Spot) => x.member == n - 1;
      assert Spotted(grants, lineage, MemberTools(grants, lineage[n - 1], |grants|), here, all);
      spots := before + here;
      SpottedConcat(grants, lineage, LineageTools(grants, lineage, n - 1), before, Members(n - 1),
                    MemberTools(grants, lineage[n - 1], |grants|), here, all, Members(n));
    }
  }

  /** The effective tools come out in the order they are first permitted. */
  lemma ToolsInOrder(grants: seq<Grant>, lineage: seq<string>)
    ensures FirstPermitted(grants, lineage, Dedup(LineageTools(grants, lineage, |lineage|)))
  {
    var listed := LineageTools(grants, lineage, |lineage|);
    var tools := Dedup(listed);
    var spots := LineageSpots(grants, lineage, |lineage|);
    DedupKeepsFirst(listed);
    hide Gives, LineageTools, Dedup, Spotted, FirstAt;
    forall a, b | 0 <= a < b < |tools| ensures FirstAt(grants, lineage, tools[a], tools[b]) {
      var m: nat :| m < |listed| && listed[m] == tools[a] && tools[b] !in listed[..m];
      FirstSpot(grants, lineage, listed, spots, m, tools[b]);
    }
  }

  /** What has not been listed yet is permitted only later. */
  lemma FirstSpot(grants: seq<Grant>, lineage: seq<string>, listed: seq<string>, spots: seq<Spot>, m: nat, other: string)
    requires Spotted(grants, lineage, listed, spots, Members(|lineage|)) && m < |listed| && other !in listed[..m] && other != listed[m]
    ensures FirstAt(grants, lineage, listed[m], other)
  {
    hide SpotBefore;
    assert forall i :: 0 <= i < m ==> listed[i] == listed[..m][i];
    forall y | Gives(grants, lineage, y, other) ensures SpotBefore(spots[m], y) {
      assert Members(|lineage|)(y) && y in spots;
      var q :| 0 <= q < |spots| && spots[q] == y;
      OneToolPerSpot(grants, lineage, y, listed[q], other);
    }
  }

  lemma OneToolPerSpot(grants: seq<Grant>, lineage: seq<string>, x: Spot, c: string, c': string)
    requires Gives(grants, lineage, x, c) && Gives(grants, lineage, x, c')
    ensures c == c'
  {}

  /** Lineage members nearest first, grants and entries in order, each tool at its
      first appearance. */
  method EffectiveTools(grants: seq<Grant>, lineage: seq<string>) returns (tools: seq<string>)
    ensures tools == Dedup(LineageTools(grants, lineage, |lineage|))
    ensures NoDup(tools) && forall c :: c in tools <==> Tool(grants, lineage, c)
    ensures FirstPermitted(grants, lineage, tools)
  {
    ToolsInOrder(grants, lineage);
    hide FirstPermitted;
    tools := [];
    for i := 0 to |lineage|
      invariant tools == Dedup(LineageTools(grants, lineage, i))
    {
      tools := AddMemberTools(grants, lineage[i], tools, LineageTools(grants, lineage, i));
    }
    ToolsOf(grants, lineage, |lineage|);
    assert lineage[..|lineage|] == lineage;
  }

  method AddMemberTools(grants: seq<Grant>, member: string, before: seq<string>, ghost listed: seq<string>) returns (tools: seq<string>)
    requires before == Dedup(listed)
    ensures tools == Dedup(listed + MemberTools(grants, member, |grants|))
  {
    hide Dedup, EntryTools;
    tools := before;
    assert listed + [] == listed;
    for j := 0 to |grants|
      invariant tools == Dedup(listed + MemberTools(grants, member, j))
    {
      ghost var now := MemberTools(grants, member, j);
      if grants[j].actor == member {
        tools := AddTools(grants[j], tools, listed + now);
        assert listed + now + EntryTools(grants[j], |grants[j].entries|) == listed + MemberTools(grants, member, j + 1);
      } else {
        assert MemberTools(grants, member, j + 1) == now + [] == now;
      }
    }
  }

  method AddTools(g: Grant, before: seq<string>, ghost listed: seq<string>) returns (tools: seq<string>)
    requires before == Dedup(listed)
    ensures tools == Dedup(listed + EntryTools(g, |g.entries|))
  {
    hide Dedup;
    tools := before;
    assert listed + [] == listed;
    for j := 0 to |g.entries|
      invariant tools == Dedup(listed + EntryTools(g, j))
    {
      ghost var now := EntryTools(g, j);
      var e := g.entries[j];
      if e.effect == Permit && e.cedar.None? {
        assert listed + EntryTools(g, j + 1) == listed + now + [e.capability];
        DedupNext(listed + now, e.capability);
        if e.capability !in tools {
          tools := tools + [e.capability];
        }
      } else {
        assert EntryTools(g, j + 1) == now + [] == now;
      }
    }
  }

  lemma {:induction false} EntryToolsOf(g: Grant, n: nat)
    requires n <= |g.entries|
    ensures forall c :: c in EntryTools(g, n) <==> exists k :: 0 <= k < n && Usable(g, g.entries[k], c)
  {
    if n > 0 {
      EntryToolsOf(g, n - 1);
    }
  }

  lemma {:induction false} MemberToolsOf(grants: seq<Grant>, member: string, n: nat)
    requires n <= |grants|
    ensures forall c :: c in MemberTools(grants, member, n) <==> exists k :: 0 <= k < n && grants[k].actor == member && GrantTool(grants[k], c)
  {
    if n > 0 {
      MemberToolsOf(grants, member, n - 1);
      var g := grants[n - 1];
      EntryToolsOf(g, |g.entries|);
      forall c ensures c in EntryTools(g, |g.entries|) <==> GrantTool(g, c) {
        if GrantTool(g, c) {
          var e :| Usable(g, e, c);
          var k :| 0 <= k < |g.entries| && g.entries[k] == e;
          assert Usable(g, g.entries[k], c);
        }
      }
      hide GrantTool;
    }
  }

  lemma {:induction false} ToolsOf(grants: seq<Grant>, lineage: seq<string>, n: nat)
    requires n <= |lineage|
    ensures forall c :: c in LineageTools(grants, lineage, n) <==> Tool(grants, lineage[..n], c)
  {
    if n > 0 {
      ToolsOf(grants, lineage, n - 1);
      MemberToolsOf(grants, lineage[n - 1], |grants|);
      forall c ensures c in LineageTools(grants, lineage, n) <==> Tool(grants, lineage[..n], c) {
        ToolStep(grants, lineage, n - 1, c);
      }
    }
  }

  ghost predicate GrantTool(g: Grant, capability: string) {
    exists e :: Usable(g, e, capability)
  }

  lemma ToolStep(grants: seq<Grant>, lineage: seq<string>, i: nat, c: string)
    requires i < |lineage|
    ensures Tool(grants, lineage[..i + 1], c) <==>
              Tool(grants, lineage[..i], c) || (exists k :: 0 <= k < |grants| && grants[k].actor == lineage[i] && GrantTool(grants[k], c))
  {
    if Tool(grants, lineage[..i + 1], c) {
      var g, e :| g in grants && g.actor in lineage[..i + 1] && Usable(g, e, c);
      if g.actor !in lineage[..i] {
        var k :| 0 <= k < |grants| && grants[k] == g;
        assert GrantTool(grants[k], c);
      }
    }
    if k :| 0 <= k < |grants| && grants[k].actor == lineage[i] && GrantTool(grants[k], c) {
      var e :| Usable(grants[k], e, c);
      assert lineage[..i + 1][i] == lineage[i];
      assert grants[k] in grants && grants[k].actor in lineage[..i + 1];
    }
  }

  /** The kind the first so named actor that declares one declares. */
  function KindOf(actors: seq<Actor>, name: string): Option<Kind> {
    if actors == [] then None
    else
      var last := actors[|actors| - 1];
      var before := KindOf(actors[..|actors| - 1], name);
      if before.None? && last.name == name then last.kind else before
  }

  lemma {:induction false} KindIs(actors: seq<Actor>, name: string)
    ensures KindOf(actors, name).None? <==> forall a :: a in actors && a.name == name ==> a.kind.None?
    ensures KindOf(actors, name).Some? ==>
              exists i: nat :: FirstToSay(actors, i, (a: Actor) => a.kind.Some?) && actors[i].name == name && actors[i].kind == KindOf(actors, name)
  {
    if actors != [] {
      var front, last := actors[..|actors| - 1], actors[|actors| - 1];
      assert actors == front + [last];
      KindIs(front, name);
      if KindOf(front, name).Some? {
        var i: nat :| FirstToSay(front, i, (a: Actor) => a.kind.Some?) && front[i].name == name && front[i].kind == KindOf(front, name);
        assert FirstToSay(actors, i, (a: Actor) => a.kind.Some?);
      } else if KindOf(actors, name).Some? {
        assert FirstToSay(actors, |front|, (a: Actor) => a.kind.Some?) by {
          assert forall k :: 0 <= k < |front| ==> actors[k] in front;
        }
      }
    }
  }

  /** The parents and kinds recorded for the actors: of each name the first that is
      declared. */
  method Record(actors: seq<Actor>) returns (parents: map<string, string>, kinds: map<string, Kind>)
    ensures forall n :: Recorded(parents)(n) == PooledParent(actors, n)
    ensures forall n :: (if n in kinds then Some(kinds[n]) else None) == KindOf(actors, n)
  {
    parents, kinds := map[], map[];
    for i := 0 to |actors|
      invariant forall n :: Recorded(parents)(n) == PooledParent(actors[..i], n)
      invariant forall n :: (if n in kinds then Some(kinds[n]) else None) == KindOf(actors[..i], n)
    {
      assert actors[..i + 1] == actors[..i] + [actors[i]] && actors[..i + 1][..i] == actors[..i];
      var a := actors[i];
      if a.parent.Some? && a.name !in parents {
        parents := parents[a.name := a.parent.value];
      }
      if a.kind.Some? && a.name !in kinds {
        kinds := kinds[a.name := a.kind.value];
      }
    }
    assert actors[..|actors|] == actors;
  }

  /** The k-th of the lineage is the nearest to declare a kind. */
  ghost predicate NearestKind(actors: seq<Actor>, lineage: seq<string>, k: nat, kind: Kind) {
    k < |lineage| && KindOf(actors, lineage[k]) == Some(kind) && forall j :: 0 <= j < k ==> KindOf(actors, lineage[j]).None?
  }

  /** The nearest declared kind up the lineage is agent. */
  ghost predicate IsAgent(actors: seq<Actor>, actor: string) {
    exists lineage: seq<string>, k: nat :: IsLineage(Pooled(actors), actor, lineage) && NearestKind(actors, lineage, k, Agent)
  }

  method LineageKind(actor: string, kinds: map<string, Kind>, parents: map<string, string>, ghost actors: seq<Actor>) returns (kind: Kind)
    requires forall n :: Recorded(parents)(n) == PooledParent(actors, n)
    requires forall n :: (if n in kinds then Some(kinds[n]) else None) == KindOf(actors, n)
    ensures kind == Agent <==> IsAgent(actors, actor)
  {
    var lineage := LineageWalk(parents, actor);
    hide Inherits, KindOf;
    kind := Human;
    ghost var first: nat := |lineage|;
    for i := 0 to |lineage|
      invariant forall k :: 0 <= k < i ==> lineage[k] !in kinds
    {
      if lineage[i] in kinds {
        kind, first := kinds[lineage[i]], i;
        break;
      }
    }
    LineageDecides(actors, parents, actor, lineage, first, kind);
  }

  lemma LineageDecides(actors: seq<Actor>, parents: map<string, string>, actor: string, lineage: seq<string>, first: nat, kind: Kind)
    requires forall n :: Recorded(parents)(n) == PooledParent(actors, n)
    requires IsLineage(Recorded(parents), actor, lineage)
    requires forall j :: 0 <= j < first && j < |lineage| ==> KindOf(actors, lineage[j]).None?
    requires if first < |lineage| then KindOf(actors, lineage[first]) == Some(kind) else kind == Human
    ensures kind == Agent <==> IsAgent(actors, actor)
  {
    hide KindOf;
    var up := Pooled(actors);
    assert IsLineage(up, actor, lineage) by {
      assert Chain(Recorded(parents), lineage) ==> Chain(up, lineage);
    }
    if kind == Agent {
      assert NearestKind(actors, lineage, first, Agent);
    }
    if IsAgent(actors, actor) {
      var other: seq<string>, k: nat :| IsLineage(up, actor, other) && NearestKind(actors, other, k, Agent);
      forall j | 0 <= j <= k ensures j < |lineage| && other[j] == lineage[j] {
        LineagesAgree(up, actor, other, lineage, j);
      }
    }
  }

  ghost function Agents(actors: seq<Actor>): string -> bool {
    (name: string) => IsAgent(actors, name)
  }

  function AgentsOf(manifests: seq<Manifest>): (names: seq<string>)
    ensures |names| == |manifests| && forall i :: 0 <= i < |names| ==> names[i] == manifests[i].agent
  {
    seq(|manifests|, i requires 0 <= i < |manifests| => manifests[i].agent)
  }

  /** The tools in the order of the agent's lineage, then of the grants. */
  ghost predicate InGrantOrder(blocks: seq<Block>, m: Manifest) {
    exists lineage: seq<string> ::
      && IsLineage(Pooled(ActorsIn(blocks)), m.agent, lineage)
      && FirstPermitted(GrantsIn(blocks), lineage, m.tools)
  }

  /** What a manifest lists: each capability a permit reaches the agent on, once, in
      that order; and of each delegation to the agent itself its permits. */
  ghost predicate ListsItsAuthority(blocks: seq<Block>, m: Manifest) {
    && NoDup(m.tools) && InGrantOrder(blocks, m) && (forall c :: c in m.tools <==> Permitted(blocks, m.agent, c))
    && DelegationsListed(DelegationsIn(blocks), m.agent, m.delegations)
  }

  /** A permit entry on the capability reaches the actor by inheritance. */
  ghost predicate Permitted(blocks: seq<Block>, actor: string, capability: string) {
    exists g, e :: g in GrantsIn(blocks) && Usable(g, e, capability) && Inherits(Pooled(ActorsIn(blocks)), actor, g.actor)
  }

  function OfferedOf(entries: seq<Entry>): seq<Offered> {
    if entries == [] then []
    else
      var last := entries[|entries| - 1];
      OfferedOf(entries[..|entries| - 1]) + if last.effect == Permit then [Offered(last.capability, last.when, last.obligations)] else []
  }

  function Offers(delegations: seq<Delegation>, agent: string): seq<Offer> {
    if delegations == [] then []
    else
      var last := delegations[|delegations| - 1];
      Offers(delegations[..|delegations| - 1], agent) + if last.to == agent then [Offer(last.name, last.purpose, OfferedOf(last.entries))] else []
  }

  /** An offer carries a delegation's name and purpose, and its permits with their
      conditions and obligations, in order. */
  ghost predicate IsOfferOf(offer: Offer, d: Delegation) {
    var permits := Selected(d.entries, (e: Entry) => e.effect == Permit);
    && offer.name == d.name && offer.purpose == d.purpose && |offer.entries| == |permits|
    && forall i :: 0 <= i < |permits| ==>
         offer.entries[i].capability == permits[i].capability && offer.entries[i].when == permits[i].when
         && offer.entries[i].obligations == permits[i].obligations
  }

  /** One offer for each delegation to the agent, in order. */
  ghost predicate DelegationsListed(delegations: seq<Delegation>, agent: string, offers: seq<Offer>) {
    var mine := Selected(delegations, (d: Delegation) => d.to == agent);
    |offers| == |mine| && forall i :: 0 <= i < |mine| ==> IsOfferOf(offers[i], mine[i])
  }

  lemma {:induction false} OfferedArePermits(entries: seq<Entry>)
    ensures var permits, offered := Selected(entries, (e: Entry) => e.effect == Permit), OfferedOf(entries);
            && |offered| == |permits|
            && forall i :: 0 <= i < |permits| ==>
                 offered[i].capability == permits[i].capability && offered[i].when == permits[i].when
                 && offered[i].obligations == permits[i].obligations
  {
    if entries != [] {
      OfferedArePermits(entries[..|entries| - 1]);
    }
  }

  lemma {:induction false} OffersAreListed(delegations: seq<Delegation>, agent: string)
    ensures DelegationsListed(delegations, agent, Offers(delegations, agent))
  {
    if delegations != [] {
      OffersAreListed(delegations[..|delegations| - 1], agent);
      OfferedArePermits(delegations[|delegations| - 1].entries);
    }
  }

  method AgentDelegations(delegations: seq<Delegation>, agent: string) returns (out: seq<Offer>)
    ensures DelegationsListed(delegations, agent, out)
  {
    OffersAreListed(delegations, agent);
    out := [];
    for i := 0 to |delegations|
      invariant out == Offers(delegations[..i], agent)
    {
      assert delegations[..i + 1][..i] == delegations[..i];
      var d := delegations[i];
      if d.to == agent {
        var offered: seq<Offered> := [];
        for j := 0 to |d.entries|
          invariant offered == OfferedOf(d.entries[..j])
        {
          assert d.entries[..j + 1][..j] == d.entries[..j];
          var e := d.entries[j];
          if e.effect == Permit {
            offered := offered + [Offered(e.capability, e.when, e.obligations)];
          }
        }
        assert d.entries[..|d.entries|] == d.entries;
        out := out + [Offer(d.name, d.purpose, offered)];
      }
    }
    assert delegations[..|delegations|] == delegations;
  }

  /** One manifest per agent, in the order the names are first declared, whatever
      blocks declare them. */
  method AgentManifests(blocks: seq<Block>) returns (out: seq<Manifest>)
    ensures AgentsOf(out) == Selected(Dedup(ActorNames(ActorsIn(blocks))), Agents(ActorsIn(blocks)))
    ensures forall m :: m in out ==> ListsItsAuthority(blocks, m)
  {
    hide IsAgent, ListsItsAuthority, KindOf, PooledParent, ActorsIn, Dedup;
    var actors := ActorsIn(blocks);
    var parents, kinds := Record(actors);
    var names := Dedup(ActorNames(actors));
    ghost var keep := Agents(actors);
    out := [];
    for i := 0 to |names|
      invariant AgentsOf(out) == Selected(names[..i], keep)
      invariant forall m :: m in out ==> ListsItsAuthority(blocks, m)
    {
      SelectedNext(names, i, keep);
      var kind := LineageKind(names[i], kinds, parents, actors);
      if kind == Agent {
        var manifest := ManifestOf(blocks, parents, names[i]);
        out := out + [manifest];
      }
    }
    assert names[..|names|] == names;
  }

  method ManifestOf(blocks: seq<Block>, parents: map<string, string>, name: string) returns (m: Manifest)
    requires forall n :: Recorded(parents)(n) == PooledParent(ActorsIn(blocks), n)
    ensures m.agent == name && ListsItsAuthority(blocks, m)
  {
    hide Inherits, PooledParent, IsLineage, NoDup, Permitted, InGrantOrder, ActorsIn, GrantsIn, DelegationsIn, Offers, FirstPermitted, DelegationsListed;
    var lineage := LineageWalk(parents, name);
    var tools := EffectiveTools(GrantsIn(blocks), lineage);
    var delegations := AgentDelegations(DelegationsIn(blocks), name);
    m := Manifest(name, tools, delegations);
    SameParents(Recorded(parents), Pooled(ActorsIn(blocks)));
    ToolsArePermitted(blocks, name, lineage);
    LineageOrder(blocks, parents, m, lineage);
  }

  lemma LineageOrder(blocks: seq<Block>, parents: map<string, string>, m: Manifest, lineage: seq<string>)
    requires forall n :: Recorded(parents)(n) == PooledParent(ActorsIn(blocks), n)
    requires IsLineage(Recorded(parents), m.agent, lineage) && FirstPermitted(GrantsIn(blocks), lineage, m.tools)
    ensures InGrantOrder(blocks, m)
  {
    hide FirstPermitted, PooledParent, ActorsIn, GrantsIn;
    assert IsLineage(Pooled(ActorsIn(blocks)), m.agent, lineage) by {
      assert Chain(Recorded(parents), lineage) ==> Chain(Pooled(ActorsIn(blocks)), lineage);
    }
  }

  lemma ToolsArePermitted(blocks: seq<Block>, actor: string, lineage: seq<string>)
    requires forall n :: n in lineage <==> Inherits(Pooled(ActorsIn(blocks)), actor, n)
    ensures forall c :: Tool(GrantsIn(blocks), lineage, c) <==> Permitted(blocks, actor, c)
  {
    hide Inherits, ActorsIn, GrantsIn;
  }

  // ----- manifests against policies -----

  lemma {:induction false} GrantsOfBlocks(blocks: seq<Block>)
    ensures forall g :: g in GrantsIn(blocks) <==> exists b :: b in blocks && g in b.grants
  {
    if blocks != [] {
      var front, last := blocks[..|blocks| - 1], blocks[|blocks| - 1];
      GrantsOfBlocks(front);
      assert blocks == front + [last];
    }
  }

  /** Every block that grants something declares all actors, with the parents they have
      in the pool. */
  ghost predicate Coherent(blocks: seq<Block>) {
    forall b :: b in blocks && b.grants != [] ==>
      forall n :: ParentOf(b.actors, n) == PooledParent(ActorsIn(blocks), n)
                  && ((exists a :: a in ActorsIn(blocks) && a.name == n) ==> IsActor(b, n))
  }

  /** A policy of the block permits the actor the capability. */
  ghost predicate Permits(b: Block, policies: seq<Policy>, actor: string, capability: string) {
    exists p :: p in policies && p.Rule? && p.effect == Permit && p.principal == actor && p.action == capability
  }

  /** The policy sets of the blocks. */
  ghost predicate PolicySets(blocks: seq<Block>, sets: seq<seq<Policy>>) {
    && |sets| == |blocks|
    && (forall i, p :: 0 <= i < |blocks| ==> (p in sets[i] <==> Derived(blocks[i], p)))
    && forall b, actor, e :: b in blocks && IsEntry(b, actor, e) && e.cedar.None? ==> ClassOf(b.capabilities, e.capability).Some?
  }

  /** The two projections agree where the blocks do: an agent's manifest lists exactly
      the capabilities on which some block generates a permit for it. */
  lemma ManifestMatchesPolicies(blocks: seq<Block>, sets: seq<seq<Policy>>, agent: string, capability: string)
    requires PolicySets(blocks, sets) && Coherent(blocks) && (exists a :: a in ActorsIn(blocks) && a.name == agent)
    ensures Permitted(blocks, agent, capability) <==>
              exists i :: 0 <= i < |sets| && i < |blocks| && Permits(blocks[i], sets[i], agent, capability)
  {
    hide Inherits, Derived, ActorsIn, GrantsIn, Usable, Permits, PolicySets, Coherent;
    GrantsOfBlocks(blocks);
    if Permitted(blocks, agent, capability) {
      var g, e :| g in GrantsIn(blocks) && Usable(g, e, capability) && Inherits(Pooled(ActorsIn(blocks)), agent, g.actor);
      var b :| b in blocks && g in b.grants;
      var i :| 0 <= i < |blocks| && blocks[i] == b;
      SetOf(blocks, sets, i, g, e, capability);
      LikeThePool(blocks, i, agent);
      PermitDerived(b, sets[i], g, e, agent, capability);
    }
    if i :| 0 <= i < |sets| && i < |blocks| && Permits(blocks[i], sets[i], agent, capability) {
      SetsMatch(blocks, sets, i);
      var g, e := PermitGranted(blocks[i], sets[i], agent, capability);
      LikeThePool(blocks, i, agent);
      assert blocks[i] in blocks;
    }
  }

  lemma SetsMatch(blocks: seq<Block>, sets: seq<seq<Policy>>, i: nat)
    requires PolicySets(blocks, sets) && i < |blocks|
    ensures |sets| == |blocks| && forall p :: p in sets[i] <==> Derived(blocks[i], p)
  {
    hide Derived;
  }

  lemma SetOf(blocks: seq<Block>, sets: seq<seq<Policy>>, i: nat, g: Grant, e: Entry, capability: string)
    requires PolicySets(blocks, sets) && i < |blocks| && g in blocks[i].grants && Usable(g, e, capability)
    ensures |sets| == |blocks| && (forall p :: p in sets[i] <==> Derived(blocks[i], p))
    ensures ClassOf(blocks[i].capabilities, capability).Some?
  {
    hide Derived, ClassOf;
    assert blocks[i] in blocks && IsEntry(blocks[i], g.actor, e);
  }

  lemma LikeThePool(blocks: seq<Block>, i: nat, agent: string)
    requires Coherent(blocks) && i < |blocks| && blocks[i].grants != []
    ensures forall ancestor :: Inherits(Declared(blocks[i].actors), agent, ancestor) <==> Inherits(Pooled(ActorsIn(blocks)), agent, ancestor)
    ensures (exists a :: a in ActorsIn(blocks) && a.name == agent) ==> IsActor(blocks[i], agent)
  {
    hide Inherits, ActorsIn, ParentOf, PooledParent, IsActor;
    assert blocks[i] in blocks;
    SameParents(Declared(blocks[i].actors), Pooled(ActorsIn(blocks)));
  }

  lemma PermitDerived(b: Block, policies: seq<Policy>, g: Grant, e: Entry, agent: string, capability: string)
    requires g in b.grants && Usable(g, e, capability) && Inherits(Declared(b.actors), agent, g.actor) && IsActor(b, agent)
    requires forall p :: p in policies <==> Derived(b, p)
    requires ClassOf(b.capabilities, capability).Some?
    ensures Permits(b, policies, agent, capability)
  {
    hide Inherits;
    var a :| a in b.actors && a.name == agent;
    var p := RuleFor(e, a.name, ClassOf(b.capabilities, e.capability).value);
    assert IsEntry(b, g.actor, e);
    assert GivesRule(b, g.actor, e, a, p);
    assert FromEntry(b, g.actor, e, p) && Derived(b, p);
  }

  lemma PermitGranted(b: Block, policies: seq<Policy>, agent: string, capability: string) returns (g: Grant, e: Entry)
    requires forall p :: p in policies <==> Derived(b, p)
    requires Permits(b, policies, agent, capability)
    ensures g in b.grants && Usable(g, e, capability) && Inherits(Declared(b.actors), agent, g.actor)
  {
    hide Inherits;
    var p :| p in policies && p.Rule? && p.effect == Permit && p.principal == agent && p.action == capability;
    var granted: string;
    granted, e :| IsEntry(b, granted, e) && FromEntry(b, granted, e, p);
    g :| g in b.grants && g.actor == granted && e in g.entries;
  }

  /** One block that declares each name once agrees with itself. */
  lemma {:induction false} OneBlockIsCoherent(b: Block)
    requires DistinctActors(b.actors)
    ensures Coherent([b])
  {
    assert ActorsIn([b]) == ActorsIn([]) + b.actors == b.actors by { assert [b][..0] == []; }
    forall n ensures ParentOf(b.actors, n) == PooledParent(b.actors, n) {
      FirstIsOnly(b.actors, n);
    }
  }

  lemma {:induction false} FirstIsOnly(actors: seq<Actor>, name: string)
    requires DistinctActors(actors)
    ensures ParentOf(actors, name) == PooledParent(actors, name)
  {
    if actors != [] {
      var front, last := actors[..|actors| - 1], actors[|actors| - 1];
      FirstIsOnly(front, name);
      assert actors == front + [last];
      ParentAppended(front, last);
      NoParent(front, last.name);
    }
  }

  lemma {:induction false} ParentAppended(actors: seq<Actor>, a: Actor)
    requires forall k :: 0 <= k < |actors| ==> actors[k].name != a.name
    ensures forall n :: ParentOf(actors + [a], n) == if n == a.name then a.parent else ParentOf(actors, n)
  {
    if actors != [] {
      assert (actors + [a])[1..] == actors[1..] + [a];
      ParentAppended(actors[1..], a);
    } else {
      assert (actors + [a])[1..] == [];
    }
  }

  lemma {:induction false} NoParent(actors: seq<Actor>, name: string)
    requires forall k :: 0 <= k < |actors| ==> actors[k].name != name
    ensures ParentOf(actors, name).None?
  {
    if actors != [] {
      NoParent(actors[1..], name);
    }
  }

  /** Blocks that do not agree: `child` extends `parent` in the first, the second grants
      `parent` a capability and knows nothing of `child`. The manifest lists the tool,
      no policy permits it. */
  lemma ToolWithoutPolicy(parent: string, child: string, capability: string, cls: string, sets: seq<seq<Policy>>)
    requires parent != child
    ensures var e := Entry(Permit, capability, None, [], None);
            var one := Block([Actor(parent, None, None), Actor(child, Some(parent), Some(Agent))], [], [], []);
            var two := Block([Actor(parent, None, None)], [Capability(capability, cls)], [Grant(parent, [e])], []);
            PolicySets([one, two], sets) ==>
              Permitted([one, two], child, capability)
              && forall i :: 0 <= i < 2 ==> !Permits([one, two][i], sets[i], child, capability)
  {
    var e := Entry(Permit, capability, None, [], None);
    var one := Block([Actor(parent, None, None), Actor(child, Some(parent), Some(Agent))], [], [], []);
    var two := Block([Actor(parent, None, None)], [Capability(capability, cls)], [Grant(parent, [e])], []);
    var blocks := [one, two];
    if PolicySets(blocks, sets) {
      GrantsOfBlocks(blocks);
      PooledChild(parent, child, one, two);
      InheritsItself(Pooled(ActorsIn(blocks)), child);
      InheritsNext(Pooled(ActorsIn(blocks)), child, child, parent);
      hide Inherits, PooledParent, ActorsIn;
      assert blocks[1] == two && Usable(two.grants[0], e, capability);
      assert !IsActor(two, child);
      NoPermit(one, sets[0], child, capability);
      NoPermit(two, sets[1], child, capability);
    }
  }

  lemma PooledChild(parent: string, child: string, one: Block, two: Block)
    requires parent != child
    requires one.actors == [Actor(parent, None, None), Actor(child, Some(parent), Some(Agent))] && two.actors == [Actor(parent, None, None)]
    ensures PooledParent(ActorsIn([one, two]), child) == Some(parent)
  {
    var a, b := Actor(parent, None, None), Actor(child, Some(parent), Some(Agent));
    assert [one, two][..1] == [one] && [one][..0] == [];
    assert ActorsIn([one]) == ActorsIn([]) + one.actors == [a, b];
    assert ActorsIn([one, two]) == [a, b, a];
    assert [a, b, a][..2] == [a, b] && [a, b][..1] == [a] && [a][..0] == [];
    assert PooledParent([a], child) == None;
    assert PooledParent([a, b], child) == Some(parent);
  }

  /** A block that grants nothing, or does not declare the actor, permits it nothing. */
  lemma NoPermit(b: Block, policies: seq<Policy>, actor: string, capability: string)
    requires b.grants == [] || !IsActor(b, actor)
    requires forall p :: p in policies <==> Derived(b, p)
    ensures !Permits(b, policies, actor, capability)
  {
    hide Inherits;
  }
}

/** Case plans: the declared tree of plan items, its flat form in the artifact, and the
    rules checked on the way. */
module CasePlans {
  import opened Common

  // ----- the declared tree -----

  /** What a criterion watches, as written: `item.word`, or a bare event name. */
  datatype Part = Dotted(source: string, word: string) | Bare(event: string)

  /** A `when` condition: its text, whether it parses and types as boolean, and the FEEL
      it translates to, if it is in the subset. */
  datatype When = When(text: string, boolean: bool, feel: Option<string>)

  datatype Trigger = Trigger(parts: seq<Part>, when: Option<When>)

  datatype Operation = Operation(alias: string, service: string, operation: string)

  datatype Kind = Task | Service | Milestone | Stage(items: seq<Item>)

  /** An item with all its clauses, wherever they were written; `manual` marks
      discretionary work. */
  datatype Item = Item(name: string, kind: Kind, manual: bool, performer: Option<string>, execute: Option<Operation>,
                       required: bool, auto: bool, repeats: bool, entry: seq<Trigger>, exit: seq<Trigger>)

  // ----- the artifact -----

  datatype ItemEvent = Create | Enable | Start | Complete | Terminate | Fail | Occur

  datatype FileEvent = FileCreate | FileUpdate | FileDelete | FileAddChild | FileRemoveChild

  datatype OnPart = OnItem(source: string, event: ItemEvent) | OnFile(source: string, transition: FileEvent) | OnEvent(name: string)

  datatype Criterion = Criterion(parts: seq<OnPart>, when: Option<When>)

  datatype FlatKind = FlatTask(performer: Option<string>) | FlatService(execute: string) | FlatMilestone | FlatStage(children: seq<string>)

  /** Control rules, when any is set; nothing said of manual activation leaves it on. */
  datatype Control = Control(required: bool, manualActivation: Option<bool>, repetition: bool)

  datatype PlanItem = PlanItem(name: string, kind: FlatKind, manual: bool, control: Option<Control>, entry: seq<Criterion>, exit: seq<Criterion>)

  datatype DesignService = DesignService(name: string, operations: seq<string>)

  /** An imported design under its alias, the services of all its modules in order. */
  datatype Design = Design(alias: string, services: seq<DesignService>)

  /** Names an item may use: case-file items, plan items, the events exactly one
      imported contract declares, roles, and aliased designs. */
  datatype Names = Names(files: seq<string>, items: seq<string>, events: set<string>, roles: seq<string>, designs: seq<Design>)

  /** How a plan item's events are written. */
  function ItemWord(e: ItemEvent): string {
    match e
    case Create => "create"
    case Enable => "enable"
    case Start => "start"
    case Complete => "complete"
    case Terminate => "terminate"
    case Fail => "fail"
    case Occur => "occur"
  }

  /** How a case-file item's transitions are written. */
  function FileWord(e: FileEvent): string {
    match e
    case FileCreate => "create"
    case FileUpdate => "update"
    case FileDelete => "delete"
    case FileAddChild => "addChild"
    case FileRemoveChild => "removeChild"
  }

  function ItemEventOf(word: string): (e: Option<ItemEvent>)
    ensures e.Some? ==> ItemWord(e.value) == word
    ensures e.None? ==> forall known: ItemEvent :: ItemWord(known) != word
  {
    if word == "create" then Some(Create)
    else if word == "enable" then Some(Enable)
    else if word == "start" then Some(Start)
    else if word == "complete" then Some(Complete)
    else if word == "terminate" then Some(Terminate)
    else if word == "fail" then Some(Fail)
    else if word == "occur" then Some(Occur)
    else None
  }

  function FileEventOf(word: string): (e: Option<FileEvent>)
    ensures e.Some? ==> FileWord(e.value) == word
    ensures e.None? ==> forall known: FileEvent :: FileWord(known) != word
  {
    if word == "create" then Some(FileCreate)
    else if word == "update" then Some(FileUpdate)
    else if word == "delete" then Some(FileDelete)
    else if word == "addChild" then Some(FileAddChild)
    else if word == "removeChild" then Some(FileRemoveChild)
    else None
  }

  function LowerPart(names: Names, p: Part): Option<OnPart> {
    match p
    case Dotted(source, word) =>
      if source in names.files then
        (match FileEventOf(word) case Some(e) => Some(OnFile(source, e)) case None => None)
      else if source in names.items then
        (match ItemEventOf(word) case Some(e) => Some(OnItem(source, e)) case None => None)
      else None
    case Bare(event) => if event in names.events then Some(OnEvent(event)) else None
  }

  /** What a part as written says: a transition of a case-file item, else an event of
      a plan item, else an event of a contract. */
  ghost predicate Says(names: Names, written: Part, part: OnPart) {
    match part
    case OnFile(source, e) => written == Dotted(source, FileWord(e)) && source in names.files
    case OnItem(source, e) => written == Dotted(source, ItemWord(e)) && source in names.items && source !in names.files
    case OnEvent(event) => written == Bare(event) && event in names.events
  }

  /** A part resolves exactly to what it says. */
  lemma PartSays(names: Names, written: Part, part: OnPart)
    ensures LowerPart(names, written) == Some(part) <==> Says(names, written, part)
  {
    match part
    case OnFile(source, e) => FileWordsDiffer(e);
    case OnItem(source, e) => ItemWordsDiffer(e);
    case OnEvent(event) =>
  }

  lemma ItemWordsDiffer(e: ItemEvent)
    ensures ItemEventOf(ItemWord(e)) == Some(e)
  {}

  lemma FileWordsDiffer(e: FileEvent)
    ensures FileEventOf(FileWord(e)) == Some(e)
  {}

  /** The parts that resolve, in order. */
  function LowerParts(names: Names, parts: seq<Part>): seq<OnPart> {
    if parts == [] then []
    else
      var front := LowerParts(names, parts[..|parts| - 1]);
      match LowerPart(names, parts[|parts| - 1])
      case Some(part) => front + [part]
      case None => front
  }

  function LowerCriterion(names: Names, t: Trigger): Criterion {
    Criterion(LowerParts(names, t.parts), t.when)
  }

  /** The criterion watches exactly what is written, part by part, under the condition
      written. */
  ghost predicate CriterionSays(names: Names, t: Trigger, c: Criterion) {
    && |c.parts| == |t.parts| && (forall j :: 0 <= j < |t.parts| ==> Says(names, t.parts[j], c.parts[j]))
    && c.when == t.when
  }

  lemma {:induction false} PartsSay(names: Names, parts: seq<Part>)
    requires forall p :: p in parts ==> LowerPart(names, p).Some?
    ensures |LowerParts(names, parts)| == |parts|
    ensures forall j :: 0 <= j < |parts| ==> Says(names, parts[j], LowerParts(names, parts)[j])
  {
    hide LowerPart, Says;
    if parts != [] {
      var front, last := parts[..|parts| - 1], parts[|parts| - 1];
      assert last in parts && forall p :: p in front ==> p in parts;
      PartsSay(names, front);
      PartSays(names, last, LowerPart(names, last).value);
      assert forall j :: 0 <= j < |front| ==> parts[j] == front[j];
    }
  }

  function LowerCriteria(names: Names, criteria: seq<Trigger>): (out: seq<Criterion>)
    ensures |out| == |criteria| && forall i :: 0 <= i < |out| ==> out[i] == LowerCriterion(names, criteria[i])
  {
    seq(|criteria|, i requires 0 <= i < |criteria| => LowerCriterion(names, criteria[i]))
  }

  function Inner(item: Item): seq<Item> {
    if item.kind.Stage? then item.kind.items else []
  }

  /** Every name of the tree, each stage before its children. */
  function TreeNames(items: seq<Item>): seq<string>
    decreases items
  {
    if items == [] then []
    else
      var inner := if items[0].kind.Stage? then TreeNames(items[0].kind.items) else [];
      [items[0].name] + inner + TreeNames(items[1..])
  }

  function RootNames(items: seq<Item>): (names: seq<string>)
    ensures |names| == |items| && forall i :: 0 <= i < |names| ==> names[i] == items[i].name
  {
    seq(|items|, i requires 0 <= i < |items| => items[i].name)
  }

  function FlatKindOf(item: Item): FlatKind {
    match item.kind
    case Task => FlatTask(item.performer)
    case Service => FlatService(if item.execute.Some? then Reference(item.execute.value) else "")
    case Milestone => FlatMilestone
    case Stage(inner) => FlatStage(RootNames(inner))
  }

  function Reference(o: Operation): string {
    o.alias + "." + o.service + "." + o.operation
  }

  function ControlOf(item: Item): Option<Control> {
    if item.required || item.auto || item.repeats
    then Some(Control(item.required, if item.auto then Some(false) else None, item.repeats)) else None
  }

  function FlatOf(item: Item, names: Names): PlanItem {
    PlanItem(item.name, FlatKindOf(item), item.manual, ControlOf(item), LowerCriteria(names, item.entry), LowerCriteria(names, item.exit))
  }

  /** Depth first, a stage before its children. */
  function Flatten(items: seq<Item>, names: Names): seq<PlanItem>
    decreases items
  {
    if items == [] then []
    else
      var inner := if items[0].kind.Stage? then Flatten(items[0].kind.items, names) else [];
      [FlatOf(items[0], names)] + inner + Flatten(items[1..], names)
  }

  // ----- concatenation -----

  lemma {:induction false} FlattenConcat(a: seq<Item>, b: seq<Item>, names: Names)
    ensures Flatten(a + b, names) == Flatten(a, names) + Flatten(b, names)
    ensures TreeNames(a + b) == TreeNames(a) + TreeNames(b)
  {
    hide FlatOf;
    if a == [] {
      assert a + b == b;
    } else {
      assert (a + b)[1..] == a[1..] + b;
      FlattenConcat(a[1..], b, names);
      FlattenFirst(a, names);
      FlattenFirst(a + b, names);
      hide Flatten, TreeNames;
      Associates(FirstFlat(a[0], names), Flatten(a[1..], names), Flatten(b, names));
      Associates(FirstNames(a[0]), TreeNames(a[1..]), TreeNames(b));
    }
  }

  function FirstFlat(item: Item, names: Names): seq<PlanItem> {
    [FlatOf(item, names)] + Flatten(Inner(item), names)
  }

  function FirstNames(item: Item): seq<string> {
    [item.name] + TreeNames(Inner(item))
  }

  lemma FlattenFirst(items: seq<Item>, names: Names)
    requires items != []
    ensures Flatten(items, names) == FirstFlat(items[0], names) + Flatten(items[1..], names)
    ensures TreeNames(items) == FirstNames(items[0]) + TreeNames(items[1..])
  {
    hide FlatOf;
  }

  function NamesOf(flat: seq<PlanItem>): (names: seq<string>)
    ensures |names| == |flat| && forall i :: 0 <= i < |names| ==> names[i] == flat[i].name
  {
    seq(|flat|, i requires 0 <= i < |flat| => flat[i].name)
  }

  lemma NamesOfConcat(a: seq<PlanItem>, b: seq<PlanItem>)
    ensures NamesOf(a + b) == NamesOf(a) + NamesOf(b)
  {}

  /** The flat form carries exactly the names of the tree, in its order. */
  lemma {:induction false} FlattenNames(items: seq<Item>, names: Names)
    ensures NamesOf(Flatten(items, names)) == TreeNames(items)
    decreases items
  {
    if items != [] {
      FlattenFirst(items, names);
      InnerNames(items[0], names);
      FlattenNames(items[1..], names);
      hide Flatten, TreeNames, FlatOf;
      NamesOfConcat(FirstFlat(items[0], names), Flatten(items[1..], names));
      NamesOfConcat([FlatOf(items[0], names)], Flatten(Inner(items[0]), names));
      FlatName(items[0], names);
    }
  }

  lemma FlatName(item: Item, names: Names)
    ensures NamesOf([FlatOf(item, names)]) == [item.name]
  {}

  lemma {:induction false} InnerNames(item: Item, names: Names)
    ensures NamesOf(Flatten(Inner(item), names)) == TreeNames(Inner(item))
    decreases item
  {
    if item.kind.Stage? {
      FlattenNames(item.kind.items, names);
    }
  }

  // ----- the walk -----

  datatype Problem =
    | DuplicateName(name: string)
    | DiscretionaryMilestone(name: string)
    | MisplacedPerformer(name: string)
    | UnknownRole(name: string, role: string)
    | MisplacedExecute(name: string)
    | NoExecute(name: string)
    | BadExecute(name: string, operation: Operation)
    | MilestoneExit(name: string)
    | Unresolved(item: string, part: Part)
    | BadCondition(item: string, text: string)

  predicate TriggerOk(names: Names, t: Trigger) {
    (forall p :: p in t.parts ==> LowerPart(names, p).Some?) && (t.when.Some? ==> t.when.value.boolean)
  }

  predicate TriggersOk(names: Names, criteria: seq<Trigger>) {
    forall c :: c in criteria ==> TriggerOk(names, c)
  }

  function DesignNamed(designs: seq<Design>, alias: string): (r: Option<Design>)
    ensures r.Some? ==> r.value in designs && r.value.alias == alias
    ensures r.None? <==> forall d :: d in designs ==> d.alias != alias
  {
    if designs == [] then None
    else if designs[0].alias == alias then Some(designs[0])
    else DesignNamed(designs[1..], alias)
  }

  /** The binding names an operation of the one service so called in the design. */
  ghost predicate ExecuteResolves(designs: seq<Design>, o: Operation) {
    var d := DesignNamed(designs, o.alias);
    d.Some? && exists k :: 0 <= k < |d.value.services| && OnlyService(d.value.services, k, o.service) && o.operation in d.value.services[k].operations
  }

  ghost predicate OnlyService(services: seq<DesignService>, k: nat, name: string)
    requires k < |services|
  {
    services[k].name == name && forall m :: 0 <= m < |services| && services[m].name == name ==> m == k
  }

  lemma {:induction false} NamedOnlyOnce(services: seq<DesignService>, name: string)
    ensures |ServicesNamed(services, name)| == 0 <==> forall s :: s in services ==> s.name != name
    ensures |ServicesNamed(services, name)| == 1 ==> exists k :: 0 <= k < |services| && OnlyService(services, k, name) && ServicesNamed(services, name) == [services[k]]
    ensures forall k :: 0 <= k < |services| && OnlyService(services, k, name) ==> ServicesNamed(services, name) == [services[k]]
  {
    if services != [] {
      var front, last := services[..|services| - 1], services[|services| - 1];
      assert services == front + [last];
      NamedOnlyOnce(front, name);
      var found := ServicesNamed(front, name);
      if k: nat :| k < |front| && OnlyService(front, k, name) && found == [front[k]] && last.name != name {
        assert OnlyService(services, k, name);
      }
      if last.name == name && found == [] {
        assert OnlyService(services, |front|, name) by {
          assert forall m :: 0 <= m < |front| ==> services[m] in front;
        }
      }
      forall k: nat | k < |services| && OnlyService(services, k, name) ensures ServicesNamed(services, name) == [services[k]] {
        if k < |front| {
          assert OnlyService(front, k, name) && front[k] == services[k];
          assert services[|front|].name == name ==> |front| == k;
        } else {
          forall s | s in front ensures s.name != name {
            var m :| 0 <= m < |front| && front[m] == s;
            assert services[m] == s;
          }
        }
      }
    }
  }

  function ServicesNamed(services: seq<DesignService>, name: string): (out: seq<DesignService>)
    ensures forall s :: s in out <==> s in services && s.name == name
  {
    if services == [] then []
    else
      var last := services[|services| - 1];
      assert services == services[..|services| - 1] + [last];
      ServicesNamed(services[..|services| - 1], name) + if last.name == name then [last] else []
  }

  /** The rules of one item: a performer belongs to a task and is a declared role, an
      operation belongs to a service, which has one, and milestones are neither
      discretionary nor left by criteria. */
  ghost predicate ItemOk(names: Names, item: Item) {
    && !(item.manual && item.kind.Milestone?)
    && (item.performer.Some? ==> item.kind.Task? && item.performer.value in names.roles)
    && (item.execute.Some? <==> item.kind.Service?)
    && (item.execute.Some? ==> ExecuteResolves(names.designs, item.execute.value))
    && (item.kind.Milestone? ==> item.exit == [])
    && TriggersOk(names, item.entry) && TriggersOk(names, item.exit)
  }

  ghost predicate AllOk(names: Names, items: seq<Item>)
    decreases items
  {
    items == [] ||
    (ItemOk(names, items[0]) && (items[0].kind.Stage? ==> AllOk(names, items[0].kind.items)) && AllOk(names, items[1..]))
  }

  lemma {:induction false} AllOkConcat(names: Names, a: seq<Item>, b: seq<Item>)
    ensures AllOk(names, a + b) <==> AllOk(names, a) && AllOk(names, b)
  {
    if a == [] {
      assert a + b == b;
    } else {
      assert (a + b)[1..] == a[1..] + b;
      AllOkConcat(names, a[1..], b);
    }
  }

  /** The names collected before anything resolves. */
  method CollectNames(items: seq<Item>, before: seq<string>) returns (names: seq<string>)
    ensures names == before + TreeNames(items)
    decreases items
  {
    hide TreeNames;
    names := before;
    NoNames();
    assert items[..0] == [] && before + [] == before;
    for i := 0 to |items|
      invariant names == before + TreeNames(items[..i])
    {
      NamesStep(items, i);
      names := names + [items[i].name];
      if items[i].kind.Stage? {
        names := CollectNames(items[i].kind.items, names);
      }
    }
    assert items[..|items|] == items;
  }

  lemma NoNames()
    ensures TreeNames([]) == []
  {}

  lemma NamesStep(items: seq<Item>, i: nat)
    requires i < |items|
    ensures TreeNames(items[..i + 1])
            == TreeNames(items[..i]) + [items[i].name] + if items[i].kind.Stage? then TreeNames(items[i].kind.items) else []
  {
    assert items[..i + 1] == items[..i] + [items[i]];
    FlattenConcat(items[..i], [items[i]], Names([], [], {}, [], []));
    assert [items[i]][1..] == [];
  }

  /** The state one case's lowering threads through its tree. */
  class CaseLowering {
    const names: Names
    var out: seq<PlanItem>
    var seen: set<string>
    var problems: seq<Problem>

    constructor (names: Names)
      ensures this.names == names && out == [] && seen == {} && problems == []
    {
      this.names := names;
      out, seen, problems := [], {}, [];
    }

    method Criteria(item: string, criteria: seq<Trigger>) returns (lowered: seq<Criterion>)
      modifies `problems
      ensures lowered == LowerCriteria(names, criteria)
      ensures problems == [] ==> forall i :: 0 <= i < |criteria| ==> CriterionSays(names, criteria[i], lowered[i])
      ensures problems == [] <==> old(problems) == [] && TriggersOk(names, criteria)
    {
      lowered := [];
      for i := 0 to |criteria|
        invariant |lowered| == i && forall k :: 0 <= k < i ==> lowered[k] == LowerCriterion(names, criteria[k])
        invariant problems == [] <==> old(problems) == [] && forall k :: 0 <= k < i ==> TriggerOk(names, criteria[k])
      {
        var parts := criteria[i].parts;
        var found: seq<OnPart> := [];
        ghost var before := problems;
        for j := 0 to |parts|
          invariant found == LowerParts(names, parts[..j])
          invariant problems == [] <==> before == [] && forall k :: 0 <= k < j ==> LowerPart(names, parts[k]).Some?
        {
          assert parts[..j + 1][..j] == parts[..j];
          var part := LowerPart(names, parts[j]);
          if part.Some? {
            found := found + [part.value];
          } else {
            problems := problems + [Unresolved(item, parts[j])];
          }
        }
        assert parts[..|parts|] == parts;
        var when := criteria[i].when;
        if when.Some? && !when.value.boolean {
          problems := problems + [BadCondition(item, when.value.text)];
        }
        lowered := lowered + [Criterion(found, when)];
      }
      if problems == [] {
        forall i | 0 <= i < |criteria| ensures CriterionSays(names, criteria[i], lowered[i]) {
          PartsSay(names, criteria[i].parts);
        }
      }
    }

    method LowerOne(item: Item)
      modifies this
      ensures out == old(out) + [FlatOf(item, names)]
      ensures seen == old(seen) + {item.name}
      ensures problems == [] <==> old(problems) == [] && item.name !in old(seen) && ItemOk(names, item)
    {
      if item.name in seen {
        problems := problems + [DuplicateName(item.name)];
      } else {
        seen := seen + {item.name};
      }
      if item.manual && item.kind.Milestone? {
        problems := problems + [DiscretionaryMilestone(item.name)];
      }
      CheckClauses(item);
      if item.kind.Milestone? && item.exit != [] {
        problems := problems + [MilestoneExit(item.name)];
      }
      var entry := Criteria(item.name, item.entry);
      var exit := Criteria(item.name, item.exit);
      out := out + [PlanItem(item.name, FlatKindOf(item), item.manual, ControlOf(item), entry, exit)];
    }

    /** The performer and the operation, wherever they were written. */
    method CheckClauses(item: Item)
      modifies `problems
      ensures problems == [] <==>
                && old(problems) == []
                && (item.performer.Some? ==> item.kind.Task? && item.performer.value in names.roles)
                && (item.execute.Some? <==> item.kind.Service?)
                && (item.execute.Some? ==> ExecuteResolves(names.designs, item.execute.value))
    {
      hide ExecuteResolves;
      if item.performer.Some? {
        if !item.kind.Task? {
          problems := problems + [MisplacedPerformer(item.name)];
        } else if item.performer.value !in names.roles {
          problems := problems + [UnknownRole(item.name, item.performer.value)];
        }
      }
      if item.execute.Some? && !item.kind.Service? {
        problems := problems + [MisplacedExecute(item.name)];
      }
      if item.kind.Service? {
        if item.execute.None? {
          problems := problems + [NoExecute(item.name)];
        } else {
          var resolves := ResolveExecute(item.execute.value);
          if !resolves {
            problems := problems + [BadExecute(item.name, item.execute.value)];
          }
        }
      }
    }

    /** An unknown alias, no service or several of the name, or an unknown operation. */
    method ResolveExecute(o: Operation) returns (r: bool)
      ensures r <==> ExecuteResolves(names.designs, o)
    {
      var d := DesignNamed(names.designs, o.alias);
      if d.None? { return false; }
      var services := d.value.services;
      var found: seq<DesignService> := [];
      for i := 0 to |services|
        invariant found == ServicesNamed(services[..i], o.service)
      {
        assert services[..i + 1][..i] == services[..i];
        if services[i].name == o.service {
          found := found + [services[i]];
        }
      }
      assert services[..|services|] == services;
      NamedOnlyOnce(services, o.service);
      r := |found| == 1 && o.operation in found[0].operations;
    }

    /** A whole subtree: its flat form appended, its names seen, and a problem reported
        exactly when a name repeats, a milestone is discretionary, or a part does not
        resolve. */
    method LowerItems(items: seq<Item>)
      modifies this
      ensures out == old(out) + Flatten(items, names)
      ensures seen == old(seen) + Set(TreeNames(items))
      ensures problems == [] <==> old(problems) == [] && NewNames(old(seen), TreeNames(items)) && AllOk(names, items)
      decreases items
    {
      hide Flatten, TreeNames, AllOk, ItemOk, FlatOf;
      NothingFlat(names);
      assert items[..0] == [];
      for i := 0 to |items|
        invariant out == old(out) + Flatten(items[..i], names)
        invariant seen == old(seen) + Set(TreeNames(items[..i]))
        invariant problems == [] <==> old(problems) == [] && NewNames(old(seen), TreeNames(items[..i])) && AllOk(names, items[..i])
      {
        var item := items[i];
        WalkStep(items, i, names, old(seen));
        LowerOne(item);
        if item.kind.Stage? {
          LowerItems(item.kind.items);
        }
      }
      assert items[..|items|] == items;
    }
  }

  function Set(names: seq<string>): set<string> {
    set n | n in names
  }

  /** The names are new, to the walk and to each other. */
  ghost predicate NewNames(seen: set<string>, names: seq<string>) {
    NoDup(names) && forall n :: n in names ==> n !in seen
  }

  lemma NothingFlat(names: Names)
    ensures Flatten([], names) == [] && TreeNames([]) == [] && AllOk(names, [])
  {}

  /** One more item: its own name first, then its subtree's. */
  lemma WalkStep(items: seq<Item>, i: nat, names: Names, seen: set<string>)
    requires i < |items|
    ensures var item, inner := items[i], Inner(items[i]);
            && Flatten(items[..i + 1], names) == Flatten(items[..i], names) + [FlatOf(item, names)] + Flatten(inner, names)
            && Set(TreeNames(items[..i + 1])) == Set(TreeNames(items[..i])) + {item.name} + Set(TreeNames(inner))
            && (AllOk(names, items[..i + 1]) <==> AllOk(names, items[..i]) && ItemOk(names, item) && AllOk(names, inner))
            && (NewNames(seen, TreeNames(items[..i + 1])) <==>
                  && NewNames(seen, TreeNames(items[..i])) && item.name !in seen + Set(TreeNames(items[..i]))
                  && NewNames(seen + Set(TreeNames(items[..i])) + {item.name}, TreeNames(inner)))
    ensures !items[i].kind.Stage? ==> Inner(items[i]) == [] && Flatten([], names) == [] && TreeNames([]) == [] && AllOk(names, [])
  {
    hide AllOk, ItemOk, FlatOf, NewNames, Set;
    NothingFlat(names);
    SubtreeStep(items, i, names);
    NamesGrow(seen, TreeNames(items[..i]), items[i].name, TreeNames(Inner(items[i])));
  }

  lemma SubtreeStep(items: seq<Item>, i: nat, names: Names)
    requires i < |items|
    ensures var item, inner := items[i], Inner(items[i]);
            && Flatten(items[..i + 1], names) == Flatten(items[..i], names) + [FlatOf(item, names)] + Flatten(inner, names)
            && TreeNames(items[..i + 1]) == TreeNames(items[..i]) + ([item.name] + TreeNames(inner))
            && (AllOk(names, items[..i + 1]) <==> AllOk(names, items[..i]) && ItemOk(names, item) && AllOk(names, inner))
  {
    var item := items[i];
    SingleItem(item, names);
    hide Flatten, TreeNames, AllOk, ItemOk, FlatOf;
    assert items[..i + 1] == items[..i] + [item];
    FlattenConcat(items[..i], [item], names);
    AllOkConcat(names, items[..i], [item]);
    Associates(Flatten(items[..i], names), [FlatOf(item, names)], Flatten(Inner(item), names));
  }

  lemma Associates<T>(a: seq<T>, b: seq<T>, c: seq<T>)
    ensures a + (b + c) == a + b + c
  {}

  lemma NamesGrow(seen: set<string>, before: seq<string>, name: string, after: seq<string>)
    ensures Set(before + ([name] + after)) == Set(before) + {name} + Set(after)
    ensures NewNames(seen, before + ([name] + after)) <==>
              NewNames(seen, before) && name !in seen + Set(before) && NewNames(seen + Set(before) + {name}, after)
  {
    FreshAppend(before, name, after);
    hide NoDup;
    var all := before + ([name] + after);
    assert forall n :: n in all <==> n in before || n == name || n in after;
  }

  lemma SingleItem(item: Item, names: Names)
    ensures Flatten([item], names) == [FlatOf(item, names)] + Flatten(Inner(item), names)
    ensures TreeNames([item]) == [item.name] + TreeNames(Inner(item))
    ensures AllOk(names, [item]) <==> ItemOk(names, item) && AllOk(names, Inner(item))
  {
    assert [item][1..] == [];
  }

  lemma FreshAppend(before: seq<string>, name: string, after: seq<string>)
    ensures NoDup(before + ([name] + after)) <==>
              && NoDup(before) && NoDup(after) && name !in before && name !in after
              && forall n :: n in after ==> n !in before
  {
    var all := before + ([name] + after);
    assert all[|before|] == name;
    assert forall i :: 0 <= i < |before| ==> all[i] == before[i];
    assert forall i :: 0 <= i < |after| ==> all[|before| + 1 + i] == after[i];
    if NoDup(before) && NoDup(after) && name !in before && name !in after && forall n :: n in after ==> n !in before {
      NoDupConcat([name], after);
      NoDupConcat(before, [name] + after);
    }
  }
}

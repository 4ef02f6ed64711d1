/** The engine's case definition, built from the flat plan: containment lists, planning
    tables and sentries, each in its own map. */
module CaseEmission {
  import opened Common
  import opened Ids
  import opened CasePlans

  // ----- what is emitted -----

  datatype EngineKind =
    | UserTask(role: Option<string>, automatic: bool)
    | ProcessTask(process: string)
    | EngineMilestone
    | EngineStage(children: seq<string>, autoComplete: bool)

  /** A rule that always holds, or a FEEL condition. */
  datatype EngineRule = Always | Feel(source: string)

  datatype EngineControl = EngineControl(manualActivation: Option<EngineRule>, required: Option<EngineRule>, repetition: Option<EngineRule>)

  /** Criteria refer to sentries by id. */
  datatype EngineItem = EngineItem(kind: EngineKind, entry: seq<string>, exit: seq<string>, control: Option<EngineControl>)

  /** The engine spells transitions its own way. */
  datatype EnginePart = EnginePlanItem(source: string, event: string) | EngineFileItem(source: string, transition: string)

  datatype Sentry = Sentry(parts: seq<EnginePart>, ifPart: Option<string>)

  datatype Table = Table(context: string, items: seq<string>)

  datatype Plan = Plan(
    items: map<string, EngineItem>, sentries: map<string, Sentry>, tables: map<string, Table>, discretionary: map<string, string>)

  function SentryId(item: string, exit: bool, n: nat): string {
    "sentry_" + item + "_" + Side(exit) + "_" + PrintNat(n)
  }

  function Side(exit: bool): string {
    if exit then "exit" else "entry"
  }

  function TableId(context: string): string {
    "planning_" + context
  }

  function DiscretionaryId(item: string): string {
    "disc_" + item
  }

  predicate Manual(flat: seq<PlanItem>, name: string) {
    exists i :: 0 <= i < |flat| && flat[i].name == name && flat[i].manual
  }

  /** Discretionary items leave the containment tree. */
  function Kept(flat: seq<PlanItem>, names: seq<string>): (out: seq<string>)
    ensures forall n :: n in out <==> n in names && !Manual(flat, n)
    ensures NoDup(names) ==> NoDup(out)
  {
    if names == [] then []
    else
      var front, last := Kept(flat, names[..|names| - 1]), names[|names| - 1];
      assert names == names[..|names| - 1] + [last];
      assert NoDup(names) ==> NoDup(names[..|names| - 1]) && last !in names[..|names| - 1];
      if Manual(flat, last) then front else front + [last]
  }

  function ChildrenOf(p: PlanItem): seq<string> {
    if p.kind.FlatStage? then p.kind.children else []
  }

  /** Every name some stage lists. */
  function Staged(flat: seq<PlanItem>): seq<string> {
    if flat == [] then [] else ChildrenOf(flat[0]) + Staged(flat[1..])
  }

  function SentryIds(name: string, exit: bool, count: nat): (ids: seq<string>)
    ensures |ids| == count && forall n :: 0 <= n < count ==> ids[n] == SentryId(name, exit, n)
  {
    seq(count, n requires 0 <= n < count => SentryId(name, exit, n))
  }

  function EngineOf(flat: seq<PlanItem>, p: PlanItem): EngineItem {
    EngineItem(EngineKindOf(flat, p), SentryIds(p.name, false, |p.entry|), SentryIds(p.name, true, |p.exit|), EngineControlOf(p))
  }

  function EngineKindOf(flat: seq<PlanItem>, p: PlanItem): EngineKind {
    match p.kind
    case FlatTask(performer) => UserTask(performer, p.manual)
    case FlatService(execute) => ProcessTask(execute)
    case FlatMilestone => EngineMilestone
    case FlatStage(children) => EngineStage(Kept(flat, children), false)
  }

  function EngineControlOf(p: PlanItem): Option<EngineControl> {
    match p.control
    case None => None
    case Some(c) =>
      var activation := match c.manualActivation case None => None case Some(b) => Some(Feel(if b then "false" else "true"));
      Some(EngineControl(activation, if c.required then Some(Always) else None, if c.repetition then Some(Always) else None))
  }

  function EngineItemEvent(e: ItemEvent): string {
    match e
    case Create => "Create"
    case Enable => "Enable"
    case Start => "Start"
    case Complete => "Complete"
    case Terminate => "Terminate"
    case Fail => "Fault"
    case Occur => "Occur"
  }

  function EngineFileEvent(e: FileEvent): string {
    match e
    case FileCreate => "Create"
    case FileUpdate => "Update"
    case FileDelete => "Delete"
    case FileAddChild => "AddChild"
    case FileRemoveChild => "RemoveChild"
  }

  /** The engine's spelling: the word with its first letter a capital, but a failure
      is a fault. */
  predicate Spelled(word: string, engine: string) {
    if word == "fail" then engine == "Fault"
    else word != [] && 'a' <= word[0] <= 'z' && engine == [(word[0] as int - 32) as char] + word[1..]
  }

  lemma ItemEventSpelled(e: ItemEvent)
    ensures Spelled(ItemWord(e), EngineItemEvent(e))
  {
    var word, engine := ItemWord(e), EngineItemEvent(e);
    if !e.Fail? {
      assert engine[1..] == word[1..];
      assert engine == [engine[0]] + engine[1..];
    }
  }

  lemma FileEventSpelled(e: FileEvent)
    ensures Spelled(FileWord(e), EngineFileEvent(e))
  {
    var word, engine := FileWord(e), EngineFileEvent(e);
    assert engine[1..] == word[1..];
    assert engine == [engine[0]] + engine[1..];
  }

  /** An event of a contract has no engine form. */
  function EnginePartOf(part: OnPart): Option<EnginePart> {
    match part
    case OnItem(source, e) => Some(EnginePlanItem(source, EngineItemEvent(e)))
    case OnFile(source, e) => Some(EngineFileItem(source, EngineFileEvent(e)))
    case OnEvent(_) => None
  }

  /** The parts with an engine form, in order. */
  function EngineParts(parts: seq<OnPart>): seq<EnginePart> {
    if parts == [] then []
    else
      EngineParts(parts[..|parts| - 1]) + match EnginePartOf(parts[|parts| - 1]) case Some(e) => [e] case None => []
  }

  /** A criterion as a sentry, its condition in FEEL. */
  function SentryOf(c: Criterion): Sentry {
    Sentry(EngineParts(c.parts), match c.when case None => None case Some(w) => w.feel)
  }

  /** The part of a sentry watches the same source for the same event, spelled the
      engine's way. */
  ghost predicate PartWatches(e: EnginePart, part: OnPart) {
    match part
    case OnItem(source, event) => e.EnginePlanItem? && e.source == source && Spelled(ItemWord(event), e.event)
    case OnFile(source, transition) => e.EngineFileItem? && e.source == source && Spelled(FileWord(transition), e.transition)
    case OnEvent(_) => false
  }

  /** The sentry watches exactly what the criterion does, part by part, and under its
      condition. */
  ghost predicate SentryWatches(s: Sentry, c: Criterion) {
    && |s.parts| == |c.parts| && (forall j :: 0 <= j < |c.parts| ==> PartWatches(s.parts[j], c.parts[j]))
    && (s.ifPart.None? <==> c.when.None?)
    && (c.when.Some? ==> s.ifPart == c.when.value.feel)
  }

  lemma {:induction false} PartsWatch(parts: seq<OnPart>)
    requires forall x :: x in parts ==> !x.OnEvent?
    ensures |EngineParts(parts)| == |parts| && forall j :: 0 <= j < |parts| ==> PartWatches(EngineParts(parts)[j], parts[j])
  {
    hide EngineItemEvent, EngineFileEvent, Spelled, ItemWord, FileWord;
    if parts != [] {
      var front, last := parts[..|parts| - 1], parts[|parts| - 1];
      assert last in parts && forall x :: x in front ==> x in parts;
      PartsWatch(front);
      assert forall j :: 0 <= j < |front| ==> parts[j] == front[j];
      match last
      case OnItem(_, e) => ItemEventSpelled(e);
      case OnFile(_, e) => FileEventSpelled(e);
      case OnEvent(_) =>
    }
  }

  lemma TranslatedWatches(c: Criterion)
    requires Translates(c)
    ensures SentryWatches(SentryOf(c), c)
  {
    PartsWatch(c.parts);
  }

  /** The stage that lists the name, the first of them; else the root. */
  function ContextOf(flat: seq<PlanItem>, root: string, name: string): string {
    if flat == [] then root
    else if name in ChildrenOf(flat[0]) then flat[0].name
    else ContextOf(flat[1..], root, name)
  }

  /** The items no stage lists, in order. */
  function Unstaged(flat: seq<PlanItem>, staged: seq<string>): seq<string> {
    if flat == [] then []
    else
      var front, last := Unstaged(flat[..|flat| - 1], staged), flat[|flat| - 1];
      if last.manual || last.name in staged then front else front + [last.name]
  }

  function RootOf(flat: seq<PlanItem>): EngineItem {
    EngineItem(EngineStage(Unstaged(flat, Staged(flat)), true), [], [], None)
  }

  // ----- the maps after the first n items -----

  function PutCriteria(before: map<string, Sentry>, name: string, exit: bool, criteria: seq<Criterion>): map<string, Sentry> {
    if criteria == [] then before
    else
      PutCriteria(before, name, exit, criteria[..|criteria| - 1])
        [SentryId(name, exit, |criteria| - 1) := SentryOf(criteria[|criteria| - 1])]
  }

  function PutTable(before: map<string, Table>, context: string, item: string): map<string, Table> {
    var id := TableId(context);
    var table := if id in before then before[id] else Table(context, []);
    before[id := table.(items := table.items + [DiscretionaryId(item)])]
  }

  function PutItem(flat: seq<PlanItem>, root: string, before: Plan, p: PlanItem): Plan {
    Plan(before.items[p.name := EngineOf(flat, p)],
         PutCriteria(PutCriteria(before.sentries, p.name, false, p.entry), p.name, true, p.exit),
         if p.manual then PutTable(before.tables, ContextOf(flat, root, p.name), p.name) else before.tables,
         if p.manual then before.discretionary[DiscretionaryId(p.name) := p.name] else before.discretionary)
  }

  function PlanUpTo(flat: seq<PlanItem>, root: string, n: nat): Plan
    requires n <= |flat|
  {
    if n == 0 then Plan(map[], map[], map[], map[])
    else PutItem(flat, root, PlanUpTo(flat, root, n - 1), flat[n - 1])
  }

  /** The root stage goes in last. */
  function Emitted(flat: seq<PlanItem>, root: string): Plan {
    var plan := PlanUpTo(flat, root, |flat|);
    plan.(items := plan.items[root := RootOf(flat)])
  }

  // ----- sentry ids do not collide -----

  lemma {:induction false} DigitsOnly(n: nat)
    ensures '_' !in PrintNat(n)
  {}

  /** Split from the right: the ordinal and the side contain no underscore. */
  lemma SentryIdsDiffer(a: string, side: bool, n: nat, b: string, side': bool, k: nat)
    requires SentryId(a, side, n) == SentryId(b, side', k)
    ensures a == b && side == side' && n == k
  {
    DigitsOnly(n);
    DigitsOnly(k);
    var x, y := "sentry_" + a + "_" + Side(side), "sentry_" + b + "_" + Side(side');
    assert SentryId(a, side, n) == x + ['_'] + PrintNat(n) && SentryId(b, side', k) == y + ['_'] + PrintNat(k);
    RSplitOnceAt(x, '_', PrintNat(n));
    RSplitOnceAt(y, '_', PrintNat(k));
    ParsePrintNat(n);
    ParsePrintNat(k);
    SidesDiffer(a, side, b, side');
  }

  lemma SidesDiffer(a: string, side: bool, b: string, side': bool)
    requires "sentry_" + a + "_" + Side(side) == "sentry_" + b + "_" + Side(side')
    ensures a == b && side == side'
  {
    var x, y := "sentry_" + a, "sentry_" + b;
    assert x + "_" + Side(side) == x + ['_'] + Side(side) && y + "_" + Side(side') == y + ['_'] + Side(side');
    RSplitOnceAt(x, '_', Side(side));
    RSplitOnceAt(y, '_', Side(side'));
    assert x[7..] == a && y[7..] == b;
    assert |Side(side)| == |Side(side')|;
  }

  lemma {:induction false} CriteriaPut(before: map<string, Sentry>, name: string, exit: bool, criteria: seq<Criterion>)
    ensures forall n :: 0 <= n < |criteria| ==>
              SentryId(name, exit, n) in PutCriteria(before, name, exit, criteria)
              && PutCriteria(before, name, exit, criteria)[SentryId(name, exit, n)] == SentryOf(criteria[n])
    ensures forall k :: k in before ==> k in PutCriteria(before, name, exit, criteria)
    ensures forall k :: k in before && (forall n: nat :: k != SentryId(name, exit, n)) ==>
              PutCriteria(before, name, exit, criteria)[k] == before[k]
  {
    hide SentryId;
    if criteria != [] {
      var front, last := criteria[..|criteria| - 1], |criteria| - 1;
      CriteriaPut(before, name, exit, front);
      forall n: nat | n < last ensures SentryId(name, exit, n) != SentryId(name, exit, last) {
        if SentryId(name, exit, n) == SentryId(name, exit, last) {
          SentryIdsDiffer(name, exit, n, name, exit, last);
        }
      }
    }
  }

  /** Each criterion's sentry is there under its own id, and no other is touched. */
  lemma PutWatches(before: map<string, Sentry>, name: string, exit: bool, criteria: seq<Criterion>)
    requires forall c :: c in criteria ==> Translates(c)
    ensures var after, ids := PutCriteria(before, name, exit, criteria), SentryIds(name, exit, |criteria|);
            && (forall n :: 0 <= n < |criteria| ==> ids[n] in after && SentryWatches(after[ids[n]], criteria[n]))
            && (forall id :: id in before && (forall n: nat :: id != SentryId(name, exit, n)) ==> id in after && after[id] == before[id])
  {
    CriteriaPut(before, name, exit, criteria);
    hide PutCriteria, SentryId, SentryOf, SentryWatches, Translates;
    forall n | 0 <= n < |criteria| ensures SentryWatches(SentryOf(criteria[n]), criteria[n]) {
      TranslatedWatches(criteria[n]);
    }
  }

  // ----- the emitter -----

  class CaseDefinitionEmitter {
    const flat: seq<PlanItem>
    const root: string
    var items: map<string, EngineItem>
    var sentries: map<string, Sentry>
    var tables: map<string, Table>
    var discretionary: map<string, string>

    constructor (flat: seq<PlanItem>, name: string)
      ensures this.flat == flat && this.root == name + "_plan" && Now() == Plan(map[], map[], map[], map[])
    {
      this.flat, this.root := flat, name + "_plan";
      items, sentries, tables, discretionary := map[], map[], map[], map[];
    }

    function Now(): Plan
      reads this
    {
      Plan(items, sentries, tables, discretionary)
    }

    /** The engine's form of the parts, nothing when one is an event. */
    method OnParts(parts: seq<OnPart>) returns (found: Option<seq<EnginePart>>)
      ensures found.Some? <==> forall x :: x in parts ==> !x.OnEvent?
      ensures found.Some? ==> found.value == EngineParts(parts)
      ensures found.Some? ==> |found.value| == |parts| && forall j :: 0 <= j < |parts| ==> PartWatches(found.value[j], parts[j])
    {
      var onParts: seq<EnginePart> := [];
      for j := 0 to |parts|
        invariant forall k :: 0 <= k < j ==> !parts[k].OnEvent?
        invariant onParts == EngineParts(parts[..j])
      {
        assert parts[..j + 1][..j] == parts[..j] && parts[j] in parts;
        match EnginePartOf(parts[j]) {
          case Some(part) => onParts := onParts + [part];
          case None => return None;
        }
      }
      assert parts[..|parts|] == parts;
      PartsWatch(parts);
      found := Some(onParts);
    }

    /** An event on-part has no engine form, nor has a condition outside the FEEL subset. */
    method AddCriteria(name: string, exit: bool, criteria: seq<Criterion>) returns (ok: bool, ids: seq<string>)
      modifies `sentries
      ensures ok <==> forall c :: c in criteria ==> Translates(c)
      ensures ok ==> sentries == PutCriteria(old(sentries), name, exit, criteria) && ids == SentryIds(name, exit, |criteria|)
      ensures ok ==> forall n :: 0 <= n < |criteria| ==> ids[n] in sentries && SentryWatches(sentries[ids[n]], criteria[n])
      ensures ok ==> forall id :: id in old(sentries) && (forall n: nat :: id != SentryId(name, exit, n)) ==>
                                    id in sentries && sentries[id] == old(sentries)[id]
    {
      hide SentryId, SentryWatches, EngineParts;
      ids := [];
      for i := 0 to |criteria|
        invariant forall k :: 0 <= k < i ==> Translates(criteria[k])
        invariant sentries == PutCriteria(old(sentries), name, exit, criteria[..i])
        invariant ids == SentryIds(name, exit, i)
      {
        assert criteria[i] in criteria;
        var onParts := OnParts(criteria[i].parts);
        if onParts.None? { return false, []; }
        var ifPart := None;
        if criteria[i].when.Some? {
          ifPart := criteria[i].when.value.feel;
          if ifPart.None? { return false, []; }
        }
        assert criteria[..i + 1][..i] == criteria[..i];
        sentries := sentries[SentryId(name, exit, i) := Sentry(onParts.value, ifPart)];
        ids := ids + [SentryId(name, exit, i)];
      }
      assert criteria[..|criteria|] == criteria;
      ok := true;
      PutWatches(old(sentries), name, exit, criteria);
    }

    method AddItem(p: PlanItem) returns (ok: bool)
      modifies this
      ensures ok <==> Emittable(p)
      ensures ok ==> Now() == PutItem(flat, root, old(Now()), p)
    {
      if p.kind.FlatMilestone? && p.control.Some? && p.control.value.manualActivation.Some? { return false; }
      var fine, entry := AddCriteria(p.name, false, p.entry);
      if !fine { return false; }
      var exit;
      fine, exit := AddCriteria(p.name, true, p.exit);
      if !fine { return false; }
      if p.manual {
        var context := ContextOf(flat, root, p.name);
        discretionary := discretionary[DiscretionaryId(p.name) := p.name];
        var table := if TableId(context) in tables then tables[TableId(context)] else Table(context, []);
        tables := tables[TableId(context) := table.(items := table.items + [DiscretionaryId(p.name)])];
      }
      items := items[p.name := EngineItem(EngineKindOf(flat, p), entry, exit, EngineControlOf(p))];
      ok := true;
    }

    /** The whole plan, or nothing when some item has no engine form. */
    method Emit() returns (plan: Option<Plan>)
      requires Now() == Plan(map[], map[], map[], map[])
      modifies this
      ensures plan.Some? <==> forall i :: 0 <= i < |flat| ==> Emittable(flat[i])
      ensures plan.Some? ==> plan.value == Emitted(flat, root)
    {
      hide Emittable, PutItem;
      for i := 0 to |flat|
        invariant Now() == PlanUpTo(flat, root, i)
        invariant forall k :: 0 <= k < i ==> Emittable(flat[k])
      {
        var ok := AddItem(flat[i]);
        if !ok { return None; }
      }
      items := items[root := RootOf(flat)];
      plan := Some(Now());
    }
  }

  /** Nothing in the criterion lacks an engine form. */
  predicate Translates(c: Criterion) {
    (forall x :: x in c.parts ==> !x.OnEvent?) && (c.when.Some? ==> c.when.value.feel.Some?)
  }

  /** No criterion watches an event or has a condition outside the FEEL subset, and no
      milestone starts by itself. */
  predicate Emittable(p: PlanItem) {
    && !(p.kind.FlatMilestone? && p.control.Some? && p.control.value.manualActivation.Some?)
    && (forall c :: c in p.entry ==> Translates(c)) && (forall c :: c in p.exit ==> Translates(c))
  }
}

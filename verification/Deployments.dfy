/** Deployments: layered settings in a closed vocabulary, the capabilities and engines
    they call for, and the policies they must meet. */
module Deployments {
  import opened Common
  import opened DeployPolicies

  // ----- the vocabulary -----

  datatype Kind = Api | Worker | Database | Queue | ObjectStore | Frontend

  datatype Target = Standalone | DockerCompose | Kubernetes | CloudflareWorkers

  /** What a setting takes: an integer, text, or one of a closed set of words. */
  datatype Spec = IntSpec | TextSpec | WordSpec(allowed: set<string>)

  const CAPABILITIES: set<string> := {
    "longRunningProcess", "persistentFilesystem", "sqlDatabase", "container",
    "backgroundWorker", "horizontalScaling", "edgeExecution", "statefulProcess"}

  function Provides(t: Target): set<string> {
    match t
    case Standalone => {"longRunningProcess", "persistentFilesystem", "sqlDatabase", "backgroundWorker", "statefulProcess"}
    case CloudflareWorkers => {"sqlDatabase", "horizontalScaling", "edgeExecution"}
    case DockerCompose => CLUSTER
    case Kubernetes => CLUSTER
  }

  const CLUSTER: set<string> := {
    "longRunningProcess", "persistentFilesystem", "sqlDatabase", "backgroundWorker",
    "statefulProcess", "container", "horizontalScaling"}

  function Hosts(t: Target): set<string> {
    match t
    case Standalone => {"sqlite"}
    case DockerCompose => {"sqlite", "postgres"}
    case Kubernetes => {"postgres"}
    case CloudflareWorkers => {"d1"}
  }

  function Intrinsic(k: Kind): seq<string> {
    match k
    case Worker => ["longRunningProcess"]
    case Database => ["sqlDatabase"]
    case _ => []
  }

  const EMBEDDED_CONTAINER_WORKER := WordSpec({"embedded", "container", "worker", "external"})
  const EMBEDDED_CONTAINER := WordSpec({"embedded", "container", "external"})
  const ENGINES := WordSpec({"sqlite", "postgres", "d1"})
  const STORAGES := WordSpec({"local", "volume", "external", "managed"})
  const SCALINGS := WordSpec({"singleInstance", "replicated", "autoscaled"})
  const FRONTEND_RUNTIMES := WordSpec({"static", "worker", "container"})

  function Vocabulary(k: Kind): map<string, Spec> {
    match k
    case Api =>
      map["runtime" := EMBEDDED_CONTAINER_WORKER, "replicas" := IntSpec, "scaling" := SCALINGS, "port" := IntSpec,
          "health" := TextSpec, "cors" := TextSpec]
    case Worker => map["runtime" := EMBEDDED_CONTAINER, "replicas" := IntSpec, "port" := IntSpec, "health" := TextSpec]
    case Database => map["engine" := ENGINES, "storage" := STORAGES, "runtime" := EMBEDDED_CONTAINER, "port" := IntSpec]
    case Queue => map["runtime" := EMBEDDED_CONTAINER, "replicas" := IntSpec, "port" := IntSpec]
    case ObjectStore => map["storage" := STORAGES, "port" := IntSpec]
    case Frontend => map["runtime" := FRONTEND_RUNTIMES, "entrypoint" := TextSpec, "port" := IntSpec, "cors" := TextSpec]
  }

  // ----- what is authored -----

  datatype Authored = IntLit(n: I64) | StrLit(s: string) | WordLit(s: string)

  /** Baselines have one-segment paths, defaults and overrides `component.setting`. */
  datatype Line = Line(path: seq<string>, value: Authored)

  datatype Component = Component(name: string, kind: Kind, requires_: seq<string>, settings: seq<Line>)

  datatype Policy = Policy(condition: Condition, prohibit: bool)

  datatype Setting = IntS(n: I64) | TextS(s: string) | WordS(s: string)

  type Effective = map<string, map<string, Setting>>

  datatype Problem =
    | WrongLength(path: seq<string>)
    | DuplicateLine(path: seq<string>)
    | UnknownComponent(path: seq<string>)
    | BadSetting(path: seq<string>)
    | DuplicateComponent(component: string)
    | UnknownCapability(component: string, capability: string)
    | MissingCapability(component: string, capability: string)
    | EngineUnavailable(component: string, engine: string)
    | PolicyNotMet(policy: Policy)

  // ----- one setting -----

  predicate Admits(k: Kind, name: string, v: Authored) {
    name in Vocabulary(k) &&
    match Vocabulary(k)[name]
    case IntSpec => v.IntLit?
    case TextSpec => v.StrLit?
    case WordSpec(allowed) => v.WordLit? && v.s in allowed
  }

  function Lowered(v: Authored): Setting {
    match v
    case IntLit(n) => IntS(n)
    case StrLit(s) => TextS(s)
    case WordLit(s) => WordS(s)
  }

  /** The value is one of its kind's vocabulary. */
  predicate InVocabulary(k: Kind, name: string, s: Setting) {
    name in Vocabulary(k) &&
    match Vocabulary(k)[name]
    case IntSpec => s.IntS?
    case TextSpec => s.TextS?
    case WordSpec(allowed) => s.WordS? && s.s in allowed
  }

  method CheckSetting(k: Kind, name: string, v: Authored) returns (r: Option<Setting>)
    ensures r == if Admits(k, name, v) then Some(Lowered(v)) else None
    ensures r.Some? ==> InVocabulary(k, name, r.value)
  {
    if name !in Vocabulary(k) { return None; }
    match Vocabulary(k)[name] {
      case IntSpec => r := if v.IntLit? then Some(IntS(v.n)) else None;
      case TextSpec => r := if v.StrLit? then Some(TextS(v.s)) else None;
      case WordSpec(allowed) => r := if v.WordLit? && v.s in allowed then Some(WordS(v.s)) else None;
    }
  }

  // ----- a layer of settings -----

  /** The first line on a path decides. */
  function ValueAt(lines: seq<Line>, path: seq<string>): Option<Authored> {
    if lines == [] then None
    else if lines[0].path == path then Some(lines[0].value)
    else ValueAt(lines[1..], path)
  }

  ghost predicate NoRepeats(lines: seq<Line>) {
    forall i, j :: 0 <= i < j < |lines| ==> lines[i].path != lines[j].path
  }

  function KindOf(components: seq<Component>, name: string): Option<Kind> {
    if components == [] then None
    else if components[0].name == name then Some(components[0].kind)
    else KindOf(components[1..], name)
  }

  predicate LineOk(components: seq<Component>, line: Line) {
    && |line.path| == 2
    && KindOf(components, line.path[0]).Some?
    && Admits(KindOf(components, line.path[0]).value, line.path[1], line.value)
  }

  function At(settings: map<string, Setting>, s: string): Option<Setting> {
    if s in settings then Some(settings[s]) else None
  }

  function Get(e: Effective, c: string, s: string): Option<Setting> {
    if c in e then At(e[c], s) else None
  }

  function Put(e: Effective, c: string, s: string, v: Setting): Effective {
    e[c := (if c in e then e[c] else map[])[s := v]]
  }

  lemma PutGet(e: Effective, c: string, s: string, v: Setting)
    ensures forall c', s' :: Get(Put(e, c, s, v), c', s') == if c' == c && s' == s then Some(v) else Get(e, c', s')
  {}

  /** A layer over the settings below it. */
  function Over(lines: seq<Line>, c: string, s: string, below: Option<Setting>): Option<Setting> {
    match ValueAt(lines, [c, s])
    case Some(v) => Some(Lowered(v))
    case None => below
  }

  /** Lines before the i-th are applied. */
  ghost predicate Applied(lines: seq<Line>, n: nat, before: Effective, now: Effective)
    requires n <= |lines|
  {
    forall c, s :: Get(now, c, s) == Over(lines[..n], c, s, Get(before, c, s))
  }

  /** Defaults and overrides alike: every line of two segments, on a component there
      is, with a value its kind admits, once each. */
  method ApplySettings(lines: seq<Line>, components: seq<Component>, before: Effective) returns (now: Effective, problems: seq<Problem>)
    ensures problems == [] <==> NoRepeats(lines) && forall i :: 0 <= i < |lines| ==> LineOk(components, lines[i])
    ensures problems == [] ==> forall c, s :: Get(now, c, s) == Over(lines, c, s, Get(before, c, s))
  {
    now, problems := before, [];
    var seen: seq<seq<string>> := [];
    for i := 0 to |lines|
      invariant forall p :: p in seen <==> exists k :: 0 <= k < i && lines[k].path == p
      invariant problems == [] <==> NoRepeats(lines[..i]) && forall k :: 0 <= k < i ==> LineOk(components, lines[k])
      invariant problems == [] ==> Applied(lines, i, before, now)
    {
      var line := lines[i];
      RepeatStep(lines, i);
      AppliedStep(lines, i, before, now);
      if |line.path| != 2 {
        problems := problems + [WrongLength(line.path)];
      }
      if line.path in seen {
        problems := problems + [DuplicateLine(line.path)];
        continue;
      }
      seen := seen + [line.path];
      var found;
      now, found := ApplyLine(line, components, now);
      problems := problems + found;
    }
    assert lines[..|lines|] == lines;
  }

  method ApplyLine(line: Line, components: seq<Component>, before: Effective) returns (now: Effective, problems: seq<Problem>)
    ensures |line.path| == 2 ==> (problems == [] <==> LineOk(components, line))
    ensures |line.path| == 2 && problems == [] ==> now == Put(before, line.path[0], line.path[1], Lowered(line.value))
  {
    now, problems := before, [];
    if |line.path| != 2 { return; }
    var kind := KindOf(components, line.path[0]);
    if kind.None? {
      return before, [UnknownComponent(line.path)];
    }
    var value := CheckSetting(kind.value, line.path[1], line.value);
    if value.None? {
      return before, [BadSetting(line.path)];
    }
    now := Put(before, line.path[0], line.path[1], value.value);
  }

  lemma RepeatStep(lines: seq<Line>, i: nat)
    requires i < |lines|
    ensures NoRepeats(lines[..i + 1]) <==> NoRepeats(lines[..i]) && forall k :: 0 <= k < i ==> lines[k].path != lines[i].path
  {
    var longer, shorter := lines[..i + 1], lines[..i];
    assert forall k :: 0 <= k < i ==> longer[k] == shorter[k] == lines[k];
    assert longer[i] == lines[i];
  }

  lemma {:induction false} ValueAppended(lines: seq<Line>, line: Line, path: seq<string>)
    ensures ValueAt(lines + [line], path)
            == if ValueAt(lines, path).Some? then ValueAt(lines, path) else if line.path == path then Some(line.value) else None
  {
    if lines == [] {
      assert [line][1..] == [];
    } else {
      assert (lines + [line])[1..] == lines[1..] + [line];
      ValueAppended(lines[1..], line, path);
    }
  }

  lemma {:induction false} NoValue(lines: seq<Line>, path: seq<string>)
    requires forall k :: 0 <= k < |lines| ==> lines[k].path != path
    ensures ValueAt(lines, path).None?
  {
    if lines != [] {
      NoValue(lines[1..], path);
    }
  }

  lemma AppliedStep(lines: seq<Line>, i: nat, before: Effective, now: Effective)
    requires i < |lines|
    ensures Applied(lines, i, before, now) && |lines[i].path| == 2 && (forall k :: 0 <= k < i ==> lines[k].path != lines[i].path) ==>
              Applied(lines, i + 1, before, Put(now, lines[i].path[0], lines[i].path[1], Lowered(lines[i].value)))
  {
    if Applied(lines, i, before, now) && |lines[i].path| == 2 && (forall k :: 0 <= k < i ==> lines[k].path != lines[i].path) {
      var c, s, v := lines[i].path[0], lines[i].path[1], Lowered(lines[i].value);
      assert lines[i].path == [c, s] && lines[..i + 1] == lines[..i] + [lines[i]];
      PutGet(now, c, s, v);
      NoValue(lines[..i], [c, s]);
      forall c', s' ensures Get(Put(now, c, s, v), c', s') == Over(lines[..i + 1], c', s', Get(before, c', s')) {
        ValueAppended(lines[..i], lines[i], [c', s']);
        assert [c', s'] == [c, s] <==> c' == c && s' == s by {
          assert [c', s'][0] == c' && [c', s'][1] == s' && [c, s][0] == c && [c, s][1] == s;
        }
      }
    }
  }

  // ----- baselines -----

  ghost predicate DistinctComponents(components: seq<Component>) {
    forall i, j :: 0 <= i < j < |components| ==> components[i].name != components[j].name
  }

  ghost predicate BaselineOk(c: Component) {
    && NoRepeats(c.settings)
    && (forall i :: 0 <= i < |c.settings| ==> |c.settings[i].path| == 1 && Admits(c.kind, c.settings[i].path[0], c.settings[i].value))
    && forall r :: r in c.requires_ ==> r in CAPABILITIES
  }

  function Baseline(c: Component, s: string): Option<Setting> {
    match ValueAt(c.settings, [s])
    case Some(v) => Some(Lowered(v))
    case None => None
  }

  method LowerComponent(c: Component) returns (settings: map<string, Setting>, problems: seq<Problem>)
    ensures problems == [] <==> BaselineOk(c)
    ensures problems == [] ==> forall s :: At(settings, s) == Baseline(c, s)
  {
    hide Baseline, BaselineUpTo, BaselineOk, LinesOk;
    problems := CheckDeclared(c);
    NoBaseline(c);
    settings := map[];
    var seen: seq<string> := [];
    ghost var declared := problems;
    for i := 0 to |c.settings|
      invariant problems == [] ==> forall n :: n in seen <==> exists k :: 0 <= k < i && c.settings[k].path == [n]
      invariant problems == [] <==> declared == [] && LinesOk(c, i)
      invariant problems == [] ==> forall s :: At(settings, s) == BaselineUpTo(c, i, s)
    {
      var line := c.settings[i];
      LinesStep(c, i);
      if |line.path| != 1 {
        problems := problems + [WrongLength(line.path)];
      }
      if line.path == [] {
        continue;
      }
      var name := line.path[|line.path| - 1];
      if name in seen {
        problems := problems + [DuplicateLine(line.path)];
        continue;
      }
      seen := seen + [name];
      var value := CheckSetting(c.kind, name, line.value);
      if value.None? {
        problems := problems + [BadSetting(line.path)];
        continue;
      }
      var before := settings;
      settings := settings[name := value.value];
      if problems == [] {
        assert line.path == [name];
        forall s ensures At(settings, s) == BaselineUpTo(c, i + 1, s) {
          BaselineOne(c, i, s);
          assert At(settings, s) == if s == name then Some(value.value) else At(before, s);
        }
      }
    }
  }

  /** The first n lines are in order. */
  ghost predicate LinesOk(c: Component, n: nat)
    requires n <= |c.settings|
  {
    && NoRepeats(c.settings[..n])
    && forall k :: 0 <= k < n ==> |c.settings[k].path| == 1 && Admits(c.kind, c.settings[k].path[0], c.settings[k].value)
  }

  lemma LinesStep(c: Component, i: nat)
    requires i < |c.settings|
    ensures LinesOk(c, i + 1) <==>
              && LinesOk(c, i)
              && |c.settings[i].path| == 1 && Admits(c.kind, c.settings[i].path[0], c.settings[i].value)
              && forall k :: 0 <= k < i ==> c.settings[k].path != c.settings[i].path
  {
    RepeatStep(c.settings, i);
  }

  method CheckDeclared(c: Component) returns (problems: seq<Problem>)
    ensures problems == [] <==> forall r :: r in c.requires_ ==> r in CAPABILITIES
  {
    problems := [];
    for i := 0 to |c.requires_|
      invariant problems == [] <==> forall k :: 0 <= k < i ==> c.requires_[k] in CAPABILITIES
    {
      if c.requires_[i] !in CAPABILITIES {
        problems := problems + [UnknownCapability(c.name, c.requires_[i])];
      }
    }
  }

  /** The baseline of the first n lines. */
  function BaselineUpTo(c: Component, n: nat, s: string): Option<Setting>
    requires n <= |c.settings|
  {
    Baseline(c.(settings := c.settings[..n]), s)
  }

  lemma BaselineOne(c: Component, i: nat, s: string)
    requires i < |c.settings| && |c.settings[i].path| == 1 && forall k :: 0 <= k < i ==> c.settings[k].path != c.settings[i].path
    ensures BaselineUpTo(c, i + 1, s) == if s == c.settings[i].path[0] then Some(Lowered(c.settings[i].value)) else BaselineUpTo(c, i, s)
  {
    var line := c.settings[i];
    assert c.settings[..i + 1] == c.settings[..i] + [line] && line.path == [line.path[0]];
    NoValue(c.settings[..i], line.path);
    ValueAppended(c.settings[..i], line, [s]);
    if s == line.path[0] {
      assert [s] == line.path;
    } else {
      assert [s][0] != line.path[0];
    }
  }

  lemma NoBaseline(c: Component)
    ensures forall s :: BaselineUpTo(c, 0, s).None?
    ensures forall s :: BaselineUpTo(c, |c.settings|, s) == Baseline(c, s)
    ensures LinesOk(c, 0)
    ensures BaselineOk(c) <==> LinesOk(c, |c.settings|) && forall r :: r in c.requires_ ==> r in CAPABILITIES
  {
    assert c.settings[..|c.settings|] == c.settings && c.(settings := c.settings) == c;
  }

  /** The component of that name. */
  function Named(components: seq<Component>, name: string): Option<Component> {
    if components == [] then None
    else if components[0].name == name then Some(components[0])
    else Named(components[1..], name)
  }

  function BaselineOf(components: seq<Component>, c: string, s: string): Option<Setting> {
    match Named(components, c)
    case None => None
    case Some(component) => Baseline(component, s)
  }

  method Baselines(components: seq<Component>) returns (effective: Effective, problems: seq<Problem>)
    ensures problems == [] <==> DistinctComponents(components) && forall i :: 0 <= i < |components| ==> BaselineOk(components[i])
    ensures problems == [] ==> forall c, s :: Get(effective, c, s) == BaselineOf(components, c, s)
  {
    hide BaselineOk, Baseline, BaselineOf, Get, At;
    NothingYet();
    effective, problems := map[], [];
    var names: seq<string> := [];
    for i := 0 to |components|
      invariant forall n :: n in names <==> exists k :: 0 <= k < i && components[k].name == n
      invariant problems == [] <==> DistinctComponents(components[..i]) && forall k :: 0 <= k < i ==> BaselineOk(components[k])
      invariant problems == [] ==> forall c, s :: Get(effective, c, s) == BaselineOf(components[..i], c, s)
    {
      var c := components[i];
      DistinctStep(components, i);
      if c.name in names {
        problems := problems + [DuplicateComponent(c.name)];
        continue;
      }
      names := names + [c.name];
      var settings, found := LowerComponent(c);
      var before := effective;
      effective := effective[c.name := settings];
      if problems == [] && found == [] {
        forall c', s ensures Get(effective, c', s) == BaselineOf(components[..i + 1], c', s) {
          ComponentPut(before, c.name, settings, c', s);
          NamedStep(components, i, c', s);
        }
      }
      problems := problems + found;
    }
    assert components[..|components|] == components;
  }

  lemma NothingYet()
    ensures forall c, s :: Get(map[], c, s).None? && BaselineOf([], c, s).None?
  {}

  lemma ComponentPut(e: Effective, name: string, settings: map<string, Setting>, c: string, s: string)
    ensures Get(e[name := settings], c, s) == if c == name then At(settings, s) else Get(e, c, s)
  {}

  lemma DistinctStep(components: seq<Component>, i: nat)
    requires i < |components|
    ensures DistinctComponents(components[..i + 1]) <==>
              DistinctComponents(components[..i]) && forall k :: 0 <= k < i ==> components[k].name != components[i].name
  {
    var longer, shorter := components[..i + 1], components[..i];
    assert forall k :: 0 <= k < i ==> longer[k] == shorter[k] == components[k];
    assert longer[i] == components[i];
  }

  lemma {:induction false} NamedAppended(components: seq<Component>, c: Component, n: string)
    ensures Named(components + [c], n) == if Named(components, n).Some? then Named(components, n) else if c.name == n then Some(c) else None
  {
    if components == [] {
      assert [c][1..] == [];
    } else {
      assert (components + [c])[1..] == components[1..] + [c];
      NamedAppended(components[1..], c, n);
    }
  }

  lemma {:induction false} NamedIn(components: seq<Component>, n: string)
    ensures Named(components, n).Some? ==> Named(components, n).value in components && Named(components, n).value.name == n
    ensures KindOf(components, n) == if Named(components, n).Some? then Some(Named(components, n).value.kind) else None
  {
    if components != [] {
      NamedIn(components[1..], n);
    }
  }

  lemma NamedStep(components: seq<Component>, i: nat, c: string, s: string)
    requires i < |components| && forall k :: 0 <= k < i ==> components[k].name != components[i].name
    ensures BaselineOf(components[..i + 1], c, s)
            == if c == components[i].name then Baseline(components[i], s) else BaselineOf(components[..i], c, s)
  {
    hide Baseline;
    assert components[..i + 1] == components[..i] + [components[i]];
    NamedAppended(components[..i], components[i], c);
    NamedIn(components[..i], c);
    if Named(components[..i], c).Some? {
      var k :| 0 <= k < i && components[..i][k] == Named(components[..i], c).value;
    }
  }

  // ----- capabilities and engines -----

  function Word(settings: map<string, Setting>, name: string): Option<string> {
    if name !in settings || settings[name].IntS? then None else Some(settings[name].s)
  }

  /** What a component needs: by kind, by its engine and runtime, and as declared. */
  predicate Needs(c: Component, settings: map<string, Setting>, capability: string) {
    || capability in Intrinsic(c.kind)
    || (Word(settings, "engine") == Some("sqlite") && capability == "persistentFilesystem")
    || (Word(settings, "runtime") == Some("container") && capability == "container")
    || (capability in c.requires_ && capability in CAPABILITIES)
  }

  ghost predicate Covered(c: Component, settings: map<string, Setting>, target: Target) {
    && (forall capability :: Needs(c, settings, capability) ==> capability in Provides(target))
    && (c.kind.Database? && Word(settings, "engine").Some? ==> Word(settings, "engine").value in Hosts(target))
  }

  method CheckComponent(c: Component, settings: map<string, Setting>, target: Target) returns (problems: seq<Problem>)
    ensures problems == [] <==> Covered(c, settings, target)
  {
    var required := Required(c, settings);
    hide Needs;
    problems := [];
    for i := 0 to |required|
      invariant problems == [] <==> forall k :: 0 <= k < i ==> required[k] in Provides(target)
    {
      if required[i] !in Provides(target) {
        problems := problems + [MissingCapability(c.name, required[i])];
      }
    }
    assert forall capability :: Needs(c, settings, capability) ==> exists k :: 0 <= k < |required| && required[k] == capability;
    assert forall k :: 0 <= k < |required| ==> Needs(c, settings, required[k]);
    if c.kind.Database? && Word(settings, "engine").Some? && Word(settings, "engine").value !in Hosts(target) {
      problems := problems + [EngineUnavailable(c.name, Word(settings, "engine").value)];
    }
  }

  method Required(c: Component, settings: map<string, Setting>) returns (required: seq<string>)
    ensures forall capability :: capability in required <==> Needs(c, settings, capability)
  {
    required := Intrinsic(c.kind);
    if Word(settings, "engine") == Some("sqlite") { required := required + ["persistentFilesystem"]; }
    if Word(settings, "runtime") == Some("container") { required := required + ["container"]; }
    ghost var before := required;
    for i := 0 to |c.requires_|
      invariant forall capability :: capability in required <==>
                  capability in before || exists k :: 0 <= k < i && c.requires_[k] == capability && capability in CAPABILITIES
    {
      if c.requires_[i] in CAPABILITIES && c.requires_[i] !in required {
        required := required + [c.requires_[i]];
      }
    }
  }

  // ----- policies -----

  function TypeOfSpec(s: Spec): Ty {
    if s.IntSpec? then IntTy else TextTy
  }

  function Reads(s: Setting): Value {
    if s.IntS? then IntV(s.n) else TextV(s.s)
  }

  /** The type of each `component.setting`. */
  function UniverseOf(components: seq<Component>): Universe {
    map c, s | c in (set x | x in components :: x.name) && KindOf(components, c).Some? && s in Vocabulary(KindOf(components, c).value)
      :: (c, s) := TypeOfSpec(Vocabulary(KindOf(components, c).value)[s])
  }

  function Names(components: seq<Component>): set<string> {
    set x | x in components :: x.name
  }

  function SettingsOf(e: Effective): Settings {
    map c, s | c in e && s in e[c] :: (c, s) := Reads(e[c][s])
  }

  /** The policy typechecks as a condition and comes out as it should. */
  predicate Meets(p: Policy, components: seq<Component>, e: Effective) {
    && TypeOf(UniverseOf(components), Names(components), p.condition) == Some(BoolTy)
    && Evaluate(p.condition, SettingsOf(e)) == Ok(BoolV(!p.prohibit))
  }

  method CheckPolicy(p: Policy, components: seq<Component>, e: Effective) returns (problems: seq<Problem>)
    ensures problems == [] <==> Meets(p, components, e)
  {
    if TypeOf(UniverseOf(components), Names(components), p.condition) != Some(BoolTy) {
      return [PolicyNotMet(p)];
    }
    var value := Evaluate(p.condition, SettingsOf(e));
    if value.Err? || !value.value.BoolV? {
      return [PolicyNotMet(p)];
    }
    problems := if value.value.b == p.prohibit then [PolicyNotMet(p)] else [];
  }

  // ----- the deployment -----

  /** The override, else the profile default, else the baseline. */
  function Layered(components: seq<Component>, defaults: seq<Line>, overrides: seq<Line>, c: string, s: string): Option<Setting> {
    Over(overrides, c, s, Over(defaults, c, s, BaselineOf(components, c, s)))
  }

  ghost predicate LayersOk(components: seq<Component>, defaults: seq<Line>, overrides: seq<Line>) {
    && DistinctComponents(components) && (forall i :: 0 <= i < |components| ==> BaselineOk(components[i]))
    && NoRepeats(defaults) && (forall i :: 0 <= i < |defaults| ==> LineOk(components, defaults[i]))
    && NoRepeats(overrides) && (forall i :: 0 <= i < |overrides| ==> LineOk(components, overrides[i]))
  }

  function Of(e: Effective, c: string): map<string, Setting> {
    if c in e then e[c] else map[]
  }

  /** Nothing is reported exactly when every layer is in order, every component's
      needs are covered, and every policy is met, under the layered settings. */
  method CheckDeployment(components: seq<Component>, target: Target, defaults: seq<Line>, overrides: seq<Line>, policies: seq<Policy>)
    returns (effective: Effective, problems: seq<Problem>)
    ensures LayersOk(components, defaults, overrides) ==>
              forall c, s :: Get(effective, c, s) == Layered(components, defaults, overrides, c, s)
    ensures problems == [] <==>
              && LayersOk(components, defaults, overrides)
              && (forall c :: c in components ==> Covered(c, Of(effective, c.name), target))
              && (forall p :: p in policies ==> Meets(p, components, effective))
  {
    hide BaselineOk, LineOk, NoRepeats, DistinctComponents, Covered, Meets, Over, BaselineOf;
    var baseline, base := Baselines(components);
    var configured, defaulted := ApplySettings(defaults, components, baseline);
    var overridden;
    effective, overridden := ApplySettings(overrides, components, configured);
    problems := base + defaulted + overridden;
    for i := 0 to |components|
      invariant problems == [] <==>
                  && LayersOk(components, defaults, overrides)
                  && forall k :: 0 <= k < i ==> Covered(components[k], Of(effective, components[k].name), target)
    {
      var found := CheckComponent(components[i], Of(effective, components[i].name), target);
      problems := problems + found;
    }
    for i := 0 to |policies|
      invariant problems == [] <==>
                  && LayersOk(components, defaults, overrides)
                  && (forall c :: c in components ==> Covered(c, Of(effective, c.name), target))
                  && forall k :: 0 <= k < i ==> Meets(policies[k], components, effective)
    {
      var found := CheckPolicy(policies[i], components, effective);
      problems := problems + found;
    }
  }

  // ----- what a deployment without problems promises -----

  lemma {:induction false} ValueIsALine(lines: seq<Line>, path: seq<string>)
    ensures ValueAt(lines, path).Some? ==> exists i :: 0 <= i < |lines| && lines[i].path == path && lines[i].value == ValueAt(lines, path).value
  {
    if lines != [] && lines[0].path != path {
      ValueIsALine(lines[1..], path);
      if ValueAt(lines, path).Some? {
        var i :| 0 <= i < |lines[1..]| && lines[1..][i].path == path && lines[1..][i].value == ValueAt(lines, path).value;
        assert lines[i + 1] == lines[1..][i];
      }
    }
  }

  lemma AdmittedIsInVocabulary(k: Kind, name: string, v: Authored)
    requires Admits(k, name, v)
    ensures InVocabulary(k, name, Lowered(v))
  {}

  lemma LineValueInVocabulary(components: seq<Component>, lines: seq<Line>, c: string, s: string)
    requires forall i :: 0 <= i < |lines| ==> LineOk(components, lines[i])
    ensures ValueAt(lines, [c, s]).Some? ==>
              KindOf(components, c).Some? && InVocabulary(KindOf(components, c).value, s, Lowered(ValueAt(lines, [c, s]).value))
  {
    hide Admits, InVocabulary;
    ValueIsALine(lines, [c, s]);
    if ValueAt(lines, [c, s]).Some? {
      var i :| 0 <= i < |lines| && lines[i].path == [c, s] && lines[i].value == ValueAt(lines, [c, s]).value;
      assert LineOk(components, lines[i]);
      AdmittedIsInVocabulary(KindOf(components, c).value, s, lines[i].value);
    }
  }

  /** Whatever layer it comes from, an effective value is one of its component kind's
      vocabulary. */
  lemma LayeredInVocabulary(components: seq<Component>, defaults: seq<Line>, overrides: seq<Line>, c: string, s: string)
    requires LayersOk(components, defaults, overrides) && Layered(components, defaults, overrides, c, s).Some?
    ensures KindOf(components, c).Some?
    ensures InVocabulary(KindOf(components, c).value, s, Layered(components, defaults, overrides, c, s).value)
  {
    hide Admits, InVocabulary, LineOk;
    LineValueInVocabulary(components, overrides, c, s);
    LineValueInVocabulary(components, defaults, c, s);
    NamedIn(components, c);
    if ValueAt(overrides, [c, s]).None? && ValueAt(defaults, [c, s]).None? {
      var component := Named(components, c).value;
      assert BaselineOk(component);
      ValueIsALine(component.settings, [s]);
      var i :| 0 <= i < |component.settings| && component.settings[i].path == [s]
               && component.settings[i].value == ValueAt(component.settings, [s]).value;
      AdmittedIsInVocabulary(component.kind, s, component.settings[i].value);
    }
  }

  /** Hence the settings have the types the policies were checked at. */
  lemma EffectiveIsTyped(components: seq<Component>, defaults: seq<Line>, overrides: seq<Line>, e: Effective)
    requires LayersOk(components, defaults, overrides)
    requires forall c, s :: Get(e, c, s) == Layered(components, defaults, overrides, c, s)
    ensures SettingsTyped(UniverseOf(components), SettingsOf(e))
  {
    hide *;
    TypedPointwise(UniverseOf(components), SettingsOf(e));
    forall c, s | (c, s) in SettingsOf(e) && (c, s) in UniverseOf(components)
      ensures HasType(SettingsOf(e)[(c, s)], UniverseOf(components)[(c, s)])
    {
      SettingAt(e, c, s);
      UniverseAt(components, c, s);
      LayeredInVocabulary(components, defaults, overrides, c, s);
      VocabularyTyped(KindOf(components, c).value, s, Layered(components, defaults, overrides, c, s).value);
    }
  }

  lemma TypedPointwise(u: Universe, settings: Settings)
    ensures (forall c, s :: (c, s) in settings && (c, s) in u ==> HasType(settings[(c, s)], u[(c, s)])) ==> SettingsTyped(u, settings)
  {
    hide HasType;
    if forall c, s :: (c, s) in settings && (c, s) in u ==> HasType(settings[(c, s)], u[(c, s)]) {
      forall k | k in settings && k in u ensures HasType(settings[k], u[k]) {
        assert k == (k.0, k.1);
      }
    }
  }

  lemma SettingAt(e: Effective, c: string, s: string)
    requires (c, s) in SettingsOf(e)
    ensures Get(e, c, s).Some? && SettingsOf(e)[(c, s)] == Reads(Get(e, c, s).value)
  {}

  lemma UniverseAt(components: seq<Component>, c: string, s: string)
    requires (c, s) in UniverseOf(components)
    ensures KindOf(components, c).Some? && s in Vocabulary(KindOf(components, c).value)
    ensures UniverseOf(components)[(c, s)] == TypeOfSpec(Vocabulary(KindOf(components, c).value)[s])
  {
    hide Vocabulary, KindOf, TypeOfSpec;
  }

  lemma VocabularyTyped(k: Kind, s: string, v: Setting)
    requires InVocabulary(k, s, v)
    ensures HasType(Reads(v), TypeOfSpec(Vocabulary(k)[s]))
  {
    hide Vocabulary;
  }

  /** Under the effective settings every `require` of a published deployment holds and
      no `prohibit` does, in exact arithmetic. */
  lemma PoliciesHoldExactly(components: seq<Component>, defaults: seq<Line>, overrides: seq<Line>, e: Effective, p: Policy)
    requires LayersOk(components, defaults, overrides)
    requires forall c, s :: Get(e, c, s) == Layered(components, defaults, overrides, c, s)
    requires Meets(p, components, e)
    ensures Supported(UniverseOf(components), Names(components), p.condition)
    ensures Exact(p.condition, SettingsOf(e)) == Some(BoolV(!p.prohibit))
  {
    EffectiveIsTyped(components, defaults, overrides, e);
    EvaluatedIsSupported(UniverseOf(components), Names(components), p.condition, SettingsOf(e), BoolTy);
    EvaluatesExactly(UniverseOf(components), Names(components), p.condition, SettingsOf(e), BoolTy);
  }

  /** What evaluates at all is built of supported constructs. */
  lemma {:induction false} EvaluatedIsSupported(u: Universe, components: set<string>, e: Condition, settings: Settings, t: Ty)
    requires TypeOf(u, components, e) == Some(t) && SettingsTyped(u, settings) && Evaluate(e, settings).Ok?
    ensures Supported(u, components, e)
  {
    match e
    case Not(inner) => EvaluatedIsSupported(u, components, inner, settings, BoolTy);
    case Neg(inner) => EvaluatedIsSupported(u, components, inner, settings, IntTy);
    case Binary(op, lhs, rhs) =>
      var lt, rt := OperandTypes(u, components, e, t);
      EvaluatedIsSupported(u, components, lhs, settings, lt);
      EvaluatedIsSupported(u, components, rhs, settings, rt);
      if op.Add? && lt.TextTy? {
        ConcatenationGoesWrong(u, components, lhs, rhs, settings);
      }
    case _ =>
  }

  // ----- what policies read -----

  ghost predicate HasLine(lines: seq<Line>, path: seq<string>, v: Authored) {
    Line(path, v) in lines
  }

  ghost predicate NoLine(lines: seq<Line>, path: seq<string>) {
    forall line :: line in lines ==> line.path != path
  }

  /** The value is the one written for `c.s`: as an override, else as a default, else
      as the component's baseline. */
  ghost predicate WrittenFor(components: seq<Component>, defaults: seq<Line>, overrides: seq<Line>, c: string, s: string, v: Authored) {
    || HasLine(overrides, [c, s], v)
    || (NoLine(overrides, [c, s]) && HasLine(defaults, [c, s], v))
    || (NoLine(overrides, [c, s]) && NoLine(defaults, [c, s]) && exists x :: x in components && x.name == c && HasLine(x.settings, [s], v))
  }

  /** A policy reads a number as that number, a string or a word as its text. */
  ghost predicate ReadsAs(v: Authored, value: Value) {
    match v
    case IntLit(n) => value == IntV(n)
    case StrLit(s) => value == TextV(s)
    case WordLit(s) => value == TextV(s)
  }

  lemma {:induction false} FirstLineDecides(lines: seq<Line>, path: seq<string>, v: Authored)
    requires NoRepeats(lines)
    ensures ValueAt(lines, path) == Some(v) <==> HasLine(lines, path, v)
    ensures ValueAt(lines, path).None? <==> NoLine(lines, path)
  {
    if lines != [] {
      assert lines == [lines[0]] + lines[1..];
      FirstLineDecides(lines[1..], path, v);
    }
  }

  lemma {:induction false} NamedOnce(components: seq<Component>, x: Component)
    requires DistinctComponents(components) && x in components
    ensures Named(components, x.name) == Some(x)
  {
    if components[0] != x {
      assert components == [components[0]] + components[1..];
      var k :| 0 < k < |components| && components[k] == x;
      NamedOnce(components[1..], x);
    }
  }

  lemma {:induction false} NamedIsListed(components: seq<Component>, name: string)
    ensures Named(components, name).Some? ==> Named(components, name).value in components && Named(components, name).value.name == name
  {
    if components != [] && components[0].name != name {
      NamedIsListed(components[1..], name);
    }
  }

  lemma BaselineRead(components: seq<Component>, c: string, s: string, v: Authored)
    requires DistinctComponents(components) && forall i :: 0 <= i < |components| ==> BaselineOk(components[i])
    ensures BaselineOf(components, c, s) == Some(Lowered(v)) <==> exists x :: x in components && x.name == c && HasLine(x.settings, [s], v)
  {
    hide DistinctComponents, HasLine, NoRepeats, Admits;
    NamedIsListed(components, c);
    if Named(components, c).Some? {
      var x := Named(components, c).value;
      assert BaselineOk(x);
      FirstLineDecides(x.settings, [s], v);
      LoweredApart(ValueAt(x.settings, [s]), v);
    }
    forall x | x in components && x.name == c ensures Named(components, c) == Some(x) {
      NamedOnce(components, x);
    }
  }

  lemma LoweredApart(found: Option<Authored>, v: Authored)
    ensures found.Some? && Lowered(found.value) == Lowered(v) ==> found == Some(v)
  {}

  /** In a deployment without problems a policy reads, of each setting, what is written
      for it, and reads nothing else. */
  lemma PoliciesReadWhatIsWritten(components: seq<Component>, defaults: seq<Line>, overrides: seq<Line>, e: Effective, c: string, s: string, v: Authored)
    requires LayersOk(components, defaults, overrides)
    requires forall c, s :: Get(e, c, s) == Layered(components, defaults, overrides, c, s)
    ensures WrittenFor(components, defaults, overrides, c, s, v) <==> Layered(components, defaults, overrides, c, s) == Some(Lowered(v))
    ensures WrittenFor(components, defaults, overrides, c, s, v) ==> (c, s) in SettingsOf(e) && ReadsAs(v, SettingsOf(e)[(c, s)])
    ensures (c, s) in SettingsOf(e) ==> exists w :: WrittenFor(components, defaults, overrides, c, s, w)
  {
    LayerDecides(components, defaults, overrides, c, s, v);
    SettingPresent(e, c, s);
    if (c, s) in SettingsOf(e) {
      var w := Raised(Layered(components, defaults, overrides, c, s).value);
      LayerDecides(components, defaults, overrides, c, s, w);
    }
  }

  function Raised(s: Setting): (v: Authored)
    ensures Lowered(v) == s
  {
    match s
    case IntS(n) => IntLit(n)
    case TextS(t) => StrLit(t)
    case WordS(t) => WordLit(t)
  }

  lemma SettingPresent(e: Effective, c: string, s: string)
    ensures (c, s) in SettingsOf(e) <==> Get(e, c, s).Some?
    ensures (c, s) in SettingsOf(e) ==> SettingsOf(e)[(c, s)] == Reads(Get(e, c, s).value)
  {}

  lemma LayerDecides(components: seq<Component>, defaults: seq<Line>, overrides: seq<Line>, c: string, s: string, v: Authored)
    requires LayersOk(components, defaults, overrides)
    ensures WrittenFor(components, defaults, overrides, c, s, v) <==> Layered(components, defaults, overrides, c, s) == Some(Lowered(v))
  {
    BaselineRead(components, c, s, v);
    FirstLineDecides(overrides, [c, s], v);
    FirstLineDecides(defaults, [c, s], v);
    LoweredApart(ValueAt(overrides, [c, s]), v);
    LoweredApart(ValueAt(defaults, [c, s]), v);
    hide LayersOk, HasLine, NoLine, BaselineOf, Lowered;
  }
}

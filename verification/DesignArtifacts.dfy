/** Compiling a design file against its domains: how each machine's names resolve,
    what withholds the artifact, and when the states of published machines are
    literals of their enums. */
module DesignArtifacts {
  import opened Common
  import opened Domains
  import opened Machines
  import opened MachineValidator
  import opened MachineRuns

  datatype MachineDecl = MachineDecl(type_: Name, authored: Authored)

  datatype DesignDecl = DesignDecl(cls: string, entity: bool, machine: Option<MachineDecl>)

  datatype Design = Design(cls: string, machine: Option<Machine>)

  // ----- what a machine is checked against -----

  function BindingOf(units: seq<Unit>, key: Option<ClassKey>, field: string, type_: TypeRef): Binding {
    if key.None? || !AllLowered(units) then Unresolved
    else
      match FeaturesFrom(Lowered(units), [key.value], [key.value], [])
      case None => NoSuchFeature
      case Some(features) =>
        match FeatureNamed(features, field)
        case None => NoSuchFeature
        case Some(f) => if f.type_ == type_ then Bound else OtherType
  }

  /** What a binding means for the class's own features and those it inherits: there
      is no such feature exactly when a class on the chain is missing or none declares
      one of that name; a feature that is bound has the type and one that is not has
      another; and the class's own feature of the name decides if it has one. */
  ghost predicate BindingMeans(union: Model, key: ClassKey, field: string, type_: TypeRef, binding: Binding) {
    && (binding == NoSuchFeature <==> !ChainComplete(union, key) || forall f :: Inherits(union, key, f) ==> f.name != field)
    && (binding == Bound ==> Inherits(union, key, Feature(field, type_)))
    && (binding == OtherType ==> exists f :: Inherits(union, key, f) && f.name == field && f.type_ != type_)
    && (ChainComplete(union, key) ==> forall own :: OwnFeature(union, key, field, own) ==> binding == if own.type_ == type_ then Bound else OtherType)
    && binding != Unresolved
  }

  /** The first feature of the name the class declares itself. */
  ghost predicate OwnFeature(union: Model, key: ClassKey, field: string, own: Feature) {
    FindClass(union, key).Some? && IsFirst(FindClass(union, key).value.features, field, own)
  }

  ghost predicate IsFirst(features: seq<Feature>, field: string, f: Feature) {
    exists k :: 0 <= k < |features| && features[k] == f && f.name == field && forall m :: 0 <= m < k ==> features[m].name != field
  }

  /** In the union of all domains a binding means what it says of the class's chain. */
  lemma BindingIsOnChain(units: seq<Unit>, key: Option<ClassKey>, field: string, type_: TypeRef)
    ensures BindingOf(units, key, field, type_) == Unresolved <==> key.None? || !AllLowered(units)
    ensures key.Some? && AllLowered(units) ==> BindingMeans(Lowered(units), key.value, field, type_, BindingOf(units, key, field, type_))
  {
    hide AllLowered, Lowered, FeaturesFrom, ChainComplete, Inherits, OwnFeature, FeatureNamed;
    if key.Some? && AllLowered(units) {
      var union := Lowered(units);
      FeaturesAreInherited(union, key.value);
      var features := FeaturesFrom(union, [key.value], [key.value], []);
      if features.Some? {
        var found := FeatureNamed(features.value, field);
        if found.Some? {
          var k :| 0 <= k < |features.value| && features.value[k] == found.value && found.value.name == field;
          assert found.value in features.value;
          assert found.value == Feature(field, found.value.type_);
        }
        forall own | OwnFeature(union, key.value, field, own) ensures found == Some(own) {
          OwnFeatureFirst(union, key.value, field, own, features.value);
        }
      }
    }
  }

  lemma FirstIsNamed(features: seq<Feature>, field: string, f: Feature)
    requires IsFirst(features, field, f)
    ensures FeatureNamed(features, field) == Some(f)
  {
    hide FeatureNamed;
    var found := FeatureNamed(features, field);
    assert f in features;
    var k :| 0 <= k < |features| && features[k] == found.value && found.value.name == field && forall m :: 0 <= m < k ==> features[m].name != field;
    var j :| 0 <= j < |features| && features[j] == f && f.name == field && forall m :: 0 <= m < j ==> features[m].name != field;
    assert j == k;
  }

  lemma {:induction false} GatheredStarts(union: Model, order: seq<ClassKey>)
    requires order != [] && forall b :: b in order ==> FindClass(union, b).Some?
    ensures FindClass(union, order[0]).value.features <= Gathered(union, order)
  {
    hide FindClass;
    var front := order[..|order| - 1];
    assert order == front + [order[|order| - 1]];
    if front != [] {
      GatheredStarts(union, front);
    } else {
      assert Gathered(union, front) == [];
      assert [] + FindClass(union, order[0]).value.features == FindClass(union, order[0]).value.features;
    }
  }

  lemma OwnFeatureFirst(union: Model, key: ClassKey, field: string, own: Feature, features: seq<Feature>)
    requires ChainFeatures(union, key, features) && OwnFeature(union, key, field, own)
    ensures FeatureNamed(features, field) == Some(own)
  {
    hide OnChain, FindClass, Gathered, FeatureNamed;
    var order: seq<ClassKey> :|
      && NoDup(order) && order != [] && order[0] == key
      && (forall b :: b in order <==> OnChain(union, key, b))
      && (forall b :: b in order ==> FindClass(union, b).Some?)
      && features == Gathered(union, order);
    GatheredStarts(union, order);
    var mine := FindClass(union, key).value.features;
    var k :| 0 <= k < |mine| && mine[k] == own && own.name == field && forall m :: 0 <= m < k ==> mine[m].name != field;
    assert forall m :: 0 <= m < |mine| ==> features[m] == mine[m];
    FirstIsNamed(features, field, own);
  }

  /** The literals the states are compared with: of an enum, in the union model. */
  function LiteralsOf(units: seq<Unit>, type_: TypeRef): Option<seq<string>> {
    if type_.kind.EnumKind? && AllLowered(units) then LiteralsIn(Lowered(units), type_.package, type_.name) else None
  }

  function ContextOf(units: seq<Unit>, base: Option<string>, d: DesignDecl, m: MachineDecl): Context {
    var type_ := ResolveType(Scope(units), base, m.type_);
    Context(
      d.entity,
      type_.kind.EnumKind?,
      BindingOf(units, ResolveClass(Scope(units), base, d.cls), m.authored.field, type_),
      LiteralsOf(units, type_))
  }

  method FindContext(units: seq<Unit>, scope: seq<Package>, union: Option<Model>, base: Option<string>, d: DesignDecl, m: MachineDecl)
    returns (c: Context)
    requires scope == Scope(units) && union == Union(units)
    ensures c == ContextOf(units, base, d, m)
    ensures var key := ResolveClass(Scope(units), base, d.cls);
            if key.Some? && AllLowered(units)
            then BindingMeans(Lowered(units), key.value, m.authored.field, ResolveType(Scope(units), base, m.type_), c.binding)
            else c.binding == Unresolved
  {
    BindingIsOnChain(units, ResolveClass(Scope(units), base, d.cls), m.authored.field, ResolveType(Scope(units), base, m.type_));
    hide BindingMeans;
    var type_ := ResolveType(scope, base, m.type_);
    var key := ResolveClass(scope, base, d.cls);
    var binding := Unresolved;
    var literals := None;
    if union.Some? {
      if key.Some? {
        var features := ClassFeatures(union.value, key.value);
        var feature := if features.Some? then FeatureNamed(features.value, m.authored.field) else None;
        binding := if feature.None? then NoSuchFeature else if feature.value.type_ == type_ then Bound else OtherType;
      }
      if type_.kind.EnumKind? {
        literals := LiteralsIn(union.value, type_.package, type_.name);
      }
    }
    c := Context(d.entity, type_.kind.EnumKind?, binding, literals);
  }

  // ----- the engine and its gate -----

  ghost predicate DesignOk(units: seq<Unit>, base: Option<string>, d: DesignDecl) {
    && ResolveClass(Scope(units), base, d.cls).Some?
    && (d.machine.Some? ==> Sound(d.machine.value.authored, ContextOf(units, base, d, d.machine.value)))
  }

  /** Nothing among the diagnostics the engine sees is an error. The sigil content's
      are not among them. `others` are those of the design file itself and of all
      other rules. */
  ghost predicate Publishes(units: seq<Unit>, base: Option<string>, designs: seq<DesignDecl>, others: seq<Severity>) {
    && Error !in others
    && (forall i :: 0 <= i < |units| ==> Error !in units[i].diagnostics)
    && BaseOk(Scope(units), base)
    && forall i :: 0 <= i < |designs| ==> DesignOk(units, base, designs[i])
  }

  /** A design as the artifact carries it: every edge, with its own guard. */
  predicate Carries(out: Design, d: DesignDecl) {
    && out.cls == d.cls
    && (d.machine.None? ==> out.machine.None?)
    && (d.machine.Some? ==>
          d.machine.value.authored.initial.Some? && out.machine == Some(Published(d.machine.value.authored)))
  }

  /** The engine: the artifact, unless some diagnostic is an error. */
  method CompileDesigns(units: seq<Unit>, base: Option<string>, designs: seq<DesignDecl>, others: seq<Severity>)
    returns (artifact: Option<seq<Design>>, diagnostics: seq<Severity>)
    ensures artifact.Some? <==> Publishes(units, base, designs, others)
    ensures artifact.Some? ==> |artifact.value| == |designs| && forall i :: 0 <= i < |designs| ==> Carries(artifact.value[i], designs[i])
    ensures artifact.None? <==> Error in diagnostics
  {
    hide Sound, Carries, ContextOf, DesignOk, Scope, Lowered, Union;
    diagnostics := others;
    for i := 0 to |units|
      invariant Error in diagnostics <==> Error in others || exists k :: 0 <= k < i && Error in units[k].diagnostics
    {
      diagnostics := diagnostics + units[i].diagnostics;
    }
    var scope := FindScope(units);
    var union := UnionModel(units);
    if !BaseOk(scope, base) {
      diagnostics := diagnostics + [Error];
    }
    ghost var before := diagnostics;
    var out: seq<Design> := [];
    for i := 0 to |designs|
      invariant |out| == i
      invariant Error in diagnostics <==> Error in before || exists k :: 0 <= k < i && !DesignOk(units, base, designs[k])
      invariant Error !in diagnostics ==> forall k :: 0 <= k < i ==> Carries(out[k], designs[k])
    {
      var found, lowered := CompileDesign(units, scope, union, base, designs[i]);
      diagnostics := diagnostics + found;
      out := out + [lowered];
    }
    artifact := if Error in diagnostics then None else Some(out);
  }

  method FindScope(units: seq<Unit>) returns (scope: seq<Package>)
    ensures scope == Scope(units)
  {
    scope := [];
    for i := 0 to |units|
      invariant scope == Scope(units[..i])
    {
      assert units[..i + 1][..i] == units[..i];
      if units[i].model.Some? {
        scope := scope + OwnScope(units[i].model.value);
      }
    }
    assert units[..|units|] == units;
  }

  method CompileDesign(units: seq<Unit>, scope: seq<Package>, union: Option<Model>, base: Option<string>, d: DesignDecl)
    returns (diagnostics: seq<Severity>, out: Design)
    requires scope == Scope(units) && union == Union(units)
    ensures Error in diagnostics <==> !DesignOk(units, base, d)
    ensures DesignOk(units, base, d) ==> Carries(out, d)
  {
    hide Sound, ContextOf;
    diagnostics := if ResolveClass(scope, base, d.cls).None? then [Error] else [];
    var machine: Option<Machine> := None;
    if d.machine.Some? {
      var m := d.machine.value.authored;
      var c := FindContext(units, scope, union, base, d, d.machine.value);
      var problems;
      machine, problems := LowerMachine(m, c);
      NoProblems(m, c, problems);
      if Sound(m, c) {
        SoundIsFaithful(m, c);
      }
      if problems != [] {
        diagnostics := diagnostics + [Error];
      }
    }
    out := Design(d.cls, machine);
  }

  /** The whole compile: the sigil content's diagnostics join after the gate. */
  method CompileFile(files: seq<DomainFile>, sigil: SigilImports, base: Option<string>, designs: seq<DesignDecl>, others: seq<Severity>)
    returns (artifact: Option<seq<Design>>, diagnostics: seq<Severity>, ghost units: seq<Unit>)
    ensures Lowers(files, sigil, units)
    ensures artifact.Some? <==> Publishes(units, base, designs, others)
    ensures artifact.Some? ==> |artifact.value| == |designs| && forall i :: 0 <= i < |designs| ==> Carries(artifact.value[i], designs[i])
    ensures Owner(files, sigil).Some? && Error in sigil.content ==> Error in diagnostics
  {
    hide Lowers, Publishes, Carries;
    var lowered, apart := LowerDomains(files, sigil);
    units := lowered;
    artifact, diagnostics := CompileDesigns(lowered, base, designs, others);
    diagnostics := diagnostics + apart;
  }

  // ----- when every file lowers -----

  /** Where no file has an error of its own, every file lowers exactly when none
      depends on failed sigil content. */
  lemma LoweredUnlessBlocked(files: seq<DomainFile>, sigil: SigilImports, units: seq<Unit>)
    requires Lowers(files, sigil, units) && forall i :: 0 <= i < |units| ==> Error !in units[i].diagnostics
    ensures AllLowered(units) <==> forall i :: 0 <= i < |files| ==> !Blocks(sigil, files[i].path)
  {
    forall i | 0 <= i < |files| ensures units[i].model.Some? <==> !Blocks(sigil, files[i].path) {}
  }

  /** The package belongs to a file that lowered. */
  ghost predicate Contributes(units: seq<Unit>, i: nat, p: Package) {
    i < |units| && units[i].model.Some? && p in units[i].model.value
  }

  lemma {:induction false} ContributedIs(units: seq<Unit>, p: Package)
    ensures p in Lowered(units) <==> exists i: nat :: Contributes(units, i, p)
  {
    if units != [] {
      var n := |units| - 1;
      ContributedIs(units[..n], p);
      if i: nat :| Contributes(units, i, p) {
        assert i < n ==> Contributes(units[..n], i, p);
      }
      if i: nat :| Contributes(units[..n], i, p) {
        assert Contributes(units, i, p);
      }
      assert units[n].model.Some? && p in units[n].model.value ==> Contributes(units, n, p);
    }
  }

  lemma {:induction false} KeptAre(sigil: SigilImports, n: nat, p: Package)
    requires n <= |sigil.namespaces| && p in Kept(sigil, n)
    ensures exists k :: 0 <= k < n && sigil.namespaces[k] == p
  {
    if p in Kept(sigil, n - 1) {
      KeptAre(sigil, n - 1, p);
    }
  }

  /** A contributed package is its file's own, whose name no earlier file uses, or a
      namespace, whose name no file uses. */
  lemma ContributedKind(files: seq<DomainFile>, sigil: SigilImports, units: seq<Unit>, i: nat, p: Package)
    requires Lowers(files, sigil, units) && Contributes(units, i, p)
    ensures (files[i].package == Some(p) && !Declared(files, i, p.name))
         || (exists k :: 0 <= k < |sigil.namespaces| && sigil.namespaces[k] == p && !Declared(files, |files|, p.name))
  {
    assert !Faulty(files, sigil, i);
    if files[i].package != Some(p) {
      KeptAre(sigil, |sigil.namespaces|, p);
      var k :| 0 <= k < |sigil.namespaces| && sigil.namespaces[k] == p;
      assert !Collides(files, sigil);
    }
  }

  /** Packages of the lowered files are told apart by name. */
  lemma NamedApart(files: seq<DomainFile>, sigil: SigilImports, units: seq<Unit>, p: Package, q: Package)
    requires Lowers(files, sigil, units) && p in Lowered(units) && q in Lowered(units) && p.name == q.name
    ensures p == q
  {
    ContributedIs(units, p);
    ContributedIs(units, q);
    var i: nat :| Contributes(units, i, p);
    var j: nat :| Contributes(units, j, q);
    ContributedKind(files, sigil, units, i, p);
    ContributedKind(files, sigil, units, j, q);
    hide Lowers, Contributes, Lowered;
  }

  lemma {:induction false} ScopeLowers(units: seq<Unit>, p: Package)
    requires p in Scope(units)
    ensures p in Lowered(units)
  {
    var n := |units| - 1;
    if p in Scope(units[..n]) {
      ScopeLowers(units[..n], p);
    }
  }

  /** What a name resolves to is declared by some package in scope. */
  lemma ResolvedIsDeclared(packages: seq<Package>, name: Name, t: TypeRef)
    requires ResolveIn(packages, name) == Some(t) && !t.kind.PrimitiveKind?
    ensures exists p :: p in packages && p.name == t.package && KindOf(p, t.name) == Some(t.kind)
  {
    hide KindOf, Joined, LowerCase;
    var last := name[|name| - 1];
    if |name| < 2 {
      var found := Declaring(packages, last);
      assert |found| == 1 ==> found[0] in found;
    }
  }

  /** The enum a machine binds is among the lowered packages, so with all of them in
      the union model its literals are found. */
  lemma BoundEnumHasLiterals(files: seq<DomainFile>, sigil: SigilImports, units: seq<Unit>, base: Option<string>, name: Name)
    requires Lowers(files, sigil, units) && ResolveType(Scope(units), base, name).kind.EnumKind?
    ensures var t := ResolveType(Scope(units), base, name); LiteralsIn(Lowered(units), t.package, t.name).Some?
  {
    hide Lowers, Lowered, Scope, KindOf, ResolveIn;
    var scope, t := Scope(units), ResolveType(Scope(units), base, name);
    var preferred := match base case None => None case Some(b) => Named(scope, b);
    if ResolveIn(scope, name) == Some(t) {
      ResolvedIsDeclared(scope, name, t);
    } else {
      assert preferred.Some? && ResolveIn([preferred.value], name) == Some(t);
      ResolvedIsDeclared([preferred.value], name, t);
    }
    var p :| p in scope && p.name == t.package && KindOf(p, t.name) == Some(EnumKind);
    ScopeLowers(units, p);
    var q := Named(Lowered(units), t.package).value;
    NamedApart(files, sigil, units, p, q);
    EnumIsThere(p, t.name);
  }

  lemma EnumIsThere(p: Package, name: string)
    requires KindOf(p, name) == Some(EnumKind)
    ensures EnumNamed(p.enums, name).Some?
  {
    var e :| e in p.enums && e.name == name;
  }

  // ----- the states of published machines -----

  /** The state is a literal of the enum the machine binds. */
  ghost predicate IsLiteral(units: seq<Unit>, base: Option<string>, m: MachineDecl, state: string) {
    var t := ResolveType(Scope(units), base, m.type_);
    var literals := LiteralsIn(Lowered(units), t.package, t.name);
    literals.Some? && state in literals.value
  }

  /** Every state of every run of the machine is such a literal. */
  ghost predicate VisitsLiterals(units: seq<Unit>, base: Option<string>, m: MachineDecl)
    requires m.authored.initial.Some?
  {
    forall run: seq<string>, k :: Run(Published(m.authored), run) && 0 <= k < |run| ==> IsLiteral(units, base, m, run[k])
  }

  /** In an artifact published with every imported file lowered, every state any run
      of any machine visits is a literal of the enum the machine binds. */
  lemma PublishedRunsVisitLiterals(files: seq<DomainFile>, sigil: SigilImports, units: seq<Unit>, base: Option<string>,
                                   designs: seq<DesignDecl>, others: seq<Severity>, i: nat)
    requires Lowers(files, sigil, units) && Publishes(units, base, designs, others) && AllLowered(units)
    requires i < |designs| && designs[i].machine.Some?
    ensures designs[i].machine.value.authored.initial.Some? && VisitsLiterals(units, base, designs[i].machine.value)
  {
    var d, m := designs[i], designs[i].machine.value;
    var c := ContextOf(units, base, d, m);
    assert DesignOk(units, base, d);
    hide Lowers, Publishes, AllLowered, Scope;
    SoundIsFaithful(m.authored, c);
    assert !Holds(NotAnEnum, m.authored, c);
    BoundEnumHasLiterals(files, sigil, units, base, m.type_);
    forall run: seq<string>, k | Run(Published(m.authored), run) && 0 <= k < |run| ensures IsLiteral(units, base, m, run[k]) {
      RunsVisitDeclared(m.authored, c, run, k);
    }
  }

  /** The machine of a single state. */
  function OneState(state: string): Authored {
    Authored("status", Some(state), [state], [])
  }

  /** With some file not lowered, any state at all gets published. */
  lemma AnythingGoesUnlessLowered(units: seq<Unit>, base: Option<string>, cls: string, type_: Name, state: string)
    requires Publishes(units, base, [], []) && !AllLowered(units)
    requires ResolveClass(Scope(units), base, cls).Some? && ResolveType(Scope(units), base, type_).kind.EnumKind?
    ensures Publishes(units, base, [DesignDecl(cls, true, Some(MachineDecl(type_, OneState(state))))], [])
    ensures Run(Published(OneState(state)), [state])
  {
    var m := MachineDecl(type_, OneState(state));
    var d := DesignDecl(cls, true, Some(m));
    var c := ContextOf(units, base, d, m);
    assert c == Context(true, true, Unresolved, None);
    OneStateIsSound(state, c);
    assert DesignOk(units, base, d);
  }

  lemma OneStateIsSound(state: string, c: Context)
    requires c == Context(true, true, Unresolved, None)
    ensures Sound(OneState(state), c)
  {
    var m := OneState(state);
    assert RowsOf(m.edges) == [];
    forall s | Declares(m, s) ensures s == state {}
    assert Path([], state, [state]) && [state][0] == state;
    forall p ensures !Holds(p, m, c) {
      if p.Unreachable? && Declares(m, p.state) {
        assert Reaches([], state, state);
      }
    }
  }

  /** No design file over these domains can get a machine published that visits a
      state its enum does not have. */
  ghost predicate LiteralsGuaranteed(units: seq<Unit>, base: Option<string>) {
    forall designs: seq<DesignDecl>, others: seq<Severity>, i ::
      (Publishes(units, base, designs, others) && 0 <= i < |designs| && designs[i].machine.Some?
       && designs[i].machine.value.authored.initial.Some?) ==>
        VisitsLiterals(units, base, designs[i].machine.value)
  }

  function Longer(names: seq<string>): (s: string)
    ensures forall n :: n in names ==> |n| < |s|
  {
    if names == [] then "x"
    else
      var s := Longer(names[1..]);
      if |names[0]| < |s| then s else names[0] + "x"
  }

  /** For domains without errors that declare a class and an enum: published states
      are literals if and only if no imported file depends on failed sigil content. */
  lemma LiteralsExactly(files: seq<DomainFile>, sigil: SigilImports, units: seq<Unit>, base: Option<string>, cls: string, type_: Name)
    requires Lowers(files, sigil, units) && Publishes(units, base, [], [])
    requires ResolveClass(Scope(units), base, cls).Some? && ResolveType(Scope(units), base, type_).kind.EnumKind?
    ensures LiteralsGuaranteed(units, base) <==> forall i :: 0 <= i < |files| ==> !Blocks(sigil, files[i].path)
  {
    LoweredUnlessBlocked(files, sigil, units);
    hide Lowers, Publishes, AllLowered, Blocks, Scope;
    if AllLowered(units) {
      forall designs: seq<DesignDecl>, others: seq<Severity>, i | Publishes(units, base, designs, others) && 0 <= i < |designs|
                 && designs[i].machine.Some?
        ensures designs[i].machine.value.authored.initial.Some? && VisitsLiterals(units, base, designs[i].machine.value)
      {
        PublishedRunsVisitLiterals(files, sigil, units, base, designs, others, i);
      }
    } else {
      BoundEnumHasLiterals(files, sigil, units, base, type_);
      var t := ResolveType(Scope(units), base, type_);
      var state := Longer(LiteralsIn(Lowered(units), t.package, t.name).value);
      AnythingGoesUnlessLowered(units, base, cls, type_, state);
      var m := MachineDecl(type_, OneState(state));
      var designs := [DesignDecl(cls, true, Some(m))];
      assert [state][0] == state && !IsLiteral(units, base, m, state);
      assert !VisitsLiterals(units, base, m);
      assert designs[0].machine == Some(m);
      assert !LiteralsGuaranteed(units, base);
    }
  }

  // ----- the failing input -----

  /** One domain file with a class and an enum of one literal, and one whose only fault
      is an import of a sigil file that does not parse. */
  function FailingFiles(): seq<DomainFile> {
    [DomainFile("a.mox", Some(Package("a", [ClassDef("Order", [], [])], [], [EnumDef("Status", ["Open"])], [], [], [])), []),
     DomainFile("b.mox", Some(Package("b", [], [], [], [], [], [])), [])]
  }

  function FailingImports(): SigilImports {
    SigilImports(Some("b.mox"), [], {}, [("b.mox", "broken.rosetta")], [], [], [Error])
  }

  /** The artifact is published with a machine whose only state is no literal of its
      enum, while the compile as a whole reports an error. */
  lemma UnparsedImportPublishesNonLiterals(units: seq<Unit>)
    requires Lowers(FailingFiles(), FailingImports(), units)
    ensures var m := MachineDecl(["Status"], OneState("nonsense"));
            && Publishes(units, None, [DesignDecl("Order", true, Some(m))], [])
            && Run(Published(m.authored), ["nonsense"]) && !IsLiteral(units, None, m, "nonsense")
            && Owner(FailingFiles(), FailingImports()).Some? && Error in FailingImports().content
  {
    var a := FailingFiles()[0].package.value;
    FailingUnits(units);
    FailingScope(units, a);
    FailingNames(a);
    hide Scope, Lowered, ResolveIn, LiteralsIn, At, OneState;
    AnythingGoesUnlessLowered(units, None, "Order", ["Status"], "nonsense");
  }

  lemma FailingScope(units: seq<Unit>, a: Package)
    requires |units| == 2 && units[0].model == Some([a]) && units[1].model == None
    ensures Scope(units) == [a] && Lowered(units) == [a]
  {
    assert units[..1] == [units[0]] && units[..1][..0] == [];
    assert Scope(units[..1]) == [a] && Lowered(units[..1]) == [a];
  }

  lemma FailingNames(a: Package)
    requires a == FailingFiles()[0].package.value
    ensures ResolveIn([a], ["Order"]) == Some(TypeRef(ClassKind, "a", "Order"))
    ensures ResolveIn([a], ["Status"]) == Some(TypeRef(EnumKind, "a", "Status"))
    ensures LiteralsIn([a], "a", "Status") == Some(["Open"])
  {
    assert a.enums[0].name == "Status" && a.classes[0].name == "Order";
    assert KindOf(a, "Status") == Some(EnumKind) && KindOf(a, "Order") == Some(ClassKind);
    assert [a][1..] == [];
    assert Declaring([a], "Status") == [a] && Declaring([a], "Order") == [a];
  }

  lemma FailingUnits(units: seq<Unit>)
    requires Lowers(FailingFiles(), FailingImports(), units)
    ensures |units| == 2 && units[0].model == Some([FailingFiles()[0].package.value]) && units[1].model == None
    ensures Error !in units[0].diagnostics && Error !in units[1].diagnostics
    ensures Owner(FailingFiles(), FailingImports()).Some?
  {
    var files, sigil := FailingFiles(), FailingImports();
    assert sigil.failedImports[0].0 == files[1].path;
    assert files[..1] == [files[0]] && files[..1][..0] == [];
    assert At(files[..1], "b.mox").None? && At(files, "b.mox") == Some(1);
    assert [files[0].package.value] + [] == [files[0].package.value];
    assert Kept(sigil, 0) == [];
    forall i | 0 <= i < 2 ensures !Faulty(files, sigil, i) {
      assert !Declared(files, i, files[i].package.value.name);
    }
  }
}

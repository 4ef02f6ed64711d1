/** The imported domain files of a design: which lower, what the names in them
    resolve to, and the union model that exists only when all of them lower. */
module Domains {
  import opened Common

  datatype Severity = Error | Warning

  datatype TopKind = ClassKind | InterfaceKind | EnumKind | DatatypeKind | VocabularyKind | ActorsKind | PrimitiveKind

  /** A resolved type: what it is, and the package and name it is declared under. */
  datatype TypeRef = TypeRef(kind: TopKind, package: string, name: string)

  datatype Feature = Feature(name: string, type_: TypeRef)

  type ClassKey = (string, string)

  datatype ClassDef = ClassDef(name: string, bases: seq<ClassKey>, features: seq<Feature>)

  datatype EnumDef = EnumDef(name: string, literals: seq<string>)

  datatype Package = Package(
    name: string,
    classes: seq<ClassDef>,
    interfaces: seq<string>,
    enums: seq<EnumDef>,
    datatypes: seq<string>,
    vocabularies: seq<string>,
    actors: seq<string>)

  type Model = seq<Package>

  /** A provided domain file: its package as lowered, and the diagnostics it draws
      on its own. */
  datatype DomainFile = DomainFile(path: string, package: Option<Package>, own: seq<Severity>)

  /** Sigil namespaces register once each, in order. */
  type Namespaces = s: seq<Package> | forall i, j :: 0 <= i < j < |s| ==> s[i].name != s[j].name witness []

  /** What the `import sigil` declarations came to. `anchored` diagnostics belong to a
      declaring file, `content` ones to the imported files. */
  datatype SigilImports = SigilImports(
    owner: Option<string>,
    namespaces: Namespaces,
    failedNamespaces: set<string>,
    failedImports: seq<(string, string)>,
    dependencies: seq<(string, string)>,
    anchored: seq<(string, Severity)>,
    content: seq<Severity>)

  /** A file depends on sigil content that failed: an import of its own did not parse,
      or names a namespace that failed. */
  predicate Blocks(sigil: SigilImports, path: string) {
    || (exists i :: 0 <= i < |sigil.failedImports| && sigil.failedImports[i].0 == path)
    || (exists i :: 0 <= i < |sigil.dependencies| && sigil.dependencies[i].0 == path && sigil.dependencies[i].1 in sigil.failedNamespaces)
  }

  /** One imported domain: its model when it lowered, and its own diagnostics. */
  datatype Unit = Unit(model: Option<Model>, diagnostics: seq<Severity>)

  // ----- lowering the files -----

  /** One of the first n files declares the package. */
  predicate Declared(files: seq<DomainFile>, n: nat, name: string)
    requires n <= |files|
  {
    exists k :: 0 <= k < n && files[k].package.Some? && files[k].package.value.name == name
  }

  /** The first file under a path. */
  function At(files: seq<DomainFile>, path: string): (i: Option<nat>)
    ensures i.Some? ==> i.value < |files| && files[i.value].path == path
    ensures i.None? ==> forall k :: 0 <= k < |files| ==> files[k].path != path
  {
    if files == [] then None
    else
      match At(files[..|files| - 1], path)
      case Some(k) => Some(k)
      case None => if files[|files| - 1].path == path then Some(|files| - 1) else None
  }

  function Owner(files: seq<DomainFile>, sigil: SigilImports): (i: Option<nat>)
    ensures i.Some? ==> i.value < |files|
  {
    match sigil.owner case None => None case Some(path) => At(files, path)
  }

  /** A namespace may not be called what a file calls its package. */
  predicate Collides(files: seq<DomainFile>, sigil: SigilImports) {
    exists k :: 0 <= k < |sigil.namespaces| && Declared(files, |files|, sigil.namespaces[k].name)
  }

  /** A missing or a repeated package is an error of the file. */
  predicate Mispackaged(files: seq<DomainFile>, i: nat)
    requires i < |files|
  {
    files[i].package.None? || Declared(files, i, files[i].package.value.name)
  }

  /** The file draws an error of its own. */
  predicate Faulty(files: seq<DomainFile>, sigil: SigilImports, i: nat)
    requires i < |files|
  {
    || Error in files[i].own
    || Mispackaged(files, i)
    || (exists k :: 0 <= k < |sigil.anchored| && At(files, sigil.anchored[k].0) == Some(i) && sigil.anchored[k].1 == Error)
    || (Owner(files, sigil) == Some(i) && Collides(files, sigil))
  }

  /** The namespaces that did not fail. */
  function Kept(sigil: SigilImports, n: nat): (out: seq<Package>)
    requires n <= |sigil.namespaces|
    ensures forall p :: p in out <==> exists k :: 0 <= k < n && sigil.namespaces[k] == p && p.name !in sigil.failedNamespaces
  {
    if n == 0 then []
    else Kept(sigil, n - 1) + if sigil.namespaces[n - 1].name in sigil.failedNamespaces then [] else [sigil.namespaces[n - 1]]
  }

  /** What a file lowers to: its own package and, on the first file that imports
      sigil content, the namespaces. */
  function ModelOf(files: seq<DomainFile>, sigil: SigilImports, i: nat): Option<Model>
    requires i < |files|
  {
    if Faulty(files, sigil, i) || Blocks(sigil, files[i].path) then None
    else Some([files[i].package.value] + if Owner(files, sigil) == Some(i) then Kept(sigil, |sigil.namespaces|) else [])
  }

  /** The units are those the files lower to. */
  ghost predicate Lowers(files: seq<DomainFile>, sigil: SigilImports, units: seq<Unit>) {
    && |units| == |files|
    && forall i :: 0 <= i < |files| ==>
         && units[i].model == ModelOf(files, sigil, i)
         && (Error in units[i].diagnostics <==> Faulty(files, sigil, i))
  }

  /** Each file's diagnostics gather in its own bucket; those of the sigil content
      stay apart, and are kept only if some file declares an import of it. */
  method LowerDomains(files: seq<DomainFile>, sigil: SigilImports) returns (units: seq<Unit>, apart: seq<Severity>)
    ensures Lowers(files, sigil, units)
    ensures Owner(files, sigil).Some? ==> forall d :: d in sigil.content ==> d in apart
  {
    var buckets: seq<seq<Severity>> := [];
    for i := 0 to |files|
      invariant |buckets| == i
      invariant forall k :: 0 <= k < i ==> (Error in buckets[k] <==> Error in files[k].own || Mispackaged(files, k))
    {
      var bucket := files[i].own;
      if files[i].package.None? || Declared(files, i, files[i].package.value.name) {
        bucket := bucket + [Error];
      }
      assert Error in bucket <==> Error in files[i].own || Mispackaged(files, i);
      buckets := buckets + [bucket];
    }
    var rest := [];
    buckets, rest := RouteAnchored(files, sigil, buckets);
    buckets := RouteCollisions(files, sigil, buckets);
    units := [];
    for i := 0 to |files|
      invariant |units| == i
      invariant forall k :: 0 <= k < i ==>
                  && units[k].model == ModelOf(files, sigil, k)
                  && (Error in units[k].diagnostics <==> Faulty(files, sigil, k))
    {
      assert Error in buckets[i] <==> Faulty(files, sigil, i);
      var blocked := Error in buckets[i] || Blocks(sigil, files[i].path);
      var model: Option<Model> := None;
      if !blocked {
        var packages := [files[i].package.value];
        if Owner(files, sigil) == Some(i) {
          packages := packages + Kept(sigil, |sigil.namespaces|);
        }
        assert [files[i].package.value] + [] == [files[i].package.value];
        model := Some(packages);
      }
      units := units + [Unit(model, buckets[i])];
    }
    apart := if Owner(files, sigil).Some? then sigil.content + rest else [];
  }

  predicate Anchored(files: seq<DomainFile>, sigil: SigilImports, n: nat, i: nat)
    requires n <= |sigil.anchored|
  {
    exists k :: 0 <= k < n && At(files, sigil.anchored[k].0) == Some(i) && sigil.anchored[k].1 == Error
  }

  method RouteAnchored(files: seq<DomainFile>, sigil: SigilImports, before: seq<seq<Severity>>)
    returns (buckets: seq<seq<Severity>>, rest: seq<Severity>)
    requires |before| == |files|
    ensures |buckets| == |files|
    ensures forall i :: 0 <= i < |files| ==> (Error in buckets[i] <==> Error in before[i] || Anchored(files, sigil, |sigil.anchored|, i))
  {
    buckets, rest := before, [];
    for k := 0 to |sigil.anchored|
      invariant |buckets| == |files|
      invariant forall i :: 0 <= i < |files| ==> (Error in buckets[i] <==> Error in before[i] || Anchored(files, sigil, k, i))
    {
      var (path, severity) := sigil.anchored[k];
      ghost var was := buckets;
      var at := At(files, path);
      if at.Some? {
        buckets := buckets[at.value := buckets[at.value] + [severity]];
      } else {
        rest := rest + [severity];
      }
      forall i | 0 <= i < |files| ensures Error in buckets[i] <==> Error in before[i] || Anchored(files, sigil, k + 1, i) {
        AnchoredStep(files, sigil, k, i);
        assert Error in buckets[i] <==> Error in was[i] || (at == Some(i) && severity == Error);
      }
    }
  }

  lemma AnchoredStep(files: seq<DomainFile>, sigil: SigilImports, k: nat, i: nat)
    requires k < |sigil.anchored|
    ensures Anchored(files, sigil, k + 1, i)
       <==> Anchored(files, sigil, k, i) || (At(files, sigil.anchored[k].0) == Some(i) && sigil.anchored[k].1 == Error)
  {}

  method RouteCollisions(files: seq<DomainFile>, sigil: SigilImports, before: seq<seq<Severity>>) returns (buckets: seq<seq<Severity>>)
    requires |before| == |files|
    ensures |buckets| == |files|
    ensures forall i :: 0 <= i < |files| ==>
              (Error in buckets[i] <==> Error in before[i] || (Owner(files, sigil) == Some(i) && Collides(files, sigil)))
  {
    buckets := before;
    var collides := false;
    for k := 0 to |sigil.namespaces|
      invariant collides <==> exists j :: 0 <= j < k && Declared(files, |files|, sigil.namespaces[j].name)
    {
      collides := collides || Declared(files, |files|, sigil.namespaces[k].name);
    }
    match Owner(files, sigil)
    case None =>
    case Some(i) =>
      if collides {
        buckets := buckets[i := buckets[i] + [Error]];
      }
  }

  // ----- the union -----

  /** The packages of all files that lowered. */
  function Lowered(units: seq<Unit>): Model {
    if units == [] then []
    else
      var last := units[|units| - 1];
      Lowered(units[..|units| - 1]) + if last.model.Some? then last.model.value else []
  }

  predicate AllLowered(units: seq<Unit>) {
    forall i :: 0 <= i < |units| ==> units[i].model.Some?
  }

  /** All packages in one namespace, or nothing unless every file lowered. */
  method UnionModel(units: seq<Unit>) returns (union: Option<Model>)
    ensures union == Union(units)
  {
    var packages: Model := [];
    for i := 0 to |units|
      invariant packages == Lowered(units[..i]) && forall k :: 0 <= k < i ==> units[k].model.Some?
    {
      assert units[..i + 1][..i] == units[..i];
      if units[i].model.None? {
        return None;
      }
      packages := packages + units[i].model.value;
    }
    assert units[..|units|] == units;
    union := Some(packages);
  }

  function Union(units: seq<Unit>): Option<Model> {
    if AllLowered(units) then Some(Lowered(units)) else None
  }

  function Named(packages: seq<Package>, name: string): (p: Option<Package>)
    ensures p.Some? ==> p.value in packages && p.value.name == name
    ensures p.None? ==> forall q :: q in packages ==> q.name != name
  {
    if packages == [] then None
    else if packages[0].name == name then Some(packages[0])
    else Named(packages[1..], name)
  }

  function EnumNamed(enums: seq<EnumDef>, name: string): (e: Option<EnumDef>)
    ensures e.Some? ==> e.value in enums && e.value.name == name
    ensures e.None? ==> forall f :: f in enums ==> f.name != name
  {
    if enums == [] then None
    else if enums[0].name == name then Some(enums[0])
    else EnumNamed(enums[1..], name)
  }

  /** The literals of an enum, looked up by the names of its package and its own. */
  function LiteralsIn(model: Model, package: string, name: string): Option<seq<string>> {
    match Named(model, package)
    case None => None
    case Some(p) => match EnumNamed(p.enums, name) case None => None case Some(e) => Some(e.literals)
  }

  // ----- resolution -----

  predicate HasClass(p: Package, name: string) {
    exists c :: c in p.classes && c.name == name
  }

  predicate HasEnum(p: Package, name: string) {
    exists e :: e in p.enums && e.name == name
  }

  /** The kind a package declares a name as; of several, the one listed last wins. */
  function KindOf(p: Package, name: string): Option<TopKind> {
    if name in p.actors then Some(ActorsKind)
    else if name in p.vocabularies then Some(VocabularyKind)
    else if name in p.datatypes then Some(DatatypeKind)
    else if HasEnum(p, name) then Some(EnumKind)
    else if name in p.interfaces then Some(InterfaceKind)
    else if HasClass(p, name) then Some(ClassKind)
    else None
  }

  /** The packages names are looked up in: those of the files that lowered, without
      a namespace called like the package of the file that carries it. */
  function Scope(units: seq<Unit>): seq<Package> {
    if units == [] then []
    else
      var last := units[|units| - 1];
      Scope(units[..|units| - 1]) + if last.model.Some? then OwnScope(last.model.value) else []
  }

  /** A package is in scope through a file that lowered: the file's own, or a namespace
      it carries that is not called like it. */
  ghost predicate Visible(units: seq<Unit>, i: nat, p: Package) {
    && i < |units| && units[i].model.Some? && units[i].model.value != []
    && var own := units[i].model.value[0]; p == own || (p in units[i].model.value[1..] && p.name != own.name)
  }

  lemma {:induction false} ScopeIs(units: seq<Unit>, p: Package)
    ensures p in Scope(units) <==> exists i: nat :: Visible(units, i, p)
  {
    if units != [] {
      var front, n := units[..|units| - 1], |units| - 1;
      ScopeIs(front, p);
      if p in Scope(front) {
        var i: nat :| Visible(front, i, p);
        assert Visible(units, i, p);
      } else if p in Scope(units) {
        assert Visible(units, n, p);
      }
      if i: nat :| Visible(units, i, p) {
        assert i < n ==> Visible(front, i, p);
      }
    }
  }

  function OwnScope(model: Model): seq<Package> {
    if model == [] then [] else [model[0]] + Unlike(model[0].name, model[1..])
  }

  function Unlike(name: string, packages: seq<Package>): (out: seq<Package>)
    ensures forall p :: p in out <==> p in packages && p.name != name
  {
    if packages == [] then []
    else (if packages[0].name == name then [] else [packages[0]]) + Unlike(name, packages[1..])
  }

  /** The segments of a name, at least one. */
  type Name = s: seq<string> | s != [] witness [""]

  function Joined(segments: seq<string>): string {
    if segments == [] then ""
    else if |segments| == 1 then segments[0]
    else Joined(segments[..|segments| - 1]) + "." + segments[|segments| - 1]
  }

  function LowerCase(s: string): string {
    seq(|s|, i requires 0 <= i < |s| => if 'A' <= s[i] <= 'Z' then ((s[i] as int) + 32) as char else s[i])
  }

  const PRIMITIVES := ["string", "int", "long", "short", "float", "double", "boolean", "byte", "char", "date"]

  function Classify(p: Package, name: string): Option<TypeRef> {
    match KindOf(p, name)
    case None => None
    case Some(kind) => if kind.ActorsKind? then None else Some(TypeRef(kind, p.name, name))
  }

  function Declaring(packages: seq<Package>, name: string): (out: seq<Package>)
    ensures forall p :: p in out <==> p in packages && KindOf(p, name).Some?
  {
    if packages == [] then []
    else (if KindOf(packages[0], name).Some? then [packages[0]] else []) + Declaring(packages[1..], name)
  }

  /** A qualified name is looked up in the package it names, a bare one in all of
      them, where it must be declared once. */
  function ResolveIn(packages: seq<Package>, name: Name): Option<TypeRef> {
    var last := name[|name| - 1];
    if |name| >= 2 then
      match Named(packages, Joined(name[..|name| - 1]))
      case None => None
      case Some(p) => Classify(p, last)
    else
      var found := Declaring(packages, last);
      if |found| == 0 then
        if LowerCase(last) in PRIMITIVES then Some(TypeRef(PrimitiveKind, "", LowerCase(last))) else None
      else if |found| == 1 then Classify(found[0], last)
      else None
  }

  /** A bare name the base package declares resolves there. */
  function Resolve(packages: seq<Package>, base: Option<string>, name: Name): Option<TypeRef> {
    var preferred := match base case None => None case Some(b) => Named(packages, b);
    if |name| == 1 && preferred.Some? && KindOf(preferred.value, name[0]).Some? then ResolveIn([preferred.value], name)
    else ResolveIn(packages, name)
  }

  /** Package `k`, and no other, declares the bare name. */
  ghost predicate SoleDeclarer(packages: seq<Package>, k: nat, name: string) {
    && k < |packages| && KindOf(packages[k], name).Some?
    && forall m :: 0 <= m < |packages| && KindOf(packages[m], name).Some? ==> m == k
  }

  ghost predicate Undeclared(packages: seq<Package>, name: string) {
    forall k :: 0 <= k < |packages| ==> KindOf(packages[k], name).None?
  }

  lemma {:induction false} DeclaringOnce(packages: seq<Package>, name: string)
    ensures Declaring(packages, name) == [] <==> Undeclared(packages, name)
    ensures forall k: nat :: SoleDeclarer(packages, k, name) ==> k < |packages| && Declaring(packages, name) == [packages[k]]
    ensures |Declaring(packages, name)| == 1 ==> exists k: nat :: SoleDeclarer(packages, k, name)
  {
    if packages == [] {
    } else if KindOf(packages[0], name).Some? {
      DeclaringOnce(packages[1..], name);
      hide KindOf;
      if Undeclared(packages[1..], name) {
        SoleFirst(packages, name);
      }
      forall k: nat | SoleDeclarer(packages, k, name) ensures Declaring(packages, name) == [packages[k]] {
        SoleInRest(packages, k, name);
      }
    } else {
      DeclaringOnce(packages[1..], name);
      SkipsFirst(packages, name);
      hide KindOf, SoleDeclarer, Undeclared, Declaring;
      forall k: nat | SoleDeclarer(packages, k, name) ensures k < |packages| && Declaring(packages, name) == [packages[k]] {
        SoleInRest(packages, k, name);
      }
      if k: nat :| SoleDeclarer(packages[1..], k, name) {
        SoleLater(packages, k, name);
      }
    }
  }

  lemma SkipsFirst(packages: seq<Package>, name: string)
    requires packages != [] && KindOf(packages[0], name).None?
    ensures Declaring(packages, name) == Declaring(packages[1..], name)
    ensures Undeclared(packages, name) <==> Undeclared(packages[1..], name)
  {
    hide KindOf;
    assert forall m :: 0 < m < |packages| ==> packages[m] == packages[1..][m - 1];
  }

  lemma SoleFirst(packages: seq<Package>, name: string)
    requires packages != [] && KindOf(packages[0], name).Some? && Undeclared(packages[1..], name)
    ensures SoleDeclarer(packages, 0, name)
  {
    hide KindOf;
    assert forall m :: 0 < m < |packages| ==> packages[m] == packages[1..][m - 1];
  }

  lemma SoleLater(packages: seq<Package>, k: nat, name: string)
    requires packages != [] && KindOf(packages[0], name).None? && SoleDeclarer(packages[1..], k, name)
    ensures SoleDeclarer(packages, k + 1, name)
  {
    hide KindOf;
    assert forall m :: 0 < m < |packages| ==> packages[m] == packages[1..][m - 1];
  }

  lemma SoleInRest(packages: seq<Package>, k: nat, name: string)
    requires SoleDeclarer(packages, k, name)
    ensures k < |packages|
    ensures if k == 0 then KindOf(packages[0], name).Some? && Undeclared(packages[1..], name)
            else KindOf(packages[0], name).None? && SoleDeclarer(packages[1..], k - 1, name)
  {
    hide KindOf;
    var rest := packages[1..];
    assert forall m :: 0 <= m < |rest| ==> rest[m] == packages[m + 1];
  }

  /** A bare name resolves to what the one package that declares it declares, unless
      that is a block of actors, or to the primitive of its lower-cased name if none
      does. */
  lemma BareResolves(packages: seq<Package>, name: string, t: TypeRef)
    ensures ResolveIn(packages, [name]) == Some(t) <==>
              || (exists k: nat :: SoleDeclarer(packages, k, name) && !t.kind.ActorsKind?
                                   && KindOf(packages[k], name) == Some(t.kind) && t.package == packages[k].name && t.name == name)
              || (Undeclared(packages, name) && LowerCase(name) in PRIMITIVES && t == TypeRef(PrimitiveKind, "", LowerCase(name)))
  {
    hide KindOf, LowerCase;
    DeclaringOnce(packages, name);
    var found := Declaring(packages, name);
    if |found| == 1 {
      var k: nat :| SoleDeclarer(packages, k, name);
      assert found == [packages[k]];
      assert forall m: nat :: SoleDeclarer(packages, m, name) ==> m == k;
    }
  }

  /** A base that names no package is reported and then ignored. */
  predicate BaseOk(packages: seq<Package>, base: Option<string>) {
    base.Some? ==> Named(packages, base.value).Some?
  }

  function ResolveClass(packages: seq<Package>, base: Option<string>, cls: string): Option<ClassKey> {
    match Resolve(packages, base, [cls])
    case None => None
    case Some(t) => if t.kind.ClassKind? then Some((t.package, t.name)) else None
  }

  /** A type that does not resolve stands as a class nobody declared. */
  function ResolveType(packages: seq<Package>, base: Option<string>, name: Name): TypeRef {
    match Resolve(packages, base, name)
    case Some(t) => t
    case None =>
      var package := if base.Some? && Named(packages, base.value).Some? then base.value else if packages != [] then packages[0].name else "";
      TypeRef(ClassKind, package, name[|name| - 1])
  }

  // ----- the features of a class, inherited ones included -----

  function ClassNamed(classes: seq<ClassDef>, name: string): (c: Option<ClassDef>)
    ensures c.Some? ==> c.value in classes && c.value.name == name
    ensures c.None? ==> forall d :: d in classes ==> d.name != name
  {
    if classes == [] then None
    else if classes[0].name == name then Some(classes[0])
    else ClassNamed(classes[1..], name)
  }

  function FindClass(union: Model, key: ClassKey): Option<ClassDef> {
    match Named(union, key.0) case None => None case Some(p) => ClassNamed(p.classes, key.1)
  }

  /** Every class some class of the model is said to extend. */
  function Bases(union: Model): set<ClassKey> {
    set p, c, b | p in union && c in p.classes && b in c.bases :: b
  }

  /** Bases met for the first time are visited and queued. */
  function Push(bases: seq<ClassKey>, visited: seq<ClassKey>, queue: seq<ClassKey>): (out: (seq<ClassKey>, seq<ClassKey>))
    ensures forall b :: b in out.0 <==> b in visited || b in bases
    ensures (forall b :: b in bases ==> b in visited) ==> out.1 == queue
    ensures |out.0| >= |visited| && out.0[..|visited|] == visited && out.1 == queue + out.0[|visited|..]
    ensures NoDup(visited) ==> NoDup(out.0)
  {
    if bases == [] then (visited, queue)
    else if bases[0] in visited then Push(bases[1..], visited, queue)
    else Push(bases[1..], visited + [bases[0]], queue + [bases[0]])
  }

  /** The features of the queued classes and everything they extend, or nothing if
      some class is not there. */
  function FeaturesFrom(union: Model, visited: seq<ClassKey>, queue: seq<ClassKey>, collected: seq<Feature>): Option<seq<Feature>>
    decreases |Bases(union) - (set b | b in visited)|, |queue|
  {
    if queue == [] then Some(collected)
    else
      var key, rest := queue[|queue| - 1], queue[..|queue| - 1];
      match FindClass(union, key)
      case None => None
      case Some(def) =>
        var (visited', queue') := Push(def.bases, visited, rest);
        Shrinks(union, key, def, visited, visited');
        FeaturesFrom(union, visited', queue', collected + def.features)
  }

  lemma Shrinks(union: Model, key: ClassKey, def: ClassDef, visited: seq<ClassKey>, visited': seq<ClassKey>)
    requires FindClass(union, key) == Some(def)
    requires forall b :: b in visited' <==> b in visited || b in def.bases
    ensures var left, left' := Bases(union) - (set b | b in visited), Bases(union) - (set b | b in visited');
            |left'| < |left| || (|left'| == |left| && forall b :: b in def.bases ==> b in visited)
  {
    var left, left' := Bases(union) - (set b | b in visited), Bases(union) - (set b | b in visited');
    if b :| b in def.bases && b !in visited {
      assert b in left && b !in left';
      Smaller(left', left - {b});
    } else {
      assert left == left';
    }
  }

  lemma {:induction false} Smaller<T>(a: set<T>, b: set<T>)
    requires a <= b
    ensures |a| <= |b|
  {
    if a != {} {
      var x :| x in a;
      Smaller(a - {x}, b - {x});
    }
  }

  // ----- the extends chain -----

  /** The model has the class, and it is said to extend the other. */
  ghost predicate Extends(union: Model, a: ClassKey, b: ClassKey) {
    FindClass(union, a).Some? && b in FindClass(union, a).value.bases
  }

  ghost predicate IsChain(union: Model, path: seq<ClassKey>) {
    path != [] && forall i :: 0 <= i < |path| - 1 ==> Extends(union, path[i], path[i + 1])
  }

  /** Some path of bases leads from `key` to `b`. */
  ghost predicate OnChain(union: Model, key: ClassKey, b: ClassKey) {
    exists path :: IsChain(union, path) && path[0] == key && path[|path| - 1] == b
  }

  /** Every class on the chain is in the model. */
  ghost predicate ChainComplete(union: Model, key: ClassKey) {
    forall b :: OnChain(union, key, b) ==> FindClass(union, b).Some?
  }

  /** Some class on the chain declares the feature. */
  ghost predicate Inherits(union: Model, key: ClassKey, f: Feature) {
    exists b :: OnChain(union, key, b) && FindClass(union, b).Some? && f in FindClass(union, b).value.features
  }

  /** The features of the listed classes, class after class. */
  function Gathered(union: Model, order: seq<ClassKey>): seq<Feature>
    requires forall b :: b in order ==> FindClass(union, b).Some?
  {
    if order == [] then []
    else
      assert order == order[..|order| - 1] + [order[|order| - 1]];
      Gathered(union, order[..|order| - 1]) + FindClass(union, order[|order| - 1]).value.features
  }

  /** The features of every class on the chain, the class's own first and each class
      counted once. */
  ghost predicate ChainFeatures(union: Model, key: ClassKey, features: seq<Feature>) {
    exists order: seq<ClassKey> ::
      && NoDup(order) && order != [] && order[0] == key
      && (forall b :: b in order <==> OnChain(union, key, b))
      && (forall b :: b in order ==> FindClass(union, b).Some?)
      && features == Gathered(union, order)
  }

  lemma ChainStart(union: Model, key: ClassKey)
    ensures OnChain(union, key, key)
  {
    var path := [key];
    assert IsChain(union, path) && path[0] == key;
  }

  lemma ChainStep(union: Model, key: ClassKey, a: ClassKey, b: ClassKey)
    requires OnChain(union, key, a) && Extends(union, a, b)
    ensures OnChain(union, key, b)
  {
    var path :| IsChain(union, path) && path[0] == key && path[|path| - 1] == a;
    var longer := path + [b];
    assert IsChain(union, longer) && longer[0] == key && longer[|longer| - 1] == b;
  }

  /** A set of found classes that holds the key and all their bases holds the chain. */
  lemma {:induction false} ChainWithin(union: Model, path: seq<ClassKey>, done: seq<ClassKey>)
    requires IsChain(union, path) && path[0] in done
    requires forall d, b :: d in done && Extends(union, d, b) ==> b in done
    ensures path[|path| - 1] in done
    decreases |path|
  {
    if |path| > 1 {
      var shorter := path[..|path| - 1];
      assert IsChain(union, shorter);
      ChainWithin(union, shorter, done);
      assert Extends(union, path[|path| - 2], path[|path| - 1]);
    }
  }

  lemma {:induction false} GatheredHolds(union: Model, order: seq<ClassKey>, f: Feature)
    requires forall b :: b in order ==> FindClass(union, b).Some?
    ensures f in Gathered(union, order) <==> exists b :: b in order && f in FindClass(union, b).value.features
  {
    if order != [] {
      var front, last := order[..|order| - 1], order[|order| - 1];
      assert order == front + [last];
      GatheredHolds(union, front, f);
    }
  }

  /** What the loop keeps: the visited classes are those done and those queued, all
      on the chain, and the bases of those done have been visited. */
  ghost predicate Walking(union: Model, key: ClassKey, visited: seq<ClassKey>, queue: seq<ClassKey>, done: seq<ClassKey>) {
    && Parted(visited, queue, done)
    && (forall b :: b in visited ==> OnChain(union, key, b))
    && (forall b :: b in done ==> FindClass(union, b).Some?)
    && (forall d, b :: d in done && Extends(union, d, b) ==> b in visited)
    && (if done == [] then queue == [key] else done[0] == key)
  }

  /** What pushing adds is new, and told apart. */
  lemma PushAdds(bases: seq<ClassKey>, visited: seq<ClassKey>, rest: seq<ClassKey>) returns (added: seq<ClassKey>)
    requires NoDup(visited)
    ensures Push(bases, visited, rest) == (visited + added, rest + added)
    ensures NoDup(visited + added) && NoDup(added)
    ensures forall b :: b in added <==> b in bases && b !in visited
  {
    var (visited', queue') := Push(bases, visited, rest);
    added := visited'[|visited|..];
    assert visited' == visited + added;
    assert forall i :: 0 <= i < |added| ==> added[i] == visited'[|visited| + i];
    forall b | b in added ensures b !in visited {
      var i :| 0 <= i < |added| && added[i] == b;
      forall j | 0 <= j < |visited| ensures visited[j] != b {
        assert visited'[j] == visited[j] && visited'[|visited| + i] == b;
      }
    }
  }

  /** What is visited is done or waits, never both, and nothing twice. */
  ghost predicate Parted(visited: seq<ClassKey>, queue: seq<ClassKey>, done: seq<ClassKey>) {
    && NoDup(visited) && NoDup(queue) && NoDup(done)
    && (forall b :: b in visited <==> b in done || b in queue)
    && (forall b :: b in done ==> b !in queue)
  }

  lemma PartedNext(visited: seq<ClassKey>, rest: seq<ClassKey>, current: ClassKey, done: seq<ClassKey>, added: seq<ClassKey>)
    requires Parted(visited, rest + [current], done) && NoDup(visited + added) && NoDup(added)
    requires forall b :: b in added ==> b !in visited
    ensures Parted(visited + added, rest + added, done + [current])
  {
    var queue := rest + [current];
    assert queue[|rest|] == current && forall i :: 0 <= i < |rest| ==> queue[i] == rest[i];
    assert current in queue && current in visited && current !in rest && NoDup(rest);
    forall b | b in rest ensures b in visited {
      assert b in queue;
    }
    NoDupConcat(rest, added);
    NoDupConcat(done, [current]);
    forall b ensures b in visited + added <==> b in done + [current] || b in rest + added {
      assert b in queue <==> b in rest || b == current;
    }
  }

  lemma WalkStep(union: Model, key: ClassKey, visited: seq<ClassKey>, queue: seq<ClassKey>, done: seq<ClassKey>)
    requires Walking(union, key, visited, queue, done) && queue != [] && FindClass(union, queue[|queue| - 1]).Some?
    ensures var current, rest := queue[|queue| - 1], queue[..|queue| - 1];
            var (visited', queue') := Push(FindClass(union, current).value.bases, visited, rest);
            Walking(union, key, visited', queue', done + [current])
  {
    var current, rest := queue[|queue| - 1], queue[..|queue| - 1];
    var bases := FindClass(union, current).value.bases;
    var added := PushAdds(bases, visited, rest);
    hide FindClass, Push, OnChain;
    assert queue == rest + [current] && current in queue;
    PartedNext(visited, rest, current, done, added);
    assert current in visited by { hide *; QueuedIsVisited(visited, queue, done, current); }
    hide Parted;
    forall b | b in visited + added ensures OnChain(union, key, b) {
      if b in added {
        assert Extends(union, current, b);
        ChainStep(union, key, current, b);
      }
    }
    forall d, b | d in done + [current] && Extends(union, d, b) ensures b in visited + added {
      if d == current {
        assert b in bases;
      }
    }
  }

  lemma QueuedIsVisited(visited: seq<ClassKey>, queue: seq<ClassKey>, done: seq<ClassKey>, b: ClassKey)
    requires Parted(visited, queue, done) && b in queue
    ensures b in visited
  {}

  /** At the end the classes done are exactly the chain. */
  lemma WalkEnds(union: Model, key: ClassKey, visited: seq<ClassKey>, done: seq<ClassKey>)
    requires Walking(union, key, visited, [], done)
    ensures done != [] && forall b :: b in done <==> OnChain(union, key, b)
  {
    hide FindClass, Extends;
    assert done != [] && key in done;
    forall b | OnChain(union, key, b) ensures b in done {
      var path :| IsChain(union, path) && path[0] == key && path[|path| - 1] == b;
      ChainWithin(union, path, done);
    }
  }

  /** The walk finds the features of the whole chain, or stops at a missing class. */
  lemma {:induction false} WalkFinds(union: Model, key: ClassKey, visited: seq<ClassKey>, queue: seq<ClassKey>, collected: seq<Feature>,
                                     done: seq<ClassKey>)
    requires Walking(union, key, visited, queue, done) && collected == Gathered(union, done)
    ensures var found := FeaturesFrom(union, visited, queue, collected);
            && (found.Some? ==> ChainComplete(union, key) && ChainFeatures(union, key, found.value))
            && (found.None? ==> !ChainComplete(union, key))
    decreases |Bases(union) - (set b | b in visited)|, |queue|
  {
    hide OnChain, FindClass, Push, Bases, Extends;
    if queue == [] {
      WalkEnds(union, key, visited, done);
      assert ChainFeatures(union, key, collected);
    } else {
      var current, rest := queue[|queue| - 1], queue[..|queue| - 1];
      assert current in queue && current in visited;
      if FindClass(union, current).Some? {
        var def := FindClass(union, current).value;
        WalkStep(union, key, visited, queue, done);
        var (visited', queue') := Push(def.bases, visited, rest);
        assert (done + [current])[..|done|] == done;
        Shrinks(union, current, def, visited, visited');
        WalkFinds(union, key, visited', queue', collected + def.features, done + [current]);
      }
    }
  }

  /** Nothing exactly when some class on the chain is missing; else exactly the
      features of the chain. */
  lemma FeaturesAreInherited(union: Model, key: ClassKey)
    ensures var found := FeaturesFrom(union, [key], [key], []);
            && (found.None? <==> !ChainComplete(union, key))
            && (found.Some? ==> ChainFeatures(union, key, found.value))
            && (found.Some? ==> forall f :: f in found.value <==> Inherits(union, key, f))
  {
    ChainStart(union, key);
    var found := FeaturesFrom(union, [key], [key], []);
    assert Walking(union, key, [key], [key], []);
    WalkFinds(union, key, [key], [key], [], []);
    hide *;
    if found.Some? {
      ChainInherits(union, key, found.value);
    }
  }

  lemma ChainInherits(union: Model, key: ClassKey, features: seq<Feature>)
    requires ChainFeatures(union, key, features)
    ensures forall f :: f in features <==> Inherits(union, key, f)
  {
    hide OnChain, FindClass, Gathered;
    var order: seq<ClassKey> :|
      && NoDup(order) && order != [] && order[0] == key
      && (forall b :: b in order <==> OnChain(union, key, b))
      && (forall b :: b in order ==> FindClass(union, b).Some?)
      && features == Gathered(union, order);
    forall f ensures f in features <==> Inherits(union, key, f) {
      GatheredHolds(union, order, f);
    }
  }

  /** The features a class has, its own and those of everything it extends, however
      the `extends` graph is shaped. */
  method ClassFeatures(union: Model, key: ClassKey) returns (features: Option<seq<Feature>>)
    ensures features == FeaturesFrom(union, [key], [key], [])
    ensures features.None? <==> !ChainComplete(union, key)
    ensures features.Some? ==> ChainFeatures(union, key, features.value)
    ensures features.Some? ==> forall f :: f in features.value <==> Inherits(union, key, f)
  {
    FeaturesAreInherited(union, key);
    hide ChainComplete, ChainFeatures, Inherits;
    var collected: seq<Feature>, visited, queue := [], [key], [key];
    while queue != []
      invariant FeaturesFrom(union, visited, queue, collected) == FeaturesFrom(union, [key], [key], [])
      decreases |Bases(union) - (set b | b in visited)|, |queue|
    {
      var current, rest := queue[|queue| - 1], queue[..|queue| - 1];
      var def := FindClass(union, current);
      if def.None? {
        return None;
      }
      collected := collected + def.value.features;
      ghost var before := visited;
      visited, queue := PushBases(def.value.bases, visited, rest);
      Shrinks(union, current, def.value, before, visited);
    }
    features := Some(collected);
  }

  method PushBases(bases: seq<ClassKey>, before: seq<ClassKey>, waiting: seq<ClassKey>) returns (visited: seq<ClassKey>, queue: seq<ClassKey>)
    ensures (visited, queue) == Push(bases, before, waiting)
  {
    visited, queue := before, waiting;
    assert bases[0..] == bases;
    for i := 0 to |bases|
      invariant Push(bases[i..], visited, queue) == Push(bases, before, waiting)
    {
      assert bases[i..][1..] == bases[i + 1..];
      if bases[i] !in visited {
        visited, queue := visited + [bases[i]], queue + [bases[i]];
      }
    }
  }

  /** The first feature of the name. */
  function FeatureNamed(features: seq<Feature>, name: string): (f: Option<Feature>)
    ensures f.None? ==> forall g :: g in features ==> g.name != name
    ensures f.Some? ==> exists k :: 0 <= k < |features| && features[k] == f.value && f.value.name == name
                                    && forall m :: 0 <= m < k ==> features[m].name != name
  {
    if features == [] then None
    else if features[0].name == name then Some(features[0])
    else FeatureNamed(features[1..], name)
  }
}

/** Deployment files: what is published of one, and what its deployments then meet. */
module DeployFiles {
  import opened Common
  import opened DeployPolicies
  import opened Deployments

  // ----- files as authored -----

  /** A component; its kind, when the keyword is one of the vocabulary. */
  datatype ComponentDecl = ComponentDecl(name: string, kind: Option<Kind>, requires_: seq<string>, settings: seq<Line>)

  datatype Connection = Connection(from: string, to: string)

  datatype ApplicationDecl = ApplicationDecl(name: string, components: seq<ComponentDecl>, connections: seq<Connection>)

  /** A profile; its target, when it names one of the provided ones. */
  datatype ProfileDecl = ProfileDecl(name: string, target: Option<Target>, defaults: seq<Line>, policies: seq<Policy>)

  /** A deployment; a name the parser missed is empty. */
  datatype DeploymentDecl = DeploymentDecl(name: string, application: string, profile: string, configure: seq<Line>)

  datatype File = File(applications: seq<ApplicationDecl>, profiles: seq<ProfileDecl>, deployments: seq<DeploymentDecl>)

  // ----- files as published -----

  datatype Application = Application(name: string, components: seq<Component>, connections: seq<Connection>)

  datatype Profile = Profile(name: string, target: Target, defaults: seq<Line>, policies: seq<Policy>)

  datatype Artifact = Artifact(applications: seq<Application>, profiles: seq<Profile>, deployments: seq<DeploymentDecl>)

  datatype Fault =
    | Other
    | DuplicateName(name: string)
    | UnknownKind(component: string)
    | UnknownEndpoint(name: string)
    | UnknownTarget(profile: string)
    | BadDefault(path: seq<string>)
    | UnknownApplication(deployment: string)
    | UnknownProfile(deployment: string)
    | InComponent(problem: Problem)
    | InDeployment(problem: Problem)

  // ----- applications -----

  function Known(c: ComponentDecl): Component
    requires c.kind.Some?
  {
    Component(c.name, c.kind.value, c.requires_, c.settings)
  }

  ghost predicate ComponentsOk(components: seq<ComponentDecl>) {
    && (forall i :: 0 <= i < |components| ==> components[i].kind.Some? && BaselineOk(Known(components[i])))
    && forall i, j :: 0 <= i < j < |components| ==> components[i].name != components[j].name
  }

  function Plain(components: seq<ComponentDecl>): (out: seq<Component>)
    requires forall i :: 0 <= i < |components| ==> components[i].kind.Some?
    ensures |out| == |components|
    ensures forall i :: 0 <= i < |components| ==> out[i] == Known(components[i])
  {
    seq(|components|, i requires 0 <= i < |components| => Known(components[i]))
  }

  /** An endpoint is a component of the application, or was missed by the parser. */
  predicate Endpoint(components: seq<ComponentDecl>, name: string) {
    name == "" || exists i :: 0 <= i < |components| && components[i].name == name
  }

  ghost predicate ApplicationOk(a: ApplicationDecl) {
    && ComponentsOk(a.components)
    && forall i :: 0 <= i < |a.connections| ==> Endpoint(a.components, a.connections[i].from) && Endpoint(a.components, a.connections[i].to)
  }

  method LowerApplication(a: ApplicationDecl) returns (out: Application, faults: seq<Fault>)
    ensures faults == [] <==> ApplicationOk(a)
    ensures faults == [] ==> out == Application(a.name, Plain(a.components), a.connections)
  {
    hide BaselineOk;
    var components;
    components, faults := LowerComponents(a.components);
    for i := 0 to |a.connections|
      invariant faults == [] <==>
                  && ComponentsOk(a.components)
                  && forall k :: 0 <= k < i ==> Endpoint(a.components, a.connections[k].from) && Endpoint(a.components, a.connections[k].to)
    {
      var c := a.connections[i];
      if c.from != "" && !Among(components, c.from) {
        faults := faults + [UnknownEndpoint(c.from)];
      }
      if c.to != "" && !Among(components, c.to) {
        faults := faults + [UnknownEndpoint(c.to)];
      }
    }
    out := Application(a.name, components, a.connections);
  }

  predicate Among(components: seq<Component>, name: string) {
    exists i :: 0 <= i < |components| && components[i].name == name
  }

  method LowerComponents(decls: seq<ComponentDecl>) returns (components: seq<Component>, faults: seq<Fault>)
    ensures faults == [] <==> ComponentsOk(decls)
    ensures faults == [] ==> components == Plain(decls)
  {
    hide BaselineOk;
    components, faults := [], [];
    for i := 0 to |decls|
      invariant faults == [] <==> ComponentsOk(decls[..i])
      invariant faults == [] ==> components == Plain(decls[..i])
    {
      var c := decls[i];
      ComponentsStep(decls, i);
      if Among(components, c.name) {
        faults := faults + [DuplicateName(c.name)];
      } else if c.kind.None? {
        faults := faults + [UnknownKind(c.name)];
      } else {
        var settings, problems := LowerComponent(Known(c));
        faults := faults + seq(|problems|, k requires 0 <= k < |problems| => InComponent(problems[k]));
        components := components + [Known(c)];
      }
    }
    assert decls[..|decls|] == decls;
  }

  lemma ComponentsStep(decls: seq<ComponentDecl>, i: nat)
    requires i < |decls|
    ensures ComponentsOk(decls[..i + 1]) <==>
              && ComponentsOk(decls[..i]) && decls[i].kind.Some? && BaselineOk(Known(decls[i]))
              && forall k :: 0 <= k < i ==> decls[k].name != decls[i].name
  {
    hide BaselineOk;
    assert decls[..i + 1] == decls[..i] + [decls[i]];
  }

  method LowerApplications(decls: seq<ApplicationDecl>) returns (out: seq<Application>, faults: seq<Fault>)
    ensures faults == [] <==> ApplicationsOk(decls)
    ensures faults == [] ==> out == Applications(decls)
  {
    hide ApplicationOk;
    out, faults := [], [];
    for i := 0 to |decls|
      invariant faults == [] <==> ApplicationsOk(decls[..i])
      invariant faults == [] ==> out == Applications(decls[..i])
    {
      ApplicationsStep(decls, i);
      var repeated := exists k :: 0 <= k < i && decls[k].name == decls[i].name;
      var application, found := LowerApplication(decls[i]);
      faults := faults + (if repeated then [DuplicateName(decls[i].name)] else []) + found;
      out := out + [application];
    }
    assert decls[..|decls|] == decls;
  }

  ghost predicate ApplicationsOk(decls: seq<ApplicationDecl>) {
    && (forall i :: 0 <= i < |decls| ==> ApplicationOk(decls[i]))
    && forall i, j :: 0 <= i < j < |decls| ==> decls[i].name != decls[j].name
  }

  ghost function Applications(decls: seq<ApplicationDecl>): (out: seq<Application>)
    requires ApplicationsOk(decls)
    ensures |out| == |decls|
    ensures forall i :: 0 <= i < |decls| ==> out[i] == Application(decls[i].name, Plain(decls[i].components), decls[i].connections)
  {
    seq(|decls|, i requires 0 <= i < |decls| => Application(decls[i].name, Plain(decls[i].components), decls[i].connections))
  }

  lemma ApplicationsStep(decls: seq<ApplicationDecl>, i: nat)
    requires i < |decls|
    ensures ApplicationsOk(decls[..i + 1]) <==>
              && ApplicationsOk(decls[..i]) && ApplicationOk(decls[i])
              && forall k :: 0 <= k < i ==> decls[k].name != decls[i].name
  {
    hide ApplicationOk;
    assert decls[..i + 1] == decls[..i] + [decls[i]];
  }

  // ----- profiles -----

  /** Defaults name a component and a setting, each once; what they name is checked
      against the application of a deployment. */
  ghost predicate ProfileOk(p: ProfileDecl) {
    p.target.Some? && NoRepeats(p.defaults) && forall i :: 0 <= i < |p.defaults| ==> |p.defaults[i].path| == 2
  }

  method LowerProfile(p: ProfileDecl) returns (out: Option<Profile>, faults: seq<Fault>)
    ensures faults == [] <==> ProfileOk(p)
    ensures faults == [] ==> out == Some(Profile(p.name, p.target.value, p.defaults, p.policies))
  {
    hide NoRepeats;
    if p.target.None? {
      return None, [UnknownTarget(p.name)];
    }
    faults := [];
    NoRepeatsStart(p.defaults);
    for i := 0 to |p.defaults|
      invariant faults == [] <==> NoRepeats(p.defaults[..i]) && forall k :: 0 <= k < i ==> |p.defaults[k].path| == 2
    {
      RepeatStep(p.defaults, i);
      var path := p.defaults[i].path;
      if |path| != 2 || exists k :: 0 <= k < i && p.defaults[k].path == path {
        faults := faults + [BadDefault(path)];
      }
    }
    out := Some(Profile(p.name, p.target.value, p.defaults, p.policies));
  }

  lemma NoRepeatsStart(lines: seq<Line>)
    ensures NoRepeats(lines[..0]) && lines[..|lines|] == lines
  {}

  ghost predicate ProfilesOk(decls: seq<ProfileDecl>) {
    && (forall i :: 0 <= i < |decls| ==> ProfileOk(decls[i]))
    && forall i, j :: 0 <= i < j < |decls| ==> decls[i].name != decls[j].name
  }

  ghost function Profiles(decls: seq<ProfileDecl>): (out: seq<Profile>)
    requires ProfilesOk(decls)
    ensures |out| == |decls|
    ensures forall i :: 0 <= i < |decls| ==>
              out[i] == Profile(decls[i].name, decls[i].target.value, decls[i].defaults, decls[i].policies)
  {
    seq(|decls|, i requires 0 <= i < |decls| => Profile(decls[i].name, decls[i].target.value, decls[i].defaults, decls[i].policies))
  }

  method LowerProfiles(decls: seq<ProfileDecl>) returns (out: seq<Profile>, faults: seq<Fault>)
    ensures faults == [] <==> ProfilesOk(decls)
    ensures faults == [] ==> out == Profiles(decls)
  {
    hide ProfileOk;
    out, faults := [], [];
    for i := 0 to |decls|
      invariant faults == [] <==> ProfilesOk(decls[..i])
      invariant faults == [] ==> out == Profiles(decls[..i])
    {
      ProfilesStep(decls, i);
      var repeated := exists k :: 0 <= k < i && decls[k].name == decls[i].name;
      var profile, found := LowerProfile(decls[i]);
      faults := faults + (if repeated then [DuplicateName(decls[i].name)] else []) + found;
      out := out + (if profile.Some? then [profile.value] else []);
    }
    assert decls[..|decls|] == decls;
  }

  lemma ProfilesStep(decls: seq<ProfileDecl>, i: nat)
    requires i < |decls|
    ensures ProfilesOk(decls[..i + 1]) <==>
              && ProfilesOk(decls[..i]) && ProfileOk(decls[i])
              && forall k :: 0 <= k < i ==> decls[k].name != decls[i].name
  {
    hide ProfileOk;
    assert decls[..i + 1] == decls[..i] + [decls[i]];
  }

  // ----- deployments -----

  function ApplicationNamed(applications: seq<Application>, name: string): (r: Option<Application>)
    ensures r.Some? ==> r.value in applications && r.value.name == name
    ensures r.None? <==> forall i :: 0 <= i < |applications| ==> applications[i].name != name
  {
    if applications == [] then None
    else if applications[0].name == name then Some(applications[0])
    else ApplicationNamed(applications[1..], name)
  }

  function ProfileNamed(profiles: seq<Profile>, name: string): (r: Option<Profile>)
    ensures r.Some? ==> r.value in profiles && r.value.name == name
    ensures r.None? <==> forall i :: 0 <= i < |profiles| ==> profiles[i].name != name
  {
    if profiles == [] then None
    else if profiles[0].name == name then Some(profiles[0])
    else ProfileNamed(profiles[1..], name)
  }

  /** The settings in force: baselines, then the profile's defaults, then the
      deployment's overrides. */
  ghost predicate InForce(components: seq<Component>, defaults: seq<Line>, overrides: seq<Line>, e: Effective) {
    forall c, s :: Get(e, c, s) == Layered(components, defaults, overrides, c, s)
  }

  /** Everything a deployment of an application under a profile must meet. */
  ghost predicate Deployable(a: Application, p: Profile, overrides: seq<Line>) {
    && LayersOk(a.components, p.defaults, overrides)
    && forall e :: InForce(a.components, p.defaults, overrides, e) ==> Fits(a, p, e)
  }

  ghost predicate Fits(a: Application, p: Profile, e: Effective) {
    && (forall c :: c in a.components ==> Covered(c, Of(e, c.name), p.target))
    && forall policy :: policy in p.policies ==> Meets(policy, a.components, e)
  }

  /** A deployment is in order, or the parser missed one of its names. */
  ghost predicate DeploymentOk(applications: seq<Application>, profiles: seq<Profile>, d: DeploymentDecl) {
    var a, p := ApplicationNamed(applications, d.application), ProfileNamed(profiles, d.profile);
    && (a.None? ==> d.application == "")
    && (a.Some? && p.None? ==> d.profile == "" && OverridesOk(a.value.components, d.configure))
    && (a.Some? && p.Some? ==> Deployable(a.value, p.value, d.configure))
  }

  ghost predicate OverridesOk(components: seq<Component>, lines: seq<Line>) {
    NoRepeats(lines) && forall i :: 0 <= i < |lines| ==> LineOk(components, lines[i])
  }

  lemma SettingGot(e: Effective, c: string, s: string)
    ensures (c, s) in SettingsOf(e) <==> Get(e, c, s).Some?
    ensures Get(e, c, s).Some? ==> SettingsOf(e)[(c, s)] == Reads(Get(e, c, s).value)
    ensures At(Of(e, c), s) == Get(e, c, s)
  {}

  /** What settings make of a deployment depends on the settings alone. */
  lemma SettingsDecide(e: Effective, e': Effective)
    requires forall c, s :: Get(e, c, s) == Get(e', c, s)
    ensures SettingsOf(e) == SettingsOf(e')
    ensures forall c :: Of(e, c) == Of(e', c)
  {
    hide SettingsOf, Get, Of;
    forall c, s
      ensures (c, s) in SettingsOf(e) <==> (c, s) in SettingsOf(e')
      ensures (c, s) in SettingsOf(e) ==> SettingsOf(e)[(c, s)] == SettingsOf(e')[(c, s)]
      ensures At(Of(e, c), s) == At(Of(e', c), s)
    {
      SettingGot(e, c, s);
      SettingGot(e', c, s);
    }
    forall c ensures Of(e, c) == Of(e', c) {
      SameTable(Of(e, c), Of(e', c));
    }
    SameSettings(SettingsOf(e), SettingsOf(e'));
  }

  lemma SameTable(a: map<string, Setting>, b: map<string, Setting>)
    requires forall s :: At(a, s) == At(b, s)
    ensures a == b
  {
    forall s ensures s in a <==> s in b {
      assert At(a, s) == At(b, s);
    }
    forall s | s in a ensures a[s] == b[s] {
      assert At(a, s) == At(b, s);
    }
  }

  lemma SameSettings(a: Settings, b: Settings)
    requires forall c, s :: (c, s) in a <==> (c, s) in b
    requires forall c, s :: (c, s) in a ==> a[(c, s)] == b[(c, s)]
    ensures a == b
  {
    forall x | x in a ensures x in b && a[x] == b[x] {
      assert (x.0, x.1) in a;
    }
    forall x | x in b ensures x in a {
      assert (x.0, x.1) in b;
    }
  }

  lemma OneFitsAll(a: Application, p: Profile, overrides: seq<Line>, e: Effective)
    requires LayersOk(a.components, p.defaults, overrides) && InForce(a.components, p.defaults, overrides, e)
    ensures Deployable(a, p, overrides) <==> Fits(a, p, e)
  {
    hide LayersOk, Layered, Covered, TypeOf, Evaluate, UniverseOf, Names, SettingsOf, Of;
    if Fits(a, p, e) {
      forall e' | InForce(a.components, p.defaults, overrides, e') ensures Fits(a, p, e') {
        forall c, s ensures Get(e, c, s) == Get(e', c, s) {
          assert Get(e, c, s) == Layered(a.components, p.defaults, overrides, c, s);
        }
        SettingsDecide(e, e');
      }
    }
  }

  method LowerDeployment(applications: seq<Application>, profiles: seq<Profile>, d: DeploymentDecl)
    returns (out: Option<DeploymentDecl>, faults: seq<Fault>)
    ensures faults == [] <==> DeploymentOk(applications, profiles, d)
    ensures faults == [] ==> out == if Resolves(applications, profiles, d) then Some(d) else None
  {
    hide LayersOk, OverridesOk, InForce, Fits, Deployable;
    var a, p := ApplicationNamed(applications, d.application), ProfileNamed(profiles, d.profile);
    if a.None? {
      return None, if d.application == "" then [] else [UnknownApplication(d.name)];
    }
    if p.None? {
      var _, found := ApplySettings(d.configure, a.value.components, map[]);
      faults := (if d.profile == "" then [] else [UnknownProfile(d.name)]) + InDeployments(found);
      OverridesDecide(a.value.components, d.configure);
      return None, faults;
    }
    var effective, found := CheckDeployment(a.value.components, p.value.target, p.value.defaults, d.configure, p.value.policies);
    FitDecides(a.value, p.value, d.configure, effective);
    out, faults := Some(d), InDeployments(found);
  }

  function InDeployments(problems: seq<Problem>): (faults: seq<Fault>)
    ensures faults == [] <==> problems == []
  {
    seq(|problems|, k requires 0 <= k < |problems| => InDeployment(problems[k]))
  }

  lemma OverridesDecide(components: seq<Component>, lines: seq<Line>)
    ensures OverridesOk(components, lines) <==> NoRepeats(lines) && forall i :: 0 <= i < |lines| ==> LineOk(components, lines[i])
  {}

  /** What the check of a deployment computes decides whether it can be deployed. */
  lemma FitDecides(a: Application, p: Profile, overrides: seq<Line>, e: Effective)
    requires LayersOk(a.components, p.defaults, overrides) ==>
               forall c, s :: Get(e, c, s) == Layered(a.components, p.defaults, overrides, c, s)
    ensures Deployable(a, p, overrides) <==>
              && LayersOk(a.components, p.defaults, overrides)
              && (forall c :: c in a.components ==> Covered(c, Of(e, c.name), p.target))
              && (forall policy :: policy in p.policies ==> Meets(policy, a.components, e))
  {
    hide LayersOk, Layered, Covered, Meets, Of;
    if LayersOk(a.components, p.defaults, overrides) {
      assert InForce(a.components, p.defaults, overrides, e);
      OneFitsAll(a, p, overrides, e);
    }
  }

  /** The deployment is written: both its names are found. */
  predicate Resolves(applications: seq<Application>, profiles: seq<Profile>, d: DeploymentDecl) {
    ApplicationNamed(applications, d.application).Some? && ProfileNamed(profiles, d.profile).Some?
  }

  function Written(applications: seq<Application>, profiles: seq<Profile>, decls: seq<DeploymentDecl>): (out: seq<DeploymentDecl>)
    ensures forall d :: d in out <==> d in decls && Resolves(applications, profiles, d)
  {
    if decls == [] then []
    else
      var last := decls[|decls| - 1];
      Written(applications, profiles, decls[..|decls| - 1]) + (if Resolves(applications, profiles, last) then [last] else [])
  }

  // ----- the file -----

  ghost predicate DeploymentsOk(applications: seq<Application>, profiles: seq<Profile>, decls: seq<DeploymentDecl>) {
    && (forall i :: 0 <= i < |decls| ==> DeploymentOk(applications, profiles, decls[i]))
    && forall i, j :: 0 <= i < j < |decls| ==> decls[i].name != decls[j].name
  }

  ghost predicate FileOk(file: File) {
    && ApplicationsOk(file.applications) && ProfilesOk(file.profiles)
    && DeploymentsOk(Applications(file.applications), Profiles(file.profiles), file.deployments)
  }

  /** Names, settings and policies are published as authored. */
  ghost function Published(file: File): Artifact
    requires FileOk(file)
  {
    var applications, profiles := Applications(file.applications), Profiles(file.profiles);
    Artifact(applications, profiles, Written(applications, profiles, file.deployments))
  }

  ghost predicate SameComponent(c: Component, d: ComponentDecl) {
    d.kind == Some(c.kind) && c.name == d.name && c.requires_ == d.requires_ && c.settings == d.settings
  }

  ghost predicate SameApplication(a: Application, d: ApplicationDecl) {
    && a.name == d.name && a.connections == d.connections && |a.components| == |d.components|
    && forall i :: 0 <= i < |a.components| ==> SameComponent(a.components[i], d.components[i])
  }

  ghost predicate SameProfile(p: Profile, d: ProfileDecl) {
    d.target == Some(p.target) && p.name == d.name && p.defaults == d.defaults && p.policies == d.policies
  }

  /** The artifact carries a deployment exactly when it has the application and the
      profile it names. */
  ghost function Carried(artifact: Artifact): DeploymentDecl -> bool {
    (d: DeploymentDecl) => (exists a :: a in artifact.applications && a.name == d.application)
                           && exists p :: p in artifact.profiles && p.name == d.profile
  }

  /** The file as authored: every application and profile with all its parts, and the
      deployments whose names the parser did not miss, all in their order. */
  ghost predicate AsAuthored(file: File, artifact: Artifact) {
    && |artifact.applications| == |file.applications|
    && (forall i :: 0 <= i < |file.applications| ==> SameApplication(artifact.applications[i], file.applications[i]))
    && |artifact.profiles| == |file.profiles|
    && (forall i :: 0 <= i < |file.profiles| ==> SameProfile(artifact.profiles[i], file.profiles[i]))
    && artifact.deployments == Selected(file.deployments, Carried(artifact))
    && forall d :: d in file.deployments && d !in artifact.deployments ==> d.application == "" || d.profile == ""
  }

  lemma PublishedAsAuthored(file: File)
    requires FileOk(file)
    ensures AsAuthored(file, Published(file))
  {
    var artifact := Published(file);
    var applications, profiles := Applications(file.applications), Profiles(file.profiles);
    forall i | 0 <= i < |file.applications| ensures SameApplication(artifact.applications[i], file.applications[i]) {
      ApplicationKept(file.applications[i]);
      assert ApplicationOk(file.applications[i]);
    }
    forall i | 0 <= i < |file.profiles| ensures SameProfile(artifact.profiles[i], file.profiles[i]) {
      assert ProfileOk(file.profiles[i]);
    }
    WrittenIsSelected(applications, profiles, file.deployments, Carried(artifact));
    forall d | d in file.deployments && d !in artifact.deployments ensures d.application == "" || d.profile == "" {
      assert !Resolves(applications, profiles, d) && DeploymentOk(applications, profiles, d);
    }
  }

  lemma ApplicationKept(d: ApplicationDecl)
    requires ApplicationOk(d)
    ensures SameApplication(Application(d.name, Plain(d.components), d.connections), d)
  {
    hide BaselineOk;
  }

  lemma {:induction false} WrittenIsSelected(applications: seq<Application>, profiles: seq<Profile>, decls: seq<DeploymentDecl>, keep: DeploymentDecl -> bool)
    requires forall d :: keep(d) <==> (exists a :: a in applications && a.name == d.application) && exists p :: p in profiles && p.name == d.profile
    ensures Written(applications, profiles, decls) == Selected(decls, keep)
  {
    if decls != [] {
      WrittenIsSelected(applications, profiles, decls[..|decls| - 1], keep);
      ResolvesIs(applications, profiles, decls[|decls| - 1]);
    }
  }

  lemma ResolvesIs(applications: seq<Application>, profiles: seq<Profile>, d: DeploymentDecl)
    ensures Resolves(applications, profiles, d) <==>
              (exists a :: a in applications && a.name == d.application) && exists p :: p in profiles && p.name == d.profile
  {
  }

  /** Anything that is not in order, in any part of the file, keeps the artifact back;
      `others` are the errors found elsewhere: syntax, imports, bindings, environment
      entries, mappings. */
  method CompileFile(file: File, others: seq<Fault>) returns (artifact: Option<Artifact>)
    ensures artifact.Some? <==> others == [] && FileOk(file)
    ensures artifact.Some? ==> artifact.value == Published(file)
    ensures artifact.Some? ==> AsAuthored(file, artifact.value)
  {
    if others == [] && FileOk(file) {
      PublishedAsAuthored(file);
    }
    hide AsAuthored;
    hide ApplicationsOk, ProfilesOk, DeploymentsOk, DeploymentOk;
    var applications, inApplications := LowerApplications(file.applications);
    var profiles, inProfiles := LowerProfiles(file.profiles);
    var deployments, inDeployments := LowerDeployments(applications, profiles, file.deployments);
    artifact := if others + inApplications + inProfiles + inDeployments == [] then Some(Artifact(applications, profiles, deployments)) else None;
  }

  method LowerDeployments(applications: seq<Application>, profiles: seq<Profile>, decls: seq<DeploymentDecl>)
    returns (out: seq<DeploymentDecl>, faults: seq<Fault>)
    ensures faults == [] <==> DeploymentsOk(applications, profiles, decls)
    ensures faults == [] ==> out == Written(applications, profiles, decls)
  {
    hide DeploymentOk, Resolves;
    out, faults := [], [];
    for i := 0 to |decls|
      invariant faults == [] <==> DeploymentsOk(applications, profiles, decls[..i])
      invariant faults == [] ==> out == Written(applications, profiles, decls[..i])
    {
      DeploymentsStep(applications, profiles, decls, i);
      var repeated := exists k :: 0 <= k < i && decls[k].name == decls[i].name;
      var deployment, found := LowerDeployment(applications, profiles, decls[i]);
      faults := faults + (if repeated then [DuplicateName(decls[i].name)] else []) + found;
      out := out + (if deployment.Some? then [deployment.value] else []);
    }
    assert decls[..|decls|] == decls;
  }

  lemma DeploymentsStep(applications: seq<Application>, profiles: seq<Profile>, decls: seq<DeploymentDecl>, i: nat)
    requires i < |decls|
    ensures DeploymentsOk(applications, profiles, decls[..i + 1]) <==>
              && DeploymentsOk(applications, profiles, decls[..i]) && DeploymentOk(applications, profiles, decls[i])
              && forall k :: 0 <= k < i ==> decls[k].name != decls[i].name
    ensures Written(applications, profiles, decls[..i + 1])
            == Written(applications, profiles, decls[..i]) + if Resolves(applications, profiles, decls[i]) then [decls[i]] else []
  {
    hide DeploymentOk, Resolves;
    assert decls[..i + 1] == decls[..i] + [decls[i]];
    assert decls[..i + 1][..i] == decls[..i];
  }

  // ----- what published deployments meet -----

  /** The settings in force, as a table. */
  ghost function Force(components: seq<Component>, defaults: seq<Line>, overrides: seq<Line>): Effective {
    map c | c in Names(components) ::
      (map s | KindOf(components, c).Some? && s in Vocabulary(KindOf(components, c).value)
               && Layered(components, defaults, overrides, c, s).Some?
         :: Layered(components, defaults, overrides, c, s).value)
  }

  lemma ForceIsInForce(components: seq<Component>, defaults: seq<Line>, overrides: seq<Line>)
    requires LayersOk(components, defaults, overrides)
    ensures InForce(components, defaults, overrides, Force(components, defaults, overrides))
  {
    hide LayersOk, Layered, Vocabulary;
    var e := Force(components, defaults, overrides);
    forall c, s ensures Get(e, c, s) == Layered(components, defaults, overrides, c, s) {
      NamedIn(components, c);
      if Layered(components, defaults, overrides, c, s).Some? {
        LayeredInVocabulary(components, defaults, overrides, c, s);
      }
    }
  }

  /** Every deployment of a published file names an application and a profile of it;
      under the settings in force the target provides what each component needs, each
      `require` holds and no `prohibit` does, in exact arithmetic. */
  lemma PublishedDeploymentsHold(file: File, d: DeploymentDecl) returns (a: Application, p: Profile)
    requires FileOk(file) && d in Published(file).deployments
    ensures a in Published(file).applications && a.name == d.application
    ensures p in Published(file).profiles && p.name == d.profile
    ensures var e := Force(a.components, p.defaults, d.configure);
            && InForce(a.components, p.defaults, d.configure, e)
            && (forall c :: c in a.components ==> Covered(c, Of(e, c.name), p.target))
            && (forall policy :: policy in p.policies ==> Exact(policy.condition, SettingsOf(e)) == Some(BoolV(!policy.prohibit)))
  {
    hide LayersOk, Covered, Meets, Of, Exact, SettingsOf, Force, ApplicationsOk, ProfilesOk, Layered;
    var applications, profiles := Applications(file.applications), Profiles(file.profiles);
    a, p := ApplicationNamed(applications, d.application).value, ProfileNamed(profiles, d.profile).value;
    assert DeploymentOk(applications, profiles, d);
    ForceIsInForce(a.components, p.defaults, d.configure);
    var e := Force(a.components, p.defaults, d.configure);
    assert Fits(a, p, e);
    forall policy | policy in p.policies
      ensures Exact(policy.condition, SettingsOf(e)) == Some(BoolV(!policy.prohibit))
    {
      PoliciesHoldExactly(a.components, p.defaults, d.configure, e, policy);
    }
  }
}

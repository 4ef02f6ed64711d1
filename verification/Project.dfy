/** The per-invocation project snapshot: file texts read once, artifacts compiled
    once, over any run of its operations against a changing disk. */
module Project {
  import opened Common

  type Disk = map<string, string>

  datatype Operation<A> =
    | Fetch(key: string, path: string)
    | Compile(key: string, outcome: Result<A, string>)
    | Store(key: string, made: A)
    | Peek(key: string)

  /** The snapshot's state as a value. */
  datatype State<A> = State(sources: map<string, string>, artifacts: map<string, A>, computes: nat)

  function FetchSpec<A>(s: State<A>, disk: Disk, key: string, path: string): (State<A>, Result<string, string>) {
    if key in s.sources then (s, Ok(s.sources[key]))
    else if path !in disk then (s, Err(path))
    else (s.(sources := s.sources[key := disk[path]]), Ok(disk[path]))
  }

  /** `outcome` is what the compile would give if it were run. */
  function CompileSpec<A>(s: State<A>, key: string, outcome: Result<A, string>): (State<A>, Result<A, string>) {
    if key in s.artifacts then (s, Ok(s.artifacts[key]))
    else if outcome.Err? then (s, outcome)
    else (Stored(s, key, outcome.value), outcome)
  }

  function Stored<A>(s: State<A>, key: string, made: A): State<A> {
    s.(artifacts := s.artifacts[key := made], computes := s.computes + 1)
  }

  function Next<A>(s: State<A>, disk: Disk, op: Operation<A>): State<A> {
    match op
    case Fetch(key, path) => FetchSpec(s, disk, key, path).0
    case Compile(key, outcome) => CompileSpec(s, key, outcome).0
    case Store(key, made) => Stored(s, key, made)
    case Peek(_) => s
  }

  /** The compiler actually runs, and succeeds. */
  predicate Computes<A>(s: State<A>, op: Operation<A>, key: string) {
    op.Compile? && op.key == key && key !in s.artifacts && op.outcome.Ok?
  }

  class Snapshot<A> {
    var sources: map<string, string>
    var artifacts: map<string, A>
    var computes: nat

    ghost function Now(): State<A>
      reads this
    {
      State(sources, artifacts, computes)
    }

    /** Every readable file of the listing, the last entry of a repeated key winning. */
    constructor (listing: seq<string>, disk: Disk)
      ensures artifacts == map[] && computes == 0
      ensures forall key :: key in sources <==> key in listing && key in disk
      ensures forall key :: key in sources ==> sources[key] == disk[key]
    {
      sources, artifacts, computes := map[], map[], 0;
      new;
      for i := 0 to |listing|
        invariant artifacts == map[] && computes == 0
        invariant forall key :: key in sources <==> key in listing[..i] && key in disk
        invariant forall key :: key in sources ==> sources[key] == disk[key]
      {
        if listing[i] in disk {
          sources := sources[listing[i] := disk[listing[i]]];
        }
      }
      assert listing[..|listing|] == listing;
    }

    method FetchPath(key: string, path: string, disk: Disk) returns (text: Result<string, string>)
      modifies `sources
      ensures (Now(), text) == FetchSpec(old(Now()), disk, key, path)
    {
      if key in sources { return Ok(sources[key]); }
      if path !in disk { return Err(path); }
      sources := sources[key := disk[path]];
      text := Ok(disk[path]);
    }

    method Artifact(key: string, outcome: Result<A, string>) returns (out: Result<A, string>)
      modifies `artifacts, `computes
      ensures (Now(), out) == CompileSpec(old(Now()), key, outcome)
    {
      if key in artifacts { return Ok(artifacts[key]); }
      if outcome.Err? { return outcome; }
      computes := computes + 1;
      artifacts := artifacts[key := outcome.value];
      out := outcome;
    }

    method StoreArtifact(key: string, made: A)
      modifies `artifacts, `computes
      ensures Now() == Stored(old(Now()), key, made)
    {
      computes := computes + 1;
      artifacts := artifacts[key := made];
    }

    method PeekArtifact(key: string) returns (out: Option<A>)
      ensures out.Some? <==> key in artifacts
      ensures out.Some? ==> out.value == artifacts[key]
    {
      out := if key in artifacts then Some(artifacts[key]) else None;
    }

    /** Any sequence of operations, each against the disk of its moment. */
    method Perform(ops: seq<Operation<A>>, disks: seq<Disk>)
      requires |disks| == |ops|
      modifies this
      ensures Now() == After(old(Now()), ops, disks)
    {
      ghost var start := Now();
      assert ops[..0] == [] && disks[..0] == [];
      for i := 0 to |ops|
        invariant Now() == After(start, ops[..i], disks[..i])
      {
        match ops[i] {
          case Fetch(key, path) => var _ := FetchPath(key, path, disks[i]);
          case Compile(key, outcome) => var _ := Artifact(key, outcome);
          case Store(key, made) => StoreArtifact(key, made);
          case Peek(key) => var _ := PeekArtifact(key);
        }
        assert ops[..i + 1][..i] == ops[..i] && disks[..i + 1][..i] == disks[..i];
      }
      assert ops[..|ops|] == ops && disks[..|disks|] == disks;
    }
  }

  // ----- whole runs -----

  function After<A>(s: State<A>, ops: seq<Operation<A>>, disks: seq<Disk>): State<A>
    requires |disks| == |ops|
  {
    if ops == [] then s
    else Next(After(s, ops[..|ops| - 1], disks[..|ops| - 1]), disks[|ops| - 1], ops[|ops| - 1])
  }

  /** The state before the i-th operation. */
  function Before<A>(s: State<A>, ops: seq<Operation<A>>, disks: seq<Disk>, i: nat): State<A>
    requires |disks| == |ops| && i <= |ops|
  {
    After(s, ops[..i], disks[..i])
  }

  lemma BeforeNext<A>(s: State<A>, ops: seq<Operation<A>>, disks: seq<Disk>, i: nat)
    requires |disks| == |ops| && i < |ops|
    ensures Before(s, ops, disks, i + 1) == Next(Before(s, ops, disks, i), disks[i], ops[i])
  {
    assert ops[..i + 1][..i] == ops[..i] && disks[..i + 1][..i] == disks[..i];
  }

  /** A key's text, once set, is the same in every later state, whatever the disk
      becomes; a fetch answers with it. */
  lemma {:induction false} TextNeverChanges<A>(s: State<A>, ops: seq<Operation<A>>, disks: seq<Disk>, i: nat, j: nat, key: string)
    requires |disks| == |ops| && i <= j <= |ops| && key in Before(s, ops, disks, i).sources
    ensures key in Before(s, ops, disks, j).sources
    ensures Before(s, ops, disks, j).sources[key] == Before(s, ops, disks, i).sources[key]
    ensures forall disk, path :: FetchSpec(Before(s, ops, disks, j), disk, key, path).1 == Ok(Before(s, ops, disks, i).sources[key])
  {
    if i < j {
      TextNeverChanges(s, ops, disks, i, j - 1, key);
      BeforeNext(s, ops, disks, j - 1);
    }
  }

  /** Every text in the snapshot was there at the start or was read from some
      moment's disk. */
  lemma {:induction false} TextsAreRead<A>(s: State<A>, ops: seq<Operation<A>>, disks: seq<Disk>, j: nat, key: string)
    requires |disks| == |ops| && j <= |ops| && key in Before(s, ops, disks, j).sources && key !in s.sources
    ensures exists i :: 0 <= i < j && ops[i].Fetch? && ops[i].key == key && ops[i].path in disks[i]
                        && Before(s, ops, disks, j).sources[key] == disks[i][ops[i].path]
  {
    if j > 0 {
      BeforeNext(s, ops, disks, j - 1);
      if key in Before(s, ops, disks, j - 1).sources {
        TextsAreRead(s, ops, disks, j - 1, key);
      } else {
        assert ops[j - 1].Fetch?;
      }
    }
  }

  /** What a fetch or a compile answers is what the snapshot then holds; a fetch fails
      exactly for a text neither held nor on the disk, a compile exactly where none is
      held and it does not come out. */
  lemma AnswersAreHeld<A>(s: State<A>, disk: Disk, key: string, path: string, outcome: Result<A, string>)
    ensures var (s', text) := FetchSpec(s, disk, key, path);
            && (text.Err? <==> key !in s.sources && path !in disk)
            && (text.Ok? ==> key in s'.sources && s'.sources[key] == text.value)
            && s'.artifacts == s.artifacts && s'.computes == s.computes
            && s'.sources - {key} == s.sources - {key}
    ensures var (s', made) := CompileSpec(s, key, outcome);
            && (made.Err? <==> key !in s.artifacts && outcome.Err?)
            && (made.Ok? ==> key in s'.artifacts && s'.artifacts[key] == made.value)
            && s'.sources == s.sources
  {}

  /** A compile that fails leaves no trace, and neither does a fetch that fails. */
  lemma FailuresLeaveNoTrace<A>(s: State<A>, disk: Disk, key: string, path: string, outcome: Result<A, string>)
    ensures FetchSpec(s, disk, key, path).1.Err? ==> FetchSpec(s, disk, key, path).0 == s
    ensures CompileSpec(s, key, outcome).1.Err? ==> CompileSpec(s, key, outcome).0 == s
    ensures CompileSpec(s, key, outcome).1.Err? ==> key !in s.artifacts
  {}

  lemma {:induction false} ArtifactsPersist<A>(s: State<A>, ops: seq<Operation<A>>, disks: seq<Disk>, i: nat, j: nat, key: string)
    requires |disks| == |ops| && i <= j <= |ops| && key in Before(s, ops, disks, i).artifacts
    ensures key in Before(s, ops, disks, j).artifacts
    ensures (forall k :: i <= k < j ==> !ops[k].Store?) ==>
              Before(s, ops, disks, j).artifacts[key] == Before(s, ops, disks, i).artifacts[key]
  {
    if i < j {
      ArtifactsPersist(s, ops, disks, i, j - 1, key);
      BeforeNext(s, ops, disks, j - 1);
    }
  }

  /** The operation puts the artifact there: a `store`, or a compile that runs and
      succeeds. */
  predicate Makes<A(==)>(s: State<A>, op: Operation<A>, key: string, made: A) {
    || op == Store(key, made)
    || (op == Compile(key, Ok(made)) && key !in s.artifacts)
  }

  /** No `store` under the key from operation `i` to before operation `j`. */
  ghost predicate NoStore<A>(ops: seq<Operation<A>>, i: nat, j: nat, key: string)
    requires j <= |ops|
  {
    forall k :: i <= k < j ==> !(ops[k].Store? && ops[k].key == key)
  }

  ghost predicate GivenAt<A>(s: State<A>, ops: seq<Operation<A>>, disks: seq<Disk>, i: nat, j: nat, key: string, made: A)
    requires |disks| == |ops| && i < j <= |ops|
  {
    Makes(Before(s, ops, disks, i), ops[i], key, made) && NoStore(ops, i + 1, j, key)
  }

  /** An artifact is the one the last `store` gave, or else the one compiled, or else
      was there at the start. */
  lemma {:induction false} ArtifactsAreMade<A>(s: State<A>, ops: seq<Operation<A>>, disks: seq<Disk>, j: nat, key: string)
    requires |disks| == |ops| && j <= |ops| && key in Before(s, ops, disks, j).artifacts
    ensures var made := Before(s, ops, disks, j).artifacts[key];
            || (key in s.artifacts && s.artifacts[key] == made && NoStore(ops, 0, j, key))
            || exists i :: 0 <= i < j && GivenAt(s, ops, disks, i, j, key, made)
  {
    if j > 0 {
      var before, op := Before(s, ops, disks, j - 1), ops[j - 1];
      BeforeNext(s, ops, disks, j - 1);
      var made := Before(s, ops, disks, j).artifacts[key];
      NextMakes(before, disks[j - 1], op, key);
      hide Before, Next, Makes;
      if Makes(before, op, key, made) {
        assert GivenAt(s, ops, disks, j - 1, j, key, made);
      } else {
        var n: nat := j - 1;
        ArtifactsAreMade(s, ops, disks, n, key);
        if i: nat :| i < n && GivenAt(s, ops, disks, i, n, key, made) {
          assert GivenAt(s, ops, disks, i, j, key, made);
        }
      }
    } else {
      assert ops[..0] == [];
    }
  }

  /** An operation either makes the artifact under a key or leaves it alone. */
  lemma NextMakes<A>(s: State<A>, disk: Disk, op: Operation<A>, key: string)
    requires key in Next(s, disk, op).artifacts
    ensures var made := Next(s, disk, op).artifacts[key];
            || Makes(s, op, key, made)
            || (!(op.Store? && op.key == key) && key in s.artifacts && s.artifacts[key] == made)
  {}

  /** How many of the first `j` operations made an artifact. */
  function Makings<A>(s: State<A>, ops: seq<Operation<A>>, disks: seq<Disk>, j: nat): nat
    requires |disks| == |ops| && j <= |ops|
  {
    if j == 0 then 0
    else Makings(s, ops, disks, j - 1) + if ops[j - 1].Store? || Computes(Before(s, ops, disks, j - 1), ops[j - 1], ops[j - 1].key) then 1 else 0
  }

  /** A key is compiled successfully at most once. */
  lemma CompiledOnce<A>(s: State<A>, ops: seq<Operation<A>>, disks: seq<Disk>, i: nat, j: nat, key: string)
    requires |disks| == |ops| && i < |ops| && j < |ops|
    requires Computes(Before(s, ops, disks, i), ops[i], key) && Computes(Before(s, ops, disks, j), ops[j], key)
    ensures i == j
  {
    if i < j {
      BeforeNext(s, ops, disks, i);
      ArtifactsPersist(s, ops, disks, i + 1, j, key);
    } else if j < i {
      BeforeNext(s, ops, disks, j);
      ArtifactsPersist(s, ops, disks, j + 1, i, key);
    }
  }

  /** Every compute that succeeds and every `store` is counted, once. */
  lemma {:induction false} EveryMakingCounts<A>(s: State<A>, ops: seq<Operation<A>>, disks: seq<Disk>, j: nat)
    requires |disks| == |ops| && j <= |ops|
    ensures Before(s, ops, disks, j).computes == s.computes + Makings(s, ops, disks, j)
  {
    if j > 0 {
      EveryMakingCounts(s, ops, disks, j - 1);
      BeforeNext(s, ops, disks, j - 1);
    } else {
      assert ops[..0] == [];
    }
  }

  /** The compute count never falls below the number of cached artifacts, and without
      `store` the two stay equally far apart: every compute is a new artifact. */
  lemma {:induction false} ComputesCount<A>(s: State<A>, ops: seq<Operation<A>>, disks: seq<Disk>, j: nat)
    requires |disks| == |ops| && j <= |ops| && s.computes >= |s.artifacts|
    ensures Before(s, ops, disks, j).computes >= |Before(s, ops, disks, j).artifacts|
    ensures (forall k :: 0 <= k < j ==> !ops[k].Store?) ==>
              Before(s, ops, disks, j).computes - |Before(s, ops, disks, j).artifacts| == s.computes - |s.artifacts|
  {
    if j > 0 {
      ComputesCount(s, ops, disks, j - 1);
      BeforeNext(s, ops, disks, j - 1);
      var before := Before(s, ops, disks, j - 1);
      match ops[j - 1]
      case Compile(key, outcome) =>
        if outcome.Ok? {
          InsertSize(before.artifacts, key, outcome.value);
        }
      case Store(key, made) => InsertSize(before.artifacts, key, made);
      case Fetch(_, _) =>
      case Peek(_) =>
    } else {
      assert ops[..0] == [];
    }
  }

  lemma InsertSize<A>(m: map<string, A>, key: string, made: A)
    ensures |m[key := made]| == |m| + if key in m then 0 else 1
  {
    var m' := m[key := made];
    assert m'.Keys == m.Keys + {key};
    assert |m'.Keys| == |m'| && |m.Keys| == |m|;
  }
}

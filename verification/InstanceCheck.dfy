/** The artifact checker's two passes over an instance document, and what they
    accept, stated without reference to any walking order. */
module InstanceCheck {
  import opened Common
  import opened JsonTree
  import opened Ids

  const SUPPORTED_VERSION := 1

  datatype Problem =
    | BadVersion
    | BadModel
    | MissingObjects
    | ObjectsNotArray
    | NotAnObject(index: nat)
    | MalformedId(id: string)
    | DuplicateId(id: string)
    | IdNotString
    | TypeMissing
    | TypeNotString
    | TypeWithoutId
    | RefWithExtraKeys
    | UnresolvedRef(target: string)

  /** The message for an id that is not `<class>/<ordinal>`, if any. */
  predicate Canonical(id: string) {
    match RSplitOnce(id, '/')
    case None => false
    case Some((prefix, ordinal)) => prefix != [] && ParseU64(ordinal).Some?
  }

  /** The ids of the canonical form: a prefix that is not empty, a slash, and the text
      of an ordinal. */
  ghost predicate HasCanonicalForm(id: string) {
    exists prefix, text, n :: prefix != [] && id == prefix + "/" + text && OrdinalText(text, n)
  }

  lemma CanonicalExactly(id: string)
    ensures Canonical(id) <==> HasCanonicalForm(id)
  {
    hide SortKey, OrdinalText;
    if Canonical(id) {
      var (prefix, text) := RSplitOnce(id, '/').value;
      ParseU64Exactly(text, ParseU64(text).value);
      assert id == prefix + "/" + text;
    }
    if prefix, text, n :| prefix != [] && id == prefix + "/" + text && OrdinalText(text, n) {
      ParseU64Exactly(text, n);
      OrdinalHasNoSlash(text, n);
      assert id == prefix + ['/'] + text;
      RSplitOnceAt(prefix, '/', text);
    }
  }

  // ----- the two passes -----

  function Children(j: Json, ord: set<string> -> seq<string>): (cs: seq<Json>)
    requires KeyOrder(ord)
    ensures forall i :: 0 <= i < |cs| ==> cs[i] < j
  {
    match j
    case Arr(items) => items
    case Obj(m) =>
      var keys := ord(m.Keys);
      assert forall i :: 0 <= i < |keys| ==> keys[i] in keys;
      seq(|keys|, i requires 0 <= i < |keys| => m[keys[i]])
    case _ => []
  }

  /** What pass one says about an object by itself; `ids` are the ids seen before. */
  function RegisterHere(m: map<string, Json>, ids: set<string>): (set<string>, seq<Problem>) {
    var (ids', forId) :=
      if KEY_ID !in m then (ids, if KEY_TYPE in m then [TypeWithoutId] else [])
      else
        var (seen, problem) :=
          if !m[KEY_ID].Str? then (ids, [IdNotString])
          else if !Canonical(m[KEY_ID].s) then (ids, [MalformedId(m[KEY_ID].s)])
          else if m[KEY_ID].s in ids then (ids, [DuplicateId(m[KEY_ID].s)])
          else (ids + {m[KEY_ID].s}, []);
        (seen, problem + if KEY_TYPE !in m then [TypeMissing] else if !m[KEY_TYPE].Str? then [TypeNotString] else []);
    (ids', forId + if KEY_REF in m && m.Keys != {KEY_REF} then [RefWithExtraKeys] else [])
  }

  function RegisterValue(j: Json, ids: set<string>, ord: set<string> -> seq<string>): (set<string>, seq<Problem>)
    requires KeyOrder(ord)
    decreases j
  {
    var (ids', here) := if j.Obj? then RegisterHere(j.members, ids) else (ids, []);
    var (ids'', below) := RegisterList(Children(j, ord), 0, ids', ord, j);
    (ids'', here + below)
  }

  function RegisterList(cs: seq<Json>, k: nat, ids: set<string>, ord: set<string> -> seq<string>, ghost parent: Json)
    : (set<string>, seq<Problem>)
    requires KeyOrder(ord) && k <= |cs| && forall i :: 0 <= i < |cs| ==> cs[i] < parent
    decreases parent, |cs| - k
  {
    if k == |cs| then (ids, [])
    else
      var (ids', here) := RegisterValue(cs[k], ids, ord);
      var (ids'', rest) := RegisterList(cs, k + 1, ids', ord, parent);
      (ids'', here + rest)
  }

  function ResolveHere(j: Json, ids: set<string>): seq<Problem> {
    match GetStr(j, KEY_REF)
    case None => []
    case Some(target) => if target in ids then [] else [UnresolvedRef(target)]
  }

  function ResolveValue(j: Json, ids: set<string>, ord: set<string> -> seq<string>): seq<Problem>
    requires KeyOrder(ord)
    decreases j
  {
    ResolveHere(j, ids) + ResolveList(Children(j, ord), 0, ids, ord, j)
  }

  function ResolveList(cs: seq<Json>, k: nat, ids: set<string>, ord: set<string> -> seq<string>, ghost parent: Json): seq<Problem>
    requires KeyOrder(ord) && k <= |cs| && forall i :: 0 <= i < |cs| ==> cs[i] < parent
    decreases parent, |cs| - k
  {
    if k == |cs| then [] else ResolveValue(cs[k], ids, ord) + ResolveList(cs, k + 1, ids, ord, parent)
  }

  function NotObjects(objects: seq<Json>, k: nat): (ps: seq<Problem>)
    requires k <= |objects|
    ensures ps == [] <==> forall i :: k <= i < |objects| ==> objects[i].Obj?
    decreases |objects| - k
  {
    if k == |objects| then []
    else (if objects[k].Obj? then [] else [NotAnObject(k)]) + NotObjects(objects, k + 1)
  }

  function HeaderProblems(root: map<string, Json>): seq<Problem> {
    (if "formatVersion" in root && root["formatVersion"] == Num(SUPPORTED_VERSION) then [] else [BadVersion])
    + (if "model" in root && root["model"].Str? && root["model"].s != "" then [] else [BadModel])
  }

  /** Every problem the checker reports; the document is accepted when there is none. */
  function CheckInstance(root: map<string, Json>, ord: set<string> -> seq<string>): seq<Problem>
    requires KeyOrder(ord)
  {
    var header := HeaderProblems(root);
    if "objects" !in root then header + [MissingObjects]
    else if !root["objects"].Arr? then header + [ObjectsNotArray]
    else
      var j := root["objects"];
      var (ids, registering) := RegisterValue(j, {}, ord);
      header + NotObjects(j.items, 0) + registering + ResolveValue(j, ids, ord)
  }

  // ----- what is accepted -----

  /** A step into a JSON value, and the value at the end of a path of steps. */
  datatype Step = Key(key: string) | Index(i: nat)

  function At(j: Json, path: seq<Step>): Option<Json> {
    if path == [] then Some(j)
    else
      match Down(j, path[0])
      case None => None
      case Some(child) => At(child, path[1..])
  }

  function Down(j: Json, step: Step): Option<Json> {
    match step
    case Key(key) => Get(j, key)
    case Index(i) => if j.Arr? && i < |j.items| then Some(j.items[i]) else None
  }

  function IdAt(j: Json, path: seq<Step>): Option<string> {
    match At(j, path)
    case None => None
    case Some(v) => GetStr(v, KEY_ID)
  }

  function RefAt(j: Json, path: seq<Step>): Option<string> {
    match At(j, path)
    case None => None
    case Some(v) => GetStr(v, KEY_REF)
  }

  /** An object is typed and has a canonical id, or it has neither; a link has
      nothing but its target. */
  ghost predicate NodeOk(j: Json) {
    j.Obj? ==>
      && (KEY_ID in j.members ==>
            && j.members[KEY_ID].Str? && HasCanonicalForm(j.members[KEY_ID].s)
            && KEY_TYPE in j.members && j.members[KEY_TYPE].Str?)
      && (KEY_ID !in j.members ==> KEY_TYPE !in j.members)
      && (KEY_REF in j.members ==> j.members.Keys == {KEY_REF})
  }

  ghost predicate NodesOk(j: Json) {
    forall p :: At(j, p).Some? ==> NodeOk(At(j, p).value)
  }

  ghost predicate UniqueIds(j: Json) {
    forall p, q :: IdAt(j, p).Some? && IdAt(j, p) == IdAt(j, q) ==> p == q
  }

  ghost predicate HasId(j: Json, id: string) {
    exists p :: IdAt(j, p) == Some(id)
  }

  ghost predicate RefsResolve(j: Json) {
    forall p :: RefAt(j, p).Some? ==> HasId(j, RefAt(j, p).value)
  }

  ghost predicate WellFormedInstance(root: map<string, Json>) {
    && "formatVersion" in root && root["formatVersion"] == Num(SUPPORTED_VERSION)
    && "model" in root && root["model"].Str? && root["model"].s != ""
    && "objects" in root && root["objects"].Arr?
    && (forall i :: 0 <= i < |root["objects"].items| ==> root["objects"].items[i].Obj?)
    && NodesOk(root["objects"]) && UniqueIds(root["objects"]) && RefsResolve(root["objects"])
  }

  // ----- paths and children -----

  /** The step that leads to child `i`. */
  function StepTo(j: Json, ord: set<string> -> seq<string>, i: nat): Step
    requires KeyOrder(ord) && i < |Children(j, ord)|
  {
    if j.Arr? then Index(i) else Key(ord(j.members.Keys)[i])
  }

  lemma DownToChild(j: Json, ord: set<string> -> seq<string>, i: nat)
    requires KeyOrder(ord) && i < |Children(j, ord)|
    ensures Down(j, StepTo(j, ord, i)) == Some(Children(j, ord)[i])
  {
    if j.Obj? {
      assert ord(j.members.Keys)[i] in ord(j.members.Keys);
    }
  }

  lemma ChildOfDown(j: Json, ord: set<string> -> seq<string>, step: Step) returns (i: nat)
    requires KeyOrder(ord) && Down(j, step).Some?
    ensures i < |Children(j, ord)| && StepTo(j, ord, i) == step && Children(j, ord)[i] == Down(j, step).value
  {
    match step
    case Index(k) => i := k;
    case Key(key) =>
      var keys := ord(j.members.Keys);
      assert key in keys;
      i :| 0 <= i < |keys| && keys[i] == key;
  }

  lemma StepsDistinct(j: Json, ord: set<string> -> seq<string>, a: nat, b: nat)
    requires KeyOrder(ord) && a < |Children(j, ord)| && b < |Children(j, ord)|
    requires StepTo(j, ord, a) == StepTo(j, ord, b)
    ensures a == b
  {
    if j.Obj? {
      var keys := ord(j.members.Keys);
      assert NoDup(keys);
    }
  }

  lemma AtChild(j: Json, ord: set<string> -> seq<string>, i: nat, p: seq<Step>)
    requires KeyOrder(ord) && i < |Children(j, ord)|
    ensures At(j, [StepTo(j, ord, i)] + p) == At(Children(j, ord)[i], p)
  {
    DownToChild(j, ord, i);
    assert ([StepTo(j, ord, i)] + p)[1..] == p;
  }

  /** Every path is empty or goes through exactly one child. */
  lemma PathThroughChild(j: Json, ord: set<string> -> seq<string>, p: seq<Step>) returns (i: nat)
    requires KeyOrder(ord) && At(j, p).Some? && p != []
    ensures i < |Children(j, ord)| && p == [StepTo(j, ord, i)] + p[1..] && At(j, p) == At(Children(j, ord)[i], p[1..])
  {
    i := ChildOfDown(j, ord, p[0]);
  }

  // ----- the passes decide acceptance -----

  /** From `ids` on, registering the children from `k` on reports nothing. */
  ghost predicate ListOk(cs: seq<Json>, k: nat, ids: set<string>) {
    && (forall i :: k <= i < |cs| ==> NodesOk(cs[i]))
    && (forall i, p :: k <= i < |cs| && IdAt(cs[i], p).Some? ==> IdAt(cs[i], p).value !in ids)
    && (forall a, b, p, q :: k <= a < |cs| && k <= b < |cs| && IdAt(cs[a], p).Some? && IdAt(cs[a], p) == IdAt(cs[b], q) ==>
          a == b && p == q)
  }

  ghost predicate ValueOk(j: Json, ids: set<string>) {
    && NodesOk(j) && UniqueIds(j)
    && forall p :: IdAt(j, p).Some? ==> IdAt(j, p).value !in ids
  }

  ghost predicate AddsIds(cs: seq<Json>, k: nat, ids: set<string>, ids': set<string>) {
    forall id :: id in ids' <==> id in ids || exists i :: k <= i < |cs| && HasId(cs[i], id)
  }

  lemma {:induction false} RegisterValueDecides(j: Json, ids: set<string>, ord: set<string> -> seq<string>)
    requires KeyOrder(ord)
    ensures var (ids', problems) := RegisterValue(j, ids, ord);
            && (problems == [] <==> ValueOk(j, ids))
            && (problems == [] ==> forall id :: id in ids' <==> id in ids || HasId(j, id))
    decreases j
  {
    var cs := Children(j, ord);
    var (ids1, here) := if j.Obj? then RegisterHere(j.members, ids) else (ids, []);
    RegisterListDecides(cs, 0, ids1, ord, j);
    HereDecides(j, ids);
    if here == [] {
      ValueByChildren(j, ids, ids1, ord);
      HasIdByChildren(j, ids, ids1, ord);
    } else {
      assert At(j, []) == Some(j);
      assert ValueOk(j, ids) ==> NodeOk(j) && IdAt(j, []) == GetStr(j, KEY_ID);
    }
  }

  lemma HereDecides(j: Json, ids: set<string>)
    ensures var (ids1, here) := if j.Obj? then RegisterHere(j.members, ids) else (ids, []);
            && (here == [] <==> NodeOk(j) && (GetStr(j, KEY_ID).Some? ==> GetStr(j, KEY_ID).value !in ids))
            && (here == [] ==> ids1 == ids + match GetStr(j, KEY_ID) case None => {} case Some(id) => {id})
  {
    hide Canonical, HasCanonicalForm;
    if GetStr(j, KEY_ID).Some? {
      CanonicalExactly(GetStr(j, KEY_ID).value);
    }
  }

  lemma ValueByChildren(j: Json, ids: set<string>, ids1: set<string>, ord: set<string> -> seq<string>)
    requires KeyOrder(ord) && NodeOk(j)
    requires GetStr(j, KEY_ID).Some? ==> GetStr(j, KEY_ID).value !in ids
    requires ids1 == ids + match GetStr(j, KEY_ID) case None => {} case Some(id) => {id}
    ensures ValueOk(j, ids) <==> ListOk(Children(j, ord), 0, ids1)
  {
    if ValueOk(j, ids) {
      ChildrenOk(j, ids, ids1, ord);
    }
    if ListOk(Children(j, ord), 0, ids1) {
      forall p | At(j, p).Some? ensures NodeOk(At(j, p).value) && (IdAt(j, p).Some? ==> IdAt(j, p).value !in ids) {
        PathOk(j, ids1, ord, p);
      }
      forall p, q | IdAt(j, p).Some? && IdAt(j, p) == IdAt(j, q) ensures p == q {
        PathsDistinct(j, ids1, ord, p, q);
      }
    }
  }

  lemma PathOk(j: Json, ids1: set<string>, ord: set<string> -> seq<string>, p: seq<Step>)
    requires KeyOrder(ord) && ListOk(Children(j, ord), 0, ids1) && At(j, p).Some?
    ensures p != [] ==> NodeOk(At(j, p).value) && (IdAt(j, p).Some? ==> IdAt(j, p).value !in ids1)
  {
    if p != [] {
      var i := PathThroughChild(j, ord, p);
      assert NodesOk(Children(j, ord)[i]);
      assert IdAt(Children(j, ord)[i], p[1..]) == IdAt(j, p);
    }
  }

  lemma PathsDistinct(j: Json, ids1: set<string>, ord: set<string> -> seq<string>, p: seq<Step>, q: seq<Step>)
    requires KeyOrder(ord) && ListOk(Children(j, ord), 0, ids1)
    requires GetStr(j, KEY_ID).Some? ==> GetStr(j, KEY_ID).value in ids1
    requires IdAt(j, p).Some? && IdAt(j, p) == IdAt(j, q)
    ensures p == q
  {
    PathOk(j, ids1, ord, p);
    PathOk(j, ids1, ord, q);
    if p != [] && q != [] {
      var a := PathThroughChild(j, ord, p);
      var b := PathThroughChild(j, ord, q);
      assert IdAt(Children(j, ord)[a], p[1..]) == IdAt(Children(j, ord)[b], q[1..]);
    }
  }

  lemma ChildrenOk(j: Json, ids: set<string>, ids1: set<string>, ord: set<string> -> seq<string>)
    requires KeyOrder(ord) && ValueOk(j, ids)
    requires ids1 == ids + match GetStr(j, KEY_ID) case None => {} case Some(id) => {id}
    ensures ListOk(Children(j, ord), 0, ids1)
  {
    var cs := Children(j, ord);
    forall i, p | 0 <= i < |cs| && At(cs[i], p).Some?
      ensures NodeOk(At(cs[i], p).value) && IdAt(cs[i], p) == IdAt(j, [StepTo(j, ord, i)] + p)
    {
      AtChild(j, ord, i, p);
    }
    forall i, p | 0 <= i < |cs| && IdAt(cs[i], p).Some? ensures IdAt(cs[i], p).value !in ids1 {
      assert IdAt(j, [StepTo(j, ord, i)] + p) == IdAt(cs[i], p);
      assert IdAt(j, []) == GetStr(j, KEY_ID);
      assert [StepTo(j, ord, i)] + p != [];
    }
    forall a, b, p, q | 0 <= a < |cs| && 0 <= b < |cs| && IdAt(cs[a], p).Some? && IdAt(cs[a], p) == IdAt(cs[b], q)
      ensures a == b && p == q
    {
      var p', q' := [StepTo(j, ord, a)] + p, [StepTo(j, ord, b)] + q;
      assert IdAt(j, p') == IdAt(j, q');
      assert p'[0] == q'[0] && p'[1..] == p && q'[1..] == q;
      StepsDistinct(j, ord, a, b);
    }
  }

  lemma HasIdByChildren(j: Json, ids: set<string>, ids1: set<string>, ord: set<string> -> seq<string>)
    requires KeyOrder(ord)
    requires ids1 == ids + match GetStr(j, KEY_ID) case None => {} case Some(id) => {id}
    ensures forall id :: id in ids || HasId(j, id) <==>
              id in ids1 || exists i :: 0 <= i < |Children(j, ord)| && HasId(Children(j, ord)[i], id)
  {
    var cs := Children(j, ord);
    forall id | HasId(j, id) ensures id in ids1 || exists i :: 0 <= i < |cs| && HasId(cs[i], id) {
      var p :| IdAt(j, p) == Some(id);
      if p != [] {
        var i := PathThroughChild(j, ord, p);
        assert IdAt(cs[i], p[1..]) == Some(id);
      }
    }
    forall id, i | 0 <= i < |cs| && HasId(cs[i], id) ensures HasId(j, id) {
      var p :| IdAt(cs[i], p) == Some(id);
      AtChild(j, ord, i, p);
      assert IdAt(j, [StepTo(j, ord, i)] + p) == Some(id);
    }
    forall id | id in ids1 ensures id in ids || HasId(j, id) {
      assert IdAt(j, []) == GetStr(j, KEY_ID);
    }
  }

  lemma {:induction false} RegisterListDecides(cs: seq<Json>, k: nat, ids: set<string>, ord: set<string> -> seq<string>, parent: Json)
    requires KeyOrder(ord) && k <= |cs| && forall i :: 0 <= i < |cs| ==> cs[i] < parent
    ensures var (ids', problems) := RegisterList(cs, k, ids, ord, parent);
            && (problems == [] <==> ListOk(cs, k, ids))
            && (problems == [] ==> AddsIds(cs, k, ids, ids'))
    decreases parent, |cs| - k
  {
    if k < |cs| {
      var (ids1, here) := RegisterValue(cs[k], ids, ord);
      RegisterValueDecides(cs[k], ids, ord);
      RegisterListDecides(cs, k + 1, ids1, ord, parent);
      if here == [] {
        ListStep(cs, k, ids, ids1);
      }
    }
  }

  lemma ListStep(cs: seq<Json>, k: nat, ids: set<string>, ids1: set<string>)
    requires k < |cs| && ValueOk(cs[k], ids)
    requires forall id :: id in ids1 <==> id in ids || HasId(cs[k], id)
    ensures ListOk(cs, k, ids) <==> ListOk(cs, k + 1, ids1)
  {
  }

  /** Pass two reports nothing exactly when every reference is among the ids. */
  lemma {:induction false} ResolveValueDecides(j: Json, ids: set<string>, ord: set<string> -> seq<string>)
    requires KeyOrder(ord)
    ensures ResolveValue(j, ids, ord) == [] <==> forall p :: RefAt(j, p).Some? ==> RefAt(j, p).value in ids
    decreases j
  {
    hide Children, StepTo;
    var cs := Children(j, ord);
    ResolveListDecides(cs, 0, ids, ord, j);
    if forall p :: RefAt(j, p).Some? ==> RefAt(j, p).value in ids {
      assert RefAt(j, []) == GetStr(j, KEY_REF);
      forall i, p | 0 <= i < |cs| && RefAt(cs[i], p).Some? ensures RefAt(cs[i], p).value in ids {
        AtChild(j, ord, i, p);
        assert RefAt(j, [StepTo(j, ord, i)] + p) == RefAt(cs[i], p);
      }
    }
    if ResolveValue(j, ids, ord) == [] {
      forall p | RefAt(j, p).Some? ensures RefAt(j, p).value in ids {
        if p != [] {
          var i := PathThroughChild(j, ord, p);
          assert RefAt(cs[i], p[1..]) == RefAt(j, p);
        }
      }
    }
  }

  lemma {:induction false} ResolveListDecides(cs: seq<Json>, k: nat, ids: set<string>, ord: set<string> -> seq<string>, parent: Json)
    requires KeyOrder(ord) && k <= |cs| && forall i :: 0 <= i < |cs| ==> cs[i] < parent
    ensures ResolveList(cs, k, ids, ord, parent) == [] <==>
            forall i, p :: k <= i < |cs| && RefAt(cs[i], p).Some? ==> RefAt(cs[i], p).value in ids
    decreases parent, |cs| - k
  {
    if k < |cs| {
      ResolveValueDecides(cs[k], ids, ord);
      ResolveListDecides(cs, k + 1, ids, ord, parent);
    }
  }

  /** The checker accepts a document exactly when it is a well-formed instance,
      in whatever order objects list their members. */
  lemma CheckerDecides(root: map<string, Json>, ord: set<string> -> seq<string>)
    requires KeyOrder(ord)
    ensures CheckInstance(root, ord) == [] <==> WellFormedInstance(root)
  {
    if "objects" in root && root["objects"].Arr? {
      var j := root["objects"];
      var (ids, registering) := RegisterValue(j, {}, ord);
      RegisterValueDecides(j, {}, ord);
      ResolveValueDecides(j, ids, ord);
    }
  }

  /** The verdict does not depend on the order members are walked in. */
  lemma VerdictIgnoresOrder(root: map<string, Json>, ord: set<string> -> seq<string>, ord': set<string> -> seq<string>)
    requires KeyOrder(ord) && KeyOrder(ord')
    ensures CheckInstance(root, ord) == [] <==> CheckInstance(root, ord') == []
  {
    CheckerDecides(root, ord);
    CheckerDecides(root, ord');
  }

  // ----- the checker as it runs -----

  class Checker {
    const ord: set<string> -> seq<string>
    var ids: set<string>
    var errors: seq<Problem>

    constructor (ord: set<string> -> seq<string>)
      ensures this.ord == ord && ids == {} && errors == []
    {
      this.ord := ord;
      ids := {};
      errors := [];
    }

    method Register(j: Json)
      requires KeyOrder(ord)
      modifies this
      ensures (ids, errors) == (RegisterValue(j, old(ids), ord).0, old(errors) + RegisterValue(j, old(ids), ord).1)
      decreases j
    {
      var here: seq<Problem> := [];
      if j.Obj? {
        var (ids', problems) := RegisterHere(j.members, ids);
        ids, here := ids', problems;
      }
      errors := errors + here;
      ghost var below := RegisterList(Children(j, ord), 0, ids, ord, j).1;
      RegisterChildren(Children(j, ord), j);
      assert old(errors) + here + below == old(errors) + (here + below);
    }

    method RegisterChildren(cs: seq<Json>, ghost parent: Json)
      requires KeyOrder(ord) && forall i :: 0 <= i < |cs| ==> cs[i] < parent
      modifies this
      ensures ids == RegisterList(cs, 0, old(ids), ord, parent).0
      ensures errors == old(errors) + RegisterList(cs, 0, old(ids), ord, parent).1
      decreases parent, 0
    {
      hide RegisterValue;
      ghost var (end, problems) := RegisterList(cs, 0, ids, ord, parent);
      for k := 0 to |cs|
        invariant end == RegisterList(cs, k, ids, ord, parent).0
        invariant old(errors) + problems == errors + RegisterList(cs, k, ids, ord, parent).1
      {
        Register(cs[k]);
      }
      assert errors == old(errors) + problems;
    }

    method Resolve(j: Json)
      requires KeyOrder(ord)
      modifies this`errors
      ensures errors == old(errors) + ResolveValue(j, ids, ord)
      decreases j
    {
      hide ResolveHere, ResolveList;
      errors := errors + ResolveHere(j, ids);
      ResolveChildren(Children(j, ord), j);
      assert errors == old(errors) + (ResolveHere(j, ids) + ResolveList(Children(j, ord), 0, ids, ord, j));
    }

    method ResolveChildren(cs: seq<Json>, ghost parent: Json)
      requires KeyOrder(ord) && forall i :: 0 <= i < |cs| ==> cs[i] < parent
      modifies this`errors
      ensures errors == old(errors) + ResolveList(cs, 0, ids, ord, parent)
      decreases parent, 0
    {
      ghost var goal := errors + ResolveList(cs, 0, ids, ord, parent);
      for k := 0 to |cs|
        invariant goal == errors + ResolveList(cs, k, ids, ord, parent)
      {
        ghost var rest := ResolveList(cs, k + 1, ids, ord, parent);
        assert goal == errors + ResolveValue(cs[k], ids, ord) + rest;
        Resolve(cs[k]);
      }
      assert errors == goal;
    }

    /** The whole check: accepted exactly when the document is well formed. */
    method Check(root: map<string, Json>) returns (accepted: bool)
      requires KeyOrder(ord) && ids == {} && errors == []
      modifies this
      ensures errors == CheckInstance(root, ord)
      ensures accepted <==> WellFormedInstance(root)
    {
      errors := HeaderProblems(root);
      if "objects" !in root {
        errors := errors + [MissingObjects];
      } else if !root["objects"].Arr? {
        errors := errors + [ObjectsNotArray];
      } else {
        errors := errors + NotObjects(root["objects"].items, 0);
        Register(root["objects"]);
        Resolve(root["objects"]);
      }
      accepted := errors == [];
      CheckerDecides(root, ord);
    }
  }
}

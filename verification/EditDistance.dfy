/** The did-you-mean helper: a two-row edit distance and the suggestion drawn from it. */
module EditDistance {
  import opened Common

  function Min(a: nat, b: nat): nat {
    if a < b then a else b
  }

  function Front(s: string): string
    requires s != ""
  {
    s[..|s| - 1]
  }

  function Last(s: string): char
    requires s != ""
  {
    s[|s| - 1]
  }

  /** The recurrence behind the two rows. */
  function Distance(a: string, b: string): nat
    decreases |a| + |b|
  {
    if a == "" then |b|
    else if b == "" then |a|
    else
      Min(Min(Distance(Front(a), b) + 1, Distance(a, Front(b)) + 1),
          Distance(Front(a), Front(b)) + if Last(a) == Last(b) then 0 else 1)
  }

  /** The distances from a prefix of a to every prefix of b. */
  ghost predicate IsRow(row: seq<nat>, a: string, b: string) {
    |row| == |b| + 1 && forall j :: 0 <= j <= |b| ==> row[j] == Distance(a, b[..j])
  }

  method Levenshtein(a: string, b: string) returns (d: nat)
    ensures d == Distance(a, b)
  {
    var previous: seq<nat> := seq(|b| + 1, (j: nat) => j);
    for i := 0 to |a|
      invariant IsRow(previous, a[..i], b)
    {
      previous := NextRow(a, b, i, previous);
    }
    assert a[..|a|] == a && b[..|b|] == b;
    d := previous[|b|];
  }

  method NextRow(a: string, b: string, i: nat, previous: seq<nat>) returns (current: seq<nat>)
    requires i < |a| && IsRow(previous, a[..i], b)
    ensures IsRow(current, a[..i + 1], b)
  {
    hide Distance;
    current := [i + 1];
    Recurrence(a, b, i, 0);
    for j := 0 to |b|
      invariant |current| == j + 1
      invariant forall k :: 0 <= k <= j ==> current[k] == Distance(a[..i + 1], b[..k])
    {
      Recurrence(a, b, i, j);
      var cost := if a[i] == b[j] then 0 else 1;
      current := current + [Min(Min(previous[j + 1] + 1, current[j] + 1), previous[j] + cost)];
    }
  }

  lemma Recurrence(a: string, b: string, i: nat, j: nat)
    requires i < |a| && j <= |b|
    ensures Distance(a[..i + 1], b[..0]) == i + 1
    ensures j < |b| ==>
              Distance(a[..i + 1], b[..j + 1])
              == Min(Min(Distance(a[..i], b[..j + 1]) + 1, Distance(a[..i + 1], b[..j]) + 1),
                     Distance(a[..i], b[..j]) + if a[i] == b[j] then 0 else 1)
  {
    Prefixes(a, i);
    if j < |b| {
      Prefixes(b, j);
    }
  }

  lemma Prefixes(s: string, i: nat)
    requires i < |s|
    ensures s[..i + 1] != "" && Front(s[..i + 1]) == s[..i] && Last(s[..i + 1]) == s[i]
  {}

  // ----- it is a metric -----

  lemma {:induction false} DistanceToItself(a: string)
    ensures Distance(a, a) == 0
  {
    if a != "" {
      DistanceToItself(Front(a));
    }
  }

  lemma {:induction false} ZeroOnlyToItself(a: string, b: string)
    ensures Distance(a, b) == 0 <==> a == b
    decreases |a| + |b|
  {
    if a == b {
      DistanceToItself(a);
    } else if a != "" && b != "" {
      ZeroOnlyToItself(Front(a), Front(b));
      assert a == Front(a) + [Last(a)] && b == Front(b) + [Last(b)];
    }
  }

  lemma {:induction false} Symmetric(a: string, b: string)
    ensures Distance(a, b) == Distance(b, a)
    decreases |a| + |b|
  {
    if a != "" && b != "" {
      Symmetric(Front(a), b);
      Symmetric(a, Front(b));
      Symmetric(Front(a), Front(b));
    }
  }

  /** Dropping a last character moves the distance by at most one. */
  lemma {:induction false} DropLast(a: string, b: string)
    requires a != ""
    ensures Distance(a, b) <= Distance(Front(a), b) + 1
    ensures Distance(Front(a), b) <= Distance(a, b) + 1
    decreases |a| + |b|
  {
    if b != "" {
      DropLast(a, Front(b));
      if Front(a) != "" {
        DropLast(Front(a), Front(b));
      }
    }
  }

  lemma {:induction false} LengthBound(a: string, b: string)
    ensures |a| <= |b| + Distance(a, b)
    ensures Distance(a, b) <= |a| + |b|
    decreases |a| + |b|
  {
    if a != "" && b != "" {
      LengthBound(Front(a), b);
      LengthBound(a, Front(b));
      LengthBound(Front(a), Front(b));
    }
  }

  lemma {:induction false} Triangle(a: string, b: string, c: string)
    ensures Distance(a, c) <= Distance(a, b) + Distance(b, c)
    decreases |a| + |b| + |c|
  {
    if a == "" {
      LengthBound(c, b);
      Symmetric(b, c);
    } else if c == "" {
      LengthBound(a, b);
    } else if b == "" {
      LengthBound(a, c);
    } else {
      TriangleStep(a, b, c);
    }
  }

  /** By the last step of each distance: dropping from a, adding to c, or passing
      through the last character of b. */
  lemma {:induction false} TriangleStep(a: string, b: string, c: string)
    requires a != "" && b != "" && c != ""
    ensures Distance(a, c) <= Distance(a, b) + Distance(b, c)
    decreases |a| + |b| + |c|, 0
  {
    var a', b', c' := Front(a), Front(b), Front(c);
    DropLast(a, c);
    DropLastRight(a, c);
    if Distance(a, b) == Distance(a', b) + 1 {
      Triangle(a', b, c);
    } else if Distance(b, c) == Distance(b, c') + 1 {
      Triangle(a, b, c');
    } else if Distance(a, b) == Distance(a, b') + 1 {
      Triangle(a, b', c);
      DropLast(b, c);
      if Distance(b, c) != Distance(b', c) + 1 {
        Triangle(a, b', c');
      }
    } else if Distance(b, c) == Distance(b', c) + 1 {
      Triangle(a', b', c);
    } else {
      Triangle(a', b', c');
    }
  }

  lemma DropLastRight(a: string, c: string)
    requires c != ""
    ensures Distance(a, c) <= Distance(a, Front(c)) + 1
  {
    Symmetric(a, c);
    Symmetric(a, Front(c));
    DropLast(c, a);
  }

  // ----- it counts edits -----

  function Without(s: string, i: nat): string
    requires i < |s|
  {
    s[..i] + s[i + 1..]
  }

  predicate Substituted(s: string, t: string, i: nat) {
    i < |s| == |t| && s[..i] == t[..i] && s[i + 1..] == t[i + 1..]
  }

  /** One insertion, deletion or substitution of a character. */
  predicate OneEdit(s: string, t: string) {
    || (exists i :: 0 <= i < |t| && s == Without(t, i))
    || (exists i :: 0 <= i < |s| && t == Without(s, i))
    || (exists i :: 0 <= i < |s| && Substituted(s, t, i))
  }

  /** Strings from a to b, each an edit of the one before. */
  predicate Edits(chain: seq<string>, a: string, b: string) {
    && chain != [] && chain[0] == a && chain[|chain| - 1] == b
    && forall i :: 0 <= i < |chain| - 1 ==> OneEdit(chain[i], chain[i + 1])
  }

  lemma {:induction false} CommonTail(s: string, t: string, z: string)
    ensures Distance(s + z, t + z) <= Distance(s, t)
  {
    if z == "" {
      assert s + z == s && t + z == t;
    } else {
      CommonTail(s, t, Front(z));
      assert Front(s + z) == s + Front(z) && Front(t + z) == t + Front(z);
    }
  }

  lemma EditMovesByOne(s: string, t: string)
    requires OneEdit(s, t)
    ensures Distance(s, t) <= 1
  {
    hide Distance, Without, Substituted;
    if i :| 0 <= i < |t| && s == Without(t, i) {
      RemovedAt(t, i);
      Symmetric(s, t);
    } else if i :| 0 <= i < |s| && t == Without(s, i) {
      RemovedAt(s, i);
    } else {
      var i :| 0 <= i < |s| && Substituted(s, t, i);
      SubstitutedAt(s, t, i);
    }
  }

  lemma SubstitutedAt(s: string, t: string, i: nat)
    requires Substituted(s, t, i)
    ensures Distance(s, t) <= 1
  {
    var x, y, z := s[..i] + [s[i]], t[..i] + [t[i]], s[i + 1..];
    LastCharacters(s[..i], s[i], t[i]);
    assert s == x + z && t == y + z;
    hide Distance;
    CommonTail(x, y, z);
  }

  lemma LastCharacters(x: string, c: char, d: char)
    ensures Distance(x + [c], x + [d]) <= 1
    ensures Distance(x + [c], x) <= 1
  {
    assert Front(x + [c]) == x && Front(x + [d]) == x;
    DistanceToItself(x);
    DropLast(x + [c], x);
  }

  lemma RemovedAt(s: string, i: nat)
    requires i < |s|
    ensures Distance(s, Without(s, i)) <= 1
  {
    hide Distance;
    var x, z := s[..i] + [s[i]], s[i + 1..];
    LastCharacters(s[..i], s[i], s[i]);
    CommonTail(x, s[..i], z);
    assert s == x + z && Without(s, i) == s[..i] + z;
  }

  /** No chain of edits is shorter. */
  lemma {:induction false} NoShorterEdits(chain: seq<string>, a: string, b: string)
    requires Edits(chain, a, b)
    ensures Distance(a, b) <= |chain| - 1
    decreases |chain|
  {
    if |chain| == 1 {
      DistanceToItself(a);
    } else {
      var rest := chain[1..];
      forall i | 0 <= i < |rest| - 1 ensures OneEdit(rest[i], rest[i + 1]) {
        assert OneEdit(chain[i + 1], chain[i + 2]);
      }
      NoShorterEdits(rest, chain[1], b);
      assert OneEdit(chain[0], chain[1]);
      EditMovesByOne(a, chain[1]);
      Triangle(a, chain[1], b);
    }
  }

  lemma EditFirst(a: string, rest: seq<string>, m: string, b: string)
    requires OneEdit(a, m) && Edits(rest, m, b)
    ensures Edits([a] + rest, a, b)
  {
    hide OneEdit;
    var chain := [a] + rest;
    forall i | 0 <= i < |chain| - 1 ensures OneEdit(chain[i], chain[i + 1]) {
      if i > 0 {
        assert OneEdit(rest[i - 1], rest[i]);
      }
    }
  }

  lemma EditLast(a: string, rest: seq<string>, m: string, b: string)
    requires Edits(rest, a, m) && OneEdit(m, b)
    ensures Edits(rest + [b], a, b)
  {
    hide OneEdit;
    var chain := rest + [b];
    forall i | 0 <= i < |chain| - 1 ensures OneEdit(chain[i], chain[i + 1]) {
      if i < |rest| - 1 {
        assert OneEdit(rest[i], rest[i + 1]);
      }
    }
  }

  /** And one is exactly that long. */
  lemma {:induction false} ShortestEdits(a: string, b: string) returns (chain: seq<string>)
    ensures Edits(chain, a, b) && |chain| == Distance(a, b) + 1
    decreases |a| + |b|
  {
    hide OneEdit, Edits;
    if a == "" && b == "" {
      chain := [""];
      NoEdits();
    } else if a != "" && (b == "" || Distance(a, b) == Distance(Front(a), b) + 1) {
      var rest := ShortestEdits(Front(a), b);
      LastRemoved(a);
      EditFirst(a, rest, Front(a), b);
      chain := [a] + rest;
    } else if a == "" || Distance(a, b) == Distance(a, Front(b)) + 1 {
      var rest := ShortestEdits(a, Front(b));
      LastRemoved(b);
      EditLast(a, rest, Front(b), b);
      chain := rest + [b];
    } else {
      var rest := ShortestEdits(Front(a), Front(b));
      chain := ThroughLast(a, b, rest);
    }
  }

  lemma NoEdits()
    ensures Edits([""], "", "")
  {}

  lemma LastRemoved(s: string)
    requires s != ""
    ensures OneEdit(s, Front(s)) && OneEdit(Front(s), s)
  {
    assert Front(s) == Without(s, |s| - 1);
  }

  /** The edits of the fronts, made with the last character of b in place. */
  lemma ThroughLast(a: string, b: string, rest: seq<string>) returns (chain: seq<string>)
    requires a != "" && b != "" && Edits(rest, Front(a), Front(b))
    ensures Edits(chain, a, b) && |chain| == |rest| + if Last(a) == Last(b) then 0 else 1
  {
    var c := Last(b);
    chain := seq(|rest|, i requires 0 <= i < |rest| => rest[i] + [c]);
    forall i | 0 <= i < |chain| - 1 ensures OneEdit(chain[i], chain[i + 1]) {
      assert OneEdit(rest[i], rest[i + 1]);
      EditBefore(rest[i], rest[i + 1], c);
    }
    assert b == Front(b) + [c] && a == Front(a) + [Last(a)];
    if Last(a) != c {
      var start := Front(a) + [c];
      assert Substituted(a, start, |a| - 1);
      chain := [a] + chain;
    }
  }

  lemma EditBefore(s: string, t: string, c: char)
    requires OneEdit(s, t)
    ensures OneEdit(s + [c], t + [c])
  {
    var s', t' := s + [c], t + [c];
    hide Distance;
    if i :| 0 <= i < |t| && s == Without(t, i) {
      assert s' == Without(t', i);
    } else if i :| 0 <= i < |s| && t == Without(s, i) {
      assert t' == Without(s', i);
    } else {
      var i :| 0 <= i < |s| && Substituted(s, t, i);
      assert s'[..i] == s[..i] && t'[..i] == t[..i];
      assert s'[i + 1..] == s[i + 1..] + [c] && t'[i + 1..] == t[i + 1..] + [c];
      assert Substituted(s', t', i);
    }
  }

  // ----- the suggestion -----

  function Lower(c: char): char {
    if 'A' <= c <= 'Z' then ((c as int) + 32) as char else c
  }

  /** The one is the other's ASCII capital. */
  predicate Capital(upper: char, lower: char) {
    'A' <= upper <= 'Z' && lower as int == upper as int + 32
  }

  /** Equal but for the case of ASCII letters. */
  predicate CaseVariant(a: string, b: string) {
    |a| == |b| && forall i :: 0 <= i < |a| ==> a[i] == b[i] || Capital(a[i], b[i]) || Capital(b[i], a[i])
  }

  function Budget(name: string): nat {
    if |name| / 3 > 2 then |name| / 3 else 2
  }

  /** A distance within the budget: up to two, and up to a third of the name. */
  predicate Near(name: string, distance: nat) {
    distance <= 2 || 3 * distance <= |name|
  }

  lemma BudgetIs(name: string, distance: nat)
    ensures distance <= Budget(name) <==> Near(name, distance)
  {}

  /** The elements of an ordered set, in order. */
  ghost predicate Ascending(names: seq<string>) {
    forall i, j :: 0 <= i < j < |names| ==> TextLess(names[i], names[j])
  }

  /** As good a suggestion: another case variant, or a name as near. */
  ghost predicate AsGood(name: string, c: string, best: string) {
    if CaseVariant(best, name) then CaseVariant(c, name) else Distance(name, c) <= Distance(name, best)
  }

  /** The suggestion is a case variant when there is one, the first of them; else the
      first of the nearest names, within the budget; else nothing. Declared names come
      out of an ordered set, so the first is the alphabetically first. */
  method DidYouMean(name: string, declared: seq<string>) returns (best: Option<string>)
    ensures best.None? <==> forall c :: c in declared ==> !CaseVariant(c, name) && !Near(name, Distance(name, c))
    ensures best.Some? ==> exists i :: 0 <= i < |declared| && declared[i] == best.value && Preferred(name, declared, i)
    ensures best.Some? && Ascending(declared) ==>
              forall c :: c in declared && AsGood(name, c, best.value) ==> c == best.value || TextLess(best.value, c)
  {
    hide Distance, CaseVariant, Near, Budget, Preferred, TextLess, AsGood;
    for i := 0 to |declared|
      invariant forall k :: 0 <= k < i ==> !CaseVariant(declared[k], name)
    {
      var variant := IsCaseVariant(declared[i], name);
      if variant {
        assert Preferred(name, declared, i) by { FirstVariant(name, declared, i); }
        AlphabeticallyFirst(name, declared, i);
        return Some(declared[i]);
      }
    }
    var at := Nearest(name, declared);
    if at.None? {
      return None;
    }
    assert Preferred(name, declared, at.value) by { FirstNearest(name, declared, at.value); }
    AlphabeticallyFirst(name, declared, at.value);
    return Some(declared[at.value]);
  }

  /** Only a strictly smaller distance replaces the best so far. */
  method Nearest(name: string, declared: seq<string>) returns (at: Option<nat>)
    ensures at.None? ==> forall k :: 0 <= k < |declared| ==> !Near(name, Distance(name, declared[k]))
    ensures at.Some? ==> at.value < |declared| && Near(name, Distance(name, declared[at.value]))
    ensures at.Some? ==> forall k :: 0 <= k < |declared| ==> Distance(name, declared[at.value]) <= Distance(name, declared[k])
    ensures at.Some? ==> forall k :: 0 <= k < at.value ==> Distance(name, declared[at.value]) < Distance(name, declared[k])
  {
    hide Distance;
    at := None;
    var nearest: nat := 0;
    for i := 0 to |declared|
      invariant at.None? ==> forall k :: 0 <= k < i ==> !Near(name, Distance(name, declared[k]))
      invariant at.Some? ==> at.value < i && nearest == Distance(name, declared[at.value])
      invariant at.Some? ==> Near(name, nearest)
      invariant at.Some? ==> forall k :: 0 <= k < i ==> Distance(name, declared[k]) >= nearest
      invariant at.Some? ==> forall k :: 0 <= k < at.value ==> Distance(name, declared[k]) > nearest
    {
      var distance := Levenshtein(name, declared[i]);
      BudgetIs(name, distance);
      var within := distance <= Budget(name);
      assert within <==> Near(name, distance);
      if within && (at.None? || distance < nearest) {
        at, nearest := Some(i), distance;
      }
    }
  }

  /** Nothing declared is a better suggestion than the i-th, or as good and earlier. */
  ghost predicate Preferred(name: string, declared: seq<string>, i: nat)
    requires i < |declared|
  {
    if CaseVariant(declared[i], name) then forall k :: 0 <= k < i ==> !CaseVariant(declared[k], name)
    else
      && Near(name, Distance(name, declared[i]))
      && forall k :: 0 <= k < |declared| ==>
           && !CaseVariant(declared[k], name)
           && Distance(name, declared[i]) <= Distance(name, declared[k])
           && (k < i ==> Distance(name, declared[i]) < Distance(name, declared[k]))
  }

  lemma FirstVariant(name: string, declared: seq<string>, i: nat)
    requires i < |declared| && CaseVariant(declared[i], name) && forall k :: 0 <= k < i ==> !CaseVariant(declared[k], name)
    ensures Preferred(name, declared, i)
  {
    hide CaseVariant, Distance;
  }

  lemma FirstNearest(name: string, declared: seq<string>, i: nat)
    requires i < |declared| && Near(name, Distance(name, declared[i]))
    requires forall k :: 0 <= k < |declared| ==> !CaseVariant(declared[k], name)
    requires forall k :: 0 <= k < |declared| ==> Distance(name, declared[i]) <= Distance(name, declared[k])
    requires forall k :: 0 <= k < i ==> Distance(name, declared[i]) < Distance(name, declared[k])
    ensures Preferred(name, declared, i)
  {
    hide CaseVariant, Distance, Near, Budget;
  }

  /** Of an ascending list the preferred name comes before any as good. */
  lemma AlphabeticallyFirst(name: string, declared: seq<string>, i: nat)
    requires i < |declared| && Preferred(name, declared, i)
    ensures Ascending(declared) ==>
              forall c :: c in declared && AsGood(name, c, declared[i]) ==> c == declared[i] || TextLess(declared[i], c)
  {
    hide CaseVariant, Distance, Near, Budget, TextLess;
    forall c | Ascending(declared) && c in declared && AsGood(name, c, declared[i])
      ensures c == declared[i] || TextLess(declared[i], c)
    {
      var k :| 0 <= k < |declared| && declared[k] == c;
    }
  }

  /** Lower-casing makes two characters equal exactly when one is the other's capital
      or they already are. */
  lemma LowerMerges()
    ensures forall c, d :: Lower(c) == Lower(d) <==> c == d || Capital(c, d) || Capital(d, c)
  {}

  method IsCaseVariant(a: string, b: string) returns (r: bool)
    ensures r <==> CaseVariant(a, b)
  {
    r := |a| == |b| && forall i :: 0 <= i < |a| ==> Lower(a[i]) == Lower(b[i]);
    assert forall c, d :: Lower(c) == Lower(d) <==> c == d || Capital(c, d) || Capital(d, c) by { LowerMerges(); }
  }

  /** A name one edit away, or spelled in another case, is never missed. */
  lemma OneTypoIsWithinBudget(name: string, c: string)
    requires OneEdit(name, c)
    ensures Near(name, Distance(name, c))
  {
    EditMovesByOne(name, c);
  }
}

/** Small shared vocabulary: optional values, results, and facts about
    sequences without repeated elements. */
module Common {

  datatype Option<+T> = None | Some(value: T)

  datatype Result<+T, +E> = Ok(value: T) | Err(error: E)

  /** No element occurs at two positions. */
  ghost predicate NoDup<T>(s: seq<T>) {
    forall i, j :: 0 <= i < j < |s| ==> s[i] != s[j]
  }

  /** Strings in order of their characters. */
  predicate TextLess(a: string, b: string) {
    b != [] && (a == [] || a[0] < b[0] || (a[0] == b[0] && TextLess(a[1..], b[1..])))
  }

  /** The elements of s, each kept at its first occurrence. */
  function Dedup<T(==,!new)>(s: seq<T>): (r: seq<T>)
    ensures forall x :: x in r <==> x in s
    ensures NoDup(r)
  {
    if s == [] then []
    else
      var front := Dedup(s[..|s| - 1]);
      var last := s[|s| - 1];
      assert s == s[..|s| - 1] + [last];
      if last in front then front else front + [last]
  }

  lemma DedupNext<T(!new)>(s: seq<T>, x: T)
    ensures Dedup(s + [x]) == if x in Dedup(s) then Dedup(s) else Dedup(s) + [x]
  {
    assert (s + [x])[..|s|] == s;
  }

  /** `kept` holds the elements of s, each once, in the order they first appear. */
  ghost predicate FirstAppearances<T(!new)>(s: seq<T>, kept: seq<T>) {
    && NoDup(kept)
    && (forall x :: x in kept <==> x in s)
    && (forall a, b :: 0 <= a < b < |kept| ==> exists m :: 0 <= m < |s| && s[m] == kept[a] && kept[b] !in s[..m])
  }

  lemma {:induction false} DedupKeepsFirst<T(!new)>(s: seq<T>)
    ensures FirstAppearances(s, Dedup(s))
  {
    if s != [] {
      var front, last := s[..|s| - 1], s[|s| - 1];
      DedupKeepsFirst(front);
      assert s == front + [last];
      var kept := Dedup(s);
      forall a, b | 0 <= a < b < |kept| ensures exists m :: 0 <= m < |s| && s[m] == kept[a] && kept[b] !in s[..m] {
        assert a < |Dedup(front)| && Dedup(front)[a] in front;
        var m :| 0 <= m < |front| && front[m] == Dedup(front)[a] && (b == |Dedup(front)| || Dedup(front)[b] !in front[..m]);
        assert s[..m] == front[..m] && s[m] == kept[a];
      }
    }
  }

  /** Removing repetitions changes nothing exactly when there are none. */
  lemma {:induction false} DedupFixpoint<T(!new)>(s: seq<T>)
    ensures Dedup(s) == s <==> NoDup(s)
    ensures |Dedup(s)| <= |s|
  {
    if s != [] {
      var front := s[..|s| - 1];
      DedupFixpoint(front);
      assert s == front + [s[|s| - 1]];
      if NoDup(s) {
        assert NoDup(front);
      }
    }
  }

  lemma NoDupConcat<T(!new)>(a: seq<T>, b: seq<T>)
    requires NoDup(a) && NoDup(b)
    requires forall x :: x in a ==> x !in b
    ensures NoDup(a + b)
  {
    forall i, j | 0 <= i < j < |a + b| ensures (a + b)[i] != (a + b)[j] {
      if i < |a| <= j {
        assert a[i] in a && b[j - |a|] in b;
      }
    }
  }

  /** The elements that pass a test, in order. */
  ghost function Selected<T(!new)>(s: seq<T>, keep: T -> bool): (out: seq<T>)
    ensures forall x :: x in out <==> x in s && keep(x)
  {
    if s == [] then []
    else
      var last := s[|s| - 1];
      assert s == s[..|s| - 1] + [last];
      Selected(s[..|s| - 1], keep) + if keep(last) then [last] else []
  }

  lemma SelectedNext<T(!new)>(s: seq<T>, i: nat, keep: T -> bool)
    requires i < |s|
    ensures Selected(s[..i + 1], keep) == Selected(s[..i], keep) + if keep(s[i]) then [s[i]] else []
  {
    assert s[..i + 1][..i] == s[..i];
  }

  // ----- truncating division -----

  /** `q` is `a / b` rounded toward zero: what is left over is smaller than the
      divisor and has the sign of `a`. */
  predicate IsQuotient(a: int, b: int, q: int) {
    LeavesRest(a, b, b * q)
  }

  predicate LeavesRest(a: int, b: int, product: int) {
    var rest := a - product;
    && -Magnitude(b) < rest < Magnitude(b)
    && (rest > 0 ==> a > 0)
    && (rest < 0 ==> a < 0)
  }

  function Magnitude(n: int): int {
    if n < 0 then -n else n
  }

  function Truncated(a: int, b: int): (q: int)
    requires b != 0
    ensures IsQuotient(a, b, q)
  {
    var d := Magnitude(a) / Magnitude(b);
    QuotientIs(a, b, d);
    if (a >= 0) == (b > 0) then d else -d
  }

  lemma QuotientRest(a: int, b: int)
    requires a >= 0 && b > 0
    ensures 0 <= b * (a / b) <= a < b * (a / b) + b
  {
    AtLeast(b, a / b, 0);
  }

  lemma Signed(b: int, q: int)
    ensures (-b) * q == -(b * q) && b * (-q) == -(b * q) && (-b) * (-q) == b * q
  {}

  lemma QuotientIs(a: int, b: int, d: int)
    requires b != 0 && d == Magnitude(a) / Magnitude(b)
    ensures IsQuotient(a, b, if (a >= 0) == (b > 0) then d else -d)
  {
    QuotientRest(Magnitude(a), Magnitude(b));
    SignedRest(a, b, d, Magnitude(b) * d);
  }

  lemma SignedRest(a: int, b: int, d: int, p: int)
    requires b != 0 && p == Magnitude(b) * d && 0 <= p <= Magnitude(a) < p + Magnitude(b)
    ensures IsQuotient(a, b, if (a >= 0) == (b > 0) then d else -d)
  {
    hide LeavesRest;
    Signed(b, d);
    if a >= 0 {
      RestIs(a, b, p, p);
      assert b > 0 ==> b * d == p;
      assert b < 0 ==> b * (-d) == p;
    } else {
      RestIs(a, b, p, -p);
      assert b > 0 ==> b * (-d) == -p;
      assert b < 0 ==> b * d == -p;
    }
  }

  lemma RestIs(a: int, b: int, p: int, t: int)
    requires b != 0 && 0 <= p <= Magnitude(a) < p + Magnitude(b) && t == if a >= 0 then p else -p
    ensures LeavesRest(a, b, t)
  {}

  /** There is only one such quotient. */
  lemma QuotientOnce(a: int, b: int, q: int, q': int)
    requires IsQuotient(a, b, q) && IsQuotient(a, b, q')
    ensures q == q'
  {
    assert b * (q - q') == b * q - b * q' && b * (q' - q) == b * q' - b * q;
    if q > q' {
      Farther(b, q - q');
    }
    if q < q' {
      Farther(b, q' - q);
    }
  }

  /** No quotient is larger than its dividend, and one by at least two in magnitude
      is at most half of it. */
  lemma QuotientSmaller(a: int, b: int, q: int)
    requires IsQuotient(a, b, q) && b != 0
    ensures Magnitude(q) <= Magnitude(a)
    ensures Magnitude(b) >= 2 ==> 2 * Magnitude(q) <= Magnitude(a)
  {
    if q > 0 {
      Farther(b, q);
    } else if q < 0 {
      Farther(b, -q);
      Signed(b, q);
    }
    assert Magnitude(b * q) <= Magnitude(a);
    Product(b, q, Magnitude(b), Magnitude(q));
  }

  lemma Product(b: int, q: int, m: int, n: int)
    requires b != 0 && m == Magnitude(b) && n == Magnitude(q)
    ensures n <= Magnitude(b * q)
    ensures m >= 2 ==> 2 * n <= Magnitude(b * q)
  {
    Signed(b, q);
    assert b * q == if (b < 0) == (q < 0) then m * n else -(m * n);
    AtLeast(m, n, 1);
    if m >= 2 {
      AtLeast(m, n, 2);
    }
  }

  lemma AtLeast(m: int, n: int, k: int)
    requires m >= k >= 0 && n >= 0
    ensures m * n >= k * n
  {
    assert m * n - k * n == (m - k) * n;
  }

  lemma Farther(b: int, k: int)
    requires k >= 1
    ensures Magnitude(b * k) >= Magnitude(b)
  {
    assert b * k == b + b * (k - 1);
    Signed(b, k - 1);
    AtLeast(k - 1, Magnitude(b), 0);
    if b >= 0 {
      assert b * (k - 1) >= 0;
    } else {
      assert (-b) * (k - 1) >= 0;
    }
  }
}

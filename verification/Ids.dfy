/** Canonical object ids: `<singular>/<ordinal>`, how they are printed, and how
    the loader's sort key and the artifact checker take them apart again. */
module Ids {
  import opened Common

  /** One past the greatest u64. */
  const U64_LIMIT := 0x1_0000_0000_0000_0000

  function Digit(d: nat): char
    requires d < 10
  {
    ('0' as int + d) as char
  }

  predicate IsDigit(c: char) {
    '0' <= c <= '9'
  }

  /** Decimal text of a natural number, without leading zeros. */
  function PrintNat(n: nat): (s: string)
    ensures |s| > 0
    ensures forall k :: 0 <= k < |s| ==> IsDigit(s[k])
  {
    if n < 10 then [Digit(n)] else PrintNat(n / 10) + [Digit(n % 10)]
  }

  /** The number a non-empty run of digits denotes, or nothing. */
  function ParseDigits(s: string): Option<nat> {
    if s == [] || !IsDigit(s[|s| - 1]) then None
    else
      var last := s[|s| - 1] as int - '0' as int;
      if |s| == 1 then Some(last)
      else
        match ParseDigits(s[..|s| - 1])
        case None => None
        case Some(front) => Some(front * 10 + last)
  }

  /** Rust's `str::parse::<u64>`: an optional `+`, digits, and the range. */
  function ParseU64(s: string): Option<nat> {
    match ParseDigits(if s != [] && s[0] == '+' then s[1..] else s)
    case None => None
    case Some(n) => if n < U64_LIMIT then Some(n) else None
  }

  /** Rust's `str::rsplit_once` on one character. */
  function RSplitOnce(s: string, c: char): (r: Option<(string, string)>)
    ensures r.None? <==> c !in s
    ensures r.Some? ==> s == r.value.0 + [c] + r.value.1 && c !in r.value.1
  {
    if s == [] then None
    else if s[|s| - 1] == c then Some((s[..|s| - 1], []))
    else
      match RSplitOnce(s[..|s| - 1], c)
      case None => None
      case Some((before, after)) => Some((before, after + [s[|s| - 1]]))
  }

  function InstanceId(single: string, ordinal: nat): string {
    single + "/" + PrintNat(ordinal)
  }

  /** The `(prefix, ordinal)` pair documents are sorted by. */
  function SortKey(id: string): Option<(string, nat)> {
    match RSplitOnce(id, '/')
    case None => None
    case Some((prefix, ordinal)) =>
      match ParseU64(ordinal)
      case None => None
      case Some(n) => Some((prefix, n))
  }

  /** The derived order on `Option<(String, u64)>`: nothing first, then by prefix,
      then by ordinal. */
  predicate KeyLess(a: Option<(string, nat)>, b: Option<(string, nat)>) {
    b.Some? && (a.None?
                || TextLess(a.value.0, b.value.0)
                || (a.value.0 == b.value.0 && a.value.1 < b.value.1))
  }

  lemma {:induction false} ParsePrintNat(n: nat)
    ensures ParseDigits(PrintNat(n)) == Some(n)
  {
    if n >= 10 {
      ParsePrintNat(n / 10);
      var s := PrintNat(n);
      assert s[..|s| - 1] == PrintNat(n / 10);
    }
  }

  function Zeros(k: nat): (s: string)
    ensures |s| == k && forall i :: 0 <= i < k ==> s[i] == '0'
  {
    seq(k, i => '0')
  }

  lemma {:induction false} ZerosParse(k: nat)
    requires k > 0
    ensures ParseDigits(Zeros(k)) == Some(0)
  {
    var s := Zeros(k);
    if k > 1 {
      ZerosParse(k - 1);
      assert s[..k - 1] == Zeros(k - 1);
    }
  }

  /** A run of digits denotes n exactly when it is the decimal text of n after any
      number of zeros. */
  lemma {:induction false} ParsesPadded(k: nat, n: nat)
    ensures ParseDigits(Zeros(k) + PrintNat(n)) == Some(n)
  {
    var s := Zeros(k) + PrintNat(n);
    if n >= 10 {
      ParsesPadded(k, n / 10);
      assert s[..|s| - 1] == Zeros(k) + PrintNat(n / 10);
      assert s[|s| - 1] == Digit(n % 10);
    } else {
      assert s[..|s| - 1] == Zeros(k) && s[|s| - 1] == Digit(n);
      if k > 0 {
        ZerosParse(k);
      }
    }
  }

  lemma {:induction false} ParsedIsPadded(s: string) returns (k: nat)
    requires ParseDigits(s).Some?
    ensures s == Zeros(k) + PrintNat(ParseDigits(s).value)
  {
    var front, c := s[..|s| - 1], s[|s| - 1];
    var d: nat := c as int - '0' as int;
    assert s == front + [c] && Digit(d) == c;
    if |s| == 1 {
      k := 0;
      assert Zeros(0) + [c] == [c];
    } else {
      k := ParsedIsPadded(front);
      var m := ParseDigits(front).value;
      assert ParseDigits(s) == Some(m * 10 + d);
      k := PaddedNext(k, m, d);
    }
  }

  /** One more digit after a padded number. */
  lemma PaddedNext(k: nat, m: nat, d: nat) returns (k': nat)
    requires d < 10
    ensures Zeros(k) + PrintNat(m) + [Digit(d)] == Zeros(k') + PrintNat(m * 10 + d)
  {
    if m == 0 {
      k' := k + 1;
      assert Zeros(k) + ['0'] == Zeros(k');
    } else {
      k' := k;
      assert (m * 10 + d) / 10 == m && (m * 10 + d) % 10 == d;
      assert Zeros(k) + PrintNat(m) + [Digit(d)] == Zeros(k) + (PrintNat(m) + [Digit(d)]);
    }
  }

  /** The texts an ordinal below the limit may have: a plus sign or none, zeros, and
      its decimal text. */
  ghost predicate OrdinalText(s: string, n: nat) {
    n < U64_LIMIT && exists k :: s == Zeros(k) + PrintNat(n) || s == "+" + Zeros(k) + PrintNat(n)
  }

  lemma ParseU64Exactly(s: string, n: nat)
    ensures ParseU64(s) == Some(n) <==> OrdinalText(s, n)
  {
    if k: nat :| s == Zeros(k) + PrintNat(n) || s == "+" + Zeros(k) + PrintNat(n) {
      PaddedParses(s, k, n);
    }
    if ParseU64(s) == Some(n) {
      var k := ParsesAsPadded(s, n);
    }
  }

  lemma PaddedParses(s: string, k: nat, n: nat)
    requires s == Zeros(k) + PrintNat(n) || s == "+" + Zeros(k) + PrintNat(n)
    ensures ParseU64(s) == if n < U64_LIMIT then Some(n) else None
  {
    ParsesPadded(k, n);
    hide PrintNat, ParseDigits;
    var digits := Zeros(k) + PrintNat(n);
    assert digits[0] == if k > 0 then Zeros(k)[0] else PrintNat(n)[0];
    assert IsDigit(digits[0]);
    if s != digits {
      assert s == "+" + digits && s[1..] == digits;
    }
  }

  lemma ParsesAsPadded(s: string, n: nat) returns (k: nat)
    requires ParseU64(s) == Some(n)
    ensures s == Zeros(k) + PrintNat(n) || s == "+" + Zeros(k) + PrintNat(n)
  {
    var digits := if s != [] && s[0] == '+' then s[1..] else s;
    k := ParsedIsPadded(digits);
    hide PrintNat, ParseDigits, Zeros;
    if digits != s {
      assert s == "+" + digits;
      assert "+" + (Zeros(k) + PrintNat(n)) == "+" + Zeros(k) + PrintNat(n);
    }
  }

  /** The ids that have a sort key: a prefix, a slash, and the text of an ordinal. */
  lemma SortKeyExactly(id: string, prefix: string, n: nat)
    ensures SortKey(id) == Some((prefix, n)) <==> exists text :: id == prefix + "/" + text && OrdinalText(text, n)
  {
    if SortKey(id) == Some((prefix, n)) {
      var text := RSplitOnce(id, '/').value.1;
      ParseU64Exactly(text, n);
      assert id == prefix + "/" + text;
    }
    if text :| id == prefix + "/" + text && OrdinalText(text, n) {
      ParseU64Exactly(text, n);
      OrdinalHasNoSlash(text, n);
      assert id == prefix + ['/'] + text;
      RSplitOnceAt(prefix, '/', text);
    }
  }

  lemma OrdinalHasNoSlash(text: string, n: nat)
    requires OrdinalText(text, n)
    ensures '/' !in text
  {
    var k :| text == Zeros(k) + PrintNat(n) || text == "+" + Zeros(k) + PrintNat(n);
    assert '/' !in Zeros(k) && '/' !in PrintNat(n);
  }

  lemma RSplitOnceAt(before: string, c: char, after: string)
    requires c !in after
    ensures RSplitOnce(before + [c] + after, c) == Some((before, after))
    decreases |after|
  {
    if after == [] {
      var s := before + [c];
      assert before + [c] + after == s && s[..|s| - 1] == before;
    } else {
      var front, last := after[..|after| - 1], after[|after| - 1];
      assert after == front + [last] && c !in front && last in after;
      RSplitOnceAt(before, c, front);
      hide RSplitOnce;
      assert before + [c] + (front + [last]) == before + [c] + front + [last];
      RSplitLonger(before + [c] + front, last, c);
    }
  }

  lemma RSplitLonger(s: string, x: char, c: char)
    requires x != c && RSplitOnce(s, c).Some?
    ensures RSplitOnce(s + [x], c) == Some((RSplitOnce(s, c).value.0, RSplitOnce(s, c).value.1 + [x]))
  {
    var longer := s + [x];
    assert longer[..|longer| - 1] == s && longer[|longer| - 1] == x;
  }

  /** Printing and taking apart a canonical id are inverse. */
  lemma SortKeyOfInstanceId(single: string, ordinal: nat)
    requires ordinal < U64_LIMIT
    ensures SortKey(InstanceId(single, ordinal)) == Some((single, ordinal))
  {
    var text := PrintNat(ordinal);
    assert '/' !in text;
    RSplitOnceAt(single, '/', text);
    ParsePrintNat(ordinal);
    assert text[0] != '+' by { assert IsDigit(text[0]); }
  }

  /** Distinct `(singular, ordinal)` pairs have distinct ids. */
  lemma InstanceIdInjective(single: string, ordinal: nat, single': string, ordinal': nat)
    requires ordinal < U64_LIMIT && ordinal' < U64_LIMIT
    requires InstanceId(single, ordinal) == InstanceId(single', ordinal')
    ensures single == single' && ordinal == ordinal'
  {
    SortKeyOfInstanceId(single, ordinal);
    SortKeyOfInstanceId(single', ordinal');
  }
}

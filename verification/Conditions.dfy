/** The text of a Cedar condition, and a reader that recovers the condition from it
    character by character. */
module Conditions {
  import opened Common
  import opened Ids

  datatype Op = Eq | Ne | Lt | Le | Gt | Ge | Add | Sub | Mul | Div | And | Or

  datatype Condition =
    | Number(n: nat)
    | Text(s: string)
    | Truth(b: bool)
    | Attribute(name: string)
    | Not(inner: Condition)
    | Neg(inner: Condition)
    | Binary(op: Op, lhs: Condition, rhs: Condition)

  function Symbol(op: Op): string {
    match op
    case Eq => "=="
    case Ne => "!="
    case Lt => "<"
    case Le => "<="
    case Gt => ">"
    case Ge => ">="
    case Add => "+"
    case Sub => "-"
    case Mul => "*"
    case Div => "/"
    case And => "&&"
    case Or => "||"
  }

  // ----- printing -----

  function Escape(s: string): string {
    if s == "" then ""
    else (if s[0] == '"' || s[0] == '\\' then ['\\', s[0]] else [s[0]]) + Escape(s[1..])
  }

  method StringLiteral(text: string) returns (out: string)
    ensures out == Quoted(text)
  {
    out := "\"";
    for i := 0 to |text|
      invariant Quoted(text) == out + Escape(text[i..]) + "\""
    {
      assert text[i..][1..] == text[i + 1..];
      ghost var rest := Escape(text[i + 1..]) + "\"";
      if text[i] == '"' || text[i] == '\\' {
        assert Quoted(text) == (out + ['\\', text[i]]) + rest;
        out := out + ['\\', text[i]];
      } else {
        assert Quoted(text) == (out + [text[i]]) + rest;
        out := out + [text[i]];
      }
    }
    out := out + "\"";
  }

  function Quoted(text: string): string {
    "\"" + Escape(text) + "\""
  }

  /** Fully parenthesized. */
  function Emit(c: Condition): string {
    match c
    case Number(n) => PrintNat(n)
    case Text(s) => Quoted(s)
    case Truth(b) => if b then "true" else "false"
    case Attribute(name) => "resource." + name
    case Not(inner) => "!(" + Emit(inner) + ")"
    case Neg(inner) => "-(" + Emit(inner) + ")"
    case Binary(op, lhs, rhs) => "(" + Emit(lhs) + " " + Symbol(op) + " " + Emit(rhs) + ")"
  }

  predicate IsNameChar(c: char) {
    IsDigit(c) || 'a' <= c <= 'z' || 'A' <= c <= 'Z' || c == '_'
  }

  /** Attribute names are identifiers. */
  predicate WellNamed(c: Condition) {
    match c
    case Attribute(name) => forall i :: 0 <= i < |name| ==> IsNameChar(name[i])
    case Not(inner) => WellNamed(inner)
    case Neg(inner) => WellNamed(inner)
    case Binary(_, lhs, rhs) => WellNamed(lhs) && WellNamed(rhs)
    case _ => true
  }

  // ----- reading -----

  /** The longest prefix of name characters. */
  function NamePrefix(s: string): (n: nat)
    ensures n <= |s| && (forall i :: 0 <= i < n ==> IsNameChar(s[i])) && (n < |s| ==> !IsNameChar(s[n]))
  {
    if s == "" || !IsNameChar(s[0]) then 0 else 1 + NamePrefix(s[1..])
  }

  /** The text up to the closing quote, unescaped, and what follows it. */
  function ReadString(s: string): Option<(string, string)> {
    if s == "" then None
    else if s[0] == '"' then Some(("", s[1..]))
    else if s[0] == '\\' then
      if |s| < 2 || (s[1] != '"' && s[1] != '\\') then None
      else (match ReadString(s[2..]) case None => None case Some((t, rest)) => Some(([s[1]] + t, rest)))
    else (match ReadString(s[1..]) case None => None case Some((t, rest)) => Some(([s[0]] + t, rest)))
  }

  function Expect(s: string, word: string): Option<string> {
    if |word| <= |s| && s[..|word|] == word then Some(s[|word|..]) else None
  }

  /** The operator between two spaces, longest symbols first. Cedar has no division:
      the reader accepts one only if asked to. */
  function ReadOp(s: string, division: bool): Option<(Op, string)> {
    if Expect(s, " == ").Some? then Some((Eq, s[4..]))
    else if Expect(s, " != ").Some? then Some((Ne, s[4..]))
    else if Expect(s, " <= ").Some? then Some((Le, s[4..]))
    else if Expect(s, " >= ").Some? then Some((Ge, s[4..]))
    else if Expect(s, " && ").Some? then Some((And, s[4..]))
    else if Expect(s, " || ").Some? then Some((Or, s[4..]))
    else if Expect(s, " < ").Some? then Some((Lt, s[3..]))
    else if Expect(s, " > ").Some? then Some((Gt, s[3..]))
    else if Expect(s, " + ").Some? then Some((Add, s[3..]))
    else if Expect(s, " - ").Some? then Some((Sub, s[3..]))
    else if Expect(s, " * ").Some? then Some((Mul, s[3..]))
    else if division && Expect(s, " / ").Some? then Some((Div, s[3..]))
    else None
  }

  /** A condition at the front of the text, and what follows it. */
  function Read(s: string, division: bool): (r: Option<(Condition, string)>)
    ensures r.Some? ==> |r.value.1| < |s|
    decreases |s|
  {
    if s == "" then None
    else if s[0] == '"' then ReadText(s)
    else if IsDigit(s[0]) then ReadNumber(s)
    else if s[0] == '!' || s[0] == '-' then
      if Expect(s[1..], "(").None? then None
      else
        (match Read(s[2..], division)
         case None => None
         case Some((inner, rest)) =>
           if Expect(rest, ")").None? then None else Some((if s[0] == '!' then Not(inner) else Neg(inner), rest[1..])))
    else if s[0] == '(' then
      (match Read(s[1..], division)
       case None => None
       case Some((lhs, afterLhs)) =>
         match ReadOp(afterLhs, division)
         case None => None
         case Some((op, afterOp)) =>
           match Read(afterOp, division)
           case None => None
           case Some((rhs, rest)) => if Expect(rest, ")").None? then None else Some((Binary(op, lhs, rhs), rest[1..])))
    else ReadWord(s)
  }

  function ReadText(s: string): (r: Option<(Condition, string)>)
    requires s != ""
    ensures r.Some? ==> |r.value.1| < |s|
  {
    match ReadString(s[1..])
    case None => None
    case Some((t, rest)) => if |rest| < |s| then Some((Text(t), rest)) else None
  }

  function ReadNumber(s: string): (r: Option<(Condition, string)>)
    requires s != "" && IsDigit(s[0])
    ensures r.Some? ==> |r.value.1| < |s|
  {
    var n := NamePrefix(s);
    match ParseDigits(s[..n])
    case None => None
    case Some(value) => Some((Number(value), s[n..]))
  }

  function ReadWord(s: string): (r: Option<(Condition, string)>)
    ensures r.Some? ==> |r.value.1| < |s|
  {
    var attribute := Expect(s, "resource.");
    if attribute.Some? then
      var n := NamePrefix(attribute.value);
      Some((Attribute(attribute.value[..n]), attribute.value[n..]))
    else
      var n := NamePrefix(s);
      if s[..n] == "true" then Some((Truth(true), s[n..]))
      else if s[..n] == "false" then Some((Truth(false), s[n..]))
      else None
  }

  // ----- reading what was printed -----

  lemma {:induction false} NamePrefixIs(name: string, rest: string)
    requires (forall i :: 0 <= i < |name| ==> IsNameChar(name[i])) && (rest == "" || !IsNameChar(rest[0]))
    ensures NamePrefix(name + rest) == |name|
  {
    if name != "" {
      assert (name + rest)[1..] == name[1..] + rest;
      NamePrefixIs(name[1..], rest);
    } else {
      assert name + rest == rest;
    }
  }

  lemma {:induction false} ReadEscaped(s: string, rest: string)
    ensures ReadString(Escape(s) + "\"" + rest) == Some((s, rest))
  {
    var text := Escape(s) + "\"" + rest;
    if s == "" {
      assert text == "\"" + rest;
    } else {
      ReadEscaped(s[1..], rest);
      var tail := Escape(s[1..]) + "\"" + rest;
      if s[0] == '"' || s[0] == '\\' {
        assert text == ['\\', s[0]] + tail;
        assert text[2..] == tail;
      } else {
        assert text == [s[0]] + tail;
        assert text[1..] == tail;
      }
      assert s == [s[0]] + s[1..];
    }
  }

  lemma ReadSymbol(op: Op, rest: string, division: bool)
    ensures ReadOp(" " + Symbol(op) + " " + rest, division) == if op.Div? && !division then None else Some((op, rest))
  {
    var s := " " + Symbol(op) + " " + rest;
    var n := |Symbol(op)| + 2;
    assert s[n..] == rest;
    assert s[0] == ' ' && s[1] == Symbol(op)[0] && s[n - 1] == ' ';
    if |Symbol(op)| == 2 {
      assert s[2] == Symbol(op)[1] && s[..4] == " " + Symbol(op) + " ";
    } else {
      assert s[2] == ' ' && s[..3] == " " + Symbol(op) + " ";
    }
  }

  /** What may follow a condition inside a larger one, or at its end. */
  predicate Ends(rest: string) {
    rest == "" || rest[0] == ')' || rest[0] == ' '
  }

  lemma TextRule(s: string, t: string, rest: string, division: bool)
    requires s != "" && s[0] == '"' && ReadString(s[1..]) == Some((t, rest)) && |rest| < |s|
    ensures Read(s, division) == Some((Text(t), rest))
  {}

  lemma NumberRule(s: string, division: bool)
    requires s != "" && IsDigit(s[0])
    ensures Read(s, division) == ReadNumber(s)
  {}

  lemma WordRule(s: string, division: bool)
    requires s != "" && (s[0] == 'r' || s[0] == 't' || s[0] == 'f')
    ensures Read(s, division) == ReadWord(s)
  {}

  lemma PrefixRule(mark: char, s: string, division: bool)
    requires mark == '!' || mark == '-'
    ensures var r := Read(s, division);
            Read([mark, '('] + s, division)
            == if r.None? || Expect(r.value.1, ")").None? then None
               else Some((if mark == '!' then Not(r.value.0) else Neg(r.value.0), r.value.1[1..]))
  {
    var text := [mark, '('] + s;
    assert text[1..] == "(" + s && text[2..] == s;
  }

  lemma ParenRule(s: string, division: bool)
    ensures var l := Read(s, division);
            if l.None? || ReadOp(l.value.1, division).None? then Read("(" + s, division) == None
            else
              var (op, afterOp) := ReadOp(l.value.1, division).value;
              var r := Read(afterOp, division);
              Read("(" + s, division)
              == if r.None? || Expect(r.value.1, ")").None? then None
                 else Some((Binary(op, l.value.0, r.value.0), r.value.1[1..]))
  {
    hide ReadOp, ReadText, ReadNumber, ReadWord;
    var text := "(" + s;
    assert text[0] == '(' && text[1..] == s;
  }

  predicate Divides(c: Condition) {
    match c
    case Not(inner) => Divides(inner)
    case Neg(inner) => Divides(inner)
    case Binary(op, lhs, rhs) => op.Div? || Divides(lhs) || Divides(rhs)
    case _ => false
  }

  /** The reader recovers exactly the condition that was printed, and stops exactly
      where it ended; a reader without division refuses exactly what divides. */
  lemma {:induction false} ReadEmitted(c: Condition, rest: string, division: bool)
    requires WellNamed(c) && Ends(rest)
    ensures Read(Emit(c) + rest, division) == if Divides(c) && !division then None else Some((c, rest))
    decreases c
  {
    hide *;
    match c
    case Number(n) =>
      NoDivision(c);
      NumberReads(n, rest, division);
    case Text(s) =>
      NoDivision(c);
      TextReads(s, rest, division);
    case Truth(b) =>
      NoDivision(c);
      TruthReads(b, rest, division);
    case Attribute(name) =>
      NoDivision(c);
      AttributeReads(name, rest, division);
    case Not(inner) =>
      Parts(c, rest);
      ReadEmitted(inner, ")" + rest, division);
      PrefixReads(inner, rest, division);
    case Neg(inner) =>
      Parts(c, rest);
      ReadEmitted(inner, ")" + rest, division);
      PrefixReads(inner, rest, division);
    case Binary(op, lhs, rhs) =>
      Parts(c, rest);
      ReadEmitted(lhs, Between(op, rhs, rest), division);
      ReadEmitted(rhs, ")" + rest, division);
      BinaryReads(op, lhs, rhs, rest, division);
  }

  function Between(op: Op, rhs: Condition, rest: string): string {
    " " + Symbol(op) + " " + (Emit(rhs) + (")" + rest))
  }

  lemma NoDivision(c: Condition)
    requires !c.Not? && !c.Neg? && !c.Binary?
    ensures !Divides(c)
  {}

  lemma Parts(c: Condition, rest: string)
    requires WellNamed(c)
    ensures Ends(")" + rest)
    ensures c.Not? || c.Neg? ==> WellNamed(c.inner) && (Divides(c) <==> Divides(c.inner))
    ensures c.Binary? ==> WellNamed(c.lhs) && WellNamed(c.rhs) && Ends(Between(c.op, c.rhs, rest))
    ensures c.Binary? ==> (Divides(c) <==> c.op.Div? || Divides(c.lhs) || Divides(c.rhs))
  {}

  lemma Closed(rest: string)
    ensures Expect(")" + rest, ")").Some? && (")" + rest)[1..] == rest
  {}

  lemma PrefixReads(inner: Condition, rest: string, division: bool)
    requires Read(Emit(inner) + (")" + rest), division) == if Divides(inner) && !division then None else Some((inner, ")" + rest))
    ensures Read(Emit(Not(inner)) + rest, division) == if Divides(inner) && !division then None else Some((Not(inner), rest))
    ensures Read(Emit(Neg(inner)) + rest, division) == if Divides(inner) && !division then None else Some((Neg(inner), rest))
  {
    hide Read, Divides;
    var s := Emit(inner) + (")" + rest);
    Closed(rest);
    PrefixRule('!', s, division);
    PrefixRule('-', s, division);
    assert Emit(Not(inner)) + rest == ['!', '('] + s;
    assert Emit(Neg(inner)) + rest == ['-', '('] + s;
  }

  lemma BinaryReads(op: Op, lhs: Condition, rhs: Condition, rest: string, division: bool)
    requires Read(Emit(lhs) + Between(op, rhs, rest), division)
             == if Divides(lhs) && !division then None else Some((lhs, Between(op, rhs, rest)))
    requires Read(Emit(rhs) + (")" + rest), division) == if Divides(rhs) && !division then None else Some((rhs, ")" + rest))
    ensures Read(Emit(Binary(op, lhs, rhs)) + rest, division)
            == if (op.Div? || Divides(lhs) || Divides(rhs)) && !division then None else Some((Binary(op, lhs, rhs), rest))
  {
    hide Read, ReadOp, Symbol, Divides, Expect;
    ReadSymbol(op, Emit(rhs) + (")" + rest), division);
    Closed(rest);
    ParenRule(Emit(lhs) + Between(op, rhs, rest), division);
    assert Emit(Binary(op, lhs, rhs)) + rest == "(" + (Emit(lhs) + Between(op, rhs, rest));
  }

  lemma TextReads(s: string, rest: string, division: bool)
    ensures Read(Emit(Text(s)) + rest, division) == Some((Text(s), rest))
  {
    hide Read;
    ReadEscaped(s, rest);
    var text := Quoted(s) + rest;
    assert text[0] == '"' && text[1..] == Escape(s) + "\"" + rest;
    TextRule(text, s, rest, division);
  }

  lemma NumberReads(n: nat, rest: string, division: bool)
    requires Ends(rest)
    ensures Read(Emit(Number(n)) + rest, division) == Some((Number(n), rest))
  {
    hide Read, NamePrefix;
    var s := PrintNat(n) + rest;
    NamePrefixIs(PrintNat(n), rest);
    ParsePrintNat(n);
    assert s[0] == PrintNat(n)[0];
    assert s[..|PrintNat(n)|] == PrintNat(n) && s[|PrintNat(n)|..] == rest;
    NumberRule(s, division);
  }

  lemma TruthReads(b: bool, rest: string, division: bool)
    requires Ends(rest)
    ensures Read(Emit(Truth(b)) + rest, division) == Some((Truth(b), rest))
  {
    hide Read, NamePrefix;
    var word := if b then "true" else "false";
    var s := word + rest;
    assert s[0] == word[0];
    WordRule(s, division);
    NamePrefixIs(word, rest);
    assert s[..|word|] == word && s[|word|..] == rest;
    assert Expect(s, "resource.").None?;
  }

  lemma AttributeReads(name: string, rest: string, division: bool)
    requires WellNamed(Attribute(name)) && Ends(rest)
    ensures Read(Emit(Attribute(name)) + rest, division) == Some((Attribute(name), rest))
  {
    hide Read, NamePrefix;
    var after := name + rest;
    var s := "resource." + after;
    assert Emit(Attribute(name)) + rest == s;
    assert s[0] == 'r';
    WordRule(s, division);
    NamePrefixIs(name, rest);
    assert s[..9] == "resource." && s[9..] == after;
    assert after[..|name|] == name && after[|name|..] == rest;
  }

  /** Hence two different conditions never print alike. */
  lemma EmitInjective(c: Condition, c': Condition)
    requires WellNamed(c) && WellNamed(c') && Emit(c) == Emit(c')
    ensures c == c'
  {
    ReadEmitted(c, "", true);
    ReadEmitted(c', "", true);
    assert Emit(c) + "" == Emit(c) && Emit(c') + "" == Emit(c');
  }

  /** What is emitted is an expression of Cedar if and only if it does not divide. */
  lemma CedarExactly(c: Condition)
    requires WellNamed(c)
    ensures (exists c' :: Read(Emit(c), false) == Some((c', ""))) <==> !Divides(c)
    ensures !Divides(c) ==> Read(Emit(c), false) == Some((c, ""))
  {
    hide Read, Emit, Divides, WellNamed;
    ReadEmitted(c, "", false);
    assert Emit(c) + "" == Emit(c);
  }
}

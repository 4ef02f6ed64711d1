/** The expression sublanguage: its trees, its types, the checker, and the
    meaning its rules R1-R4, R9 and A1-A6 give to a typed tree. */
module Expr {
  import opened Common

  // ----- trees -----

  datatype UnOp = Not | Neg

  datatype BinOp = Eq | Ne | Lt | Le | Gt | Ge | Add | Sub | Mul | Div | And | Or

  datatype AlgebraKind = First | Filter | Map | Any | Size | Sum

  datatype Lambda = Lambda(param: string, body: Expr)

  /** An expression. Integer literals are non-negative; a minus sign is an operator. */
  datatype Expr =
    | Int(n: nat)
    | Str(s: string)
    | Boolean(b: bool)
    | NullLit
    | Name(x: string)
    | Unary(uop: UnOp, inner: Expr)
    | Binary(op: BinOp, lhs: Expr, rhs: Expr)
    | FeatureAccess(receiver: Expr, feature: string, safe: bool)
    | Algebra(list: Expr, kind: AlgebraKind, lambda: Option<Lambda>, optional: bool)
    | Coalesce(value: Expr, fallback: Expr)
    | If(cond: Expr, then_: Expr, else_: Expr)
    | Let(name: string, init: Expr, body: Expr)
    | ListLiteral(items: seq<Expr>)

  // ----- types -----

  datatype Ty = TInt | TLong | TBool | TString | TClass(name: string) | TList(elem: Ty) | TOption(some: Ty) | TNull

  predicate IsNumeric(t: Ty) {
    t.TInt? || t.TLong?
  }

  /** `string`, or a string that may be absent. */
  predicate IsStringOperand(t: Ty) {
    t.TString? || (t.TOption? && t.some.TString?)
  }

  /** Values passed around freely in Rust: ids, numbers, booleans and options of these. */
  predicate IsCopy(t: Ty) {
    match t
    case TString => false
    case TList(_) => false
    case TOption(inner) => IsCopy(inner)
    case _ => true
  }

  // ----- the domain model -----

  datatype FeatureKind = Attribute | Containment | CrossReference | Container

  /** A stored feature as found along the class's `extends` chain. */
  datatype FeatureDecl = FeatureDecl(kind: FeatureKind, many: bool, required: bool, base: Ty)

  type Model = map<(string, string), FeatureDecl>

  function FeatureType(d: FeatureDecl): Ty {
    if d.kind.Container? then TOption(d.base)
    else if d.many then TList(d.base)
    else if !d.required then TOption(d.base)
    else d.base
  }

  // ----- the checker -----

  /** Names in scope, innermost last. */
  type Types = seq<(string, Ty)>

  function Lookup<T>(scope: seq<(string, T)>, x: string): (r: Option<T>)
    ensures r.None? <==> forall i :: 0 <= i < |scope| ==> scope[i].0 != x
  {
    if scope == [] then None
    else if scope[|scope| - 1].0 == x then Some(scope[|scope| - 1].1)
    else Lookup(scope[..|scope| - 1], x)
  }

  predicate IsIntLiteral(e: Expr) {
    e.Int? || (e.Unary? && e.uop.Neg? && e.inner.Int?)
  }

  /** `?.` wraps an access result unless it is optional already. */
  function WrapOptional(t: Ty, safe: bool): Ty {
    if safe && !t.TOption? then TOption(t) else t
  }

  /** The type of an expression; `long` says that a literal is expected to be long. */
  function Check(m: Model, g: Types, e: Expr, long: bool): Option<Ty>
    decreases e
  {
    match e
    case Int(n) =>
      if long then (if n < 0x8000_0000_0000_0000 then Some(TLong) else None)
      else if n < 0x8000_0000 then Some(TInt) else None
    case Str(_) => Some(TString)
    case Boolean(_) => Some(TBool)
    case NullLit => Some(TNull)
    case Name(x) => Lookup(g, x)
    case Unary(op, inner) =>
      (match Check(m, g, inner, false)
       case None => None
       case Some(t) => if (if op.Not? then t.TBool? else IsNumeric(t)) then Some(t) else None)
    case Binary(op, lhs, rhs) =>
      (match Check(m, g, lhs, false)
       case None => None
       case Some(lt) =>
         var adapts := lt.TLong? && !op.Eq? && !op.Ne? && !op.And? && !op.Or?;
         match Check(m, g, rhs, adapts)
         case None => None
         case Some(rt) => CheckBinary(op, lhs, rhs, lt, rt))
    case FeatureAccess(receiver, feature, safe) =>
      (match Check(m, g, receiver, false)
       case None => None
       case Some(rt) =>
         var target := if safe && rt.TOption? then rt.some else rt;
         if target.TClass? && (target.name, feature) in m
         then Some(WrapOptional(FeatureType(m[(target.name, feature)]), safe))
         else None)
    case Algebra(list, kind, lambda, optional) =>
      (match Check(m, g, list, false)
       case None => None
       case Some(lt) =>
         if !lt.TList? then None
         else
           var body :=
             match lambda
             case None => None
             case Some(Lambda(param, body)) => Check(m, g + [(param, lt.elem)], body, false);
           match CheckAlgebra(kind, lt.elem, lambda.Some?, body)
           case None => None
           case Some(t) => Some(WrapOptional(t, optional)))
    case Coalesce(value, fallback) =>
      (match Check(m, g, value, false)
       case None => None
       case Some(TNull) => Check(m, g, fallback, false)
       case Some(TOption(inner)) =>
         if Check(m, g, fallback, inner.TLong?).Some? then Some(inner) else None
       case Some(_) => None)
    case If(cond, then_, else_) =>
      (match (Check(m, g, cond, false), Check(m, g, then_, false), Check(m, g, else_, false))
       case (Some(TBool), Some(t), Some(t')) => if t == t' then Some(t) else None
       case _ => None)
    case Let(x, init, body) =>
      (match Check(m, g, init, false)
       case None => None
       case Some(t) => Check(m, g + [(x, t)], body, false))
    case ListLiteral(items) =>
      if items == [] then None
      else
        match Check(m, g, items[0], false)
        case None => None
        case Some(t) =>
          if forall i :: 1 <= i < |items| ==> Check(m, g, items[i], t.TLong?) == Some(t) then Some(TList(t)) else None
  }

  function CheckBinary(op: BinOp, lhs: Expr, rhs: Expr, lt: Ty, rt: Ty): Option<Ty> {
    match op
    case And => if lt.TBool? && rt.TBool? then Some(TBool) else None
    case Or => if lt.TBool? && rt.TBool? then Some(TBool) else None
    case Eq => if lt.TNull? || rt.TNull? || lt == rt then Some(TBool) else None
    case Ne => if lt.TNull? || rt.TNull? || lt == rt then Some(TBool) else None
    case _ =>
      if op.Lt? || op.Le? || op.Gt? || op.Ge? then
        if lt == rt && IsNumeric(lt) then Some(TBool) else None
      else if op.Add? && (IsStringOperand(lt) || IsStringOperand(rt)) then
        if !(IsStringOperand(lt) && IsStringOperand(rt)) then None
        else if lt.TOption? || rt.TOption? then Some(TOption(TString))
        else Some(TString)
      else if lt.TLong? || rt.TLong? then
        if (lt.TLong? || (lt.TInt? && IsIntLiteral(lhs))) && (rt.TLong? || (rt.TInt? && IsIntLiteral(rhs)))
        then Some(TLong) else None
      else if lt == rt && IsNumeric(lt) then Some(lt)
      else None
  }

  function CheckAlgebra(kind: AlgebraKind, elem: Ty, hasLambda: bool, body: Option<Ty>): Option<Ty> {
    match kind
    case Size => if hasLambda then None else Some(TInt)
    case Sum => if !hasLambda && IsNumeric(elem) then Some(elem) else None
    case Map => if hasLambda && body.Some? then Some(TList(body.value)) else None
    case First => if !hasLambda || body == Some(TBool) then Some(TOption(elem)) else None
    case Filter => if hasLambda && body == Some(TBool) then Some(TList(elem)) else None
    case Any => if hasLambda && body == Some(TBool) then Some(TBool) else None
  }

  function TypeOf(m: Model, g: Types, e: Expr): Option<Ty> {
    Check(m, g, e, false)
  }

  // ----- values -----

  /** Run-time values; `Ref` occurs in lowered code only. */
  datatype Value =
    | I32(n: int)
    | I64(n: int)
    | B(b: bool)
    | S(s: string)
    | Id(cls: string, idx: nat)
    | Seq(vs: seq<Value>)
    | Opt(v: Option<Value>)
    | Ref(to: Value)

  /** The arena: the stored features of every object. */
  type Heap = map<(string, nat), map<string, Value>>

  ghost predicate HasType(h: Heap, v: Value, t: Ty)
    decreases t
  {
    match t
    case TInt => v.I32? && FitsWidth(v.n, false)
    case TLong => v.I64? && FitsWidth(v.n, true)
    case TBool => v.B?
    case TString => v.S?
    case TClass(c) => v.Id? && v.cls == c && (c, v.idx) in h
    case TList(elem) => v.Seq? && forall i :: 0 <= i < |v.vs| ==> HasType(h, v.vs[i], elem)
    case TOption(inner) => v.Opt? && (v.v.Some? ==> HasType(h, v.v.value, inner))
    case TNull => false
  }

  /** A single reference that must be present: its type says it never is absent, but
      the generated struct stores an option all the same. */
  predicate RequiredReference(d: FeatureDecl) {
    d.required && !d.many && (d.kind.Containment? || d.kind.CrossReference?)
  }

  /** Every feature stored as it is typed holds a value of its type. */
  ghost predicate HeapOk(m: Model, h: Heap) {
    forall c, i, f :: (c, i) in h && (c, f) in m && !RequiredReference(m[(c, f)]) ==>
      f in h[(c, i)] && HasType(h, h[(c, i)][f], FeatureType(m[(c, f)]))
  }

  predicate FitsWidth(n: int, wide: bool) {
    if wide then -0x8000_0000_0000_0000 <= n < 0x8000_0000_0000_0000 else -0x8000_0000 <= n < 0x8000_0000
  }

  /** R1 and R4: checked arithmetic; a result out of range or a zero divisor has no value. */
  function ArithInt(op: BinOp, a: int, b: int): Option<int> {
    match op
    case Add => Some(a + b)
    case Sub => Some(a - b)
    case Mul => Some(a * b)
    case Div => if b == 0 then None else Some(Truncated(a, b))
    case _ => None
  }

  function Arith(op: BinOp, a: Value, b: Value): Option<Value> {
    if a.I32? && b.I32? then
      match ArithInt(op, a.n, b.n)
      case Some(n) => if FitsWidth(n, false) then Some(I32(n)) else None
      case None => None
    else if a.I64? && b.I64? then
      match ArithInt(op, a.n, b.n)
      case Some(n) => if FitsWidth(n, true) then Some(I64(n)) else None
      case None => None
    else None
  }

  function Compare(op: BinOp, a: Value, b: Value): Option<Value> {
    if (a.I32? && b.I32?) || (a.I64? && b.I64?) then
      match op
      case Lt => Some(B(a.n < b.n))
      case Le => Some(B(a.n <= b.n))
      case Gt => Some(B(a.n > b.n))
      case Ge => Some(B(a.n >= b.n))
      case _ => None
    else None
  }

  function Negate(v: Value): Option<Value> {
    if v.I32? && FitsWidth(-v.n, false) then Some(I32(-v.n))
    else if v.I64? && FitsWidth(-v.n, true) then Some(I64(-v.n))
    else None
  }

  /** A6: the running sum, checked at every step. */
  function SumFrom(acc: Value, vs: seq<Value>): Option<Value>
    decreases |vs|
  {
    if vs == [] then Some(acc)
    else
      match Arith(Add, acc, vs[0])
      case None => None
      case Some(acc') => SumFrom(acc', vs[1..])
  }

  function Boxed(wide: bool, n: int): Value {
    if wide then I64(n) else I32(n)
  }

  /** The exact result of an operator over the integers; division rounds toward zero. */
  ghost predicate Results(op: BinOp, a: int, b: int, c: int) {
    || (op.Add? && c == a + b)
    || (op.Sub? && c == a - b)
    || (op.Mul? && c == a * b)
    || (op.Div? && b != 0 && IsQuotient(a, b, c))
  }

  /** Arithmetic gives the exact result where it fits the width of the operands, and
      nothing elsewhere. */
  lemma ArithmeticExactly(op: BinOp, wide: bool, a: int, b: int, c: int)
    ensures Arith(op, Boxed(wide, a), Boxed(wide, b)) == Some(Boxed(wide, c)) <==>
              Results(op, a, b, c) && if wide then -9223372036854775808 <= c <= 9223372036854775807 else -2147483648 <= c <= 2147483647
  {
    if op.Div? && b != 0 && IsQuotient(a, b, c) {
      QuotientOnce(a, b, c, Truncated(a, b));
    }
  }

  function BoxedAll(wide: bool, ns: seq<int>): (vs: seq<Value>)
    ensures |vs| == |ns| && forall k :: 0 <= k < |ns| ==> vs[k] == Boxed(wide, ns[k])
  {
    seq(|ns|, k requires 0 <= k < |ns| => Boxed(wide, ns[k]))
  }

  function Total(ns: seq<int>): int {
    if ns == [] then 0 else Total(ns[..|ns| - 1]) + ns[|ns| - 1]
  }

  /** The list is summed from the left, and every running sum is in range. */
  ghost predicate RunningSumsFit(wide: bool, acc: int, ns: seq<int>) {
    forall k :: 1 <= k <= |ns| ==> FitsWidth(acc + Total(ns[..k]), wide)
  }

  lemma {:induction false} TotalFirst(ns: seq<int>)
    requires ns != []
    ensures Total(ns) == ns[0] + Total(ns[1..])
  {
    if |ns| > 1 {
      TotalFirst(ns[..|ns| - 1]);
      assert ns[..|ns| - 1][1..] == ns[1..][..|ns| - 2];
    } else {
      assert ns[..0] == [] && ns[1..] == [];
    }
  }

  /** A sum is the exact total, where no running sum leaves the range. */
  lemma {:induction false} SumExactly(wide: bool, acc: int, ns: seq<int>)
    ensures SumFrom(Boxed(wide, acc), BoxedAll(wide, ns)) ==
              if RunningSumsFit(wide, acc, ns) then Some(Boxed(wide, acc + Total(ns))) else None
    decreases |ns|
  {
    hide FitsWidth;
    if ns == [] {
      assert RunningSumsFit(wide, acc, ns);
    } else {
      var rest := ns[1..];
      assert BoxedAll(wide, ns)[1..] == BoxedAll(wide, rest);
      SumExactly(wide, acc + ns[0], rest);
      RunningSumsStep(wide, acc, ns);
      TotalFirst(ns);
    }
  }

  lemma RunningSumsStep(wide: bool, acc: int, ns: seq<int>)
    requires ns != []
    ensures RunningSumsFit(wide, acc, ns) <==> FitsWidth(acc + ns[0], wide) && RunningSumsFit(wide, acc + ns[0], ns[1..])
  {
    hide FitsWidth;
    var rest := ns[1..];
    forall k | 1 <= k <= |ns| ensures Total(ns[..k]) == ns[0] + Total(rest[..k - 1]) {
      TotalFirst(ns[..k]);
      assert ns[..k][1..] == rest[..k - 1];
    }
    assert rest[..0] == [];
    if RunningSumsFit(wide, acc, ns) {
      assert FitsWidth(acc + Total(ns[..1]), wide);
      forall k | 1 <= k <= |rest| ensures FitsWidth(acc + ns[0] + Total(rest[..k]), wide) {
        assert FitsWidth(acc + Total(ns[..k + 1]), wide);
      }
    }
    if FitsWidth(acc + ns[0], wide) && RunningSumsFit(wide, acc + ns[0], rest) {
      forall k | 1 <= k <= |ns| ensures FitsWidth(acc + Total(ns[..k]), wide) {
        if k > 1 {
          assert FitsWidth(acc + ns[0] + Total(rest[..k - 1]), wide);
        }
      }
    }
  }

  function Zero(t: Ty): Value {
    if t.TLong? then I64(0) else I32(0)
  }

  // ----- the meaning of a typed tree -----

  /** What a source operator makes of two values: R1 and R4 on numbers, R2 on
      equality, R9 on strings, an absent string making the result absent. */
  function ApplyBinary(op: BinOp, a: Value, b: Value): Option<Value> {
    match op
    case And => if a.B? && b.B? then Some(B(a.b && b.b)) else None
    case Or => if a.B? && b.B? then Some(B(a.b || b.b)) else None
    case Eq => Some(B(a == b))
    case Ne => Some(B(a != b))
    case _ =>
      if op.Lt? || op.Le? || op.Gt? || op.Ge? then Compare(op, a, b)
      else if op.Add? && (a.S? || a.Opt?) then Concat(a, b)
      else Arith(op, a, b)
  }

  function Concat(a: Value, b: Value): Option<Value> {
    if a.S? && b.S? then Some(S(a.s + b.s))
    else
      var pa := if a.Opt? then a.v else Some(a);
      var pb := if b.Opt? then b.v else Some(b);
      if pa.None? || pb.None? then Some(Opt(None))
      else if pa.value.S? && pb.value.S? then Some(Opt(Some(S(pa.value.s + pb.value.s))))
      else None
  }

  /** L1: the type an operand is evaluated at when the other side is `other`. */
  function OperandType(m: Model, g: Types, e: Expr, other: Option<Ty>): Option<Ty> {
    if other == Some(TLong) && IsIntLiteral(e) then Some(TLong) else TypeOf(m, g, e)
  }

  /** The value of an expression evaluated at type `t`; no value means a panic
      (R1, R4) or a tree the rules give no meaning. `env` holds the values of the
      names in `g`; `&&` and `||` stop at the first decisive operand; `?:`
      evaluates its default first. */
  function Eval(m: Model, h: Heap, g: Types, env: seq<Value>, e: Expr, t: Ty): Option<Value>
    requires |env| == |g|
    decreases e, 0
  {
    match e
    case Int(n) => Some(if t.TLong? then I64(n) else I32(n))
    case Str(s) => Some(S(s))
    case Boolean(b) => Some(B(b))
    case NullLit => None
    case Name(x) => Lookup(Bind(g, env), x)
    case Unary(op, inner) =>
      var it := if t.TLong? && inner.Int? then Some(TLong) else TypeOf(m, g, inner);
      if it.None? then None
      else
        (match Eval(m, h, g, env, inner, it.value)
         case None => None
         case Some(v) => if op.Neg? then Negate(v) else if v.B? then Some(B(!v.b)) else None)
    case Binary(op, lhs, rhs) =>
      if (op.Eq? || op.Ne?) && (lhs.NullLit? || rhs.NullLit?) then
        if lhs.NullLit? && rhs.NullLit? then Some(B(op.Eq?))
        else
          var e' := if rhs.NullLit? then lhs else rhs;
          var vt := TypeOf(m, g, e');
          if vt.None? then None
          else
            (match Eval(m, h, g, env, e', vt.value)
             case None => None
             case Some(v) => Some(B((v == Opt(None)) == op.Eq?)))
      else
        var lt := OperandType(m, g, lhs, TypeOf(m, g, rhs));
        var rt := OperandType(m, g, rhs, TypeOf(m, g, lhs));
        if lt.None? || rt.None? then None
        else
          (match Eval(m, h, g, env, lhs, lt.value)
          case None => None
          case Some(a) =>
            if op.And? && a == B(false) then Some(a)
            else if op.Or? && a == B(true) then Some(a)
            else
              match Eval(m, h, g, env, rhs, rt.value)
              case None => None
              case Some(b) => ApplyBinary(op, a, b))
    case FeatureAccess(receiver, feature, safe) =>
      var rt := TypeOf(m, g, receiver);
      if rt.None? then None
      else
        (match Eval(m, h, g, env, receiver, rt.value)
         case None => None
         case Some(v) => Access(h, v, feature, safe))
    case Algebra(list, kind, lambda, optional) =>
      var lt := TypeOf(m, g, list);
      if lt.None? || !lt.value.TList? then None
      else
        var elem := lt.value.elem;
        (match Eval(m, h, g, env, list, lt.value)
         case None => None
         case Some(v) =>
           if !v.Seq? then None
           else
             var out :=
               match (kind, lambda)
               case (Size, None) => if FitsWidth(|v.vs|, false) then Some(I32(|v.vs|)) else None
               case (Sum, None) => SumFrom(Zero(elem), v.vs)
               case (First, None) => Some(Opt(if v.vs == [] then None else Some(v.vs[0])))
               case (First, Some(l)) => EvalFind(m, h, g, env, elem, l.param, l.body, v.vs)
               case (Filter, Some(l)) => EvalFilter(m, h, g, env, elem, l.param, l.body, v.vs)
               case (Map, Some(l)) => EvalMap(m, h, g, env, elem, l.param, l.body, v.vs)
               case (Any, Some(l)) => EvalAny(m, h, g, env, elem, l.param, l.body, v.vs)
               case _ => None;
             match out
             case None => None
             case Some(w) => Some(if optional && !kind.First? then Opt(Some(w)) else w))
    case Coalesce(value, fallback) =>
      var vt := TypeOf(m, g, value);
      if vt.None? then None
      else if vt.value.TNull? then
        var ft := TypeOf(m, g, fallback);
        if ft.None? then None else Eval(m, h, g, env, fallback, ft.value)
      else if !vt.value.TOption? then None
      else
        var ft := OperandType(m, g, fallback, Some(vt.value.some));
        if ft.None? then None
        else
          (match (Eval(m, h, g, env, fallback, ft.value), Eval(m, h, g, env, value, vt.value))
           case (Some(d), Some(Opt(o))) => Some(if o.None? then d else o.value)
           case _ => None)
    case If(cond, then_, else_) =>
      var branch := TypeOf(m, g, then_);
      var other := TypeOf(m, g, else_);
      if branch.None? || other.None? then None
      else
        (match Eval(m, h, g, env, cond, TBool)
         case Some(B(b)) => if b then Eval(m, h, g, env, then_, branch.value) else Eval(m, h, g, env, else_, other.value)
         case _ => None)
    case Let(x, init, body) =>
      var it := TypeOf(m, g, init);
      if it.None? then None
      else
        (match Eval(m, h, g, env, init, it.value)
         case None => None
         case Some(v) => Eval(m, h, g + [(x, it.value)], env + [v], body, t))
    case ListLiteral(items) =>
      var et := if t.TList? then t.elem else TNull;
      (match EvalItems(m, h, g, env, items, et)
       case None => None
       case Some(vs) => Some(Seq(vs)))
  }

  function Bind(g: Types, env: seq<Value>): (b: seq<(string, Value)>)
    requires |env| == |g|
    ensures |b| == |g|
    ensures forall i :: 0 <= i < |g| ==> b[i] == (g[i].0, env[i])
  {
    seq(|g|, i requires 0 <= i < |g| => (g[i].0, env[i]))
  }

  /** R3: navigating an absent receiver gives nothing; `?.` wraps once. */
  function Access(h: Heap, v: Value, feature: string, safe: bool): Option<Value> {
    if v.Opt? then
      if !safe then None
      else if v.v.None? then Some(Opt(None))
      else if v.v.value.Opt? then None
      else Access(h, v.v.value, feature, safe)
    else if !v.Id? || (v.cls, v.idx) !in h || feature !in h[(v.cls, v.idx)] then None
    else
      var w := h[(v.cls, v.idx)][feature];
      Some(if safe && !w.Opt? then Opt(Some(w)) else w)
  }

  function EvalItems(m: Model, h: Heap, g: Types, env: seq<Value>, items: seq<Expr>, t: Ty): Option<seq<Value>>
    requires |env| == |g|
    decreases items, 1
  {
    if items == [] then Some([])
    else
      match (Eval(m, h, g, env, items[0], t), EvalItems(m, h, g, env, items[1..], t))
      case (Some(v), Some(vs)) => Some([v] + vs)
      case _ => None
  }

  /** The lambda's value on one element. */
  function EvalBody(m: Model, h: Heap, g: Types, env: seq<Value>, elem: Ty, param: string, body: Expr, v: Value): Option<Value>
    requires |env| == |g|
    decreases body, 1
  {
    var bt := TypeOf(m, g + [(param, elem)], body);
    if bt.None? then None else Eval(m, h, g + [(param, elem)], env + [v], body, bt.value)
  }

  function EvalFind(m: Model, h: Heap, g: Types, env: seq<Value>, elem: Ty, param: string, body: Expr, vs: seq<Value>): Option<Value>
    requires |env| == |g|
    decreases body, 2, |vs|
  {
    if vs == [] then Some(Opt(None))
    else
      match EvalBody(m, h, g, env, elem, param, body, vs[0])
      case Some(B(b)) => if b then Some(Opt(Some(vs[0]))) else EvalFind(m, h, g, env, elem, param, body, vs[1..])
      case _ => None
  }

  function EvalAny(m: Model, h: Heap, g: Types, env: seq<Value>, elem: Ty, param: string, body: Expr, vs: seq<Value>): Option<Value>
    requires |env| == |g|
    decreases body, 2, |vs|
  {
    if vs == [] then Some(B(false))
    else
      match EvalBody(m, h, g, env, elem, param, body, vs[0])
      case Some(B(b)) => if b then Some(B(true)) else EvalAny(m, h, g, env, elem, param, body, vs[1..])
      case _ => None
  }

  function EvalFilter(m: Model, h: Heap, g: Types, env: seq<Value>, elem: Ty, param: string, body: Expr, vs: seq<Value>): Option<Value>
    requires |env| == |g|
    decreases body, 2, |vs|
  {
    if vs == [] then Some(Seq([]))
    else
      match (EvalBody(m, h, g, env, elem, param, body, vs[0]), EvalFilter(m, h, g, env, elem, param, body, vs[1..]))
      case (Some(B(b)), Some(Seq(rest))) => Some(Seq(if b then [vs[0]] + rest else rest))
      case _ => None
  }

  function EvalMap(m: Model, h: Heap, g: Types, env: seq<Value>, elem: Ty, param: string, body: Expr, vs: seq<Value>): Option<Value>
    requires |env| == |g|
    decreases body, 2, |vs|
  {
    if vs == [] then Some(Seq([]))
    else
      match (EvalBody(m, h, g, env, elem, param, body, vs[0]), EvalMap(m, h, g, env, elem, param, body, vs[1..]))
      case (Some(v), Some(Seq(rest))) => Some(Seq([v] + rest))
      case _ => None
  }
}

/** Deployment policies: conditions over effective settings, typed like any expression
    and evaluated over 64-bit integers with checked arithmetic. */
module DeployPolicies {
  import opened Common

  datatype Op = Eq | Ne | Lt | Le | Gt | Ge | Add | Sub | Mul | Div | And | Or

  /** A policy condition. `Bare` names a component without a setting; `Other` is any
      tree the evaluator does not support, with the type the checker gives it: `if`,
      `let`, `?:`, a call, a comparison with `null` or of lists. */
  datatype Condition =
    | Number(n: int)
    | Text(s: string)
    | Truth(b: bool)
    | Setting(component: string, name: string)
    | Bare(component: string)
    | Not(inner: Condition)
    | Neg(inner: Condition)
    | Binary(op: Op, lhs: Condition, rhs: Condition)
    | Other(ty: Ty)

  datatype Ty = IntTy | TextTy | BoolTy | ComponentTy(name: string)

  /** The type of every `component.setting` there is. */
  type Universe = map<(string, string), Ty>

  /** What a value is; words read as text. */
  datatype Value = IntV(n: int) | TextV(s: string) | BoolV(b: bool)

  type Settings = map<(string, string), Value>

  // ----- typing -----

  predicate Arithmetic(op: Op) {
    op.Add? || op.Sub? || op.Mul? || op.Div?
  }

  predicate Relational(op: Op) {
    op.Lt? || op.Le? || op.Gt? || op.Ge?
  }

  function TypeOf(u: Universe, components: set<string>, e: Condition): Option<Ty> {
    match e
    case Number(n) => if 0 <= n < 0x8000_0000 then Some(IntTy) else None
    case Text(_) => Some(TextTy)
    case Truth(_) => Some(BoolTy)
    case Setting(c, s) => if (c, s) in u then Some(u[(c, s)]) else None
    case Bare(c) => if c in components then Some(ComponentTy(c)) else None
    case Not(inner) => if TypeOf(u, components, inner) == Some(BoolTy) then Some(BoolTy) else None
    case Neg(inner) => if TypeOf(u, components, inner) == Some(IntTy) then Some(IntTy) else None
    case Binary(op, lhs, rhs) => BinaryType(op, TypeOf(u, components, lhs), TypeOf(u, components, rhs))
    case Other(ty) => Some(ty)
  }

  function BinaryType(op: Op, l: Option<Ty>, r: Option<Ty>): Option<Ty> {
    if l.None? || r.None? then None
    else if op.And? || op.Or? then if l == r == Some(BoolTy) then Some(BoolTy) else None
    else if op.Eq? || op.Ne? then if l == r then Some(BoolTy) else None
    else if Relational(op) then if l == r == Some(IntTy) then Some(BoolTy) else None
    else if op.Add? && l == r == Some(TextTy) then Some(TextTy)
    else if l == r == Some(IntTy) then Some(IntTy)
    else None
  }

  // ----- the evaluator -----

  datatype Failure = Overflow | ZeroDivisor | Unset(component: string, name: string) | Unsupported | Mismatch

  const MIN: int := -0x8000_0000_0000_0000
  const MAX: int := 0x7fff_ffff_ffff_ffff

  type I64 = n: int | -0x8000_0000_0000_0000 <= n <= 0x7fff_ffff_ffff_ffff

  predicate Fits(n: int) {
    MIN <= n <= MAX
  }

  function Checked(n: int): Result<Value, Failure> {
    if Fits(n) then Ok(IntV(n)) else Err(Overflow)
  }

  /** 64-bit division: the one quotient out of range is the least value's by -1. */
  function CheckedDiv(a: int, b: int): Result<Value, Failure> {
    if b == 0 then Err(ZeroDivisor)
    else if a == MIN && b == -1 then Err(Overflow)
    else Ok(IntV(Truncated(a, b)))
  }

  /** Both operands are evaluated whatever the operator. */
  function Evaluate(e: Condition, settings: Settings): Result<Value, Failure> {
    match e
    case Number(n) => Ok(IntV(n))
    case Text(s) => Ok(TextV(s))
    case Truth(b) => Ok(BoolV(b))
    case Setting(c, s) => if (c, s) in settings then Ok(settings[(c, s)]) else Err(Unset(c, s))
    case Bare(_) => Err(Unsupported)
    case Not(inner) =>
      (match Evaluate(inner, settings)
       case Err(f) => Err(f)
       case Ok(v) => if v.BoolV? then Ok(BoolV(!v.b)) else Err(Mismatch))
    case Neg(inner) =>
      (match Evaluate(inner, settings)
       case Err(f) => Err(f)
       case Ok(v) => if v.IntV? then Checked(-v.n) else Err(Mismatch))
    case Binary(op, lhs, rhs) =>
      (match Evaluate(lhs, settings)
       case Err(f) => Err(f)
       case Ok(a) =>
         match Evaluate(rhs, settings)
         case Err(f) => Err(f)
         case Ok(b) => EvaluateBinary(op, a, b))
    case Other(_) => Err(Unsupported)
  }

  function EvaluateBinary(op: Op, a: Value, b: Value): Result<Value, Failure> {
    if op.And? || op.Or? then
      if a.BoolV? && b.BoolV? then Ok(BoolV(if op.And? then a.b && b.b else a.b || b.b)) else Err(Mismatch)
    else if op.Eq? || op.Ne? then
      if (a.IntV? && b.IntV?) || (a.TextV? && b.TextV?) || (a.BoolV? && b.BoolV?) then Ok(BoolV((a == b) == op.Eq?)) else Err(Mismatch)
    else if !(a.IntV? && b.IntV?) then Err(Mismatch)
    else if op.Lt? then Ok(BoolV(a.n < b.n))
    else if op.Le? then Ok(BoolV(a.n <= b.n))
    else if op.Gt? then Ok(BoolV(a.n > b.n))
    else if op.Ge? then Ok(BoolV(a.n >= b.n))
    else if op.Add? then Checked(a.n + b.n)
    else if op.Sub? then Checked(a.n - b.n)
    else if op.Mul? then Checked(a.n * b.n)
    else CheckedDiv(a.n, b.n)
  }

  // ----- what the condition means -----

  /** The exact answer over unbounded integers; none where a setting is unset or a
      divisor is zero. */
  ghost function Exact(e: Condition, settings: Settings): Option<Value> {
    match e
    case Number(n) => Some(IntV(n))
    case Text(s) => Some(TextV(s))
    case Truth(b) => Some(BoolV(b))
    case Setting(c, s) => if (c, s) in settings then Some(settings[(c, s)]) else None
    case Not(inner) => var v := Exact(inner, settings); if v.Some? && v.value.BoolV? then Some(BoolV(!v.value.b)) else None
    case Neg(inner) => var v := Exact(inner, settings); if v.Some? && v.value.IntV? then Some(IntV(-v.value.n)) else None
    case Binary(op, lhs, rhs) =>
      var a, b := Exact(lhs, settings), Exact(rhs, settings);
      if a.None? || b.None? then None else ExactBinary(op, a.value, b.value)
    case _ => None
  }

  ghost function ExactBinary(op: Op, a: Value, b: Value): Option<Value> {
    if op.And? || op.Or? then
      if a.BoolV? && b.BoolV? then Some(BoolV(if op.And? then a.b && b.b else a.b || b.b)) else None
    else if op.Eq? || op.Ne? then Some(BoolV((a == b) == op.Eq?))
    else if !(a.IntV? && b.IntV?) then None
    else if op.Lt? then Some(BoolV(a.n < b.n))
    else if op.Le? then Some(BoolV(a.n <= b.n))
    else if op.Gt? then Some(BoolV(a.n > b.n))
    else if op.Ge? then Some(BoolV(a.n >= b.n))
    else if op.Add? then Some(IntV(a.n + b.n))
    else if op.Sub? then Some(IntV(a.n - b.n))
    else if op.Mul? then Some(IntV(a.n * b.n))
    else if b.n == 0 then None
    else
      assert IsQuotient(a.n, b.n, Truncated(a.n, b.n));
      var q: int :| IsQuotient(a.n, b.n, q);
      Some(IntV(q))
  }

  /** Every intermediate integer of the exact computation fits. */
  ghost predicate InRange(e: Condition, settings: Settings) {
    && (Exact(e, settings).Some? && Exact(e, settings).value.IntV? ==> Fits(Exact(e, settings).value.n))
    && match e
       case Not(inner) => InRange(inner, settings)
       case Neg(inner) => InRange(inner, settings)
       case Binary(_, lhs, rhs) => InRange(lhs, settings) && InRange(rhs, settings)
       case _ => true
  }

  /** The condition is built of what the evaluator supports: no bare component, no
      text concatenation. */
  predicate Supported(u: Universe, components: set<string>, e: Condition) {
    match e
    case Bare(_) => false
    case Other(_) => false
    case Not(inner) => Supported(u, components, inner)
    case Neg(inner) => Supported(u, components, inner)
    case Binary(op, lhs, rhs) =>
      Supported(u, components, lhs) && Supported(u, components, rhs) && !(op.Add? && TypeOf(u, components, lhs) == Some(TextTy))
    case _ => true
  }

  predicate HasType(v: Value, t: Ty) {
    match t
    case IntTy => v.IntV? && Fits(v.n)
    case TextTy => v.TextV?
    case BoolTy => v.BoolV?
    case ComponentTy(_) => false
  }

  /** Every setting that is set has its vocabulary's type. */
  ghost predicate SettingsTyped(u: Universe, settings: Settings) {
    forall k :: k in settings && k in u ==> HasType(settings[k], u[k])
  }

  // ----- well-typed conditions do not go wrong -----

  lemma DivisionFits(a: int, b: int)
    requires Fits(a) && Fits(b) && b != 0
    ensures Fits(Truncated(a, b)) <==> !(a == MIN && b == -1)
  {
    QuotientSmaller(a, b, Truncated(a, b));
  }

  lemma BinaryAgrees(op: Op, a: Value, b: Value, lt: Ty, rt: Ty, t: Ty)
    requires HasType(a, lt) && HasType(b, rt) && BinaryType(op, Some(lt), Some(rt)) == Some(t)
    requires !(op.Add? && lt.TextTy?)
    ensures var r := EvaluateBinary(op, a, b);
            var x := ExactBinary(op, a, b);
            && (r.Ok? <==> x.Some? && (x.value.IntV? ==> Fits(x.value.n)))
            && (r.Ok? ==> Some(r.value) == x && HasType(r.value, t))
            && (r.Err? ==> r.error.Overflow? || r.error.ZeroDivisor?)
            && (r.Err? && r.error.ZeroDivisor? ==> x.None?)
            && (r.Err? && r.error.Overflow? ==> x.Some? && x.value.IntV? && !Fits(x.value.n))
  {
    if op.Div? && b.n != 0 {
      DivisionFits(a.n, b.n);
      QuotientOnce(a.n, b.n, Truncated(a.n, b.n), ExactBinary(op, a, b).value.n);
    }
  }

  /** A typed, supported condition evaluates to exactly the unbounded answer, or fails,
      and it fails exactly where that has no answer or leaves the 64-bit range. */
  lemma {:induction false} EvaluatesExactly(u: Universe, components: set<string>, e: Condition, settings: Settings, t: Ty)
    requires TypeOf(u, components, e) == Some(t) && Supported(u, components, e) && SettingsTyped(u, settings)
    ensures Evaluate(e, settings).Ok? <==> Exact(e, settings).Some? && InRange(e, settings)
    ensures Evaluate(e, settings).Ok? ==> Exact(e, settings) == Some(Evaluate(e, settings).value) && HasType(Evaluate(e, settings).value, t)
    ensures Evaluate(e, settings).Err? ==>
              var f := Evaluate(e, settings).error; f.Overflow? || f.ZeroDivisor? || (f.Unset? && (f.component, f.name) !in settings)
    decreases e, 1
  {
    match e
    case Not(inner) => EvaluatesExactly(u, components, inner, settings, BoolTy);
    case Neg(inner) => EvaluatesExactly(u, components, inner, settings, IntTy);
    case Binary(op, lhs, rhs) => BinaryEvaluates(u, components, e, settings, t);
    case _ =>
  }

  lemma {:induction false} BinaryEvaluates(u: Universe, components: set<string>, e: Condition, settings: Settings, t: Ty)
    requires e.Binary?
    requires TypeOf(u, components, e) == Some(t) && Supported(u, components, e) && SettingsTyped(u, settings)
    ensures Evaluate(e, settings).Ok? <==> Exact(e, settings).Some? && InRange(e, settings)
    ensures Evaluate(e, settings).Ok? ==> Exact(e, settings) == Some(Evaluate(e, settings).value) && HasType(Evaluate(e, settings).value, t)
    ensures Evaluate(e, settings).Err? ==>
              var f := Evaluate(e, settings).error; f.Overflow? || f.ZeroDivisor? || (f.Unset? && (f.component, f.name) !in settings)
    decreases e, 0
  {
    hide EvaluateBinary, ExactBinary, HasType, BinaryType;
    var lt, rt := OperandTypes(u, components, e, t);
    EvaluatesExactly(u, components, e.lhs, settings, lt);
    EvaluatesExactly(u, components, e.rhs, settings, rt);
    if Evaluate(e.lhs, settings).Ok? && Evaluate(e.rhs, settings).Ok? {
      BinaryAgrees(e.op, Evaluate(e.lhs, settings).value, Evaluate(e.rhs, settings).value, lt, rt, t);
    }
  }

  lemma OperandTypes(u: Universe, components: set<string>, e: Condition, t: Ty) returns (lt: Ty, rt: Ty)
    requires e.Binary? && TypeOf(u, components, e) == Some(t)
    ensures TypeOf(u, components, e.lhs) == Some(lt) && TypeOf(u, components, e.rhs) == Some(rt)
    ensures BinaryType(e.op, Some(lt), Some(rt)) == Some(t)
  {
    lt, rt := TypeOf(u, components, e.lhs).value, TypeOf(u, components, e.rhs).value;
  }

  /** Text concatenation typechecks, and the evaluator rejects it whatever its
      operands evaluate to. */
  lemma ConcatenationGoesWrong(u: Universe, components: set<string>, lhs: Condition, rhs: Condition, settings: Settings)
    requires TypeOf(u, components, lhs) == Some(TextTy) && TypeOf(u, components, rhs) == Some(TextTy)
    requires Supported(u, components, lhs) && Supported(u, components, rhs) && SettingsTyped(u, settings)
    ensures TypeOf(u, components, Binary(Add, lhs, rhs)) == Some(TextTy)
    ensures Evaluate(Binary(Add, lhs, rhs), settings).Err?
    ensures Evaluate(lhs, settings).Ok? && Evaluate(rhs, settings).Ok? ==> Evaluate(Binary(Add, lhs, rhs), settings) == Err(Mismatch)
  {
    EvaluatesExactly(u, components, lhs, settings, TextTy);
    EvaluatesExactly(u, components, rhs, settings, TextTy);
  }

  /** Both operands of `&&` and `||` are evaluated: a decisive left operand does not
      save a failing right one. */
  lemma NoShortCircuit(op: Op, lhs: Condition, rhs: Condition, settings: Settings)
    requires (op.And? || op.Or?) && Evaluate(lhs, settings).Ok? && Evaluate(rhs, settings).Err?
    ensures Evaluate(Binary(op, lhs, rhs), settings) == Evaluate(rhs, settings)
  {}
}

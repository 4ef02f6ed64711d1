/** Lowering typed expressions to Rust: the walk with its two mirrored scopes. */
module Lowering {
  import opened Common
  import opened E = Expr
  import opened RustTarget

  datatype LowerError = NotTyped | NullNotAllowed | UnknownName | UnknownFeature | NotAList | LambdaMissing | EmptyList

  /** What a name in scope denotes in Rust. */
  datatype Binding =
    | SelfFeature(ident: string, derived: bool, copy: bool)
    | Local(variable: string, copy: bool)
    | ClosureParam(variable: string, copy: bool, refs: nat)

  type Scope = seq<(string, Binding)>

  /** The words the emitter escapes: keywords and names of types. */
  predicate Keyword(name: string) {
    KeywordToE(name) || KeywordToM(name) || KeywordFromN(name) || TypeWord(name)
  }

  predicate KeywordToE(name: string) {
    name in ["as", "async", "await", "box", "break", "const", "continue", "crate", "dyn", "else", "enum", "extern"]
  }

  predicate KeywordToM(name: string) {
    name in ["false", "fn", "for", "gen", "if", "impl", "in", "let", "loop", "match", "mod", "move", "mut"]
  }

  predicate KeywordFromN(name: string) {
    name in [
      "pub", "ref", "return", "Self", "self", "static", "struct", "super", "trait", "true", "type", "unsafe", "use",
      "where", "while", "yield"]
  }

  predicate TypeWord(name: string) {
    name in ["bool", "char", "f32", "f64", "i8", "i16", "i32", "i64", "str", "u8", "u16", "u32", "u64"]
  }

  function RustIdent(name: string): string {
    if Keyword(name) then "r#" + name else name
  }

  /** The outermost prefix `*`s of a rendered receiver stay outside a method call
      written after it: `**p.is_none()` is `**(p.is_none())`. */
  function Post(recv: RExpr, method_: RExpr -> RExpr): RExpr
    decreases recv
  {
    if recv.Deref? then Deref(Post(recv.e, method_)) else method_(recv)
  }

  /** A name: cloned unless `Copy`, behind as many `*` as its closure lends references. */
  function LowerName(b: Binding): RExpr {
    match b
    case SelfFeature(ident, derived, copy) =>
      if derived then SelfAccessor(ident) else if copy then SelfField(ident) else Clone(SelfField(ident))
    case Local(v, copy) => if copy then Var(v) else Clone(Var(v))
    case ClosureParam(v, copy, refs) => if copy then Derefs(refs, Var(v)) else Clone(Derefs(refs, Var(v)))
  }

  function Derefs(n: nat, e: RExpr): RExpr {
    if n == 0 then e else Deref(Derefs(n - 1, e))
  }

  /** R9: two operand renderings concatenated; an absent operand propagates. */
  function ConcatCode(lt: Ty, rt: Ty, l: RExpr, r: RExpr): RExpr {
    if lt.TOption? && rt.TOption? then Post(l, l' => ZipFormat(l', r))
    else if lt.TOption? then Post(l, l' => ZipFormat(l', SomeE(r)))
    else if rt.TOption? then ZipFormat(SomeE(l), r)
    else Format(l, r)
  }

  /** A string literal operand of `==` is emitted as a bare `&str`. */
  function StripLiteral(e: Expr, code: RExpr): RExpr {
    if e.Str? then StrSlice(e.s) else code
  }

  /** The shape reading a stored feature off an object: whether it clones, and
      whether it yields an option. */
  function FieldShape(d: FeatureDecl): (bool, bool) {
    if d.many then (true, false)
    else if d.kind.Attribute? then (!(IsCopy(d.base) && d.required), !d.required)
    else (false, !d.required || d.kind.Container?)
  }

  function AccessCode(cls: string, feature: string, d: FeatureDecl, recv: RExpr, recvOption: bool, safe: bool): RExpr {
    var (cloned, option) := FieldShape(d);
    var plain := LookupField(cls, recv, feature, cloned);
    if !safe then plain
    else if recvOption then Post(recv, recv' => AndThenField(cls, recv', feature, cloned, option))
    else if option then plain
    else SomeE(plain)
  }

  /** The operand type: an integer literal beside a long is typed long. */
  function OperandTy(m: Model, g: Types, e: Expr, long: bool): Option<Ty> {
    if long && IsIntLiteral(e) then Some(TLong) else TypeOf(m, g, e)
  }

  function Lower(m: Model, g: Types, scope: Scope, e: Expr, t: Ty): Result<RExpr, LowerError>
    decreases e, 1
  {
    match e
    case Int(n) => Ok(IntLit(n, t.TLong?))
    case Str(s) => Ok(OwnedStr(s))
    case Boolean(b) => Ok(BoolLit(b))
    case NullLit => Err(NullNotAllowed)
    case Name(x) => (match Lookup(scope, x) case None => Err(UnknownName) case Some(b) => Ok(LowerName(b)))
    case Unary(op, inner) =>
      (match LowerTyped(m, g, scope, inner)
       case Err(err) => Err(err)
       case Ok(code) => Ok(if op.Not? then NotE(code) else NegE(code)))
    case Binary(op, lhs, rhs) =>
      if op.Eq? || op.Ne? then LowerEquality(m, g, scope, op, lhs, rhs)
      else
        var lt := TypeOf(m, g, lhs);
        if lt.None? then Err(NotTyped)
        else
          var rt := OperandTy(m, g, rhs, lt == Some(TLong));
          if rt.None? then Err(NotTyped)
          else
            (match (Lower(m, g, scope, lhs, lt.value), Lower(m, g, scope, rhs, rt.value))
             case (Err(err), _) => Err(err)
             case (_, Err(err)) => Err(err)
             case (Ok(l), Ok(r)) =>
               if op.Add? && (IsStringOperand(lt.value) || IsStringOperand(rt.value))
               then Ok(ConcatCode(lt.value, rt.value, l, r))
               else Ok(Bin(op, l, r)))
    case FeatureAccess(receiver, feature, safe) =>
      var rt := TypeOf(m, g, receiver);
      if rt.None? then Err(NotTyped)
      else
        var target := if rt.value.TOption? then rt.value.some else rt.value;
        if !target.TClass? || (target.name, feature) !in m then Err(UnknownFeature)
        else
          (match Lower(m, g, scope, receiver, rt.value)
           case Err(err) => Err(err)
           case Ok(code) => Ok(AccessCode(target.name, feature, m[(target.name, feature)], code, rt.value.TOption?, safe)))
    case Algebra(list, kind, lambda, optional) =>
      var lt := TypeOf(m, g, list);
      if lt.None? then Err(NotTyped)
      else if !lt.value.TList? then Err(NotAList)
      else
        var elem := lt.value.elem;
        (match Lower(m, g, scope, list, lt.value)
         case Err(err) => Err(err)
         case Ok(code) =>
           var refs := if kind.First? || kind.Filter? then 2 else 1;
           var body :=
             match lambda
             case None => Err(LambdaMissing)
             case Some(Lambda(param, body)) => LowerLambda(m, g, scope, param, elem, body, refs);
           match AlgebraCode(kind, elem, lambda, code, body)
           case Err(err) => Err(err)
           case Ok(out) => Ok(if optional && !kind.First? then SomeE(out) else out))
    case Coalesce(value, fallback) =>
      var vt := TypeOf(m, g, value);
      if vt.None? then Err(NotTyped)
      else if vt.value.TNull? then LowerTyped(m, g, scope, fallback)
      else
        var ft := OperandTy(m, g, fallback, vt.value == TOption(TLong));
        if ft.None? then Err(NotTyped)
        else
          (match (Lower(m, g, scope, fallback, ft.value), Lower(m, g, scope, value, vt.value))
           case (Err(err), _) => Err(err)
           case (_, Err(err)) => Err(err)
           case (Ok(d), Ok(v)) => Ok(Post(v, v' => UnwrapOr(v', d))))
    case If(cond, then_, else_) =>
      (match (LowerTyped(m, g, scope, cond), LowerTyped(m, g, scope, then_), LowerTyped(m, g, scope, else_))
       case (Err(err), _, _) => Err(err)
       case (_, Err(err), _) => Err(err)
       case (_, _, Err(err)) => Err(err)
       case (Ok(c), Ok(a), Ok(b)) => Ok(IfE(c, a, b)))
    case Let(x, init, body) =>
      var it := TypeOf(m, g, init);
      if it.None? then Err(NotTyped)
      else
        (match Lower(m, g, scope, init, it.value)
         case Err(err) => Err(err)
         case Ok(code) =>
           var binding := Local(RustIdent(x), IsCopy(it.value));
           match Lower(m, g + [(x, it.value)], scope + [(x, binding)], body, t)
           case Err(err) => Err(err)
           case Ok(bodyCode) => Ok(LetE(RustIdent(x), code, bodyCode)))
    case ListLiteral(items) =>
      if items == [] then Err(EmptyList)
      else
        var et := TypeOf(m, g, items[0]);
        if et.None? then Err(NotTyped)
        else
          (match Lower(m, g, scope, items[0], et.value)
           case Err(err) => Err(err)
           case Ok(first) =>
             match LowerItems(m, g, scope, items[1..], et.value.TLong?)
             case Err(err) => Err(err)
             case Ok(rest) => Ok(VecE([first] + rest)))
  }

  function LowerTyped(m: Model, g: Types, scope: Scope, e: Expr): Result<RExpr, LowerError>
    decreases e, 2
  {
    var t := TypeOf(m, g, e);
    if t.None? then Err(NotTyped) else Lower(m, g, scope, e, t.value)
  }

  function LowerItems(m: Model, g: Types, scope: Scope, items: seq<Expr>, long: bool): Result<seq<RExpr>, LowerError>
    decreases items, 2
  {
    if items == [] then Ok([])
    else
      var t := OperandTy(m, g, items[0], long);
      if t.None? then Err(NotTyped)
      else
        match Lower(m, g, scope, items[0], t.value)
        case Err(err) => Err(err)
        case Ok(code) =>
          match LowerItems(m, g, scope, items[1..], long)
          case Err(err) => Err(err)
          case Ok(rest) => Ok([code] + rest)
  }

  /** R2: against `null`, `is_none()` on an option and a constant otherwise. */
  function LowerEquality(m: Model, g: Types, scope: Scope, op: BinOp, lhs: Expr, rhs: Expr): Result<RExpr, LowerError>
    decreases Binary(op, lhs, rhs), 0
  {
    if lhs.NullLit? && rhs.NullLit? then Ok(BoolLit(op.Eq?))
    else if lhs.NullLit? || rhs.NullLit? then
      var e := if rhs.NullLit? then lhs else rhs;
      var t := TypeOf(m, g, e);
      if t.None? then Err(NotTyped)
      else
        match Lower(m, g, scope, e, t.value)
        case Err(err) => Err(err)
        case Ok(code) => Ok(AgainstNull(op, t.value, code))
    else
      var lt := TypeOf(m, g, lhs);
      if lt.None? then Err(NotTyped)
      else
        var rt := OperandTy(m, g, rhs, lt == Some(TLong));
        if rt.None? then Err(NotTyped)
        else
          match (Lower(m, g, scope, lhs, lt.value), Lower(m, g, scope, rhs, rt.value))
          case (Err(err), _) => Err(err)
          case (_, Err(err)) => Err(err)
          case (Ok(l), Ok(r)) => Ok(Bin(op, StripLiteral(lhs, l), StripLiteral(rhs, r)))
  }

  /** A value that can never be absent equals `null` never; its code is dropped. */
  function AgainstNull(op: BinOp, t: Ty, code: RExpr): RExpr {
    if !t.TOption? then BoolLit(op.Ne?)
    else if op.Eq? then Post(code, c => IsNone(c))
    else NotE(Post(code, c => IsNone(c)))
  }

  /** A lambda body under its parameter, lent behind `refs` references. */
  function LowerLambda(m: Model, g: Types, scope: Scope, param: string, elem: Ty, body: Expr, refs: nat): Result<RExpr, LowerError>
    decreases body, 3
  {
    LowerTyped(m, g + [(param, elem)], scope + [(param, ClosureParam(RustIdent(param), IsCopy(elem), refs))], body)
  }

  /** The iterator chain of one algebra call; the closure's parameter is written as
      authored. */
  function AlgebraCode(kind: AlgebraKind, elem: Ty, lambda: Option<Lambda>, list: RExpr, body: Result<RExpr, LowerError>)
    : Result<RExpr, LowerError>
  {
    match kind
    case Size => Ok(Post(list, l => LenAsI32(l)))
    case Sum => Ok(Post(list, l => IterSum(l, elem.TLong?)))
    case First =>
      if lambda.None? then Ok(Post(list, l => FirstElem(l, IsCopy(elem))))
      else (match body case Err(e) => Err(e) case Ok(b) => Ok(Post(list, l => IterFind(l, lambda.value.param, b, IsCopy(elem)))))
    case Filter =>
      if lambda.None? then Err(LambdaMissing)
      else (match body case Err(e) => Err(e) case Ok(b) => Ok(Post(list, l => IterFilter(l, lambda.value.param, b, IsCopy(elem)))))
    case Map =>
      if lambda.None? then Err(LambdaMissing)
      else (match body case Err(e) => Err(e) case Ok(b) => Ok(Post(list, l => IterMap(l, lambda.value.param, b))))
    case Any =>
      if lambda.None? then Err(LambdaMissing)
      else (match body case Err(e) => Err(e) case Ok(b) => Ok(Post(list, l => IterAny(l, lambda.value.param, b))))
  }
}

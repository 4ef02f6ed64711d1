/** The lowering, one shape of tree at a time: what a typed tree says of its parts,
    and the code it lowers to given theirs. */
module LoweringRules {
  import opened Common
  import opened E = Expr
  import opened RustTarget
  import opened Lowering
  import opened LoweringTypes

  ghost predicate Lowers(m: Model, g: Types, scope: Scope, e: Expr, t: Ty) {
    Lower(m, g, scope, e, t).Ok?
  }

  function Code(m: Model, g: Types, scope: Scope, e: Expr, t: Ty): RExpr
    requires Lower(m, g, scope, e, t).Ok?
  {
    Lower(m, g, scope, e, t).value
  }

  // ----- literals -----

  lemma LongMattersToLiteralsOnly(m: Model, g: Types, e: Expr)
    requires !e.Int?
    ensures Check(m, g, e, true) == Check(m, g, e, false)
  {}

  lemma LiteralRange(m: Model, g: Types, e: Expr)
    requires e.Int?
    ensures Check(m, g, e, true) == if e.n < 0x8000_0000_0000_0000 then Some(TLong) else None
    ensures Check(m, g, e, false) == if e.n < 0x8000_0000 then Some(TInt) else None
  {}

  predicate NegatedLiteral(e: Expr) {
    e.Unary? && e.uop.Neg? && e.inner.Int?
  }

  lemma NegatedLiteralType(m: Model, g: Types, e: Expr)
    requires NegatedLiteral(e)
    ensures TypeOf(m, g, e) == if e.inner.n < 0x8000_0000 then Some(TInt) else None
  {
    LiteralRange(m, g, e.inner);
  }

  /** A tree checked where a long is expected is lowered at the type it got. */
  lemma OperandTypeAgrees(m: Model, g: Types, e: Expr, t: Ty)
    requires Check(m, g, e, t.TLong?) == Some(t)
    ensures LoweredAt(m, g, e, t) && OperandTy(m, g, e, t.TLong?) == Some(t)
  {
    if e.Int? {
      LiteralRange(m, g, e);
    } else {
      LongMattersToLiteralsOnly(m, g, e);
    }
  }

  // ----- unary -----

  lemma UnaryPremises(m: Model, self: map<string, RTy>, g: Types, scope: Scope, d: RTypes, e: Expr, t: Ty)
    requires e.Unary? && Setting(m, self, g, scope, d, e, t)
    ensures Setting(m, self, g, scope, d, e.inner, t) && TypeOf(m, g, e.inner) == Some(t)
    ensures if e.uop.Not? then t.TBool? else IsNumeric(t)
  {
    hide Lower, RType, EnvTyped, ModelOk;
  }

  lemma UnaryLowered(m: Model, g: Types, scope: Scope, e: Expr, t: Ty, it: Ty)
    requires e.Unary? && TypeOf(m, g, e.inner) == Some(it)
    ensures Lowers(m, g, scope, e, t) <==> Lowers(m, g, scope, e.inner, it)
    ensures Lowers(m, g, scope, e, t) ==>
              var c := Code(m, g, scope, e.inner, it); Code(m, g, scope, e, t) == if e.uop.Not? then NotE(c) else NegE(c)
  {
    hide TypeOf;
    assert LowerTyped(m, g, scope, e.inner) == Lower(m, g, scope, e.inner, it);
  }

  // ----- conditional -----

  lemma IfPremises(m: Model, self: map<string, RTy>, g: Types, scope: Scope, d: RTypes, e: Expr, t: Ty)
    requires e.If? && Setting(m, self, g, scope, d, e, t)
    ensures Setting(m, self, g, scope, d, e.cond, TBool) && TypeOf(m, g, e.cond) == Some(TBool)
    ensures Setting(m, self, g, scope, d, e.then_, t) && TypeOf(m, g, e.then_) == Some(t)
    ensures Setting(m, self, g, scope, d, e.else_, t) && TypeOf(m, g, e.else_) == Some(t)
  {
    hide Lower, RType, EnvTyped, ModelOk;
  }

  lemma IfLowered(m: Model, g: Types, scope: Scope, e: Expr, t: Ty)
    requires e.If? && TypeOf(m, g, e.cond) == Some(TBool) && TypeOf(m, g, e.then_) == Some(t) && TypeOf(m, g, e.else_) == Some(t)
    ensures Lowers(m, g, scope, e, t) <==>
              Lowers(m, g, scope, e.cond, TBool) && Lowers(m, g, scope, e.then_, t) && Lowers(m, g, scope, e.else_, t)
    ensures Lowers(m, g, scope, e, t) ==>
              Code(m, g, scope, e, t)
              == IfE(Code(m, g, scope, e.cond, TBool), Code(m, g, scope, e.then_, t), Code(m, g, scope, e.else_, t))
  {
    hide TypeOf;
    assert LowerTyped(m, g, scope, e.cond) == Lower(m, g, scope, e.cond, TBool);
    assert LowerTyped(m, g, scope, e.then_) == Lower(m, g, scope, e.then_, t);
    assert LowerTyped(m, g, scope, e.else_) == Lower(m, g, scope, e.else_, t);
  }

  // ----- equality -----

  lemma AgainstNullPremises(m: Model, self: map<string, RTy>, g: Types, scope: Scope, d: RTypes, e: Expr, t: Ty) returns (ct: Ty)
    requires AgainstNull?(e) && Setting(m, self, g, scope, d, e, t)
    ensures t == TBool && TypeOf(m, g, Compared(e)) == Some(ct) && Setting(m, self, g, scope, d, Compared(e), ct)
    ensures Mirror(g, scope) && LoweredAt(m, g, Compared(e), ct) && Compared(e) < e
  {
    hide Lower, RType, ModelOk;
    ct := TypeOf(m, g, Compared(e)).value;
  }

  lemma AgainstNullClean(m: Model, g: Types, scope: Scope, e: Expr, ct: Ty, deep: bool)
    requires AgainstNull?(e) && TypeOf(m, g, Compared(e)) == Some(ct)
    ensures Clean(m, g, scope, e, deep) <==>
              if ct.TOption? then Clean(m, g, scope, Compared(e), deep) && !DerefCode(m, g, scope, Compared(e))
              else if deep then Clean(m, g, scope, Compared(e), deep)
              else Lowerable(m, g, Compared(e))
  {
    hide TypeOf, Lower;
  }

  lemma AgainstNullLowered(m: Model, g: Types, scope: Scope, e: Expr, t: Ty, ct: Ty)
    requires AgainstNull?(e) && TypeOf(m, g, Compared(e)) == Some(ct)
    ensures Lowers(m, g, scope, e, t) <==> Lowers(m, g, scope, Compared(e), ct)
    ensures Lowers(m, g, scope, e, t) ==> Code(m, g, scope, e, t) == AgainstNull(e.op, ct, Code(m, g, scope, Compared(e), ct))
  {
    hide TypeOf, AgainstNull;
    assert Lower(m, g, scope, e, t) == LowerEquality(m, g, scope, e.op, e.lhs, e.rhs);
  }

  predicate Equality?(e: Expr) {
    e.Binary? && (e.op.Eq? || e.op.Ne?) && !e.lhs.NullLit? && !e.rhs.NullLit?
  }

  lemma EqualityPremises(m: Model, self: map<string, RTy>, g: Types, scope: Scope, d: RTypes, e: Expr, t: Ty) returns (lt: Ty, rt: Ty)
    requires Equality?(e) && Setting(m, self, g, scope, d, e, t)
    ensures t == TBool && TypeOf(m, g, e.lhs) == Some(lt) && TypeOf(m, g, e.rhs) == Some(rt)
    ensures Setting(m, self, g, scope, d, e.lhs, lt) && Setting(m, self, g, scope, d, e.rhs, rt)
    ensures (lt.TNull? || rt.TNull? || lt == rt) && (e.lhs.Str? ==> lt.TString?) && (e.rhs.Str? ==> rt.TString?)
  {
    hide Lower, RType, EnvTyped, ModelOk;
    lt, rt := TypeOf(m, g, e.lhs).value, TypeOf(m, g, e.rhs).value;
  }

  lemma OperandUnchanged(m: Model, g: Types, e: Expr, lt: Ty, t: Ty)
    requires TypeOf(m, g, e) == Some(t) && (lt.TNull? || t.TNull? || lt == t)
    ensures OperandTy(m, g, e, lt.TLong?) == Some(t)
  {
    if IsIntLiteral(e) {
      if e.Int? {
        LiteralRange(m, g, e);
      } else {
        NegatedLiteralType(m, g, e);
      }
    }
  }

  lemma EqualityLowered(m: Model, g: Types, scope: Scope, e: Expr, t: Ty, lt: Ty, rt: Ty)
    requires Equality?(e) && TypeOf(m, g, e.lhs) == Some(lt) && TypeOf(m, g, e.rhs) == Some(rt)
    requires lt.TNull? || rt.TNull? || lt == rt
    ensures Lowers(m, g, scope, e, t) <==> Lowers(m, g, scope, e.lhs, lt) && Lowers(m, g, scope, e.rhs, rt)
    ensures Lowers(m, g, scope, e, t) ==>
              Code(m, g, scope, e, t)
              == Bin(e.op, StripLiteral(e.lhs, Code(m, g, scope, e.lhs, lt)), StripLiteral(e.rhs, Code(m, g, scope, e.rhs, rt)))
  {
    OperandUnchanged(m, g, e.rhs, lt, rt);
    hide TypeOf, StripLiteral, OperandTy;
    assert Lower(m, g, scope, e, t) == LowerEquality(m, g, scope, e.op, e.lhs, e.rhs);
  }

  lemma EqualityClean(m: Model, g: Types, scope: Scope, e: Expr, deep: bool)
    requires Equality?(e)
    ensures Clean(m, g, scope, e, deep) <==> Clean(m, g, scope, e.lhs, deep) && Clean(m, g, scope, e.rhs, deep)
  {
    hide Lower, TypeOf, DerefCode, SizeCode;
  }

  // ----- arithmetic, comparison, connectives and concatenation -----

  predicate Operator?(e: Expr) {
    e.Binary? && !e.op.Eq? && !e.op.Ne?
  }

  /** The types the operands are lowered at; a negated literal beside a long is
      lowered as a long although the checker typed it int. */
  lemma OperatorPremises(m: Model, self: map<string, RTy>, g: Types, scope: Scope, d: RTypes, e: Expr, t: Ty) returns (lt: Ty, rt: Ty)
    requires Operator?(e) && Setting(m, self, g, scope, d, e, t)
    ensures TypeOf(m, g, e.lhs) == Some(lt) && Setting(m, self, g, scope, d, e.lhs, lt)
    ensures OperandTy(m, g, e.rhs, lt.TLong?) == Some(rt)
    ensures if lt.TLong? && NegatedLiteral(e.rhs) then rt == TLong && CheckBinary(e.op, e.lhs, e.rhs, lt, TInt) == Some(t)
            else Setting(m, self, g, scope, d, e.rhs, rt) && CheckBinary(e.op, e.lhs, e.rhs, lt, rt) == Some(t)
  {
    hide Lower, RType, EnvTyped, ModelOk, CheckBinary;
    lt := TypeOf(m, g, e.lhs).value;
    if lt.TLong? && !Numeric(e.op) {
      ConnectivesAreBoolean(m, g, e, lt);
    }
    if e.rhs.Int? {
      LiteralRange(m, g, e.rhs);
    } else {
      LongMattersToLiteralsOnly(m, g, e.rhs);
      if NegatedLiteral(e.rhs) {
        NegatedLiteralType(m, g, e.rhs);
      }
    }
    assert Check(m, g, e.rhs, lt.TLong? && Numeric(e.op)).Some?;
    rt := OperandTy(m, g, e.rhs, lt.TLong?).value;
  }

  lemma ConnectivesAreBoolean(m: Model, g: Types, e: Expr, lt: Ty)
    requires Operator?(e) && !Numeric(e.op) && TypeOf(m, g, e.lhs) == Some(lt) && TypeOf(m, g, e).Some?
    ensures lt.TBool?
  {}

  lemma OperatorLowered(m: Model, g: Types, scope: Scope, e: Expr, t: Ty, lt: Ty, rt: Ty)
    requires Operator?(e)
    requires TypeOf(m, g, e.lhs) == Some(lt) && OperandTy(m, g, e.rhs, lt.TLong?) == Some(rt)
    ensures Lowers(m, g, scope, e, t) <==> Lowers(m, g, scope, e.lhs, lt) && Lowers(m, g, scope, e.rhs, rt)
    ensures Lowers(m, g, scope, e, t) ==>
              var l, r := Code(m, g, scope, e.lhs, lt), Code(m, g, scope, e.rhs, rt);
              Code(m, g, scope, e, t) == if Concatenates(e.op, lt, rt) then ConcatCode(lt, rt, l, r) else Bin(e.op, l, r)
  {
    hide TypeOf, OperandTy, ConcatCode, IsStringOperand;
  }

  predicate Concatenates(op: BinOp, lt: Ty, rt: Ty) {
    op.Add? && (IsStringOperand(lt) || IsStringOperand(rt))
  }

  lemma OperatorClean(m: Model, g: Types, scope: Scope, e: Expr, lt: Ty, deep: bool)
    requires Operator?(e) && TypeOf(m, g, e.lhs) == Some(lt)
    ensures Clean(m, g, scope, e, deep) <==>
              && Clean(m, g, scope, e.lhs, deep) && Clean(m, g, scope, e.rhs, deep)
              && (Numeric(e.op) && IsNumeric(lt) ==> TypeOf(m, g, e.rhs) == Some(lt) || (lt.TLong? && e.rhs.Int?))
              && !(e.op.Lt? && SizeCode(m, g, e.lhs))
  {
    hide Lower, TypeOf, DerefCode, SizeCode;
  }

  // ----- navigation -----

  lemma AccessPremises(m: Model, self: map<string, RTy>, g: Types, scope: Scope, d: RTypes, e: Expr, t: Ty) returns (rt: Ty, cls: string)
    requires e.FeatureAccess? && Setting(m, self, g, scope, d, e, t)
    ensures TypeOf(m, g, e.receiver) == Some(rt) && Setting(m, self, g, scope, d, e.receiver, rt)
    ensures rt == TClass(cls) || (e.safe && rt == TOption(TClass(cls)))
    ensures (cls, e.feature) in m && t == WrapOptional(FeatureType(m[(cls, e.feature)]), e.safe)
    ensures !RequiredReference(m[(cls, e.feature)])
  {
    hide Lower, RType, EnvTyped, ModelOk, RequiredReference;
    rt := TypeOf(m, g, e.receiver).value;
    cls := if rt.TOption? then rt.some.name else rt.name;
  }

  lemma AccessLowered(m: Model, g: Types, scope: Scope, e: Expr, t: Ty, rt: Ty, cls: string)
    requires e.FeatureAccess? && TypeOf(m, g, e.receiver) == Some(rt) && (rt == TClass(cls) || rt == TOption(TClass(cls)))
    requires (cls, e.feature) in m
    ensures Lowers(m, g, scope, e, t) <==> Lowers(m, g, scope, e.receiver, rt)
    ensures Lowers(m, g, scope, e, t) ==>
              Code(m, g, scope, e, t)
              == AccessCode(cls, e.feature, m[(cls, e.feature)], Code(m, g, scope, e.receiver, rt), rt.TOption?, e.safe)
  {
    hide TypeOf, AccessCode;
  }

  lemma AccessClean(m: Model, g: Types, scope: Scope, e: Expr, rt: Ty, deep: bool)
    requires e.FeatureAccess? && TypeOf(m, g, e.receiver) == Some(rt)
    ensures Clean(m, g, scope, e, deep) <==>
              Clean(m, g, scope, e.receiver, deep) && (rt.TOption? ==> !DerefCode(m, g, scope, e.receiver))
  {
    hide Lower, TypeOf, DerefCode, SizeCode;
  }

  // ----- `?:` and `let` -----

  lemma CoalescePremises(m: Model, self: map<string, RTy>, g: Types, scope: Scope, d: RTypes, e: Expr, t: Ty) returns (vt: Ty, ft: Ty)
    requires e.Coalesce? && Setting(m, self, g, scope, d, e, t)
    ensures TypeOf(m, g, e.value) == Some(vt)
    ensures vt.TNull? ==> TypeOf(m, g, e.fallback) == Some(t) && ft == t && Setting(m, self, g, scope, d, e.fallback, t)
    ensures !vt.TNull? ==>
              && vt == TOption(t) && Setting(m, self, g, scope, d, e.value, vt)
              && OperandTy(m, g, e.fallback, t.TLong?) == Some(ft)
              && (!(t.TLong? && NegatedLiteral(e.fallback)) ==> Setting(m, self, g, scope, d, e.fallback, ft))
  {
    hide Lower, RType, EnvTyped, ModelOk;
    vt := TypeOf(m, g, e.value).value;
    if e.fallback.Int? {
      LiteralRange(m, g, e.fallback);
    } else {
      LongMattersToLiteralsOnly(m, g, e.fallback);
    }
    ft := if vt.TNull? then t else OperandTy(m, g, e.fallback, t.TLong?).value;
  }

  lemma CoalesceLowered(m: Model, g: Types, scope: Scope, e: Expr, t: Ty, vt: Ty, ft: Ty)
    requires e.Coalesce? && TypeOf(m, g, e.value) == Some(vt)
    requires if vt.TNull? then TypeOf(m, g, e.fallback) == Some(t) && ft == t
             else vt == TOption(t) && OperandTy(m, g, e.fallback, t.TLong?) == Some(ft)
    ensures vt.TNull? ==> Lower(m, g, scope, e, t) == Lower(m, g, scope, e.fallback, t)
    ensures !vt.TNull? ==> (Lowers(m, g, scope, e, t) <==> Lowers(m, g, scope, e.value, vt) && Lowers(m, g, scope, e.fallback, ft))
    ensures !vt.TNull? && Lowers(m, g, scope, e, t) ==>
              var fallback := Code(m, g, scope, e.fallback, ft);
              Code(m, g, scope, e, t) == Post(Code(m, g, scope, e.value, vt), v => UnwrapOr(v, fallback))
  {
    hide TypeOf, OperandTy, Post;
    if vt.TNull? {
      assert Lower(m, g, scope, e, t) == LowerTyped(m, g, scope, e.fallback);
    }
  }

  lemma CoalesceClean(m: Model, g: Types, scope: Scope, e: Expr, vt: Ty, deep: bool)
    requires e.Coalesce? && TypeOf(m, g, e.value) == Some(vt)
    ensures Clean(m, g, scope, e, deep) <==>
              if vt.TNull? then Clean(m, g, scope, e.fallback, deep)
              else
                && Clean(m, g, scope, e.value, deep) && Clean(m, g, scope, e.fallback, deep) && !DerefCode(m, g, scope, e.value)
                && (vt.TOption? ==> TypeOf(m, g, e.fallback) == Some(vt.some) || (vt.some.TLong? && e.fallback.Int?))
  {
    hide Lower, TypeOf, DerefCode, SizeCode;
  }

  lemma LetPremises(m: Model, self: map<string, RTy>, g: Types, scope: Scope, d: RTypes, e: Expr, t: Ty) returns (it: Ty)
    requires e.Let? && Setting(m, self, g, scope, d, e, t)
    ensures TypeOf(m, g, e.init) == Some(it) && Setting(m, self, g, scope, d, e.init, it) && NoCapture(scope, e.name)
    ensures var g' := g + [(e.name, it)];
            Hygienic(m, g', scope + [(e.name, LetBinding(e.name, it))], e.body) && TypeOf(m, g', e.body) == Some(t)
  {
    hide Lower, RType, EnvTyped, ModelOk, NoCapture;
    it := TypeOf(m, g, e.init).value;
  }

  function LetBinding(x: string, t: Ty): Binding {
    Local(RustIdent(x), IsCopy(t))
  }

  lemma LetLowered(m: Model, g: Types, scope: Scope, e: Expr, t: Ty, it: Ty)
    requires e.Let? && TypeOf(m, g, e.init) == Some(it)
    ensures var g', scope' := g + [(e.name, it)], scope + [(e.name, LetBinding(e.name, it))];
            && (Lowers(m, g, scope, e, t) <==> Lowers(m, g, scope, e.init, it) && Lowers(m, g', scope', e.body, t))
            && (Lowers(m, g, scope, e, t) ==>
                  Code(m, g, scope, e, t) == LetE(RustIdent(e.name), Code(m, g, scope, e.init, it), Code(m, g', scope', e.body, t)))
  {
    hide TypeOf, RustIdent;
  }

  lemma LetClean(m: Model, g: Types, scope: Scope, e: Expr, it: Ty, deep: bool)
    requires e.Let? && TypeOf(m, g, e.init) == Some(it)
    ensures Clean(m, g, scope, e, deep) <==>
              && Clean(m, g, scope, e.init, deep) && Binder(RustIdent(e.name))
              && Clean(m, g + [(e.name, it)], scope + [(e.name, LetBinding(e.name, it))], e.body, deep)
  {
    hide Lower, TypeOf, RustIdent, Binder;
  }

  // ----- the collection algebra -----

  lemma AlgebraPremises(m: Model, self: map<string, RTy>, g: Types, scope: Scope, d: RTypes, e: Expr, t: Ty) returns (elem: Ty, bt: Option<Ty>)
    requires e.Algebra? && Setting(m, self, g, scope, d, e, t)
    ensures TypeOf(m, g, e.list) == Some(TList(elem)) && Setting(m, self, g, scope, d, e.list, TList(elem))
    ensures CheckAlgebra(e.kind, elem, e.lambda.Some?, bt).Some?
    ensures t == WrapOptional(CheckAlgebra(e.kind, elem, e.lambda.Some?, bt).value, e.optional)
    ensures e.lambda.None? ==> bt.None?
    ensures e.lambda.Some? ==>
              var l := e.lambda.value;
              var g' := g + [(l.param, elem)];
              && bt.Some? && TypeOf(m, g', l.body) == bt
              && NoCapture(scope, l.param)
              && Hygienic(m, g', scope + [(l.param, LambdaBinding(e.kind, l.param, elem))], l.body)
  {
    hide Lower, RType, EnvTyped, ModelOk, NoCapture, IsCopy, RustIdent;
    elem := TypeOf(m, g, e.list).value.elem;
    bt := match e.lambda
          case None => None
          case Some(Lambda(param, body)) => Check(m, g + [(param, elem)], body, false);
  }

  /** The body's code, when there is a body. */
  function BodyCode(m: Model, g: Types, scope: Scope, e: Expr, elem: Ty): Result<RExpr, LowerError>
    requires e.Algebra?
  {
    match e.lambda
    case None => Err(LambdaMissing)
    case Some(l) => LowerLambda(m, g, scope, l.param, elem, l.body, LambdaBinding(e.kind, l.param, elem).refs)
  }

  lemma BodyLowered(m: Model, g: Types, scope: Scope, e: Expr, elem: Ty, bt: Ty)
    requires e.Algebra? && e.lambda.Some? && TypeOf(m, g + [(e.lambda.value.param, elem)], e.lambda.value.body) == Some(bt)
    ensures var l := e.lambda.value;
            BodyCode(m, g, scope, e, elem)
            == Lower(m, g + [(l.param, elem)], scope + [(l.param, LambdaBinding(e.kind, l.param, elem))], l.body, bt)
  {
    hide TypeOf, IsCopy, RustIdent;
    var l := e.lambda.value;
    var g', scope' := g + [(l.param, elem)], scope + [(l.param, LambdaBinding(e.kind, l.param, elem))];
    assert BodyCode(m, g, scope, e, elem) == LowerTyped(m, g', scope', l.body);
  }

  lemma AlgebraLowered(m: Model, g: Types, scope: Scope, e: Expr, t: Ty, elem: Ty)
    requires e.Algebra? && TypeOf(m, g, e.list) == Some(TList(elem))
    ensures Lowers(m, g, scope, e, t) ==> Lowers(m, g, scope, e.list, TList(elem))
    ensures Lowers(m, g, scope, e.list, TList(elem)) ==>
              var out := AlgebraCode(e.kind, elem, e.lambda, Code(m, g, scope, e.list, TList(elem)), BodyCode(m, g, scope, e, elem));
              && (Lowers(m, g, scope, e, t) <==> out.Ok?)
              && (out.Ok? ==> Code(m, g, scope, e, t) == if e.optional && !e.kind.First? then SomeE(out.value) else out.value)
  {
    hide TypeOf, AlgebraCode, LowerLambda, IsCopy, RustIdent;
  }

  lemma AlgebraClean(m: Model, g: Types, scope: Scope, e: Expr, elem: Ty, deep: bool)
    requires e.Algebra? && TypeOf(m, g, e.list) == Some(TList(elem))
    ensures Clean(m, g, scope, e, deep) <==>
              && Clean(m, g, scope, e.list, deep)
              && (e.lambda.Some? ==>
                    var l := e.lambda.value;
                    && Binder(l.param)
                    && Clean(m, g + [(l.param, elem)], scope + [(l.param, LambdaBinding(e.kind, l.param, elem))], l.body, deep))
  {
    hide Lower, TypeOf, RustIdent, IsCopy, Binder;
  }

  // ----- list literals -----

  lemma ListPremises(m: Model, self: map<string, RTy>, g: Types, scope: Scope, d: RTypes, e: Expr, t: Ty) returns (et: Ty)
    requires e.ListLiteral? && Setting(m, self, g, scope, d, e, t)
    ensures e.items != [] && t == TList(et) && TypeOf(m, g, e.items[0]) == Some(et)
    ensures forall i :: 0 <= i < |e.items| ==> Hygienic(m, g, scope, e.items[i])
    ensures forall i :: 1 <= i < |e.items| ==> Check(m, g, e.items[i], et.TLong?) == Some(et)
  {
    hide Lower, RType, EnvTyped, ModelOk;
    et := TypeOf(m, g, e.items[0]).value;
  }

  lemma ListLowered(m: Model, g: Types, scope: Scope, e: Expr, t: Ty, et: Ty)
    requires e.ListLiteral? && e.items != [] && TypeOf(m, g, e.items[0]) == Some(et)
    ensures Lowers(m, g, scope, e, t) <==> Lowers(m, g, scope, e.items[0], et) && LowerItems(m, g, scope, e.items[1..], et.TLong?).Ok?
    ensures Lowers(m, g, scope, e, t) ==>
              Code(m, g, scope, e, t)
              == VecE([Code(m, g, scope, e.items[0], et)] + LowerItems(m, g, scope, e.items[1..], et.TLong?).value)
  {
    hide TypeOf, LowerItems;
  }

  lemma ItemsLowered(m: Model, g: Types, scope: Scope, items: seq<Expr>, et: Ty)
    requires items != [] && OperandTy(m, g, items[0], et.TLong?) == Some(et)
    ensures LowerItems(m, g, scope, items, et.TLong?).Ok? <==>
              Lowers(m, g, scope, items[0], et) && LowerItems(m, g, scope, items[1..], et.TLong?).Ok?
    ensures LowerItems(m, g, scope, items, et.TLong?).Ok? ==>
              LowerItems(m, g, scope, items, et.TLong?).value
              == [Code(m, g, scope, items[0], et)] + LowerItems(m, g, scope, items[1..], et.TLong?).value
  {
    hide OperandTy, Lower;
  }

  // ----- what lowers -----

  lemma MirrorPush(g: Types, scope: Scope, x: string, t: Ty, b: Binding)
    requires Mirror(g, scope) && b.copy == IsCopy(t)
    ensures Mirror(g + [(x, t)], scope + [(x, b)])
  {
    hide IsCopy;
  }

  /** A typed tree in mirrored scopes lowers if and only if it has no `null` outside
      equality and the left of `?:`. */
  lemma {:induction false} LowersExactly(m: Model, g: Types, scope: Scope, e: Expr, t: Ty)
    requires Mirror(g, scope) && LoweredAt(m, g, e, t)
    ensures Lowers(m, g, scope, e, t) <==> Lowerable(m, g, e)
    decreases e, 1
  {
    hide *;
    match e
    case Unary(_, _) => UnaryLowers(m, g, scope, e, t);
    case Binary(_, _, _) => BinaryLowers(m, g, scope, e, t);
    case FeatureAccess(_, _, _) => AccessLowers(m, g, scope, e, t);
    case Algebra(_, _, _, _) => AlgebraLowers(m, g, scope, e, t);
    case Coalesce(_, _) => CoalesceLowers(m, g, scope, e, t);
    case If(_, _, _) => IfLowers(m, g, scope, e, t);
    case Let(_, _, _) => LetLowers(m, g, scope, e, t);
    case ListLiteral(_) => ListLowers(m, g, scope, e, t);
    case _ => LeafLowers(m, g, scope, e, t);
  }

  lemma LeafLowers(m: Model, g: Types, scope: Scope, e: Expr, t: Ty)
    requires e.Int? || e.Str? || e.Boolean? || e.NullLit? || e.Name?
    requires Mirror(g, scope) && LoweredAt(m, g, e, t)
    ensures Lowers(m, g, scope, e, t) <==> Lowerable(m, g, e)
  {
    hide Mirror, LowerName;
    if e.Name? {
      LookupMirror(g, scope, e.x);
    }
  }

  lemma {:induction false} UnaryLowers(m: Model, g: Types, scope: Scope, e: Expr, t: Ty)
    requires e.Unary? && Mirror(g, scope) && LoweredAt(m, g, e, t)
    ensures Lowers(m, g, scope, e, t) <==> Lowerable(m, g, e)
    decreases e, 0
  {
    hide Lower, Mirror;
    assert TypeOf(m, g, e.inner) == Some(t);
    UnaryLowered(m, g, scope, e, t, t);
    LowersExactly(m, g, scope, e.inner, t);
  }

  lemma {:induction false} IfLowers(m: Model, g: Types, scope: Scope, e: Expr, t: Ty)
    requires e.If? && Mirror(g, scope) && LoweredAt(m, g, e, t)
    ensures Lowers(m, g, scope, e, t) <==> Lowerable(m, g, e)
    decreases e, 0
  {
    hide Lower, Mirror;
    assert TypeOf(m, g, e.cond) == Some(TBool) && TypeOf(m, g, e.then_) == Some(t) && TypeOf(m, g, e.else_) == Some(t);
    IfLowered(m, g, scope, e, t);
    LowersExactly(m, g, scope, e.cond, TBool);
    LowersExactly(m, g, scope, e.then_, t);
    LowersExactly(m, g, scope, e.else_, t);
  }

  lemma {:induction false} BinaryLowers(m: Model, g: Types, scope: Scope, e: Expr, t: Ty)
    requires e.Binary? && Mirror(g, scope) && LoweredAt(m, g, e, t)
    ensures Lowers(m, g, scope, e, t) <==> Lowerable(m, g, e)
    decreases e, 0
  {
    hide Lower, Mirror, Check, LoweredAt, OperandTy, CheckBinary, ConcatCode, StripLiteral;
    if AgainstNull?(e) {
      var ct := ComparedType(m, g, e, t);
      AgainstNullLowered(m, g, scope, e, t, ct);
      LowersExactly(m, g, scope, Compared(e), ct);
    } else if BothNull?(e) {
      NullsLower(m, g, scope, e, t);
    } else {
      var lt, rt := BinaryTypes(m, g, e, t);
      if Equality?(e) {
        EqualityLowered(m, g, scope, e, t, lt, rt);
      } else {
        OperatorLowered(m, g, scope, e, t, lt, rt);
      }
      LeftTyped(m, g, e.lhs, lt);
      LowersExactly(m, g, scope, e.lhs, lt);
      if NegatedLiteral(e.rhs) {
        NegatedLiteralLowers(m, g, scope, e.rhs, rt);
      } else {
        LowersExactly(m, g, scope, e.rhs, rt);
      }
    }
  }

  lemma ComparedType(m: Model, g: Types, e: Expr, t: Ty) returns (ct: Ty)
    requires AgainstNull?(e) && LoweredAt(m, g, e, t)
    ensures LoweredAt(m, g, Compared(e), ct) && TypeOf(m, g, Compared(e)) == Some(ct) && Compared(e) < e
  {
    ct := TypeOf(m, g, Compared(e)).value;
  }

  lemma NullsLower(m: Model, g: Types, scope: Scope, e: Expr, t: Ty)
    requires BothNull?(e)
    ensures Lowers(m, g, scope, e, t)
  {}

  lemma LeftTyped(m: Model, g: Types, e: Expr, t: Ty)
    requires TypeOf(m, g, e) == Some(t)
    ensures LoweredAt(m, g, e, t)
  {}

  /** The types the two operands are lowered at. */
  lemma BinaryTypes(m: Model, g: Types, e: Expr, t: Ty) returns (lt: Ty, rt: Ty)
    requires (Equality?(e) || Operator?(e)) && LoweredAt(m, g, e, t)
    ensures TypeOf(m, g, e.lhs) == Some(lt)
    ensures Equality?(e) ==> TypeOf(m, g, e.rhs) == Some(rt) && (lt.TNull? || rt.TNull? || lt == rt)
    ensures Operator?(e) ==> OperandTy(m, g, e.rhs, lt.TLong?) == Some(rt)
    ensures NegatedLiteral(e.rhs) ==> TypeOf(m, g, e.rhs).Some?
    ensures !NegatedLiteral(e.rhs) ==> LoweredAt(m, g, e.rhs, rt)
  {
    hide CheckBinary;
    lt := TypeOf(m, g, e.lhs).value;
    if Operator?(e) && lt.TLong? && !Numeric(e.op) {
      ConnectivesAreBoolean(m, g, e, lt);
    }
    if e.rhs.Int? {
      LiteralRange(m, g, e.rhs);
    } else {
      LongMattersToLiteralsOnly(m, g, e.rhs);
    }
    assert TypeOf(m, g, e.rhs).Some? || (e.rhs.Int? && Operator?(e) && lt.TLong?);
    rt := if Equality?(e) then TypeOf(m, g, e.rhs).value else OperandTy(m, g, e.rhs, lt.TLong?).value;
    if Equality?(e) {
      EqualTypes(m, g, e, lt, rt);
    }
  }

  lemma EqualTypes(m: Model, g: Types, e: Expr, lt: Ty, rt: Ty)
    requires Equality?(e) && TypeOf(m, g, e.lhs) == Some(lt) && TypeOf(m, g, e.rhs) == Some(rt) && TypeOf(m, g, e).Some?
    ensures lt.TNull? || rt.TNull? || lt == rt
  {}

  lemma NegatedLiteralLowers(m: Model, g: Types, scope: Scope, e: Expr, t: Ty)
    requires NegatedLiteral(e) && TypeOf(m, g, e).Some?
    ensures Lowers(m, g, scope, e, t) && Lowerable(m, g, e)
  {
    NegatedLiteralType(m, g, e);
    LiteralRange(m, g, e.inner);
    UnaryLowered(m, g, scope, e, t, TInt);
  }

  lemma {:induction false} AccessLowers(m: Model, g: Types, scope: Scope, e: Expr, t: Ty)
    requires e.FeatureAccess? && Mirror(g, scope) && LoweredAt(m, g, e, t)
    ensures Lowers(m, g, scope, e, t) <==> Lowerable(m, g, e)
    decreases e, 0
  {
    hide Lower, Mirror;
    var rt := TypeOf(m, g, e.receiver).value;
    var cls := if rt.TOption? then rt.some.name else rt.name;
    AccessLowered(m, g, scope, e, t, rt, cls);
    LowersExactly(m, g, scope, e.receiver, rt);
  }

  lemma {:induction false} CoalesceLowers(m: Model, g: Types, scope: Scope, e: Expr, t: Ty)
    requires e.Coalesce? && Mirror(g, scope) && LoweredAt(m, g, e, t)
    ensures Lowers(m, g, scope, e, t) <==> Lowerable(m, g, e)
    decreases e, 0
  {
    hide Lower, Mirror, Check, LoweredAt, OperandTy;
    var vt, ft := CoalesceTypes(m, g, e, t);
    CoalesceLowered(m, g, scope, e, t, vt, ft);
    if vt.TNull? {
      LowersExactly(m, g, scope, e.fallback, t);
    } else {
      LowersExactly(m, g, scope, e.value, vt);
      if NegatedLiteral(e.fallback) {
        NegatedLiteralLowers(m, g, scope, e.fallback, ft);
      } else {
        LowersExactly(m, g, scope, e.fallback, ft);
      }
    }
  }

  lemma CoalesceTypes(m: Model, g: Types, e: Expr, t: Ty) returns (vt: Ty, ft: Ty)
    requires e.Coalesce? && LoweredAt(m, g, e, t)
    ensures TypeOf(m, g, e.value) == Some(vt) && LoweredAt(m, g, e.value, vt)
    ensures if vt.TNull? then TypeOf(m, g, e.fallback) == Some(t) && ft == t && LoweredAt(m, g, e.fallback, t)
            else vt == TOption(t) && OperandTy(m, g, e.fallback, t.TLong?) == Some(ft)
    ensures NegatedLiteral(e.fallback) ==> TypeOf(m, g, e.fallback).Some?
    ensures !NegatedLiteral(e.fallback) ==> LoweredAt(m, g, e.fallback, ft)
  {
    vt := TypeOf(m, g, e.value).value;
    if e.fallback.Int? {
      LiteralRange(m, g, e.fallback);
    } else {
      LongMattersToLiteralsOnly(m, g, e.fallback);
    }
    ft := if vt.TNull? then t else OperandTy(m, g, e.fallback, t.TLong?).value;
  }

  lemma {:induction false} LetLowers(m: Model, g: Types, scope: Scope, e: Expr, t: Ty)
    requires e.Let? && Mirror(g, scope) && LoweredAt(m, g, e, t)
    ensures Lowers(m, g, scope, e, t) <==> Lowerable(m, g, e)
    decreases e, 0
  {
    hide Lower, Mirror, RustIdent, IsCopy;
    var it := TypeOf(m, g, e.init).value;
    LetLowered(m, g, scope, e, t, it);
    LowersExactly(m, g, scope, e.init, it);
    MirrorPush(g, scope, e.name, it, LetBinding(e.name, it));
    LowersExactly(m, g + [(e.name, it)], scope + [(e.name, LetBinding(e.name, it))], e.body, t);
  }

  lemma {:induction false} AlgebraLowers(m: Model, g: Types, scope: Scope, e: Expr, t: Ty)
    requires e.Algebra? && Mirror(g, scope) && LoweredAt(m, g, e, t)
    ensures Lowers(m, g, scope, e, t) <==> Lowerable(m, g, e)
    decreases e, 0
  {
    hide Lower, Mirror, Check, CheckAlgebra, LoweredAt, RustIdent, IsCopy, AlgebraCode, LambdaBinding, BodyCode;
    var elem, bt := AlgebraTypes(m, g, e, t);
    AlgebraLowered(m, g, scope, e, t, elem);
    LowersExactly(m, g, scope, e.list, TList(elem));
    if Lowers(m, g, scope, e.list, TList(elem)) {
      ChainLowers(e.kind, elem, e.lambda, Code(m, g, scope, e.list, TList(elem)), BodyCode(m, g, scope, e, elem), bt);
    }
    if e.lambda.Some? {
      var l := e.lambda.value;
      var b := LambdaBinding(e.kind, l.param, elem);
      LambdaCopies(e.kind, l.param, elem);
      MirrorPush(g, scope, l.param, elem, b);
      BodyLowered(m, g, scope, e, elem, bt.value);
      LowersExactly(m, g + [(l.param, elem)], scope + [(l.param, b)], l.body, bt.value);
    }
  }

  lemma LambdaCopies(kind: AlgebraKind, param: string, elem: Ty)
    ensures LambdaBinding(kind, param, elem).copy == IsCopy(elem)
  {}

  lemma AlgebraTypes(m: Model, g: Types, e: Expr, t: Ty) returns (elem: Ty, bt: Option<Ty>)
    requires e.Algebra? && LoweredAt(m, g, e, t)
    ensures TypeOf(m, g, e.list) == Some(TList(elem)) && LoweredAt(m, g, e.list, TList(elem))
    ensures CheckAlgebra(e.kind, elem, e.lambda.Some?, bt).Some? && (e.lambda.None? ==> bt.None?)
    ensures e.lambda.Some? ==>
              var l := e.lambda.value;
              bt.Some? && TypeOf(m, g + [(l.param, elem)], l.body) == bt && LoweredAt(m, g + [(l.param, elem)], l.body, bt.value)
  {
    elem := TypeOf(m, g, e.list).value.elem;
    bt := match e.lambda
          case None => None
          case Some(Lambda(param, body)) => Check(m, g + [(param, elem)], body, false);
  }

  /** A call that typechecks fails to lower only with its lambda. */
  lemma ChainLowers(kind: AlgebraKind, elem: Ty, lambda: Option<Lambda>, list: RExpr, body: Result<RExpr, LowerError>, bt: Option<Ty>)
    requires CheckAlgebra(kind, elem, lambda.Some?, bt).Some?
    ensures AlgebraCode(kind, elem, lambda, list, body).Ok? <==> (lambda.Some? ==> body.Ok?)
  {}

  lemma {:induction false} ListLowers(m: Model, g: Types, scope: Scope, e: Expr, t: Ty)
    requires e.ListLiteral? && Mirror(g, scope) && LoweredAt(m, g, e, t)
    ensures Lowers(m, g, scope, e, t) <==> Lowerable(m, g, e)
    decreases e, 0
  {
    hide Lower, LowerItems, Mirror;
    var et := TypeOf(m, g, e.items[0]).value;
    ListLowered(m, g, scope, e, t, et);
    LowersExactly(m, g, scope, e.items[0], et);
    assert forall i :: 1 <= i < |e.items| ==> e.items[1..][i - 1] == e.items[i];
    ItemsLower(m, g, scope, e, e.items[1..], et);
  }

  lemma {:induction false} ItemsLower(m: Model, g: Types, scope: Scope, e: Expr, items: seq<Expr>, et: Ty)
    requires e.ListLiteral? && (forall x :: x in items ==> x in e.items) && Mirror(g, scope)
    requires forall i :: 0 <= i < |items| ==> Check(m, g, items[i], et.TLong?) == Some(et)
    ensures LowerItems(m, g, scope, items, et.TLong?).Ok? <==> forall i :: 0 <= i < |items| ==> Lowerable(m, g, items[i])
    decreases e, 0, |items|
  {
    hide Lower, Lowerable, Mirror, Check;
    if items != [] {
      assert items[0] in e.items;
      OperandTypeAgrees(m, g, items[0], et);
      LowersExactly(m, g, scope, items[0], et);
      ItemsLowered(m, g, scope, items, et);
      ItemsLower(m, g, scope, e, items[1..], et);
      assert forall i :: 1 <= i < |items| ==> items[1..][i - 1] == items[i];
    }
  }
}

/** Every clean tree lowers, and rustc gives the result exactly the Rust type of
    the source type. */
module TypePreservation {
  import opened Common
  import opened E = Expr
  import opened RustRules
  import opened RustTarget
  import opened Lowering
  import opened LoweringTypes
  import opened LoweringRules

  /** Code that begins with `*` or ends in `as i32` comes only from these trees. */
  ghost predicate Shaped(m: Model, g: Types, scope: Scope, e: Expr, t: Ty)
    requires Lower(m, g, scope, e, t).Ok?
  {
    var code := Code(m, g, scope, e, t);
    && (code.Deref? <==> DerefCode(m, g, scope, e))
    && (code.LenAsI32? <==> SizeCode(m, g, e))
    && (code.Deref? ==> IsCopy(t))
  }

  ghost predicate Good(m: Model, self: map<string, RTy>, g: Types, scope: Scope, d: RTypes, e: Expr, t: Ty) {
    Accepted(m, self, g, scope, d, e, t) && Shaped(m, g, scope, e, t)
  }

  lemma {:induction false} Preserved(m: Model, self: map<string, RTy>, g: Types, scope: Scope, d: RTypes, e: Expr, t: Ty, deep: bool)
    requires Setting(m, self, g, scope, d, e, t) && Clean(m, g, scope, e, deep)
    ensures Good(m, self, g, scope, d, e, t)
    decreases e, 1
  {
    hide *;
    match e
    case Unary(_, _) => UnaryPreserved(m, self, g, scope, d, e, t, deep);
    case Binary(op, _, _) => BinaryPreserved(m, self, g, scope, d, e, t, deep);
    case FeatureAccess(_, _, _) => AccessPreserved(m, self, g, scope, d, e, t, deep);
    case Algebra(_, _, _, _) => AlgebraPreserved(m, self, g, scope, d, e, t, deep);
    case Coalesce(_, _) => CoalescePreserved(m, self, g, scope, d, e, t, deep);
    case If(_, _, _) => IfPreserved(m, self, g, scope, d, e, t, deep);
    case Let(_, _, _) => LetPreserved(m, self, g, scope, d, e, t, deep);
    case ListLiteral(_) => ListPreserved(m, self, g, scope, d, e, t, deep);
    case _ => LeafPreserved(m, self, g, scope, d, e, t, deep);
  }

  lemma LeafPreserved(m: Model, self: map<string, RTy>, g: Types, scope: Scope, d: RTypes, e: Expr, t: Ty, deep: bool)
    requires e.Int? || e.Str? || e.Boolean? || e.NullLit? || e.Name?
    requires Setting(m, self, g, scope, d, e, t) && Clean(m, g, scope, e, deep)
    ensures Good(m, self, g, scope, d, e, t)
  {
    hide EnvTyped, ModelOk, Hygienic, RustName, Bare;
    if e.Name? {
      NamePreserved(m, self, g, scope, d, e, t);
    }
  }

  lemma NamePreserved(m: Model, self: map<string, RTy>, g: Types, scope: Scope, d: RTypes, e: Expr, t: Ty)
    requires e.Name? && Setting(m, self, g, scope, d, e, t) && Sayable(Lookup(scope, e.x))
    ensures Good(m, self, g, scope, d, e, t)
  {
    hide ModelOk, RType, LowerName, RustName, Bare;
    LookupMirror(g, scope, e.x);
    NameHasType(m, self, d, Lookup(scope, e.x).value, t);
  }

  lemma {:induction false} UnaryPreserved(m: Model, self: map<string, RTy>, g: Types, scope: Scope, d: RTypes, e: Expr, t: Ty, deep: bool)
    requires e.Unary? && Setting(m, self, g, scope, d, e, t) && Clean(m, g, scope, e, deep)
    ensures Good(m, self, g, scope, d, e, t)
    decreases e, 0
  {
    hide Lower, RType, Check, Hygienic, EnvTyped, ModelOk;
    UnaryPremises(m, self, g, scope, d, e, t);
    Preserved(m, self, g, scope, d, e.inner, t, deep);
    UnaryLowered(m, g, scope, e, t, t);
    NotRule(m, self, d, Code(m, g, scope, e.inner, t));
    NegRule(m, self, d, Code(m, g, scope, e.inner, t));
  }

  lemma {:induction false} IfPreserved(m: Model, self: map<string, RTy>, g: Types, scope: Scope, d: RTypes, e: Expr, t: Ty, deep: bool)
    requires e.If? && Setting(m, self, g, scope, d, e, t) && Clean(m, g, scope, e, deep)
    ensures Good(m, self, g, scope, d, e, t)
    decreases e, 0
  {
    hide Lower, RType, Check, Hygienic, EnvTyped, ModelOk;
    IfPremises(m, self, g, scope, d, e, t);
    Preserved(m, self, g, scope, d, e.cond, TBool, deep);
    Preserved(m, self, g, scope, d, e.then_, t, deep);
    Preserved(m, self, g, scope, d, e.else_, t, deep);
    IfLowered(m, g, scope, e, t);
    IfRule(m, self, d, Code(m, g, scope, e.cond, TBool), Code(m, g, scope, e.then_, t), Code(m, g, scope, e.else_, t));
  }

  // ----- binary operators -----

  lemma {:induction false} BinaryPreserved(m: Model, self: map<string, RTy>, g: Types, scope: Scope, d: RTypes, e: Expr, t: Ty, deep: bool)
    requires e.Binary? && Setting(m, self, g, scope, d, e, t) && Clean(m, g, scope, e, deep)
    ensures Good(m, self, g, scope, d, e, t)
    decreases e, 0, 1
  {
    hide Setting, Clean, Good;
    if BothNull?(e) {
      NullsPreserved(m, self, g, scope, d, e, t);
    } else if AgainstNull?(e) {
      AgainstNullPreserved(m, self, g, scope, d, e, t, deep);
    } else if Equality?(e) {
      EqualityPreserved(m, self, g, scope, d, e, t, deep);
    } else {
      OperatorPreserved(m, self, g, scope, d, e, t, deep);
    }
  }

  lemma NullsPreserved(m: Model, self: map<string, RTy>, g: Types, scope: Scope, d: RTypes, e: Expr, t: Ty)
    requires BothNull?(e) && Setting(m, self, g, scope, d, e, t)
    ensures Good(m, self, g, scope, d, e, t)
  {
    hide EnvTyped, ModelOk, Clean, Hygienic;
  }

  lemma {:induction false} AgainstNullPreserved(m: Model, self: map<string, RTy>, g: Types, scope: Scope, d: RTypes, e: Expr, t: Ty, deep: bool)
    requires AgainstNull?(e) && Setting(m, self, g, scope, d, e, t) && Clean(m, g, scope, e, deep)
    ensures Good(m, self, g, scope, d, e, t)
    decreases e, 0, 0
  {
    hide Lower, RType, Clean, Setting;
    var ct := AgainstNullPremises(m, self, g, scope, d, e, t);
    AgainstNullClean(m, g, scope, e, ct, deep);
    if ct.TOption? || deep {
      Preserved(m, self, g, scope, d, Compared(e), ct, deep);
    } else {
      LowersExactly(m, g, scope, Compared(e), ct);
    }
    AgainstNullLowered(m, g, scope, e, t, ct);
    AgainstNullTyped(m, self, d, e.op, ct, Code(m, g, scope, Compared(e), ct));
  }

  lemma AgainstNullTyped(m: Model, self: map<string, RTy>, d: RTypes, op: BinOp, t: Ty, code: RExpr)
    requires t.TOption? ==> RustType(t).Some? && RType(m, self, d, code) == RustType(t) && !code.Deref?
    ensures RType(m, self, d, AgainstNull(op, t, code)) == Some(RBool)
    ensures !AgainstNull(op, t, code).Deref? && !AgainstNull(op, t, code).LenAsI32?
  {
    hide RType, FitsWidth;
    LiteralTyped(m, self, d, op.Ne?);
    if t.TOption? {
      assert Post(code, c => IsNone(c)) == IsNone(code);
      IsNoneRule(m, self, d, code);
      NotRule(m, self, d, IsNone(code));
    }
  }

  lemma LiteralTyped(m: Model, self: map<string, RTy>, d: RTypes, b: bool)
    ensures RType(m, self, d, BoolLit(b)) == Some(RBool)
  {}

  lemma {:induction false} EqualityPreserved(m: Model, self: map<string, RTy>, g: Types, scope: Scope, d: RTypes, e: Expr, t: Ty, deep: bool)
    requires Equality?(e) && Setting(m, self, g, scope, d, e, t) && Clean(m, g, scope, e, deep)
    ensures Good(m, self, g, scope, d, e, t)
    decreases e, 0, 0
  {
    hide Lower, RType, Clean, Setting;
    var lt, rt := EqualityPremises(m, self, g, scope, d, e, t);
    EqualityClean(m, g, scope, e, deep);
    Preserved(m, self, g, scope, d, e.lhs, lt, deep);
    Preserved(m, self, g, scope, d, e.rhs, rt, deep);
    CopyAgrees(lt);
    EqualityLowered(m, g, scope, e, t, lt, rt);
    EqualTyped(m, self, d, e.op, e.lhs, e.rhs, Code(m, g, scope, e.lhs, lt), Code(m, g, scope, e.rhs, rt), lt);
  }

  /** Two operands of one type compare, as do a string and a bare literal. */
  lemma EqualTyped(m: Model, self: map<string, RTy>, d: RTypes, op: BinOp, l: Expr, r: Expr, lc: RExpr, rc: RExpr, t: Ty)
    requires op.Eq? || op.Ne?
    requires RustType(t).Some? && !RustType(t).value.RRef?
    requires RType(m, self, d, lc) == RustType(t) && RType(m, self, d, rc) == RustType(t)
    requires l.Str? || r.Str? ==> t.TString?
    ensures RType(m, self, d, Bin(op, StripLiteral(l, lc), StripLiteral(r, rc))) == Some(RBool)
  {
    BinRule(m, self, d, op, StripLiteral(l, lc), StripLiteral(r, rc));
  }

  lemma {:induction false} OperatorPreserved(m: Model, self: map<string, RTy>, g: Types, scope: Scope, d: RTypes, e: Expr, t: Ty, deep: bool)
    requires Operator?(e) && Setting(m, self, g, scope, d, e, t) && Clean(m, g, scope, e, deep)
    ensures Good(m, self, g, scope, d, e, t)
    decreases e, 0, 0
  {
    hide Lower, RType, Clean, Setting, CheckBinary, ConcatCode;
    var lt, rt := OperatorPremises(m, self, g, scope, d, e, t);
    OperatorClean(m, g, scope, e, lt, deep);
    OperandsMeet(m, g, e, lt, rt, t);
    Preserved(m, self, g, scope, d, e.lhs, lt, deep);
    Preserved(m, self, g, scope, d, e.rhs, rt, deep);
    var l, r := Code(m, g, scope, e.lhs, lt), Code(m, g, scope, e.rhs, rt);
    OperatorLowered(m, g, scope, e, t, lt, rt);
    if Concatenates(e.op, lt, rt) {
      ConcatTyped(m, self, d, e.lhs, e.rhs, lt, rt, t, l, r);
    } else {
      BinTyped(m, self, d, e, lt, rt, t, l, r);
    }
  }

  /** No negated literal meets a long: numbers meet at one type. */
  lemma OperandsMeet(m: Model, g: Types, e: Expr, lt: Ty, rt: Ty, t: Ty)
    requires Operator?(e) && OperandTy(m, g, e.rhs, lt.TLong?) == Some(rt)
    requires CheckBinary(e.op, e.lhs, e.rhs, lt, if lt.TLong? && NegatedLiteral(e.rhs) then TInt else rt) == Some(t)
    requires Numeric(e.op) && IsNumeric(lt) ==> TypeOf(m, g, e.rhs) == Some(lt) || (lt.TLong? && e.rhs.Int?)
    ensures !(lt.TLong? && NegatedLiteral(e.rhs))
    ensures Numeric(e.op) && IsNumeric(lt) ==> rt == lt
  {
    if NegatedLiteral(e.rhs) {
      NegatedLiteralType(m, g, e.rhs);
    } else if e.rhs.Int? {
      LiteralRange(m, g, e.rhs);
    }
  }

  lemma BinTyped(m: Model, self: map<string, RTy>, d: RTypes, e: Expr, lt: Ty, rt: Ty, t: Ty, l: RExpr, r: RExpr)
    requires Operator?(e) && CheckBinary(e.op, e.lhs, e.rhs, lt, rt) == Some(t) && !Concatenates(e.op, lt, rt)
    requires Numeric(e.op) && IsNumeric(lt) ==> rt == lt
    requires RType(m, self, d, l) == RustType(lt) && RType(m, self, d, r) == RustType(rt)
    requires e.op.Lt? ==> !l.LenAsI32?
    ensures RustType(t).Some? && RType(m, self, d, Bin(e.op, l, r)) == RustType(t)
  {
    hide RType;
    BinRule(m, self, d, e.op, l, r);
  }

  lemma ConcatTyped(m: Model, self: map<string, RTy>, d: RTypes, le: Expr, re: Expr, lt: Ty, rt: Ty, t: Ty, l: RExpr, r: RExpr)
    requires CheckBinary(Add, le, re, lt, rt) == Some(t) && Concatenates(Add, lt, rt)
    requires RType(m, self, d, l) == RustType(lt) && RType(m, self, d, r) == RustType(rt)
    requires l.Deref? ==> IsCopy(lt)
    ensures RustType(t).Some? && RType(m, self, d, ConcatCode(lt, rt, l, r)) == RustType(t)
    ensures !ConcatCode(lt, rt, l, r).Deref? && !ConcatCode(lt, rt, l, r).LenAsI32?
  {
    hide RType, ConcatCode;
    ConcatShape(lt, rt, l, r);
    FormatRule(m, self, d, l, r);
    SomeRule(m, self, d, l);
    SomeRule(m, self, d, r);
    ZipRule(m, self, d, l, r);
    ZipRule(m, self, d, l, SomeE(r));
    ZipRule(m, self, d, SomeE(l), r);
  }

  lemma ConcatShape(lt: Ty, rt: Ty, l: RExpr, r: RExpr)
    requires !l.Deref?
    ensures ConcatCode(lt, rt, l, r)
            == if lt.TOption? && rt.TOption? then ZipFormat(l, r)
               else if lt.TOption? then ZipFormat(l, SomeE(r))
               else if rt.TOption? then ZipFormat(SomeE(l), r)
               else Format(l, r)
  {}

  // ----- navigation -----

  lemma {:induction false} AccessPreserved(m: Model, self: map<string, RTy>, g: Types, scope: Scope, d: RTypes, e: Expr, t: Ty, deep: bool)
    requires e.FeatureAccess? && Setting(m, self, g, scope, d, e, t) && Clean(m, g, scope, e, deep)
    ensures Good(m, self, g, scope, d, e, t)
    decreases e, 0
  {
    hide Lower, RType, Clean, Hygienic, ModelOk, AccessCode, Check, RequiredReference;
    var rt, cls := AccessPremises(m, self, g, scope, d, e, t);
    AccessClean(m, g, scope, e, rt, deep);
    Preserved(m, self, g, scope, d, e.receiver, rt, deep);
    AccessTyped(m, self, d, cls, e.feature, Code(m, g, scope, e.receiver, rt), rt, e.safe);
    AccessLowered(m, g, scope, e, t, rt, cls);
  }

  lemma AccessShape(cls: string, feature: string, decl: FeatureDecl, recv: RExpr, recvOption: bool, safe: bool)
    requires recvOption ==> !recv.Deref?
    ensures var (cloned, option) := FieldShape(decl);
            var plain := LookupField(cls, recv, feature, cloned);
            AccessCode(cls, feature, decl, recv, recvOption, safe)
            == if !safe then plain
               else if recvOption then AndThenField(cls, recv, feature, cloned, option)
               else if option then plain else SomeE(plain)
  {}

  lemma AccessTyped(m: Model, self: map<string, RTy>, d: RTypes, cls: string, feature: string, recv: RExpr, rt: Ty, safe: bool)
    requires ModelOk(m) && (cls, feature) in m && !RequiredReference(m[(cls, feature)]) && Lookup(d, RES).None?
    requires rt == TClass(cls) || (safe && rt == TOption(TClass(cls)) && !recv.Deref?)
    requires RType(m, self, d, recv) == RustType(rt)
    ensures var ft := WrapOptional(FeatureType(m[(cls, feature)]), safe);
            var code := AccessCode(cls, feature, m[(cls, feature)], recv, rt.TOption?, safe);
            RustType(ft).Some? && RType(m, self, d, code) == RustType(ft) && !code.Deref? && !code.LenAsI32?
  {
    hide RType, FieldShape, ShapeType, FeatureType, ModelOk, AccessCode, RequiredReference;
    FeatureHasType(m, cls, feature);
    var decl := m[(cls, feature)];
    AccessShape(cls, feature, decl, recv, rt.TOption?, safe);
    var (cloned, option) := FieldShape(decl);
    var plain := LookupField(cls, recv, feature, cloned);
    LookupRule(m, self, d, cls, recv, feature, cloned);
    AndThenRule(m, self, d, cls, recv, feature, cloned, option);
    SomeRule(m, self, d, plain);
  }

  // ----- `?:` and `let` -----

  lemma {:induction false} CoalescePreserved(m: Model, self: map<string, RTy>, g: Types, scope: Scope, d: RTypes, e: Expr, t: Ty, deep: bool)
    requires e.Coalesce? && Setting(m, self, g, scope, d, e, t) && Clean(m, g, scope, e, deep)
    ensures Good(m, self, g, scope, d, e, t)
    decreases e, 0
  {
    hide Lower, RType, Check, Clean, Setting;
    var vt, ft := CoalescePremises(m, self, g, scope, d, e, t);
    CoalesceClean(m, g, scope, e, vt, deep);
    if NegatedLiteral(e.fallback) {
      NegatedLiteralType(m, g, e.fallback);
    }
    Preserved(m, self, g, scope, d, e.fallback, t, deep);
    if !vt.TNull? {
      Preserved(m, self, g, scope, d, e.value, vt, deep);
    }
    CoalesceLowered(m, g, scope, e, t, vt, ft);
    if !vt.TNull? {
      UnwrapRule(m, self, d, Code(m, g, scope, e.value, vt), Code(m, g, scope, e.fallback, ft));
    }
  }

  lemma {:induction false} LetPreserved(m: Model, self: map<string, RTy>, g: Types, scope: Scope, d: RTypes, e: Expr, t: Ty, deep: bool)
    requires e.Let? && Setting(m, self, g, scope, d, e, t) && Clean(m, g, scope, e, deep)
    ensures Good(m, self, g, scope, d, e, t)
    decreases e, 0
  {
    hide Lower, RType, Check, Clean, Hygienic, EnvTyped, ModelOk, NoCapture, IsCopy, RustIdent, Bare, Binder;
    var it := LetPremises(m, self, g, scope, d, e, t);
    LetClean(m, g, scope, e, it, deep);
    var b := LetBinding(e.name, it);
    var g', scope' := g + [(e.name, it)], scope + [(e.name, b)];
    Preserved(m, self, g, scope, d, e.init, it, deep);
    var d' := d + [(Bare(RustIdent(e.name)), RustType(it).value)];
    EnvTypedPush(self, g, scope, d, e.name, it, b, RustType(it).value);
    Preserved(m, self, g', scope', d', e.body, t, deep);
    LetLowered(m, g, scope, e, t, it);
    LetTyped(m, self, d, RustIdent(e.name), Code(m, g, scope, e.init, it), RustType(it).value, Code(m, g', scope', e.body, t));
  }

  lemma LetTyped(m: Model, self: map<string, RTy>, d: RTypes, x: string, init: RExpr, it: RTy, body: RExpr)
    requires RType(m, self, d, init) == Some(it) && Binder(x)
    ensures RType(m, self, d, LetE(x, init, body)) == RType(m, self, d + [(Bare(x), it)], body)
  {
    hide RType, Bare, Binder;
    LetRule(m, self, d, x, init, body);
  }

  // ----- the collection algebra -----

  lemma {:induction false} AlgebraPreserved(m: Model, self: map<string, RTy>, g: Types, scope: Scope, d: RTypes, e: Expr, t: Ty, deep: bool)
    requires e.Algebra? && Setting(m, self, g, scope, d, e, t) && Clean(m, g, scope, e, deep)
    ensures Good(m, self, g, scope, d, e, t)
    decreases e, 0
  {
    hide Lower, RType, Check, Clean, Hygienic, EnvTyped, ModelOk, NoCapture, IsCopy, RustIdent, Post, AlgebraCode,
      CheckAlgebra, LambdaBinding, Bare, Binder;
    var elem, bt := AlgebraPremises(m, self, g, scope, d, e, t);
    AlgebraClean(m, g, scope, e, elem, deep);
    Preserved(m, self, g, scope, d, e.list, TList(elem), deep);
    ListIsNoCopy(elem);
    CopyAgrees(elem);
    var list := Code(m, g, scope, e.list, TList(elem));
    if e.lambda.Some? {
      LambdaPreserved(m, self, g, scope, d, e, elem, bt.value, deep);
    }
    var body := BodyCode(m, g, scope, e, elem);
    AlgebraTyped(m, self, d, e.kind, elem, e.lambda, list, body, bt);
    AlgebraLowered(m, g, scope, e, t, elem);
    OptionalTyped(m, self, d, AlgebraCode(e.kind, elem, e.lambda, list, body).value, CheckAlgebra(e.kind, elem, e.lambda.Some?, bt).value,
                  e.optional, e.kind);
  }

  lemma ListIsNoCopy(elem: Ty)
    ensures !IsCopy(TList(elem))
    ensures RustType(TList(elem)).Some? ==> RustType(elem).Some? && RustType(TList(elem)).value == RVec(RustType(elem).value)
  {}

  lemma {:induction false} LambdaPreserved(m: Model, self: map<string, RTy>, g: Types, scope: Scope, d: RTypes, e: Expr, elem: Ty, bt: Ty, deep: bool)
    requires e.Algebra? && e.lambda.Some? && ModelOk(m) && EnvTyped(self, g, scope, d) && RustType(elem).Some?
    requires var l := e.lambda.value;
             var g', scope' := g + [(l.param, elem)], scope + [(l.param, LambdaBinding(e.kind, l.param, elem))];
             && TypeOf(m, g', l.body) == Some(bt)
             && NoCapture(scope, l.param)
             && Hygienic(m, g', scope', l.body) && Clean(m, g', scope', l.body, deep)
    ensures var l := e.lambda.value;
            && BodyCode(m, g, scope, e, elem).Ok? && RustType(bt).Some?
            && RType(m, self, d + [(Bare(l.param), Lent(e.kind, RustType(elem).value))], BodyCode(m, g, scope, e, elem).value) == RustType(bt)
    decreases e, 0, 0
  {
    hide Lower, RType, Check, Clean, Hygienic, EnvTyped, ModelOk, NoCapture, IsCopy, RustIdent, Refs, Bare;
    var l := e.lambda.value;
    BareIdent(l.param);
    var b := LambdaBinding(e.kind, l.param, elem);
    var rt := Lent(e.kind, RustType(elem).value);
    RefsOnce(RustType(elem).value);
    EnvTypedPush(self, g, scope, d, l.param, elem, b, rt);
    Preserved(m, self, g + [(l.param, elem)], scope + [(l.param, b)], d + [(Bare(l.param), rt)], l.body, bt, deep);
    BodyLowered(m, g, scope, e, elem, bt);
  }

  /** `find` and `filter` lend their closure `&&T`, `map` and `any` lend `&T`. */
  function Lent(kind: AlgebraKind, r: RTy): RTy {
    if kind.First? || kind.Filter? then RRef(RRef(r)) else RRef(r)
  }

  lemma RefsOnce(r: RTy)
    ensures Refs(1, r) == RRef(r) && Refs(2, r) == RRef(RRef(r))
  {
    assert Refs(0, r) == r;
  }

  lemma OptionalTyped(m: Model, self: map<string, RTy>, d: RTypes, out: RExpr, t: Ty, optional: bool, kind: AlgebraKind)
    requires RustType(t).Some? && RType(m, self, d, out) == RustType(t) && (kind.First? <==> t.TOption?)
    ensures RustType(WrapOptional(t, optional)).Some?
    ensures RType(m, self, d, if optional && !kind.First? then SomeE(out) else out) == RustType(WrapOptional(t, optional))
  {
    hide RType;
    SomeRule(m, self, d, out);
  }

  /** Each algebra kind, given the list's type and the body's type under the
      closure's references. */
  lemma AlgebraTyped(m: Model, self: map<string, RTy>, d: RTypes, kind: AlgebraKind, elem: Ty, lambda: Option<Lambda>, list: RExpr,
                     body: Result<RExpr, LowerError>, bt: Option<Ty>)
    requires RustType(elem).Some? && IsCopyR(RustType(elem).value) == IsCopy(elem)
    requires RType(m, self, d, list) == Some(RVec(RustType(elem).value)) && !list.Deref?
    requires CheckAlgebra(kind, elem, lambda.Some?, bt).Some? && (lambda.None? ==> bt.None?)
    requires lambda.Some? ==>
               && body.Ok? && bt.Some? && RustType(bt.value).Some? && Binder(lambda.value.param)
               && RType(m, self, d + [(Bare(lambda.value.param), Lent(kind, RustType(elem).value))], body.value) == RustType(bt.value)
    ensures AlgebraCode(kind, elem, lambda, list, body).Ok?
    ensures var t := CheckAlgebra(kind, elem, lambda.Some?, bt).value;
            var code := AlgebraCode(kind, elem, lambda, list, body).value;
            && RustType(t).Some? && RType(m, self, d, code) == RustType(t)
            && (kind.First? <==> t.TOption?) && !code.Deref? && (code.LenAsI32? <==> kind.Size?)
  {
    hide RType, IsCopy, IsCopyR, RustIdent, Refs, Bare, Binder;
    var r := RustType(elem).value;
    if lambda.None? {
      PlainTyped(m, self, d, kind, elem, list);
    } else {
      LentOnceTyped(m, self, d, list, lambda.value.param, body.value, r);
      LentTwiceTyped(m, self, d, list, lambda.value.param, body.value, r, IsCopy(elem));
    }
  }

  lemma PlainTyped(m: Model, self: map<string, RTy>, d: RTypes, kind: AlgebraKind, elem: Ty, list: RExpr)
    requires RustType(elem).Some? && IsCopyR(RustType(elem).value) == IsCopy(elem)
    requires RType(m, self, d, list) == Some(RVec(RustType(elem).value))
    ensures RType(m, self, d, LenAsI32(list)) == Some(RI32)
    ensures RType(m, self, d, FirstElem(list, IsCopy(elem))) == Some(ROpt(RustType(elem).value))
    ensures IsNumeric(elem) ==> RType(m, self, d, IterSum(list, elem.TLong?)) == RustType(elem)
  {
    hide RType, IsCopy, IsCopyR;
    LenRule(m, self, d, list);
    FirstRule(m, self, d, list, IsCopy(elem));
    SumRule(m, self, d, list, elem.TLong?);
  }

  lemma LentOnceTyped(m: Model, self: map<string, RTy>, d: RTypes, list: RExpr, param: string, body: RExpr, r: RTy)
    requires RType(m, self, d, list) == Some(RVec(r)) && Binder(param)
    ensures var lent := RType(m, self, d + [(Bare(param), RRef(r))], body);
            && (lent.Some? ==> RType(m, self, d, IterMap(list, param, body)) == Some(RVec(lent.value)))
            && (lent == Some(RBool) ==> RType(m, self, d, IterAny(list, param, body)) == Some(RBool))
  {
    hide RType, Bare, Binder;
    MapRule(m, self, d, list, param, body);
    AnyRule(m, self, d, list, param, body);
  }

  lemma LentTwiceTyped(m: Model, self: map<string, RTy>, d: RTypes, list: RExpr, param: string, body: RExpr, r: RTy, copied: bool)
    requires RType(m, self, d, list) == Some(RVec(r)) && (copied ==> IsCopyR(r)) && Binder(param)
    ensures RType(m, self, d + [(Bare(param), RRef(RRef(r)))], body) == Some(RBool) ==>
              && RType(m, self, d, IterFind(list, param, body, copied)) == Some(ROpt(r))
              && RType(m, self, d, IterFilter(list, param, body, copied)) == Some(RVec(r))
  {
    hide RType, IsCopyR, Bare, Binder;
    FindRule(m, self, d, list, param, body, copied);
    FilterRule(m, self, d, list, param, body, copied);
  }

  // ----- list literals -----

  lemma {:induction false} ListPreserved(m: Model, self: map<string, RTy>, g: Types, scope: Scope, d: RTypes, e: Expr, t: Ty, deep: bool)
    requires e.ListLiteral? && Setting(m, self, g, scope, d, e, t) && Clean(m, g, scope, e, deep)
    ensures Good(m, self, g, scope, d, e, t)
    decreases e, 0
  {
    hide Lower, LowerItems, RType, Check, Hygienic, EnvTyped, ModelOk;
    var et := ListPremises(m, self, g, scope, d, e, t);
    Preserved(m, self, g, scope, d, e.items[0], et, deep);
    ItemsPreserved(m, self, g, scope, d, e, e.items[1..], et, deep);
    var first, rest := Code(m, g, scope, e.items[0], et), LowerItems(m, g, scope, e.items[1..], et.TLong?).value;
    ListLowered(m, g, scope, e, t, et);
    ItemsTyped(m, self, d, [first] + rest, RustType(et).value);
  }

  lemma ItemsTyped(m: Model, self: map<string, RTy>, d: RTypes, items: seq<RExpr>, t: RTy)
    requires items != [] && forall i :: 0 <= i < |items| ==> RType(m, self, d, items[i]) == Some(t)
    ensures RType(m, self, d, VecE(items)) == Some(RVec(t))
  {
    hide RType;
    VecRule(m, self, d, items);
  }

  lemma {:induction false} ItemsPreserved(m: Model, self: map<string, RTy>, g: Types, scope: Scope, d: RTypes, e: Expr, items: seq<Expr>, et: Ty,
                                          deep: bool)
    requires e.ListLiteral? && (forall x :: x in items ==> x in e.items)
    requires ModelOk(m) && EnvTyped(self, g, scope, d) && RustType(et).Some?
    requires forall i :: 0 <= i < |items| ==> Hygienic(m, g, scope, items[i]) && Clean(m, g, scope, items[i], deep)
    requires forall i :: 0 <= i < |items| ==> Check(m, g, items[i], et.TLong?) == Some(et)
    ensures var out := LowerItems(m, g, scope, items, et.TLong?);
            && out.Ok? && |out.value| == |items|
            && forall i :: 0 <= i < |items| ==> RType(m, self, d, out.value[i]) == RustType(et)
    decreases e, 0, |items|
  {
    hide Lower, RType, Clean, Hygienic, EnvTyped, ModelOk, Check;
    if items != [] {
      assert items[0] in e.items;
      OperandTypeAgrees(m, g, items[0], et);
      Preserved(m, self, g, scope, d, items[0], et, deep);
      ItemsPreserved(m, self, g, scope, d, e, items[1..], et, deep);
      ItemsLowered(m, g, scope, items, et);
    }
  }
}

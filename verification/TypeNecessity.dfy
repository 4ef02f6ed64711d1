/** The other half: whatever lowers to code rustc accepts is clean, so the cleanness
    condition decides acceptance. */
module TypeNecessity {
  import opened Common
  import opened E = Expr
  import opened RustRules
  import opened RustTarget
  import opened Lowering
  import opened LoweringTypes
  import opened LoweringRules
  import opened TypePreservation

  ghost predicate Typechecks(m: Model, self: map<string, RTy>, g: Types, scope: Scope, d: RTypes, e: Expr, t: Ty) {
    Lowers(m, g, scope, e, t) && RType(m, self, d, Code(m, g, scope, e, t)).Some?
  }

  /** For a typed, hygienic tree: the lowering succeeds with code rustc accepts
      exactly when the tree is clean, and then at exactly the tree's type. */
  lemma AcceptedExactly(m: Model, self: map<string, RTy>, g: Types, scope: Scope, d: RTypes, e: Expr, t: Ty)
    requires Setting(m, self, g, scope, d, e, t)
    ensures Typechecks(m, self, g, scope, d, e, t) <==> Clean(m, g, scope, e, false)
    ensures Typechecks(m, self, g, scope, d, e, t) <==> Accepted(m, self, g, scope, d, e, t)
  {
    hide Setting, Clean, Typechecks, Accepted, Shaped;
    if Clean(m, g, scope, e, false) {
      Preserved(m, self, g, scope, d, e, t, false);
    } else if Typechecks(m, self, g, scope, d, e, t) {
      Needed(m, self, g, scope, d, e, t);
    }
    AcceptedTypechecks(m, self, g, scope, d, e, t);
  }

  lemma AcceptedTypechecks(m: Model, self: map<string, RTy>, g: Types, scope: Scope, d: RTypes, e: Expr, t: Ty)
    ensures Accepted(m, self, g, scope, d, e, t) ==> Typechecks(m, self, g, scope, d, e, t)
  {
    hide Lower, RType;
  }

  lemma {:induction false} Needed(m: Model, self: map<string, RTy>, g: Types, scope: Scope, d: RTypes, e: Expr, t: Ty)
    requires Setting(m, self, g, scope, d, e, t) && Typechecks(m, self, g, scope, d, e, t)
    ensures Clean(m, g, scope, e, false)
    decreases e, 1
  {
    hide *;
    match e
    case Unary(_, _) => UnaryNeeded(m, self, g, scope, d, e, t);
    case Binary(op, _, _) => BinaryNeeded(m, self, g, scope, d, e, t);
    case FeatureAccess(_, _, _) => AccessNeeded(m, self, g, scope, d, e, t);
    case Algebra(_, _, _, _) => AlgebraNeeded(m, self, g, scope, d, e, t);
    case Coalesce(_, _) => CoalesceNeeded(m, self, g, scope, d, e, t);
    case If(_, _, _) => IfNeeded(m, self, g, scope, d, e, t);
    case Let(_, _, _) => LetNeeded(m, self, g, scope, d, e, t);
    case ListLiteral(_) => ListNeeded(m, self, g, scope, d, e, t);
    case _ => LeafNeeded(m, self, g, scope, d, e, t);
  }

  lemma LeafNeeded(m: Model, self: map<string, RTy>, g: Types, scope: Scope, d: RTypes, e: Expr, t: Ty)
    requires e.Int? || e.Str? || e.Boolean? || e.NullLit? || e.Name?
    requires Typechecks(m, self, g, scope, d, e, t)
    ensures Clean(m, g, scope, e, false)
  {
    hide RType, RustName, Bare;
    if e.Name? {
      NameNeeded(m, self, d, Lookup(scope, e.x).value);
    }
  }

  lemma NameNeeded(m: Model, self: map<string, RTy>, d: RTypes, b: Binding)
    requires RType(m, self, d, LowerName(b)).Some?
    ensures Sayable(Some(b))
  {
    hide RustName, Bare;
    if !b.SelfFeature? {
      PlaceNeeded(self, d, b.variable, if b.ClosureParam? then b.refs else 0);
    }
  }

  lemma {:induction false} PlaceNeeded(self: map<string, RTy>, d: RTypes, v: string, k: nat)
    ensures PlaceType(self, d, Derefs(k, Var(v))).Some? ==> RustName(v)
  {
    hide RustName, Bare;
    if k > 0 {
      PlaceNeeded(self, d, v, k - 1);
    }
  }

  lemma {:induction false} UnaryNeeded(m: Model, self: map<string, RTy>, g: Types, scope: Scope, d: RTypes, e: Expr, t: Ty)
    requires e.Unary? && Setting(m, self, g, scope, d, e, t) && Typechecks(m, self, g, scope, d, e, t)
    ensures Clean(m, g, scope, e, false)
    decreases e, 0
  {
    hide Lower, RType, Check, Hygienic, EnvTyped, ModelOk;
    UnaryPremises(m, self, g, scope, d, e, t);
    UnaryLowered(m, g, scope, e, t, t);
    NotRule(m, self, d, Code(m, g, scope, e.inner, t));
    NegRule(m, self, d, Code(m, g, scope, e.inner, t));
    Needed(m, self, g, scope, d, e.inner, t);
  }

  lemma {:induction false} IfNeeded(m: Model, self: map<string, RTy>, g: Types, scope: Scope, d: RTypes, e: Expr, t: Ty)
    requires e.If? && Setting(m, self, g, scope, d, e, t) && Typechecks(m, self, g, scope, d, e, t)
    ensures Clean(m, g, scope, e, false)
    decreases e, 0
  {
    hide Lower, RType, Check, Hygienic, EnvTyped, ModelOk;
    IfPremises(m, self, g, scope, d, e, t);
    IfLowered(m, g, scope, e, t);
    IfRule(m, self, d, Code(m, g, scope, e.cond, TBool), Code(m, g, scope, e.then_, t), Code(m, g, scope, e.else_, t));
    Needed(m, self, g, scope, d, e.cond, TBool);
    Needed(m, self, g, scope, d, e.then_, t);
    Needed(m, self, g, scope, d, e.else_, t);
  }

  // ----- receivers that begin with `*` -----

  predicate Place?(r: RExpr) {
    r.Var? || r.SelfField? || r.Deref?
  }

  /** A method written after a receiver that begins with `*` is a dereference of a
      temporary, which has no type here: so the receiver does not begin with `*`. */
  lemma {:induction false} PostNeedsPlain(m: Model, self: map<string, RTy>, d: RTypes, code: RExpr, method_: RExpr -> RExpr)
    requires forall c :: !Place?(method_(c))
    requires RType(m, self, d, Post(code, method_)).Some?
    ensures !code.Deref? && Post(code, method_) == method_(code)
  {
    if code.Deref? {
      PostHasNoPlace(self, d, code, method_);
      assert false;
    }
  }

  lemma {:induction false} PostHasNoPlace(self: map<string, RTy>, d: RTypes, code: RExpr, method_: RExpr -> RExpr)
    requires forall c :: !Place?(method_(c))
    ensures PlaceType(self, d, Post(code, method_)).None?
  {
    if code.Deref? {
      PostHasNoPlace(self, d, code.e, method_);
    }
  }

  // ----- binary operators -----

  lemma {:induction false} BinaryNeeded(m: Model, self: map<string, RTy>, g: Types, scope: Scope, d: RTypes, e: Expr, t: Ty)
    requires e.Binary? && Setting(m, self, g, scope, d, e, t) && Typechecks(m, self, g, scope, d, e, t)
    ensures Clean(m, g, scope, e, false)
    decreases e, 0, 1
  {
    hide Setting, Typechecks, OptionTyped, DerefCode, SizeCode, Lower, TypeOf;
    if AgainstNull?(e) {
      AgainstNullNeeded(m, self, g, scope, d, e, t);
    } else if Equality?(e) {
      EqualityNeeded(m, self, g, scope, d, e, t);
    } else if !BothNull?(e) {
      OperatorNeeded(m, self, g, scope, d, e, t);
    }
  }

  lemma {:induction false} AgainstNullNeeded(m: Model, self: map<string, RTy>, g: Types, scope: Scope, d: RTypes, e: Expr, t: Ty)
    requires AgainstNull?(e) && Setting(m, self, g, scope, d, e, t) && Typechecks(m, self, g, scope, d, e, t)
    ensures Clean(m, g, scope, e, false)
    decreases e, 0, 0
  {
    hide Lower, RType, Clean, Setting, DerefCode, AgainstNull;
    var ct := AgainstNullPremises(m, self, g, scope, d, e, t);
    AgainstNullLowered(m, g, scope, e, t, ct);
    AgainstNullClean(m, g, scope, e, ct, false);
    LowersExactly(m, g, scope, Compared(e), ct);
    if ct.TOption? {
      var code := Code(m, g, scope, Compared(e), ct);
      IsNoneParts(m, self, d, e.op, ct, code);
      Needed(m, self, g, scope, d, Compared(e), ct);
      Preserved(m, self, g, scope, d, Compared(e), ct, false);
    }
  }

  lemma IsNoneParts(m: Model, self: map<string, RTy>, d: RTypes, op: BinOp, t: Ty, code: RExpr)
    requires t.TOption? && RType(m, self, d, AgainstNull(op, t, code)).Some?
    ensures !code.Deref? && RType(m, self, d, code).Some?
  {
    hide RType;
    var isNone := Post(code, c => IsNone(c));
    NotRule(m, self, d, isNone);
    PostNeedsPlain(m, self, d, code, c => IsNone(c));
    IsNoneRule(m, self, d, code);
  }

  lemma {:induction false} EqualityNeeded(m: Model, self: map<string, RTy>, g: Types, scope: Scope, d: RTypes, e: Expr, t: Ty)
    requires Equality?(e) && Setting(m, self, g, scope, d, e, t) && Typechecks(m, self, g, scope, d, e, t)
    ensures Clean(m, g, scope, e, false)
    decreases e, 0, 0
  {
    hide Lower, RType, Clean, Setting;
    var lt, rt := EqualityPremises(m, self, g, scope, d, e, t);
    EqualityLowered(m, g, scope, e, t, lt, rt);
    EqualityClean(m, g, scope, e, false);
    var l, r := Code(m, g, scope, e.lhs, lt), Code(m, g, scope, e.rhs, rt);
    BinParts(m, self, d, e.op, StripLiteral(e.lhs, l), StripLiteral(e.rhs, r));
    if e.lhs.Str? {
      LeafClean(m, g, scope, e.lhs);
    } else {
      Needed(m, self, g, scope, d, e.lhs, lt);
    }
    if e.rhs.Str? {
      LeafClean(m, g, scope, e.rhs);
    } else {
      Needed(m, self, g, scope, d, e.rhs, rt);
    }
  }

  lemma LeafClean(m: Model, g: Types, scope: Scope, e: Expr)
    requires e.Str? || e.Int? || NegatedLiteral(e)
    ensures Clean(m, g, scope, e, false)
  {}

  lemma BinParts(m: Model, self: map<string, RTy>, d: RTypes, op: BinOp, l: RExpr, r: RExpr)
    requires RType(m, self, d, Bin(op, l, r)).Some?
    ensures RType(m, self, d, l).Some? && RType(m, self, d, r).Some? && !(op.Lt? && l.LenAsI32?)
    ensures Numeric(op) ==> RType(m, self, d, l) == RType(m, self, d, r)
  {
    hide RType;
    BinRule(m, self, d, op, l, r);
  }

  lemma {:induction false} OperatorNeeded(m: Model, self: map<string, RTy>, g: Types, scope: Scope, d: RTypes, e: Expr, t: Ty)
    requires Operator?(e) && Setting(m, self, g, scope, d, e, t) && Typechecks(m, self, g, scope, d, e, t)
    ensures Clean(m, g, scope, e, false)
    decreases e, 0, 0
  {
    hide Lower, RType, Clean, Setting, CheckBinary, ConcatCode, OperandTy, TypeOf;
    var lt, rt := OperatorPremises(m, self, g, scope, d, e, t);
    OperatorLowered(m, g, scope, e, t, lt, rt);
    OperatorClean(m, g, scope, e, lt, false);
    var l, r := Code(m, g, scope, e.lhs, lt), Code(m, g, scope, e.rhs, rt);
    if Concatenates(e.op, lt, rt) {
      ConcatParts(m, self, d, e.lhs, e.rhs, lt, rt, l, r, t);
    } else {
      BinParts(m, self, d, e.op, l, r);
    }
    Needed(m, self, g, scope, d, e.lhs, lt);
    Preserved(m, self, g, scope, d, e.lhs, lt, false);
    if lt.TLong? && NegatedLiteral(e.rhs) {
      LongBinary(e, lt, t);
      NegatedLiteralIsInt(m, self, g, scope, d, e.rhs);
      assert false;
    } else {
      Needed(m, self, g, scope, d, e.rhs, rt);
      Preserved(m, self, g, scope, d, e.rhs, rt, false);
      if Numeric(e.op) && IsNumeric(lt) {
        NumbersDoNotConcatenate(e, lt, rt, t);
        RustTypeInjective(lt, rt);
        LiteralOperand(m, g, e.rhs, lt, rt);
      }
    }
  }

  lemma NumbersDoNotConcatenate(e: Expr, lt: Ty, rt: Ty, t: Ty)
    requires Operator?(e) && IsNumeric(lt) && CheckBinary(e.op, e.lhs, e.rhs, lt, rt) == Some(t)
    ensures !Concatenates(e.op, lt, rt)
  {}

  lemma LongBinary(e: Expr, lt: Ty, t: Ty)
    requires Operator?(e) && lt.TLong? && CheckBinary(e.op, e.lhs, e.rhs, lt, TInt) == Some(t)
    ensures Numeric(e.op) && !Concatenates(e.op, lt, TLong)
  {}

  lemma LiteralOperand(m: Model, g: Types, e: Expr, lt: Ty, rt: Ty)
    requires OperandTy(m, g, e, lt.TLong?) == Some(rt) && rt == lt && !(lt.TLong? && NegatedLiteral(e))
    ensures TypeOf(m, g, e) == Some(lt) || (lt.TLong? && e.Int?)
  {}

  /** A negated literal is rendered as an `i32`, whatever it stands beside. */
  lemma NegatedLiteralIsInt(m: Model, self: map<string, RTy>, g: Types, scope: Scope, d: RTypes, e: Expr)
    requires NegatedLiteral(e) && Lowers(m, g, scope, e, TLong)
    ensures RType(m, self, d, Code(m, g, scope, e, TLong)) != Some(RI64)
  {
    LiteralRange(m, g, e.inner);
    assert LowerTyped(m, g, scope, e.inner).Ok?;
    UnaryLowered(m, g, scope, e, TLong, TInt);
    NegRule(m, self, d, Code(m, g, scope, e.inner, TInt));
  }

  lemma ConcatParts(m: Model, self: map<string, RTy>, d: RTypes, le: Expr, re: Expr, lt: Ty, rt: Ty, l: RExpr, r: RExpr, t: Ty)
    requires RType(m, self, d, ConcatCode(lt, rt, l, r)).Some?
    ensures RType(m, self, d, l).Some? && RType(m, self, d, r).Some?
  {
    hide RType;
    FormatRule(m, self, d, l, r);
    SomeRule(m, self, d, l);
    SomeRule(m, self, d, r);
    ZipRule(m, self, d, l, r);
    ZipRule(m, self, d, l, SomeE(r));
    ZipRule(m, self, d, SomeE(l), r);
    if lt.TOption? {
      if rt.TOption? {
        PostNeedsPlain(m, self, d, l, l' => ZipFormat(l', r));
      } else {
        PostNeedsPlain(m, self, d, l, l' => ZipFormat(l', SomeE(r)));
      }
    }
  }

  // ----- navigation, `?:` and `let` -----

  lemma {:induction false} AccessNeeded(m: Model, self: map<string, RTy>, g: Types, scope: Scope, d: RTypes, e: Expr, t: Ty)
    requires e.FeatureAccess? && Setting(m, self, g, scope, d, e, t) && Typechecks(m, self, g, scope, d, e, t)
    ensures Clean(m, g, scope, e, false)
    decreases e, 0
  {
    hide Lower, RType, Clean, Setting, DerefCode, AccessCode, RequiredReference;
    var rt, cls := AccessPremises(m, self, g, scope, d, e, t);
    AccessLowered(m, g, scope, e, t, rt, cls);
    AccessClean(m, g, scope, e, rt, false);
    AccessParts(m, self, d, cls, e.feature, m[(cls, e.feature)], Code(m, g, scope, e.receiver, rt), rt.TOption?, e.safe);
    Needed(m, self, g, scope, d, e.receiver, rt);
    Preserved(m, self, g, scope, d, e.receiver, rt, false);
  }

  lemma AccessParts(m: Model, self: map<string, RTy>, d: RTypes, cls: string, feature: string, decl: FeatureDecl, recv: RExpr,
                    recvOption: bool, safe: bool)
    requires RType(m, self, d, AccessCode(cls, feature, decl, recv, recvOption, safe)).Some? && (recvOption ==> safe)
    ensures RType(m, self, d, recv).Some? && (recvOption ==> !recv.Deref?)
  {
    hide RType;
    var (cloned, option) := FieldShape(decl);
    LookupRule(m, self, d, cls, recv, feature, cloned);
    AndThenRule(m, self, d, cls, recv, feature, cloned, option);
    SomeRule(m, self, d, LookupField(cls, recv, feature, cloned));
    if recvOption {
      PostNeedsPlain(m, self, d, recv, recv' => AndThenField(cls, recv', feature, cloned, option));
    }
  }

  lemma {:induction false} CoalesceNeeded(m: Model, self: map<string, RTy>, g: Types, scope: Scope, d: RTypes, e: Expr, t: Ty)
    requires e.Coalesce? && Setting(m, self, g, scope, d, e, t) && Typechecks(m, self, g, scope, d, e, t)
    ensures Clean(m, g, scope, e, false)
    decreases e, 0
  {
    hide Lower, RType, Clean, Setting, DerefCode, OperandTy, TypeOf, Post;
    var vt, ft := CoalescePremises(m, self, g, scope, d, e, t);
    CoalesceLowered(m, g, scope, e, t, vt, ft);
    CoalesceClean(m, g, scope, e, vt, false);
    if vt.TNull? {
      Needed(m, self, g, scope, d, e.fallback, t);
    } else {
      var v, f := Code(m, g, scope, e.value, vt), Code(m, g, scope, e.fallback, ft);
      UnwrapParts(m, self, d, v, f);
      Needed(m, self, g, scope, d, e.value, vt);
      Preserved(m, self, g, scope, d, e.value, vt, false);
      if t.TLong? && NegatedLiteral(e.fallback) {
        NegatedLiteralLowersLong(m, g, e.fallback, ft);
        NegatedLiteralIsInt(m, self, g, scope, d, e.fallback);
        assert false;
      } else {
        Needed(m, self, g, scope, d, e.fallback, ft);
        Preserved(m, self, g, scope, d, e.fallback, ft, false);
        RustTypeInjective(t, ft);
        LiteralOperand(m, g, e.fallback, t, ft);
      }
    }
  }

  lemma NegatedLiteralLowersLong(m: Model, g: Types, e: Expr, ft: Ty)
    requires NegatedLiteral(e) && OperandTy(m, g, e, true) == Some(ft)
    ensures ft == TLong
  {}

  lemma UnwrapParts(m: Model, self: map<string, RTy>, d: RTypes, v: RExpr, f: RExpr)
    requires RType(m, self, d, Post(v, v' => UnwrapOr(v', f))).Some?
    ensures !v.Deref? && RType(m, self, d, v).Some? && RType(m, self, d, v).value.ROpt?
    ensures RType(m, self, d, f) == Some(RType(m, self, d, v).value.t)
  {
    hide RType;
    PostNeedsPlain(m, self, d, v, v' => UnwrapOr(v', f));
    UnwrapRule(m, self, d, v, f);
  }

  lemma {:induction false} LetNeeded(m: Model, self: map<string, RTy>, g: Types, scope: Scope, d: RTypes, e: Expr, t: Ty)
    requires e.Let? && Setting(m, self, g, scope, d, e, t) && Typechecks(m, self, g, scope, d, e, t)
    ensures Clean(m, g, scope, e, false)
    decreases e, 0
  {
    hide Lower, RType, Check, Clean, Hygienic, EnvTyped, ModelOk, NoCapture, IsCopy, RustIdent, Bare, Binder;
    var it := LetPremises(m, self, g, scope, d, e, t);
    LetLowered(m, g, scope, e, t, it);
    LetClean(m, g, scope, e, it, false);
    var b := LetBinding(e.name, it);
    var g', scope' := g + [(e.name, it)], scope + [(e.name, b)];
    LetParts(m, self, d, RustIdent(e.name), Code(m, g, scope, e.init, it), Code(m, g', scope', e.body, t));
    Needed(m, self, g, scope, d, e.init, it);
    Preserved(m, self, g, scope, d, e.init, it, false);
    EnvTypedPush(self, g, scope, d, e.name, it, b, RustType(it).value);
    Needed(m, self, g', scope', d + [(Bare(RustIdent(e.name)), RustType(it).value)], e.body, t);
  }

  lemma LetParts(m: Model, self: map<string, RTy>, d: RTypes, x: string, init: RExpr, body: RExpr)
    requires RType(m, self, d, LetE(x, init, body)).Some?
    ensures RType(m, self, d, init).Some? && Binder(x)
    ensures RType(m, self, d + [(Bare(x), RType(m, self, d, init).value)], body).Some?
  {
    hide RType, Bare, Binder;
    LetRule(m, self, d, x, init, body);
  }

  // ----- the collection algebra and list literals -----

  lemma {:induction false} AlgebraNeeded(m: Model, self: map<string, RTy>, g: Types, scope: Scope, d: RTypes, e: Expr, t: Ty)
    requires e.Algebra? && Setting(m, self, g, scope, d, e, t) && Typechecks(m, self, g, scope, d, e, t)
    ensures Clean(m, g, scope, e, false)
    decreases e, 0
  {
    hide Lower, RType, Check, Clean, Hygienic, EnvTyped, ModelOk, NoCapture, IsCopy, RustIdent, Post, AlgebraCode,
      LambdaBinding, Bare, Binder;
    var elem, bt := AlgebraPremises(m, self, g, scope, d, e, t);
    AlgebraLowered(m, g, scope, e, t, elem);
    AlgebraClean(m, g, scope, e, elem, false);
    var list, body := Code(m, g, scope, e.list, TList(elem)), BodyCode(m, g, scope, e, elem);
    var out := AlgebraCode(e.kind, elem, e.lambda, list, body);
    SomeParts(m, self, d, out.value);
    ListPart(m, self, d, e.kind, elem, e.lambda, list, body);
    Needed(m, self, g, scope, d, e.list, TList(elem));
    Preserved(m, self, g, scope, d, e.list, TList(elem), false);
    ListIsNoCopy(elem);
    if e.lambda.Some? {
      BodyPart(m, self, d, e.kind, elem, e.lambda.value, list, body, bt.value, RustType(elem).value);
      LambdaNeeded(m, self, g, scope, d, e, elem, bt.value);
    }
  }

  lemma SomeParts(m: Model, self: map<string, RTy>, d: RTypes, r: RExpr)
    ensures RType(m, self, d, SomeE(r)).Some? ==> RType(m, self, d, r).Some?
  {
    SomeRule(m, self, d, r);
  }

  lemma ListPart(m: Model, self: map<string, RTy>, d: RTypes, kind: AlgebraKind, elem: Ty, lambda: Option<Lambda>, list: RExpr,
                 body: Result<RExpr, LowerError>)
    requires AlgebraCode(kind, elem, lambda, list, body).Ok?
    requires RType(m, self, d, AlgebraCode(kind, elem, lambda, list, body).value).Some?
    ensures !list.Deref? && RType(m, self, d, list).Some?
  {
    hide RType, IsCopy;
    match kind
    case Size =>
      PostNeedsPlain(m, self, d, list, l => LenAsI32(l));
      ConsumerParts(m, self, d, list, true);
    case Sum =>
      PostNeedsPlain(m, self, d, list, l => IterSum(l, elem.TLong?));
      ConsumerParts(m, self, d, list, elem.TLong?);
    case First =>
      if lambda.None? {
        PostNeedsPlain(m, self, d, list, l => FirstElem(l, IsCopy(elem)));
        ConsumerParts(m, self, d, list, IsCopy(elem));
      } else {
        PostNeedsPlain(m, self, d, list, l => IterFind(l, lambda.value.param, body.value, IsCopy(elem)));
        ChainParts(m, self, d, list, lambda.value.param, body.value, IsCopy(elem));
      }
    case Filter =>
      PostNeedsPlain(m, self, d, list, l => IterFilter(l, lambda.value.param, body.value, IsCopy(elem)));
      ChainParts(m, self, d, list, lambda.value.param, body.value, IsCopy(elem));
    case Map =>
      PostNeedsPlain(m, self, d, list, l => IterMap(l, lambda.value.param, body.value));
      ChainParts(m, self, d, list, lambda.value.param, body.value, IsCopy(elem));
    case Any =>
      PostNeedsPlain(m, self, d, list, l => IterAny(l, lambda.value.param, body.value));
      ChainParts(m, self, d, list, lambda.value.param, body.value, IsCopy(elem));
  }

  lemma ConsumerParts(m: Model, self: map<string, RTy>, d: RTypes, list: RExpr, flag: bool)
    ensures RType(m, self, d, LenAsI32(list)).Some? || RType(m, self, d, IterSum(list, flag)).Some? || RType(m, self, d, FirstElem(list, flag)).Some?
            ==> RType(m, self, d, list).Some?
  {
    hide RType;
    LenRule(m, self, d, list);
    SumRule(m, self, d, list, flag);
    FirstRule(m, self, d, list, flag);
  }

  lemma ChainParts(m: Model, self: map<string, RTy>, d: RTypes, list: RExpr, param: string, body: RExpr, copied: bool)
    ensures RType(m, self, d, IterFind(list, param, body, copied)).Some? || RType(m, self, d, IterFilter(list, param, body, copied)).Some?
            ==> RType(m, self, d, list).Some?
    ensures RType(m, self, d, IterMap(list, param, body)).Some? || RType(m, self, d, IterAny(list, param, body)).Some?
            ==> RType(m, self, d, list).Some?
  {
    hide RType, IsCopyR, Bare, Binder;
    FindRule(m, self, d, list, param, body, copied);
    FilterRule(m, self, d, list, param, body, copied);
    MapRule(m, self, d, list, param, body);
    AnyRule(m, self, d, list, param, body);
  }

  lemma BodyPart(m: Model, self: map<string, RTy>, d: RTypes, kind: AlgebraKind, elem: Ty, l: Lambda, list: RExpr,
                 body: Result<RExpr, LowerError>, bt: Ty, r: RTy)
    requires CheckAlgebra(kind, elem, true, Some(bt)).Some? && !list.Deref? && RType(m, self, d, list) == Some(RVec(r))
    requires AlgebraCode(kind, elem, Some(l), list, body).Ok?
    requires RType(m, self, d, AlgebraCode(kind, elem, Some(l), list, body).value).Some?
    ensures body.Ok? && Binder(l.param) && RType(m, self, d + [(Bare(l.param), Lent(kind, r))], body.value).Some?
  {
    hide IsCopy, RType, Bare, Binder;
    var b := body.value;
    match kind
    case First => IterParts(m, self, d, list, l.param, b, r, IsCopy(elem));
    case Filter => IterParts(m, self, d, list, l.param, b, r, IsCopy(elem));
    case Map => IterParts(m, self, d, list, l.param, b, r, IsCopy(elem));
    case Any => IterParts(m, self, d, list, l.param, b, r, IsCopy(elem));
  }

  lemma IterParts(m: Model, self: map<string, RTy>, d: RTypes, list: RExpr, param: string, body: RExpr, r: RTy, copied: bool)
    requires RType(m, self, d, list) == Some(RVec(r))
    ensures RType(m, self, d, IterFind(list, param, body, copied)).Some? || RType(m, self, d, IterFilter(list, param, body, copied)).Some?
            ==> Binder(param) && RType(m, self, d + [(Bare(param), RRef(RRef(r)))], body).Some?
    ensures RType(m, self, d, IterMap(list, param, body)).Some? || RType(m, self, d, IterAny(list, param, body)).Some?
            ==> Binder(param) && RType(m, self, d + [(Bare(param), RRef(r))], body).Some?
  {
    hide RType, IsCopyR, Bare, Binder;
    FindRule(m, self, d, list, param, body, copied);
    FilterRule(m, self, d, list, param, body, copied);
    MapRule(m, self, d, list, param, body);
    AnyRule(m, self, d, list, param, body);
  }

  lemma {:induction false} LambdaNeeded(m: Model, self: map<string, RTy>, g: Types, scope: Scope, d: RTypes, e: Expr, elem: Ty, bt: Ty)
    requires e.Algebra? && e.lambda.Some? && ModelOk(m) && EnvTyped(self, g, scope, d) && RustType(elem).Some?
    requires var l := e.lambda.value;
             var g', scope' := g + [(l.param, elem)], scope + [(l.param, LambdaBinding(e.kind, l.param, elem))];
             && TypeOf(m, g', l.body) == Some(bt)
             && NoCapture(scope, l.param) && Hygienic(m, g', scope', l.body)
    requires BodyCode(m, g, scope, e, elem).Ok?
    requires RType(m, self, d + [(Bare(e.lambda.value.param), Lent(e.kind, RustType(elem).value))], BodyCode(m, g, scope, e, elem).value).Some?
    ensures var l := e.lambda.value;
            Clean(m, g + [(l.param, elem)], scope + [(l.param, LambdaBinding(e.kind, l.param, elem))], l.body, false)
    decreases e, 0, 0
  {
    hide Lower, RType, Check, Clean, Hygienic, EnvTyped, ModelOk, NoCapture, IsCopy, RustIdent, Refs, Bare;
    var l := e.lambda.value;
    BareIdent(l.param);
    var b := LambdaBinding(e.kind, l.param, elem);
    var rt := Lent(e.kind, RustType(elem).value);
    RefsOnce(RustType(elem).value);
    EnvTypedPush(self, g, scope, d, l.param, elem, b, rt);
    BodyLowered(m, g, scope, e, elem, bt);
    Needed(m, self, g + [(l.param, elem)], scope + [(l.param, b)], d + [(Bare(l.param), rt)], l.body, bt);
  }

  lemma {:induction false} ListNeeded(m: Model, self: map<string, RTy>, g: Types, scope: Scope, d: RTypes, e: Expr, t: Ty)
    requires e.ListLiteral? && Setting(m, self, g, scope, d, e, t) && Typechecks(m, self, g, scope, d, e, t)
    ensures Clean(m, g, scope, e, false)
    decreases e, 0
  {
    hide Lower, LowerItems, RType, Check, Hygienic, EnvTyped, ModelOk;
    var et := ListPremises(m, self, g, scope, d, e, t);
    ListLowered(m, g, scope, e, t, et);
    var first, rest := Code(m, g, scope, e.items[0], et), LowerItems(m, g, scope, e.items[1..], et.TLong?).value;
    VecParts(m, self, d, [first] + rest);
    assert ([first] + rest)[0] == first;
    Needed(m, self, g, scope, d, e.items[0], et);
    assert forall i :: 0 <= i < |rest| ==> ([first] + rest)[i + 1] == rest[i];
    ItemsNeeded(m, self, g, scope, d, e, e.items[1..], et);
    assert forall i :: 1 <= i < |e.items| ==> e.items[i] == e.items[1..][i - 1];
  }

  lemma VecParts(m: Model, self: map<string, RTy>, d: RTypes, items: seq<RExpr>)
    requires RType(m, self, d, VecE(items)).Some?
    ensures forall i :: 0 <= i < |items| ==> RType(m, self, d, items[i]).Some?
  {
    if items != [] {
      hide RType;
      VecRule(m, self, d, items);
    }
  }

  lemma {:induction false} ItemsNeeded(m: Model, self: map<string, RTy>, g: Types, scope: Scope, d: RTypes, e: Expr, items: seq<Expr>, et: Ty)
    requires e.ListLiteral? && (forall x :: x in items ==> x in e.items)
    requires ModelOk(m) && EnvTyped(self, g, scope, d)
    requires forall i :: 0 <= i < |items| ==> Hygienic(m, g, scope, items[i])
    requires forall i :: 0 <= i < |items| ==> Check(m, g, items[i], et.TLong?) == Some(et)
    requires LowerItems(m, g, scope, items, et.TLong?).Ok?
    requires forall c :: c in LowerItems(m, g, scope, items, et.TLong?).value ==> RType(m, self, d, c).Some?
    ensures forall i :: 0 <= i < |items| ==> Clean(m, g, scope, items[i], false)
    decreases e, 0, |items|
  {
    hide Lower, LowerItems, RType, Clean, Hygienic, EnvTyped, ModelOk, Check;
    if items != [] {
      assert items[0] in e.items;
      OperandTypeAgrees(m, g, items[0], et);
      ItemsLowered(m, g, scope, items, et);
      var out := LowerItems(m, g, scope, items, et.TLong?).value;
      assert out[0] == Code(m, g, scope, items[0], et) && out[0] in out;
      Needed(m, self, g, scope, d, items[0], et);
      ItemsNeeded(m, self, g, scope, d, e, items[1..], et);
    }
  }
}

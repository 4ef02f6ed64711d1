/** The converse: lowered code that drops nothing fails exactly where its tree has no
    value, so code and tree agree on every outcome. */
module LoweringFailures {
  import opened Common
  import opened E = Expr
  import opened RustTarget
  import opened Lowering
  import opened LoweringTypes
  import opened LoweringRules
  import opened TypePreservation
  import opened EvalRules
  import opened LoweringCorrect

  /** Whatever is compared with `null` may be absent, so that its code is kept; and no
      size is taken, which would wrap where the source has no value. */
  predicate Kept(m: Model, g: Types, e: Expr)
    decreases e
  {
    match e
    case Unary(_, inner) => Kept(m, g, inner)
    case Binary(_, l, r) =>
      if AgainstNull?(e) then OptionTyped(m, g, Compared(e)) && Kept(m, g, Compared(e)) else Kept(m, g, l) && Kept(m, g, r)
    case FeatureAccess(recv, _, _) => Kept(m, g, recv)
    case Algebra(list, kind, lambda, _) =>
      && !kind.Size? && Kept(m, g, list)
      && (lambda.Some? && TypeOf(m, g, list).Some? && TypeOf(m, g, list).value.TList? ==>
            Kept(m, g + [(lambda.value.param, TypeOf(m, g, list).value.elem)], lambda.value.body))
    case Coalesce(v, f) => Kept(m, g, v) && Kept(m, g, f)
    case If(c, t, f) => Kept(m, g, c) && Kept(m, g, t) && Kept(m, g, f)
    case Let(x, init, body) =>
      Kept(m, g, init) && (TypeOf(m, g, init).Some? ==> Kept(m, g + [(x, TypeOf(m, g, init).value)], body))
    case ListLiteral(items) => forall i :: 0 <= i < |items| ==> Kept(m, g, items[i])
    case _ => true
  }

  /** What a run of `MeaningPreserved` needs, but for the value. */
  ghost predicate Placed(m: Model, h: Heap, st: map<string, RTy>, g: Types, env: seq<Value>, scope: Scope, dt: RTypes,
                         self: map<string, Value>, d: REnv, e: Expr, t: Ty) {
    && Setting(m, st, g, scope, dt, e, t) && Clean(m, g, scope, e, true)
    && HeapOk(m, h) && |env| == |g| && EnvValued(h, self, g, env, scope, d)
  }

  /** Code and tree have the same outcome: the same value, or none. */
  ghost predicate Alike(m: Model, h: Heap, g: Types, env: seq<Value>, scope: Scope, self: map<string, Value>, d: REnv, e: Expr, t: Ty)
    requires |env| == |g|
  {
    Lowers(m, g, scope, e, t) && REval(h, self, d, Code(m, g, scope, e, t)) == Eval(m, h, g, env, e, t)
  }

  /** A child of a tree without a value, run in place. */
  ghost predicate Stuck(m: Model, h: Heap, st: map<string, RTy>, g: Types, env: seq<Value>, scope: Scope, dt: RTypes,
                        self: map<string, Value>, d: REnv, e: Expr, t: Ty) {
    Placed(m, h, st, g, env, scope, dt, self, d, e, t) && Kept(m, g, e) && Eval(m, h, g, env, e, t).None?
  }

  lemma {:induction false} OutcomesAgree(m: Model, h: Heap, st: map<string, RTy>, g: Types, env: seq<Value>, scope: Scope, dt: RTypes,
                                         self: map<string, Value>, d: REnv, e: Expr, t: Ty)
    requires Placed(m, h, st, g, env, scope, dt, self, d, e, t) && Kept(m, g, e)
    ensures Alike(m, h, g, env, scope, self, d, e, t)
    decreases e, 2
  {
    hide Placed, Eval, Kept, Alike;
    assert |env| == |g| by { PlacedSizes(m, h, st, g, env, scope, dt, self, d, e, t); }
    if Eval(m, h, g, env, e, t).Some? {
      ValueAlike(m, h, st, g, env, scope, dt, self, d, e, t);
    } else {
      FailuresAgree(m, h, st, g, env, scope, dt, self, d, e, t);
    }
  }

  lemma PlacedSizes(m: Model, h: Heap, st: map<string, RTy>, g: Types, env: seq<Value>, scope: Scope, dt: RTypes,
                    self: map<string, Value>, d: REnv, e: Expr, t: Ty)
    requires Placed(m, h, st, g, env, scope, dt, self, d, e, t)
    ensures |env| == |g|
  {
    hide Setting, Clean, HeapOk, EnvValued;
  }

  lemma ValueAlike(m: Model, h: Heap, st: map<string, RTy>, g: Types, env: seq<Value>, scope: Scope, dt: RTypes,
                   self: map<string, Value>, d: REnv, e: Expr, t: Ty)
    requires Placed(m, h, st, g, env, scope, dt, self, d, e, t) && |env| == |g| && Eval(m, h, g, env, e, t).Some?
    ensures Alike(m, h, g, env, scope, self, d, e, t)
  {
    hide Setting, Clean, HeapOk, EnvValued, Eval, REval, HasType, Lower;
    MeaningPreserved(m, h, st, g, env, scope, dt, self, d, e, t);
  }

  lemma {:induction false} FailuresAgree(m: Model, h: Heap, st: map<string, RTy>, g: Types, env: seq<Value>, scope: Scope, dt: RTypes,
                                         self: map<string, Value>, d: REnv, e: Expr, t: Ty)
    requires Stuck(m, h, st, g, env, scope, dt, self, d, e, t)
    ensures Alike(m, h, g, env, scope, self, d, e, t)
    decreases e, 1
  {
    hide Placed, Kept, Eval, Alike;
    assert |env| == |g| by { PlacedSizes(m, h, st, g, env, scope, dt, self, d, e, t); }
    match e
    case Unary(_, _) => UnaryAlike(m, h, st, g, env, scope, dt, self, d, e, t);
    case Binary(_, _, _) => BinaryAlike(m, h, st, g, env, scope, dt, self, d, e, t);
    case FeatureAccess(_, _, _) => AccessAlike(m, h, st, g, env, scope, dt, self, d, e, t);
    case Algebra(_, _, _, _) => AlgebraAlike(m, h, st, g, env, scope, dt, self, d, e, t);
    case Coalesce(_, _) => CoalesceAlike(m, h, st, g, env, scope, dt, self, d, e, t);
    case If(_, _, _) => IfAlike(m, h, st, g, env, scope, dt, self, d, e, t);
    case Let(_, _, _) => LetAlike(m, h, st, g, env, scope, dt, self, d, e, t);
    case ListLiteral(_) => ListAlike(m, h, st, g, env, scope, dt, self, d, e, t);
    case _ => LeafAlike(m, h, st, g, env, scope, dt, self, d, e, t);
  }

  lemma LeafAlike(m: Model, h: Heap, st: map<string, RTy>, g: Types, env: seq<Value>, scope: Scope, dt: RTypes,
                  self: map<string, Value>, d: REnv, e: Expr, t: Ty)
    requires e.Int? || e.Str? || e.Boolean? || e.NullLit? || e.Name?
    requires Placed(m, h, st, g, env, scope, dt, self, d, e, t) && |env| == |g|
    ensures Alike(m, h, g, env, scope, self, d, e, t)
  {
    hide Placed, Eval, Alike;
    LeafHasValue(m, h, st, g, env, scope, dt, self, d, e, t);
    ValueAlike(m, h, st, g, env, scope, dt, self, d, e, t);
  }

  lemma LeafHasValue(m: Model, h: Heap, st: map<string, RTy>, g: Types, env: seq<Value>, scope: Scope, dt: RTypes,
                     self: map<string, Value>, d: REnv, e: Expr, t: Ty)
    requires e.Int? || e.Str? || e.Boolean? || e.NullLit? || e.Name?
    requires Placed(m, h, st, g, env, scope, dt, self, d, e, t) && |env| == |g|
    ensures Eval(m, h, g, env, e, t).Some?
  {
    hide ModelOk, EnvTyped, Hygienic, HeapOk, Misfit, HasType, NameValued;
    if e.Name? {
      assert NameHolds(h, self, g, env, scope, d, e.x);
      NotMisfit(m, g, scope, e, t);
    }
  }

  // ----- unary, conditional, `let`, `?:` -----

  lemma {:induction false} UnaryAlike(m: Model, h: Heap, st: map<string, RTy>, g: Types, env: seq<Value>, scope: Scope, dt: RTypes,
                                      self: map<string, Value>, d: REnv, e: Expr, t: Ty)
    requires e.Unary? && Stuck(m, h, st, g, env, scope, dt, self, d, e, t)
    ensures Alike(m, h, g, env, scope, self, d, e, t)
    decreases e, 0
  {
    hide Lower, Eval, REval, Check, Hygienic, EnvTyped, ModelOk, HeapOk, EnvValued;
    UnaryPremises(m, st, g, scope, dt, e, t);
    if e.inner.Int? {
      LiteralRange(m, g, e.inner);
    }
    EvalUnary(m, h, g, env, e, t, t);
    OutcomesAgree(m, h, st, g, env, scope, dt, self, d, e.inner, t);
    UnaryLowered(m, g, scope, e, t, t);
    RNot(h, self, d, Code(m, g, scope, e.inner, t));
    RNeg(h, self, d, Code(m, g, scope, e.inner, t));
  }

  lemma {:induction false} IfAlike(m: Model, h: Heap, st: map<string, RTy>, g: Types, env: seq<Value>, scope: Scope, dt: RTypes,
                                   self: map<string, Value>, d: REnv, e: Expr, t: Ty)
    requires e.If? && Stuck(m, h, st, g, env, scope, dt, self, d, e, t)
    ensures Alike(m, h, g, env, scope, self, d, e, t)
    decreases e, 0
  {
    hide Lower, Eval, REval, Check, Hygienic, EnvTyped, ModelOk, HeapOk, EnvValued;
    IfPremises(m, st, g, scope, dt, e, t);
    EvalIf(m, h, g, env, e, t);
    OutcomesAgree(m, h, st, g, env, scope, dt, self, d, e.cond, TBool);
    OutcomesAgree(m, h, st, g, env, scope, dt, self, d, e.then_, t);
    OutcomesAgree(m, h, st, g, env, scope, dt, self, d, e.else_, t);
    IfLowered(m, g, scope, e, t);
    RIf(h, self, d, Code(m, g, scope, e.cond, TBool), Code(m, g, scope, e.then_, t), Code(m, g, scope, e.else_, t));
  }

  lemma {:induction false} LetAlike(m: Model, h: Heap, st: map<string, RTy>, g: Types, env: seq<Value>, scope: Scope, dt: RTypes,
                                    self: map<string, Value>, d: REnv, e: Expr, t: Ty)
    requires e.Let? && Stuck(m, h, st, g, env, scope, dt, self, d, e, t)
    ensures Alike(m, h, g, env, scope, self, d, e, t)
    decreases e, 0
  {
    hide Lower, RType, Eval, REval, Check, Clean, Hygienic, EnvTyped, ModelOk, HeapOk, EnvValued, HasType, NoCapture,
      IsCopy, RustIdent, Bare, Binder;
    var it := LetPremises(m, st, g, scope, dt, e, t);
    LetClean(m, g, scope, e, it, true);
    EvalLet(m, h, g, env, e, t, it);
    OutcomesAgree(m, h, st, g, env, scope, dt, self, d, e.init, it);
    Preserved(m, st, g, scope, dt, e.init, it, true);
    var b := LetBinding(e.name, it);
    var x := RustIdent(e.name);
    var g', scope', dt' := g + [(e.name, it)], scope + [(e.name, b)], dt + [(Bare(x), RustType(it).value)];
    LetLowered(m, g, scope, e, t, it);
    EnvTypedPush(st, g, scope, dt, e.name, it, b, RustType(it).value);
    Preserved(m, st, g', scope', dt', e.body, t, true);
    RLet(h, self, d, x, Code(m, g, scope, e.init, it), Code(m, g', scope', e.body, t));
    if Eval(m, h, g, env, e.init, it).Some? {
      MeaningPreserved(m, h, st, g, env, scope, dt, self, d, e.init, it);
      var v := Eval(m, h, g, env, e.init, it).value;
      EnvBound(h, self, g, env, scope, d, e.name, it, v, b);
      OutcomesAgree(m, h, st, g', env + [v], scope', dt', self, d + [(Bare(x), v)], e.body, t);
    }
  }

  lemma {:induction false} CoalesceAlike(m: Model, h: Heap, st: map<string, RTy>, g: Types, env: seq<Value>, scope: Scope, dt: RTypes,
                                         self: map<string, Value>, d: REnv, e: Expr, t: Ty)
    requires e.Coalesce? && Stuck(m, h, st, g, env, scope, dt, self, d, e, t)
    ensures Alike(m, h, g, env, scope, self, d, e, t)
    decreases e, 0, 1
  {
    hide Lower, RType, Eval, REval, Check, Clean, Setting, HeapOk, EnvValued, DerefCode, SizeCode, Post, OperandTy, OperandType, IsCopy;
    var vt, ft := CoalescePremises(m, st, g, scope, dt, e, t);
    CoalesceClean(m, g, scope, e, vt, true);
    if vt.TNull? {
      EvalCoalesce(m, h, g, env, e, t, vt, ft);
      CoalesceLowered(m, g, scope, e, t, vt, ft);
      OutcomesAgree(m, h, st, g, env, scope, dt, self, d, e.fallback, t);
    } else {
      DefaultType(m, g, e.fallback, t, ft);
      DefaultAlike(m, h, st, g, env, scope, dt, self, d, e, t);
    }
  }

  lemma {:induction false} DefaultAlike(m: Model, h: Heap, st: map<string, RTy>, g: Types, env: seq<Value>, scope: Scope, dt: RTypes,
                                        self: map<string, Value>, d: REnv, e: Expr, t: Ty)
    requires e.Coalesce? && Stuck(m, h, st, g, env, scope, dt, self, d, e, t)
    requires TypeOf(m, g, e.value) == Some(TOption(t)) && OperandTy(m, g, e.fallback, t.TLong?) == Some(t)
    requires Setting(m, st, g, scope, dt, e.value, TOption(t)) && Clean(m, g, scope, e.value, true) && !DerefCode(m, g, scope, e.value)
    requires Setting(m, st, g, scope, dt, e.fallback, t) && Clean(m, g, scope, e.fallback, true)
    ensures Alike(m, h, g, env, scope, self, d, e, t)
    decreases e, 0, 0
  {
    hide Lower, RType, Eval, REval, Check, Clean, Setting, HeapOk, EnvValued, DerefCode, SizeCode, Post, OperandTy, OperandType, IsCopy;
    OperandTypes(m, g, e.fallback, t);
    EvalCoalesce(m, h, g, env, e, t, TOption(t), t);
    CoalesceLowered(m, g, scope, e, t, TOption(t), t);
    OutcomesAgree(m, h, st, g, env, scope, dt, self, d, e.fallback, t);
    OutcomesAgree(m, h, st, g, env, scope, dt, self, d, e.value, TOption(t));
    Preserved(m, st, g, scope, dt, e.value, TOption(t), true);
    UnwrapEval(h, self, d, Code(m, g, scope, e.value, TOption(t)), Code(m, g, scope, e.fallback, t));
  }

  // ----- binary operators -----

  lemma {:induction false} BinaryAlike(m: Model, h: Heap, st: map<string, RTy>, g: Types, env: seq<Value>, scope: Scope, dt: RTypes,
                                       self: map<string, Value>, d: REnv, e: Expr, t: Ty)
    requires e.Binary? && Stuck(m, h, st, g, env, scope, dt, self, d, e, t)
    ensures Alike(m, h, g, env, scope, self, d, e, t)
    decreases e, 0, 1
  {
    hide Placed, Kept, Eval, Alike;
    assert |env| == |g| by { PlacedSizes(m, h, st, g, env, scope, dt, self, d, e, t); }
    if BothNull?(e) {
      NullsAlike(m, h, st, g, env, scope, dt, self, d, e, t);
    } else if AgainstNull?(e) {
      AgainstNullAlike(m, h, st, g, env, scope, dt, self, d, e, t);
    } else if Equality?(e) {
      EqualityAlike(m, h, st, g, env, scope, dt, self, d, e, t);
    } else {
      OperatorAlike(m, h, st, g, env, scope, dt, self, d, e, t);
    }
  }

  lemma NullsAlike(m: Model, h: Heap, st: map<string, RTy>, g: Types, env: seq<Value>, scope: Scope, dt: RTypes,
                   self: map<string, Value>, d: REnv, e: Expr, t: Ty)
    requires BothNull?(e) && Placed(m, h, st, g, env, scope, dt, self, d, e, t) && |env| == |g|
    ensures Alike(m, h, g, env, scope, self, d, e, t)
  {
    hide Placed, Eval, Alike;
    NullsHaveValue(m, h, g, env, e, t);
    ValueAlike(m, h, st, g, env, scope, dt, self, d, e, t);
  }

  lemma NullsHaveValue(m: Model, h: Heap, g: Types, env: seq<Value>, e: Expr, t: Ty)
    requires |env| == |g| && BothNull?(e)
    ensures Eval(m, h, g, env, e, t).Some?
  {}

  lemma {:induction false} AgainstNullAlike(m: Model, h: Heap, st: map<string, RTy>, g: Types, env: seq<Value>, scope: Scope, dt: RTypes,
                                            self: map<string, Value>, d: REnv, e: Expr, t: Ty)
    requires AgainstNull?(e) && Stuck(m, h, st, g, env, scope, dt, self, d, e, t)
    ensures Alike(m, h, g, env, scope, self, d, e, t)
    decreases e, 0, 0
  {
    hide Lower, RType, Eval, REval, Check, Clean, Setting, HeapOk, EnvValued, HasType, DerefCode;
    var ct := AgainstNullPremises(m, st, g, scope, dt, e, t);
    AgainstNullClean(m, g, scope, e, ct, true);
    EvalAgainstNull(m, h, g, env, e, t, Compared(e), ct);
    OutcomesAgree(m, h, st, g, env, scope, dt, self, d, Compared(e), ct);
    Preserved(m, st, g, scope, dt, Compared(e), ct, true);
    AgainstNullLowered(m, g, scope, e, t, ct);
    var code := Code(m, g, scope, Compared(e), ct);
    assert Post(code, c => IsNone(c)) == IsNone(code);
    RIsNone(h, self, d, code);
    RNot(h, self, d, IsNone(code));
  }

  lemma {:induction false} EqualityAlike(m: Model, h: Heap, st: map<string, RTy>, g: Types, env: seq<Value>, scope: Scope, dt: RTypes,
                                         self: map<string, Value>, d: REnv, e: Expr, t: Ty)
    requires Equality?(e) && Stuck(m, h, st, g, env, scope, dt, self, d, e, t)
    ensures Alike(m, h, g, env, scope, self, d, e, t)
    decreases e, 0, 0
  {
    hide Lower, RType, Eval, REval, Check, Clean, Setting, HeapOk, EnvValued, StripLiteral, HasType, OperandTy, OperandType;
    var lt, rt := EqualityPremises(m, st, g, scope, dt, e, t);
    EqualityClean(m, g, scope, e, true);
    OperandUnchanged(m, g, e.lhs, rt, lt);
    OperandUnchanged(m, g, e.rhs, lt, rt);
    OperandTypes(m, g, e.lhs, rt);
    OperandTypes(m, g, e.rhs, lt);
    EvalBinary(m, h, g, env, e, t, lt, rt);
    OutcomesAgree(m, h, st, g, env, scope, dt, self, d, e.lhs, lt);
    OutcomesAgree(m, h, st, g, env, scope, dt, self, d, e.rhs, rt);
    EqualityLowered(m, g, scope, e, t, lt, rt);
    var l, r := Code(m, g, scope, e.lhs, lt), Code(m, g, scope, e.rhs, rt);
    StripAlike(m, h, g, env, self, d, e.lhs, lt, l);
    StripAlike(m, h, g, env, self, d, e.rhs, rt, r);
    RBin(h, self, d, e.op, StripLiteral(e.lhs, l), StripLiteral(e.rhs, r));
  }

  lemma StripAlike(m: Model, h: Heap, g: Types, env: seq<Value>, self: map<string, Value>, d: REnv, e: Expr, t: Ty, code: RExpr)
    requires |env| == |g| && REval(h, self, d, code) == Eval(m, h, g, env, e, t)
    ensures REval(h, self, d, StripLiteral(e, code)) == Eval(m, h, g, env, e, t)
  {}

  lemma {:induction false} OperatorAlike(m: Model, h: Heap, st: map<string, RTy>, g: Types, env: seq<Value>, scope: Scope, dt: RTypes,
                                         self: map<string, Value>, d: REnv, e: Expr, t: Ty)
    requires Operator?(e) && Stuck(m, h, st, g, env, scope, dt, self, d, e, t)
    ensures Alike(m, h, g, env, scope, self, d, e, t)
    decreases e, 0, 0
  {
    hide Lower, RType, Eval, REval, Check, Clean, Setting, HeapOk, EnvValued, HasType, OperandTy, OperandType,
      CheckBinary, ConcatCode, ApplyBinary, RustBin;
    var lt, rt := OperatorPremises(m, st, g, scope, dt, e, t);
    OperatorClean(m, g, scope, e, lt, true);
    OperandsMeet(m, g, e, lt, rt, t);
    LeftOperand(m, g, e, lt, rt, t);
    OperandTypes(m, g, e.rhs, lt);
    EvalBinary(m, h, g, env, e, t, lt, rt);
    OperandOutcome(m, h, st, g, env, scope, dt, self, d, e.lhs, lt);
    OperandOutcome(m, h, st, g, env, scope, dt, self, d, e.rhs, rt);
    OperatorLowered(m, g, scope, e, t, lt, rt);
    var l, r := Code(m, g, scope, e.lhs, lt), Code(m, g, scope, e.rhs, rt);
    var a, b := Eval(m, h, g, env, e.lhs, lt), Eval(m, h, g, env, e.rhs, rt);
    RBin(h, self, d, e.op, l, r);
    if Concatenates(e.op, lt, rt) {
      ConcatFails(h, self, d, e, lt, rt, t, l, r, a, b);
    } else if a.Some? && b.Some? {
      OperatorFails(h, e, lt, rt, t, a.value, b.value);
    }
  }

  lemma {:induction false} OperandOutcome(m: Model, h: Heap, st: map<string, RTy>, g: Types, env: seq<Value>, scope: Scope, dt: RTypes,
                                          self: map<string, Value>, d: REnv, e: Expr, t: Ty)
    requires Placed(m, h, st, g, env, scope, dt, self, d, e, t) && Kept(m, g, e)
    ensures Alike(m, h, g, env, scope, self, d, e, t)
    ensures Code(m, g, scope, e, t).Deref? ==> IsCopy(t)
    ensures var v := Eval(m, h, g, env, e, t); v.Some? ==> HasType(h, v.value, t)
    decreases e, 3
  {
    hide Placed, Lower, Eval, REval, Kept, HasType;
    OutcomesAgree(m, h, st, g, env, scope, dt, self, d, e, t);
    PlacedCode(m, h, st, g, env, scope, dt, self, d, e, t);
    if Eval(m, h, g, env, e, t).Some? {
      ValueTyped(m, h, st, g, env, scope, dt, self, d, e, t);
    }
  }

  lemma PlacedCode(m: Model, h: Heap, st: map<string, RTy>, g: Types, env: seq<Value>, scope: Scope, dt: RTypes,
                   self: map<string, Value>, d: REnv, e: Expr, t: Ty)
    requires Placed(m, h, st, g, env, scope, dt, self, d, e, t)
    ensures |env| == |g| && Lowers(m, g, scope, e, t) && (Code(m, g, scope, e, t).Deref? ==> IsCopy(t))
  {
    hide Lower, RType, Clean, Setting, HeapOk, EnvValued, IsCopy, DerefCode, SizeCode;
    Preserved(m, st, g, scope, dt, e, t, true);
  }

  lemma ValueTyped(m: Model, h: Heap, st: map<string, RTy>, g: Types, env: seq<Value>, scope: Scope, dt: RTypes,
                   self: map<string, Value>, d: REnv, e: Expr, t: Ty)
    requires Placed(m, h, st, g, env, scope, dt, self, d, e, t) && |env| == |g| && Eval(m, h, g, env, e, t).Some?
    ensures HasType(h, Eval(m, h, g, env, e, t).value, t)
  {
    hide Setting, Clean, HeapOk, EnvValued, Eval, REval, HasType, Lower;
    MeaningPreserved(m, h, st, g, env, scope, dt, self, d, e, t);
  }

  lemma ConcatFails(h: Heap, self: map<string, Value>, d: REnv, e: Expr, lt: Ty, rt: Ty, t: Ty, l: RExpr, r: RExpr,
                    a: Option<Value>, b: Option<Value>)
    requires Operator?(e) && CheckBinary(e.op, e.lhs, e.rhs, lt, rt) == Some(t) && Concatenates(e.op, lt, rt) && (l.Deref? ==> IsCopy(lt))
    requires REval(h, self, d, l) == a && REval(h, self, d, r) == b
    requires (a.Some? ==> HasType(h, a.value, lt)) && (b.Some? ==> HasType(h, b.value, rt))
    requires a.Some? && b.Some? ==> ApplyBinary(e.op, a.value, b.value).None?
    ensures REval(h, self, d, ConcatCode(lt, rt, l, r)).None?
  {
    hide REval, ConcatCode;
    if a.Some? && b.Some? {
      ConcatEval(h, self, d, lt, rt, l, r, a.value, b.value);
    } else {
      ConcatShape(lt, rt, l, r);
      RFormat(h, self, d, l, r);
      RSome(h, self, d, l);
      RSome(h, self, d, r);
      RZipParts(h, self, d, l, r);
      RZipParts(h, self, d, l, SomeE(r));
      RZipParts(h, self, d, SomeE(l), r);
    }
  }

  /** Where the source operator has no answer, the Rust one has none. */
  lemma OperatorFails(h: Heap, e: Expr, lt: Ty, rt: Ty, t: Ty, a: Value, b: Value)
    requires Operator?(e) && CheckBinary(e.op, e.lhs, e.rhs, lt, rt) == Some(t) && !Concatenates(e.op, lt, rt)
    requires HasType(h, a, lt) && HasType(h, b, rt) && ApplyBinary(e.op, a, b).None?
    ensures RustBin(e.op, a, b).None?
  {}

  // ----- navigation -----

  lemma {:induction false} AccessAlike(m: Model, h: Heap, st: map<string, RTy>, g: Types, env: seq<Value>, scope: Scope, dt: RTypes,
                                       self: map<string, Value>, d: REnv, e: Expr, t: Ty)
    requires e.FeatureAccess? && Stuck(m, h, st, g, env, scope, dt, self, d, e, t)
    ensures Alike(m, h, g, env, scope, self, d, e, t)
    decreases e, 0
  {
    hide Lower, RType, Eval, REval, Check, Clean, Hygienic, EnvTyped, HeapOk, HasType, DerefCode, AccessCode, Access, RequiredReference;
    var rt, cls := AccessPremises(m, st, g, scope, dt, e, t);
    AccessClean(m, g, scope, e, rt, true);
    EvalAccess(m, h, g, env, e, t, rt);
    OutcomesAgree(m, h, st, g, env, scope, dt, self, d, e.receiver, rt);
    Preserved(m, st, g, scope, dt, e.receiver, rt, true);
    AccessLowered(m, g, scope, e, t, rt, cls);
    var code := Code(m, g, scope, e.receiver, rt);
    if Eval(m, h, g, env, e.receiver, rt).Some? {
      MeaningPreserved(m, h, st, g, env, scope, dt, self, d, e.receiver, rt);
      AccessEval(m, h, self, d, cls, e.feature, rt, e.safe, code, Eval(m, h, g, env, e.receiver, rt).value);
    } else {
      AccessFails(h, self, d, cls, e.feature, m[(cls, e.feature)], code, rt.TOption?, e.safe);
    }
  }

  lemma AccessFails(h: Heap, self: map<string, Value>, d: REnv, cls: string, feature: string, decl: FeatureDecl, recv: RExpr,
                    recvOption: bool, safe: bool)
    requires REval(h, self, d, recv).None? && (recvOption ==> !recv.Deref?)
    ensures REval(h, self, d, AccessCode(cls, feature, decl, recv, recvOption, safe)).None?
  {
    AccessShape(cls, feature, decl, recv, recvOption, safe);
    var (cloned, option) := FieldShape(decl);
    NoReceiver(h, self, d, cls, recv, feature, cloned, option);
    hide REval, AccessCode, FieldShape;
    RLookup(h, self, d, cls, recv, feature, cloned);
    RSome(h, self, d, LookupField(cls, recv, feature, cloned));
  }

  lemma NoReceiver(h: Heap, self: map<string, Value>, d: REnv, cls: string, recv: RExpr, feature: string, cloned: bool, flatten: bool)
    requires REval(h, self, d, recv).None?
    ensures REval(h, self, d, AndThenField(cls, recv, feature, cloned, flatten)).None?
  {}

  // ----- list literals -----

  lemma {:induction false} ListAlike(m: Model, h: Heap, st: map<string, RTy>, g: Types, env: seq<Value>, scope: Scope, dt: RTypes,
                                     self: map<string, Value>, d: REnv, e: Expr, t: Ty)
    requires e.ListLiteral? && Stuck(m, h, st, g, env, scope, dt, self, d, e, t)
    ensures Alike(m, h, g, env, scope, self, d, e, t)
    decreases e, 0, |e.items|
  {
    hide Lower, LowerItems, RType, Eval, EvalItems, REval, REvalItems, Check, Hygienic, EnvTyped, ModelOk, HeapOk, EnvValued;
    var et := ListPremises(m, st, g, scope, dt, e, t);
    EvalList(m, h, g, env, e, et);
    var items := e.items;
    OutcomesAgree(m, h, st, g, env, scope, dt, self, d, items[0], et);
    ItemsAlike(m, h, st, g, env, scope, dt, self, d, e, items[1..], et);
    ListLowered(m, g, scope, e, t, et);
    var codes := [Code(m, g, scope, items[0], et)] + LowerItems(m, g, scope, items[1..], et.TLong?).value;
    assert codes[1..] == LowerItems(m, g, scope, items[1..], et.TLong?).value;
    ItemsStep(m, h, g, env, items, et);
    RItems(h, self, d, codes);
    RVecItems(h, self, d, codes);
  }

  lemma ItemsStep(m: Model, h: Heap, g: Types, env: seq<Value>, items: seq<Expr>, et: Ty)
    requires |env| == |g| && items != []
    ensures var v, vs := Eval(m, h, g, env, items[0], et), EvalItems(m, h, g, env, items[1..], et);
            EvalItems(m, h, g, env, items, et) == if v.Some? && vs.Some? then Some([v.value] + vs.value) else None
  {
    hide Eval;
  }

  lemma {:induction false} ItemsAlike(m: Model, h: Heap, st: map<string, RTy>, g: Types, env: seq<Value>, scope: Scope, dt: RTypes,
                                      self: map<string, Value>, d: REnv, e: Expr, items: seq<Expr>, et: Ty)
    requires e.ListLiteral? && (forall x :: x in items ==> x in e.items)
    requires ModelOk(m) && EnvTyped(st, g, scope, dt) && HeapOk(m, h) && |env| == |g| && EnvValued(h, self, g, env, scope, d)
    requires forall i :: 0 <= i < |items| ==> Hygienic(m, g, scope, items[i]) && Clean(m, g, scope, items[i], true) && Kept(m, g, items[i])
    requires forall i :: 0 <= i < |items| ==> Check(m, g, items[i], et.TLong?) == Some(et)
    ensures var codes := LowerItems(m, g, scope, items, et.TLong?);
            codes.Ok? && REvalItems(h, self, d, codes.value) == EvalItems(m, h, g, env, items, et)
    decreases e, 0, |items|
  {
    hide Lower, LowerItems, RType, Eval, EvalItems, REval, REvalItems, Check, Clean, Kept, Hygienic, EnvTyped, ModelOk, HeapOk, HasType;
    if items == [] {
      NoItems(m, h, g, env, scope, self, d, et);
    } else {
      assert items[0] in e.items;
      OperandTypeAgrees(m, g, items[0], et);
      OutcomesAgree(m, h, st, g, env, scope, dt, self, d, items[0], et);
      ItemsAlike(m, h, st, g, env, scope, dt, self, d, e, items[1..], et);
      ItemsLowered(m, g, scope, items, et);
      var codes := LowerItems(m, g, scope, items, et.TLong?).value;
      assert codes[1..] == LowerItems(m, g, scope, items[1..], et.TLong?).value;
      ItemsStep(m, h, g, env, items, et);
      RItems(h, self, d, codes);
    }
  }

  // ----- the collection algebra -----

  lemma {:induction false} AlgebraAlike(m: Model, h: Heap, st: map<string, RTy>, g: Types, env: seq<Value>, scope: Scope, dt: RTypes,
                                        self: map<string, Value>, d: REnv, e: Expr, t: Ty)
    requires e.Algebra? && Stuck(m, h, st, g, env, scope, dt, self, d, e, t)
    ensures Alike(m, h, g, env, scope, self, d, e, t)
    decreases e, 0, 2
  {
    hide Lower, RType, Eval, EvalCall, REval, Check, Clean, Setting, HeapOk, EnvValued, NoCapture, IsCopy, RustIdent,
      Post, AlgebraCode, CheckAlgebra, LambdaBinding, HasType, BodyCode, SizeCode, DerefCode;
    var elem, bt := AlgebraPremises(m, st, g, scope, dt, e, t);
    AlgebraClean(m, g, scope, e, elem, true);
    EvalAlgebra(m, h, g, env, e, t, elem);
    AlgebraLowered(m, g, scope, e, t, elem);
    Preserved(m, st, g, scope, dt, e, t, true);
    Preserved(m, st, g, scope, dt, e.list, TList(elem), true);
    ListIsNoCopy(elem);
    OutcomesAgree(m, h, st, g, env, scope, dt, self, d, e.list, TList(elem));
    var list, body := Code(m, g, scope, e.list, TList(elem)), BodyCode(m, g, scope, e, elem);
    var out := AlgebraCode(e.kind, elem, e.lambda, list, body).value;
    RSome(h, self, d, out);
    if Eval(m, h, g, env, e.list, TList(elem)).None? {
      NoList(h, self, d, e.kind, elem, e.lambda, list, body);
    } else {
      MeaningPreserved(m, h, st, g, env, scope, dt, self, d, e.list, TList(elem));
      ListValue(h, Eval(m, h, g, env, e.list, TList(elem)).value, elem);
      CallAlike(m, h, st, g, env, scope, dt, self, d, e, t, elem, bt, Eval(m, h, g, env, e.list, TList(elem)).value.vs);
    }
  }

  /** A call on a list without a value has none. */
  lemma NoList(h: Heap, self: map<string, Value>, d: REnv, kind: AlgebraKind, elem: Ty, lambda: Option<Lambda>, list: RExpr,
               body: Result<RExpr, LowerError>)
    requires REval(h, self, d, list).None? && !list.Deref? && AlgebraCode(kind, elem, lambda, list, body).Ok?
    ensures REval(h, self, d, AlgebraCode(kind, elem, lambda, list, body).value).None?
  {
    hide REval, IsCopy;
    NoConsumer(h, self, d, list, elem.TLong?);
    NoConsumer(h, self, d, list, IsCopy(elem));
    if lambda.Some? && body.Ok? {
      NoChainTwice(h, self, d, list, lambda.value.param, body.value, IsCopy(elem));
      NoChainOnce(h, self, d, list, lambda.value.param, body.value);
    }
  }

  lemma NoConsumer(h: Heap, self: map<string, Value>, d: REnv, list: RExpr, flag: bool)
    requires REval(h, self, d, list).None?
    ensures REval(h, self, d, LenAsI32(list)).None? && REval(h, self, d, IterSum(list, flag)).None?
    ensures REval(h, self, d, FirstElem(list, flag)).None?
  {
    hide Bare, Lookup, ReadField, RustBin, Negate, SumFrom, Wrap32, REvalItems, REvalFind, REvalFilter, REvalMap,
      REvalAny, CloneValue, DerefValue, NotValue, NegValue, BinValue, IsNoneValue, UnwrapValue, SomeValue, FormatValue,
      ZipValue, FieldValue, ThroughValue;
  }

  lemma NoChainTwice(h: Heap, self: map<string, Value>, d: REnv, list: RExpr, param: string, body: RExpr, copied: bool)
    requires REval(h, self, d, list).None?
    ensures REval(h, self, d, IterFind(list, param, body, copied)).None? && REval(h, self, d, IterFilter(list, param, body, copied)).None?
  {
    hide Bare, Lookup, ReadField, RustBin, Negate, SumFrom, Wrap32, REvalItems, REvalFind, REvalFilter, REvalMap,
      REvalAny, CloneValue, DerefValue, NotValue, NegValue, BinValue, IsNoneValue, UnwrapValue, SomeValue, FormatValue,
      ZipValue, FieldValue, ThroughValue, FirstValue, LenValue, SumValue;
  }

  lemma NoChainOnce(h: Heap, self: map<string, Value>, d: REnv, list: RExpr, param: string, body: RExpr)
    requires REval(h, self, d, list).None?
    ensures REval(h, self, d, IterMap(list, param, body)).None? && REval(h, self, d, IterAny(list, param, body)).None?
  {
    hide Bare, Lookup, ReadField, RustBin, Negate, SumFrom, Wrap32, REvalItems, REvalFind, REvalFilter, REvalMap,
      REvalAny, CloneValue, DerefValue, NotValue, NegValue, BinValue, IsNoneValue, UnwrapValue, SomeValue, FormatValue,
      ZipValue, FieldValue, ThroughValue, FirstValue, LenValue, SumValue;
  }

  lemma {:induction false} CallAlike(m: Model, h: Heap, st: map<string, RTy>, g: Types, env: seq<Value>, scope: Scope, dt: RTypes,
                                     self: map<string, Value>, d: REnv, e: Expr, t: Ty, elem: Ty, bt: Option<Ty>, vs: seq<Value>)
    requires e.Algebra? && Placed(m, h, st, g, env, scope, dt, self, d, e, t) && Kept(m, g, e) && TypeOf(m, g, e.list) == Some(TList(elem))
    requires RustType(elem).Some? && forall i :: 0 <= i < |vs| ==> HasType(h, vs[i], elem)
    requires Lowers(m, g, scope, e.list, TList(elem)) && !Code(m, g, scope, e.list, TList(elem)).Deref?
    requires REval(h, self, d, Code(m, g, scope, e.list, TList(elem))) == Some(Seq(vs))
    requires CheckAlgebra(e.kind, elem, e.lambda.Some?, bt).Some? && (e.lambda.None? ==> bt.None?)
    requires e.lambda.Some? ==>
               var l := e.lambda.value;
               var g' := g + [(l.param, elem)];
               && bt.Some? && TypeOf(m, g', l.body) == bt
               && NoCapture(scope, l.param)
               && Hygienic(m, g', scope + [(l.param, LambdaBinding(e.kind, l.param, elem))], l.body)
    ensures var out := AlgebraCode(e.kind, elem, e.lambda, Code(m, g, scope, e.list, TList(elem)), BodyCode(m, g, scope, e, elem));
            out.Ok? && REval(h, self, d, out.value) == EvalCall(m, h, g, env, e, elem, vs)
    decreases e, 0, 1
  {
    hide Lower, RType, Eval, EvalCall, REval, Check, Clean, Hygienic, EnvTyped, ModelOk, HeapOk, EnvValued, NoCapture,
      IsCopy, RustIdent, Post, AlgebraCode, CheckAlgebra, LambdaBinding, HasType, BodyAlike, BodyCode;
    var list, body := Code(m, g, scope, e.list, TList(elem)), BodyCode(m, g, scope, e, elem);
    if e.lambda.None? {
      PlainAlike(m, h, g, env, self, d, e, elem, list, body, vs);
    } else {
      AlgebraClean(m, g, scope, e, elem, true);
      LambdaAlike(m, h, st, g, env, scope, dt, self, d, e, elem, bt.value, vs);
      ChainAlike(m, h, g, env, self, d, e, elem, list, body.value, bt.value, vs);
    }
  }

  lemma PlainAlike(m: Model, h: Heap, g: Types, env: seq<Value>, self: map<string, Value>, d: REnv, e: Expr, elem: Ty, list: RExpr,
                   body: Result<RExpr, LowerError>, vs: seq<Value>)
    requires |env| == |g| && e.Algebra? && e.lambda.None? && !e.kind.Size? && CheckAlgebra(e.kind, elem, false, None).Some?
    requires REval(h, self, d, list) == Some(Seq(vs)) && !list.Deref?
    ensures AlgebraCode(e.kind, elem, e.lambda, list, body).Ok?
    ensures REval(h, self, d, AlgebraCode(e.kind, elem, e.lambda, list, body).value) == EvalCall(m, h, g, env, e, elem, vs)
  {
    hide REval, IsCopy;
    match e.kind
    case Sum => RSum(h, self, d, list, vs, elem.TLong?);
    case First => RFirst(h, self, d, list, vs, IsCopy(elem));
  }

  /** The body and its code have the same outcome on every element. */
  ghost predicate BodyAlike(m: Model, h: Heap, g: Types, env: seq<Value>, self: map<string, Value>, d: REnv, kind: AlgebraKind, elem: Ty,
                            l: Lambda, body: RExpr, vs: seq<Value>)
    requires |env| == |g|
  {
    forall v :: v in vs ==>
      REval(h, self, d + [(Bare(l.param), LentValue(kind, v))], body) == EvalBody(m, h, g, env, elem, l.param, l.body, v)
  }

  lemma {:induction false} LambdaAlike(m: Model, h: Heap, st: map<string, RTy>, g: Types, env: seq<Value>, scope: Scope, dt: RTypes,
                                       self: map<string, Value>, d: REnv, e: Expr, elem: Ty, bt: Ty, vs: seq<Value>)
    requires e.Algebra? && e.lambda.Some? && ModelOk(m) && EnvTyped(st, g, scope, dt) && RustType(elem).Some?
    requires HeapOk(m, h) && |env| == |g| && EnvValued(h, self, g, env, scope, d)
    requires forall i :: 0 <= i < |vs| ==> HasType(h, vs[i], elem)
    requires var l := e.lambda.value;
             var g', scope' := g + [(l.param, elem)], scope + [(l.param, LambdaBinding(e.kind, l.param, elem))];
             && TypeOf(m, g', l.body) == Some(bt)
             && NoCapture(scope, l.param)
             && Hygienic(m, g', scope', l.body) && Clean(m, g', scope', l.body, true) && Kept(m, g', l.body)
    ensures BodyCode(m, g, scope, e, elem).Ok?
    ensures BodyAlike(m, h, g, env, self, d, e.kind, elem, e.lambda.value, BodyCode(m, g, scope, e, elem).value, vs)
    decreases e, 0, 0
  {
    hide Lower, RType, Eval, REval, Check, Clean, Kept, Hygienic, EnvTyped, ModelOk, HeapOk, EnvValued, NoCapture,
      IsCopy, RustIdent, Bare, Refs, Lend, HasType, EvalBody;
    var l := e.lambda.value;
    BareIdent(l.param);
    var b := LambdaBinding(e.kind, l.param, elem);
    var g', scope' := g + [(l.param, elem)], scope + [(l.param, b)];
    var rt := Lent(e.kind, RustType(elem).value);
    LambdaPreserved(m, st, g, scope, dt, e, elem, bt, true);
    RefsOnce(RustType(elem).value);
    EnvTypedPush(st, g, scope, dt, l.param, elem, b, rt);
    BodyLowered(m, g, scope, e, elem, bt);
    var body := BodyCode(m, g, scope, e, elem).value;
    forall v | v in vs
      ensures REval(h, self, d + [(Bare(l.param), LentValue(e.kind, v))], body) == EvalBody(m, h, g, env, elem, l.param, l.body, v)
    {
      var lent := LentValue(e.kind, v);
      LendOnce(v);
      EnvValuedPush(h, self, g, env, scope, d, l.param, elem, v, b, lent);
      BodyValue(m, h, g, env, elem, l, v, bt);
      OutcomesAgree(m, h, st, g', env + [v], scope', dt + [(Bare(l.param), rt)], self, d + [(Bare(l.param), lent)], l.body, bt);
    }
  }

  lemma ChainAlike(m: Model, h: Heap, g: Types, env: seq<Value>, self: map<string, Value>, d: REnv, e: Expr, elem: Ty, list: RExpr,
                   body: RExpr, bt: Ty, vs: seq<Value>)
    requires |env| == |g| && e.Algebra? && e.lambda.Some? && CheckAlgebra(e.kind, elem, true, Some(bt)).Some?
    requires REval(h, self, d, list) == Some(Seq(vs)) && !list.Deref?
    requires BodyAlike(m, h, g, env, self, d, e.kind, elem, e.lambda.value, body, vs)
    ensures AlgebraCode(e.kind, elem, e.lambda, list, Ok(body)).Ok?
    ensures REval(h, self, d, AlgebraCode(e.kind, elem, e.lambda, list, Ok(body)).value) == EvalCall(m, h, g, env, e, elem, vs)
  {
    hide REval, IsCopy, BodyAlike, EvalFind, EvalFilter, EvalMap, EvalAny, REvalFind, REvalFilter, REvalMap, REvalAny;
    var l := e.lambda.value;
    match e.kind
    case First =>
      RFind(h, self, d, list, vs, l.param, body, IsCopy(elem));
      FindAlike(m, h, g, env, self, d, elem, l, body, vs);
    case Filter =>
      RFilter(h, self, d, list, vs, l.param, body, IsCopy(elem));
      FilterAlike(m, h, g, env, self, d, elem, l, body, vs);
    case Map =>
      RMap(h, self, d, list, vs, l.param, body);
      MapAlike(m, h, g, env, self, d, elem, l, body, vs);
    case Any =>
      RAny(h, self, d, list, vs, l.param, body);
      AnyAlike(m, h, g, env, self, d, elem, l, body, vs);
  }

  lemma BodyAlikeAt(m: Model, h: Heap, g: Types, env: seq<Value>, self: map<string, Value>, d: REnv, kind: AlgebraKind, elem: Ty,
                    l: Lambda, body: RExpr, vs: seq<Value>)
    requires |env| == |g| && vs != [] && BodyAlike(m, h, g, env, self, d, kind, elem, l, body, vs)
    ensures BodyAlike(m, h, g, env, self, d, kind, elem, l, body, vs[1..])
    ensures REval(h, self, d + [(Bare(l.param), LentValue(kind, vs[0]))], body) == EvalBody(m, h, g, env, elem, l.param, l.body, vs[0])
  {
    hide EvalBody, REval, Bare, LentValue;
    assert vs[0] in vs;
    assert forall v :: v in vs[1..] ==> v in vs;
  }

  // ----- the four loops over the elements, one element at a time -----

  lemma {:induction false} FindAlike(m: Model, h: Heap, g: Types, env: seq<Value>, self: map<string, Value>, d: REnv, elem: Ty, l: Lambda,
                                 body: RExpr, vs: seq<Value>)
    requires |env| == |g| && BodyAlike(m, h, g, env, self, d, First, elem, l, body, vs)
    ensures REvalFind(h, self, d, l.param, body, vs) == EvalFind(m, h, g, env, elem, l.param, l.body, vs)
    decreases |vs|
  {
    hide EvalBody, REval, Bare, BodyAlike;
    if vs != [] {
      BodyAlikeAt(m, h, g, env, self, d, First, elem, l, body, vs);
      FindAlike(m, h, g, env, self, d, elem, l, body, vs[1..]);
    }
  }

  lemma {:induction false} FilterAlike(m: Model, h: Heap, g: Types, env: seq<Value>, self: map<string, Value>, d: REnv, elem: Ty, l: Lambda,
                                   body: RExpr, vs: seq<Value>)
    requires |env| == |g| && BodyAlike(m, h, g, env, self, d, Filter, elem, l, body, vs)
    ensures REvalFilter(h, self, d, l.param, body, vs) == EvalFilter(m, h, g, env, elem, l.param, l.body, vs)
    decreases |vs|
  {
    hide EvalBody, REval, Bare, BodyAlike;
    if vs != [] {
      BodyAlikeAt(m, h, g, env, self, d, Filter, elem, l, body, vs);
      FilterAlike(m, h, g, env, self, d, elem, l, body, vs[1..]);
    }
  }

  lemma {:induction false} MapAlike(m: Model, h: Heap, g: Types, env: seq<Value>, self: map<string, Value>, d: REnv, elem: Ty, l: Lambda,
                                body: RExpr, vs: seq<Value>)
    requires |env| == |g| && BodyAlike(m, h, g, env, self, d, Map, elem, l, body, vs)
    ensures REvalMap(h, self, d, l.param, body, vs) == EvalMap(m, h, g, env, elem, l.param, l.body, vs)
    decreases |vs|
  {
    hide EvalBody, REval, Bare, BodyAlike;
    if vs != [] {
      BodyAlikeAt(m, h, g, env, self, d, Map, elem, l, body, vs);
      MapAlike(m, h, g, env, self, d, elem, l, body, vs[1..]);
    }
  }

  lemma {:induction false} AnyAlike(m: Model, h: Heap, g: Types, env: seq<Value>, self: map<string, Value>, d: REnv, elem: Ty, l: Lambda,
                                body: RExpr, vs: seq<Value>)
    requires |env| == |g| && BodyAlike(m, h, g, env, self, d, Any, elem, l, body, vs)
    ensures REvalAny(h, self, d, l.param, body, vs) == EvalAny(m, h, g, env, elem, l.param, l.body, vs)
    decreases |vs|
  {
    hide EvalBody, REval, Bare, BodyAlike;
    if vs != [] {
      BodyAlikeAt(m, h, g, env, self, d, Any, elem, l, body, vs);
      AnyAlike(m, h, g, env, self, d, elem, l, body, vs[1..]);
    }
  }
}

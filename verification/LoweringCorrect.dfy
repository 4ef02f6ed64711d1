/** Lowering preserves meaning: whenever a clean tree has a value, its lowered code
    evaluates to that value, which has the tree's type. */
module LoweringCorrect {
  import opened Common
  import opened E = Expr
  import opened RustTarget
  import opened Lowering
  import opened LoweringTypes
  import opened LoweringRules
  import opened TypePreservation
  import opened EvalRules

  // ----- environments -----

  function Lend(k: nat, v: Value): Value {
    if k == 0 then v else Ref(Lend(k - 1, v))
  }

  ghost predicate NameValued(self: map<string, Value>, d: REnv, b: Binding, v: Value) {
    match b
    case SelfFeature(ident, _, _) => ident in self && self[ident] == v
    case Local(x, _) => Lookup(d, Bare(x)) == Some(v)
    case ClosureParam(x, _, k) => Lookup(d, Bare(x)) == Some(Lend(k, v))
  }

  ghost predicate NameHolds(h: Heap, self: map<string, Value>, g: Types, env: seq<Value>, scope: Scope, d: REnv, x: string)
    requires |env| == |g|
  {
    var t, v, b := Lookup(g, x), Lookup(Bind(g, env), x), Lookup(scope, x);
    t.Some? ==> b.Some? && (Misfit(b.value, t.value) || (v.Some? && HasType(h, v.value, t.value) && NameValued(self, d, b.value, v.value)))
  }

  /** Every name in scope has a value of its type, and its Rust place holds it, but for
      the features of the surrounding class that are stored otherwise. */
  ghost predicate EnvValued(h: Heap, self: map<string, Value>, g: Types, env: seq<Value>, scope: Scope, d: REnv) {
    && |env| == |g| && Mirror(g, scope)
    && Lookup(d, RES).None?
    && forall x :: NameHolds(h, self, g, env, scope, d, x)
  }

  lemma BindPush(g: Types, env: seq<Value>, x: string, t: Ty, v: Value)
    requires |env| == |g|
    ensures Bind(g + [(x, t)], env + [v]) == Bind(g, env) + [(x, v)]
  {}

  lemma {:induction false} EnvValuedPush(h: Heap, self: map<string, Value>, g: Types, env: seq<Value>, scope: Scope, d: REnv,
                                         x: string, t: Ty, v: Value, b: Binding, rv: Value)
    requires |env| == |g| && EnvValued(h, self, g, env, scope, d) && NoCapture(scope, x) && HasType(h, v, t)
    requires !b.SelfFeature? && b.variable == RustIdent(x) && b.copy == IsCopy(t)
    requires rv == if b.ClosureParam? then Lend(b.refs, v) else v
    ensures EnvValued(h, self, g + [(x, t)], env + [v], scope + [(x, b)], d + [(Bare(RustIdent(x)), rv)])
  {
    hide HasType, RustIdent, Bare, IsCopy, Lend, Bind, Lookup, NameHolds, NameValued;
    LookupPush(d, Bare(RustIdent(x)), rv, RES);
    forall y ensures NameHolds(h, self, g + [(x, t)], env + [v], scope + [(x, b)], d + [(Bare(RustIdent(x)), rv)], y) {
      assert NameHolds(h, self, g, env, scope, d, y);
      NameHoldsPush(h, self, g, env, scope, d, x, t, v, b, rv, y);
    }
  }

  lemma NameHoldsPush(h: Heap, self: map<string, Value>, g: Types, env: seq<Value>, scope: Scope, d: REnv,
                      x: string, t: Ty, v: Value, b: Binding, rv: Value, y: string)
    requires |env| == |g| && NoCapture(scope, x) && HasType(h, v, t)
    requires !b.SelfFeature? && b.variable == RustIdent(x)
    requires rv == if b.ClosureParam? then Lend(b.refs, v) else v
    requires NameHolds(h, self, g, env, scope, d, y)
    ensures NameHolds(h, self, g + [(x, t)], env + [v], scope + [(x, b)], d + [(Bare(RustIdent(x)), rv)], y)
  {
    hide HasType, RustIdent, Bare, IsCopy, Lend, Bind, Lookup;
    BindPush(g, env, x, t, v);
    LookupPush(g, x, t, y);
    LookupPush(scope, x, b, y);
    LookupPush(Bind(g, env), x, v, y);
    if y == x {
      LookupPush(d, Bare(RustIdent(x)), rv, Bare(RustIdent(x)));
    } else if Lookup(scope, y).Some? {
      var bound := Lookup(scope, y).value;
      if !bound.SelfFeature? {
        var i := LookupEntry(scope, y);
        LookupPush(d, Bare(RustIdent(x)), rv, Bare(bound.variable));
      }
    }
  }

  // ----- the theorem -----

  ghost predicate Runs(m: Model, h: Heap, st: map<string, RTy>, g: Types, env: seq<Value>, scope: Scope, dt: RTypes,
                       self: map<string, Value>, d: REnv, e: Expr, t: Ty) {
    && Setting(m, st, g, scope, dt, e, t) && Clean(m, g, scope, e, true)
    && HeapOk(m, h) && |env| == |g| && EnvValued(h, self, g, env, scope, d)
    && Eval(m, h, g, env, e, t).Some?
  }

  ghost predicate Agrees(m: Model, h: Heap, g: Types, env: seq<Value>, scope: Scope, self: map<string, Value>, d: REnv, e: Expr, t: Ty)
    requires |env| == |g| && Eval(m, h, g, env, e, t).Some?
  {
    var v := Eval(m, h, g, env, e, t).value;
    && HasType(h, v, t)
    && Lowers(m, g, scope, e, t) && REval(h, self, d, Code(m, g, scope, e, t)) == Some(v)
  }

  lemma {:induction false} MeaningPreserved(m: Model, h: Heap, st: map<string, RTy>, g: Types, env: seq<Value>, scope: Scope, dt: RTypes,
                                            self: map<string, Value>, d: REnv, e: Expr, t: Ty)
    requires Runs(m, h, st, g, env, scope, dt, self, d, e, t)
    ensures Agrees(m, h, g, env, scope, self, d, e, t)
    decreases e, 2
  {
    hide Eval, EnvValued, Setting, Clean, Agrees, HeapOk;
    match e
    case Unary(_, _) => UnaryMeaning(m, h, st, g, env, scope, dt, self, d, e, t);
    case Binary(_, _, _) => BinaryMeaning(m, h, st, g, env, scope, dt, self, d, e, t);
    case FeatureAccess(_, _, _) => AccessMeaning(m, h, st, g, env, scope, dt, self, d, e, t);
    case Algebra(_, _, _, _) => AlgebraMeaning(m, h, st, g, env, scope, dt, self, d, e, t);
    case Coalesce(_, _) => CoalesceMeaning(m, h, st, g, env, scope, dt, self, d, e, t);
    case If(_, _, _) => IfMeaning(m, h, st, g, env, scope, dt, self, d, e, t);
    case Let(_, _, _) => LetMeaning(m, h, st, g, env, scope, dt, self, d, e, t);
    case ListLiteral(_) => ListMeaning(m, h, st, g, env, scope, dt, self, d, e, t);
    case _ => LeafMeaning(m, h, st, g, env, scope, dt, self, d, e, t);
  }

  // ----- leaves -----

  lemma {:induction false} DerefsEval(h: Heap, self: map<string, Value>, d: REnv, x: string, n: nat, k: nat, v: Value)
    requires n <= k && Lookup(d, Bare(x)) == Some(Lend(k, v))
    ensures REval(h, self, d, Derefs(n, Var(x))) == Some(Lend(k - n, v))
  {
    if n > 0 {
      DerefsEval(h, self, d, x, n - 1, k, v);
    }
  }

  lemma NameEval(h: Heap, self: map<string, Value>, d: REnv, b: Binding, v: Value)
    requires NameValued(self, d, b, v) && !v.Ref? && Lookup(d, RES).None?
    ensures REval(h, self, d, LowerName(b)) == Some(v)
  {
    match b
    case ClosureParam(x, _, k) => DerefsEval(h, self, d, x, k, k, v);
    case Local(_, _) =>
    case SelfFeature(_, _, _) =>
  }

  lemma NeverRef(h: Heap, v: Value, t: Ty)
    requires HasType(h, v, t)
    ensures !v.Ref? && (v.Opt? <==> t.TOption?) && (v.Seq? <==> t.TList?) && (v.B? <==> t.TBool?) && (v.S? <==> t.TString?)
    ensures (v.I32? <==> t.TInt?) && (v.I64? <==> t.TLong?) && (v.Id? <==> t.TClass?)
  {}

  lemma LeafMeaning(m: Model, h: Heap, st: map<string, RTy>, g: Types, env: seq<Value>, scope: Scope, dt: RTypes,
                    self: map<string, Value>, d: REnv, e: Expr, t: Ty)
    requires e.Int? || e.Str? || e.Boolean? || e.NullLit? || e.Name?
    requires Runs(m, h, st, g, env, scope, dt, self, d, e, t)
    ensures Agrees(m, h, g, env, scope, self, d, e, t)
  {
    hide ModelOk, EnvTyped, Hygienic, HeapOk, Clean;
    if e.Name? {
      NameMeaning(m, h, st, g, env, scope, dt, self, d, e, t);
    }
  }

  lemma NameMeaning(m: Model, h: Heap, st: map<string, RTy>, g: Types, env: seq<Value>, scope: Scope, dt: RTypes,
                    self: map<string, Value>, d: REnv, e: Expr, t: Ty)
    requires e.Name? && Runs(m, h, st, g, env, scope, dt, self, d, e, t)
    ensures Agrees(m, h, g, env, scope, self, d, e, t)
  {
    hide ModelOk, EnvTyped, Hygienic, HeapOk, Clean, REval, LowerName, HasType, Bare, Misfit;
    assert NameHolds(h, self, g, env, scope, d, e.x);
    NotMisfit(m, g, scope, e, t);
    var v := Lookup(Bind(g, env), e.x).value;
    assert Lookup(g, e.x) == Some(t);
    NeverRef(h, v, t);
    NameEval(h, self, d, Lookup(scope, e.x).value, v);
  }

  lemma NotMisfit(m: Model, g: Types, scope: Scope, e: Expr, t: Ty)
    requires e.Name? && Hygienic(m, g, scope, e) && Lookup(g, e.x) == Some(t) && Lookup(scope, e.x).Some?
    ensures !Misfit(Lookup(scope, e.x).value, t)
  {}

  // ----- unary, conditional, let, `?:` -----

  lemma {:induction false} UnaryMeaning(m: Model, h: Heap, st: map<string, RTy>, g: Types, env: seq<Value>, scope: Scope, dt: RTypes,
                                        self: map<string, Value>, d: REnv, e: Expr, t: Ty)
    requires e.Unary? && Runs(m, h, st, g, env, scope, dt, self, d, e, t)
    ensures Agrees(m, h, g, env, scope, self, d, e, t)
    decreases e, 0
  {
    hide Lower, Eval, REval, Check, Hygienic, EnvTyped, ModelOk, HeapOk, EnvValued;
    UnaryPremises(m, st, g, scope, dt, e, t);
    if e.inner.Int? {
      LiteralRange(m, g, e.inner);
    }
    EvalUnary(m, h, g, env, e, t, t);
    MeaningPreserved(m, h, st, g, env, scope, dt, self, d, e.inner, t);
    UnaryLowered(m, g, scope, e, t, t);
    RNot(h, self, d, Code(m, g, scope, e.inner, t));
    RNeg(h, self, d, Code(m, g, scope, e.inner, t));
  }

  lemma {:induction false} IfMeaning(m: Model, h: Heap, st: map<string, RTy>, g: Types, env: seq<Value>, scope: Scope, dt: RTypes,
                                     self: map<string, Value>, d: REnv, e: Expr, t: Ty)
    requires e.If? && Runs(m, h, st, g, env, scope, dt, self, d, e, t)
    ensures Agrees(m, h, g, env, scope, self, d, e, t)
    decreases e, 0
  {
    hide Lower, Eval, REval, Check, Hygienic, EnvTyped, ModelOk, HeapOk, EnvValued, HasType;
    IfPremises(m, st, g, scope, dt, e, t);
    EvalIf(m, h, g, env, e, t);
    MeaningPreserved(m, h, st, g, env, scope, dt, self, d, e.cond, TBool);
    var b := Eval(m, h, g, env, e.cond, TBool).value.b;
    MeaningPreserved(m, h, st, g, env, scope, dt, self, d, if b then e.then_ else e.else_, t);
    Preserved(m, st, g, scope, dt, e, t, true);
    IfLowered(m, g, scope, e, t);
    RIf(h, self, d, Code(m, g, scope, e.cond, TBool), Code(m, g, scope, e.then_, t), Code(m, g, scope, e.else_, t));
  }

  lemma {:induction false} LetMeaning(m: Model, h: Heap, st: map<string, RTy>, g: Types, env: seq<Value>, scope: Scope, dt: RTypes,
                                      self: map<string, Value>, d: REnv, e: Expr, t: Ty)
    requires e.Let? && Runs(m, h, st, g, env, scope, dt, self, d, e, t)
    ensures Agrees(m, h, g, env, scope, self, d, e, t)
    decreases e, 0
  {
    hide Lower, RType, Eval, REval, Check, Clean, Hygienic, EnvTyped, ModelOk, HeapOk, EnvValued, HasType, NoCapture,
      IsCopy, RustIdent, Bare, Binder;
    var it := LetPremises(m, st, g, scope, dt, e, t);
    LetClean(m, g, scope, e, it, true);
    EvalLet(m, h, g, env, e, t, it);
    MeaningPreserved(m, h, st, g, env, scope, dt, self, d, e.init, it);
    Preserved(m, st, g, scope, dt, e.init, it, true);
    var v := Eval(m, h, g, env, e.init, it).value;
    var b := LetBinding(e.name, it);
    var x := RustIdent(e.name);
    var g', env', scope', d' := g + [(e.name, it)], env + [v], scope + [(e.name, b)], d + [(Bare(x), v)];
    EnvTypedPush(st, g, scope, dt, e.name, it, b, RustType(it).value);
    EnvBound(h, self, g, env, scope, d, e.name, it, v, b);
    MeaningPreserved(m, h, st, g', env', scope', dt + [(Bare(x), RustType(it).value)], self, d', e.body, t);
    LetLowered(m, g, scope, e, t, it);
    RLet(h, self, d, x, Code(m, g, scope, e.init, it), Code(m, g', scope', e.body, t));
  }

  lemma EnvBound(h: Heap, self: map<string, Value>, g: Types, env: seq<Value>, scope: Scope, d: REnv, x: string, t: Ty, v: Value, b: Binding)
    requires |env| == |g| && EnvValued(h, self, g, env, scope, d) && NoCapture(scope, x) && HasType(h, v, t)
    requires b == LetBinding(x, t)
    ensures EnvValued(h, self, g + [(x, t)], env + [v], scope + [(x, b)], d + [(Bare(RustIdent(x)), v)])
  {
    hide EnvValued, NoCapture, HasType, IsCopy, RustIdent, Bare;
    EnvValuedPush(h, self, g, env, scope, d, x, t, v, b, v);
  }

  lemma OperandTypes(m: Model, g: Types, e: Expr, t: Ty)
    ensures OperandType(m, g, e, Some(t)) == OperandTy(m, g, e, t.TLong?)
  {}

  /** A clean default is lowered at the type inside the value. */
  lemma DefaultType(m: Model, g: Types, e: Expr, t: Ty, ft: Ty)
    requires OperandTy(m, g, e, t.TLong?) == Some(ft)
    requires TypeOf(m, g, e) == Some(t) || (t.TLong? && e.Int?)
    ensures ft == t && !(t.TLong? && NegatedLiteral(e))
  {
    if NegatedLiteral(e) {
      NegatedLiteralType(m, g, e);
    }
  }

  lemma {:induction false} CoalesceMeaning(m: Model, h: Heap, st: map<string, RTy>, g: Types, env: seq<Value>, scope: Scope, dt: RTypes,
                                           self: map<string, Value>, d: REnv, e: Expr, t: Ty)
    requires e.Coalesce? && Runs(m, h, st, g, env, scope, dt, self, d, e, t)
    ensures Agrees(m, h, g, env, scope, self, d, e, t)
    decreases e, 1
  {
    hide Lower, RType, Eval, REval, Check, Clean, Setting, HeapOk, EnvValued, DerefCode, SizeCode, Post, OperandTy, OperandType, IsCopy;
    var vt, ft := CoalescePremises(m, st, g, scope, dt, e, t);
    CoalesceClean(m, g, scope, e, vt, true);
    if vt.TNull? {
      EvalCoalesce(m, h, g, env, e, t, vt, ft);
      CoalesceLowered(m, g, scope, e, t, vt, ft);
      MeaningPreserved(m, h, st, g, env, scope, dt, self, d, e.fallback, t);
    } else {
      DefaultType(m, g, e.fallback, t, ft);
      DefaultMeaning(m, h, st, g, env, scope, dt, self, d, e, t);
    }
  }

  lemma {:induction false} DefaultMeaning(m: Model, h: Heap, st: map<string, RTy>, g: Types, env: seq<Value>, scope: Scope, dt: RTypes,
                                          self: map<string, Value>, d: REnv, e: Expr, t: Ty)
    requires e.Coalesce? && Runs(m, h, st, g, env, scope, dt, self, d, e, t)
    requires TypeOf(m, g, e.value) == Some(TOption(t)) && OperandTy(m, g, e.fallback, t.TLong?) == Some(t)
    requires Setting(m, st, g, scope, dt, e.value, TOption(t)) && Clean(m, g, scope, e.value, true) && !DerefCode(m, g, scope, e.value)
    requires Setting(m, st, g, scope, dt, e.fallback, t) && Clean(m, g, scope, e.fallback, true)
    ensures Agrees(m, h, g, env, scope, self, d, e, t)
    decreases e, 0
  {
    hide Lower, RType, Eval, REval, Check, Clean, Setting, HeapOk, EnvValued, DerefCode, SizeCode, Post, OperandTy, OperandType, IsCopy;
    OperandTypes(m, g, e.fallback, t);
    EvalCoalesce(m, h, g, env, e, t, TOption(t), t);
    CoalesceLowered(m, g, scope, e, t, TOption(t), t);
    MeaningPreserved(m, h, st, g, env, scope, dt, self, d, e.fallback, t);
    MeaningPreserved(m, h, st, g, env, scope, dt, self, d, e.value, TOption(t));
    Preserved(m, st, g, scope, dt, e.value, TOption(t), true);
    UnwrapEval(h, self, d, Code(m, g, scope, e.value, TOption(t)), Code(m, g, scope, e.fallback, t));
  }

  lemma UnwrapEval(h: Heap, self: map<string, Value>, d: REnv, v: RExpr, f: RExpr)
    requires !v.Deref?
    ensures Post(v, v' => UnwrapOr(v', f)) == UnwrapOr(v, f)
    ensures var a, b := REval(h, self, d, v), REval(h, self, d, f);
            REval(h, self, d, UnwrapOr(v, f))
            == if a.Some? && a.value.Opt? && b.Some? then Some(if a.value.v.Some? then a.value.v.value else b.value) else None
  {
    RUnwrap(h, self, d, v, f);
  }

  // ----- binary operators -----

  lemma {:induction false} BinaryMeaning(m: Model, h: Heap, st: map<string, RTy>, g: Types, env: seq<Value>, scope: Scope, dt: RTypes,
                                         self: map<string, Value>, d: REnv, e: Expr, t: Ty)
    requires e.Binary? && Runs(m, h, st, g, env, scope, dt, self, d, e, t)
    ensures Agrees(m, h, g, env, scope, self, d, e, t)
    decreases e, 0, 1
  {
    hide Setting, Clean, EnvValued, HeapOk, Eval, Agrees;
    if BothNull?(e) {
      NullsMeaning(m, h, st, g, env, scope, dt, self, d, e, t);
    } else if AgainstNull?(e) {
      AgainstNullMeaning(m, h, st, g, env, scope, dt, self, d, e, t);
    } else if Equality?(e) {
      EqualityMeaning(m, h, st, g, env, scope, dt, self, d, e, t);
    } else {
      OperatorMeaning(m, h, st, g, env, scope, dt, self, d, e, t);
    }
  }

  lemma NullsMeaning(m: Model, h: Heap, st: map<string, RTy>, g: Types, env: seq<Value>, scope: Scope, dt: RTypes,
                     self: map<string, Value>, d: REnv, e: Expr, t: Ty)
    requires BothNull?(e) && Runs(m, h, st, g, env, scope, dt, self, d, e, t)
    ensures Agrees(m, h, g, env, scope, self, d, e, t)
  {
    hide EnvTyped, ModelOk, Clean, Hygienic, HeapOk, EnvValued;
  }

  lemma {:induction false} AgainstNullMeaning(m: Model, h: Heap, st: map<string, RTy>, g: Types, env: seq<Value>, scope: Scope, dt: RTypes,
                                              self: map<string, Value>, d: REnv, e: Expr, t: Ty)
    requires AgainstNull?(e) && Runs(m, h, st, g, env, scope, dt, self, d, e, t)
    ensures Agrees(m, h, g, env, scope, self, d, e, t)
    decreases e, 0, 0
  {
    hide Lower, RType, Eval, REval, Check, Clean, Setting, HeapOk, EnvValued, AgainstNull, HasType;
    var ct := AgainstNullPremises(m, st, g, scope, dt, e, t);
    AgainstNullClean(m, g, scope, e, ct, true);
    EvalAgainstNull(m, h, g, env, e, t, Compared(e), ct);
    MeaningPreserved(m, h, st, g, env, scope, dt, self, d, Compared(e), ct);
    Preserved(m, st, g, scope, dt, Compared(e), ct, true);
    AgainstNullLowered(m, g, scope, e, t, ct);
    var v := Eval(m, h, g, env, Compared(e), ct).value;
    NeverRef(h, v, ct);
    AgainstNullEval(h, self, d, e.op, ct, Code(m, g, scope, Compared(e), ct), v);
    BooleanTyped(h, (v == Opt(None)) == e.op.Eq?);
  }

  lemma BooleanTyped(h: Heap, b: bool)
    ensures HasType(h, B(b), TBool)
  {}

  lemma AgainstNullEval(h: Heap, self: map<string, Value>, d: REnv, op: BinOp, t: Ty, code: RExpr, v: Value)
    requires (op.Eq? || op.Ne?) && REval(h, self, d, code) == Some(v) && (v.Opt? <==> t.TOption?) && (t.TOption? ==> !code.Deref?)
    ensures REval(h, self, d, AgainstNull(op, t, code)) == Some(B((v == Opt(None)) == op.Eq?))
  {
    LiteralEval(h, self, d, op.Ne?);
    hide REval;
    if t.TOption? {
      assert Post(code, c => IsNone(c)) == IsNone(code);
      RIsNone(h, self, d, code);
      RNot(h, self, d, IsNone(code));
    }
  }

  lemma LiteralEval(h: Heap, self: map<string, Value>, d: REnv, b: bool)
    ensures REval(h, self, d, BoolLit(b)) == Some(B(b))
  {}

  lemma {:induction false} EqualityMeaning(m: Model, h: Heap, st: map<string, RTy>, g: Types, env: seq<Value>, scope: Scope, dt: RTypes,
                                           self: map<string, Value>, d: REnv, e: Expr, t: Ty)
    requires Equality?(e) && Runs(m, h, st, g, env, scope, dt, self, d, e, t)
    ensures Agrees(m, h, g, env, scope, self, d, e, t)
    decreases e, 0, 0
  {
    hide Lower, RType, Eval, REval, Check, Clean, Setting, HeapOk, EnvValued, StripLiteral, HasType, OperandTy, OperandType;
    var lt, rt := EqualityPremises(m, st, g, scope, dt, e, t);
    EqualityClean(m, g, scope, e, true);
    OperandUnchanged(m, g, e.lhs, rt, lt);
    OperandUnchanged(m, g, e.rhs, lt, rt);
    OperandTypes(m, g, e.lhs, rt);
    OperandTypes(m, g, e.rhs, lt);
    EvalBinary(m, h, g, env, e, t, lt, rt);
    MeaningPreserved(m, h, st, g, env, scope, dt, self, d, e.lhs, lt);
    MeaningPreserved(m, h, st, g, env, scope, dt, self, d, e.rhs, rt);
    EqualityLowered(m, g, scope, e, t, lt, rt);
    var l, r := Code(m, g, scope, e.lhs, lt), Code(m, g, scope, e.rhs, rt);
    StripEval(m, h, g, env, self, d, e.lhs, lt, l);
    StripEval(m, h, g, env, self, d, e.rhs, rt, r);
    RBin(h, self, d, e.op, StripLiteral(e.lhs, l), StripLiteral(e.rhs, r));
    BooleanTyped(h, Eval(m, h, g, env, e, t).value.b);
  }

  /** A bare literal denotes the string its owned form denotes. */
  lemma StripEval(m: Model, h: Heap, g: Types, env: seq<Value>, self: map<string, Value>, d: REnv, e: Expr, t: Ty, code: RExpr)
    requires |env| == |g| && Eval(m, h, g, env, e, t).Some? && REval(h, self, d, code) == Eval(m, h, g, env, e, t)
    ensures REval(h, self, d, StripLiteral(e, code)) == Eval(m, h, g, env, e, t)
  {}

  lemma {:induction false} OperatorMeaning(m: Model, h: Heap, st: map<string, RTy>, g: Types, env: seq<Value>, scope: Scope, dt: RTypes,
                                           self: map<string, Value>, d: REnv, e: Expr, t: Ty)
    requires Operator?(e) && Runs(m, h, st, g, env, scope, dt, self, d, e, t)
    ensures Agrees(m, h, g, env, scope, self, d, e, t)
    decreases e, 0, 0
  {
    hide Lower, RType, Eval, REval, Check, Clean, Setting, HeapOk, EnvValued, HasType, OperandTy, OperandType,
      CheckBinary, ConcatCode, ApplyBinary, RustBin, DerefCode, SizeCode, IsCopy;
    var lt, rt := OperatorPremises(m, st, g, scope, dt, e, t);
    OperatorClean(m, g, scope, e, lt, true);
    OperandsMeet(m, g, e, lt, rt, t);
    LeftOperand(m, g, e, lt, rt, t);
    OperandTypes(m, g, e.rhs, lt);
    EvalBinary(m, h, g, env, e, t, lt, rt);
    MeaningPreserved(m, h, st, g, env, scope, dt, self, d, e.lhs, lt);
    Preserved(m, st, g, scope, dt, e.lhs, lt, true);
    Preserved(m, st, g, scope, dt, e.rhs, rt, true);
    OperatorLowered(m, g, scope, e, t, lt, rt);
    var l, r := Code(m, g, scope, e.lhs, lt), Code(m, g, scope, e.rhs, rt);
    var a := Eval(m, h, g, env, e.lhs, lt).value;
    RBin(h, self, d, e.op, l, r);
    if (e.op.And? && a == B(false)) || (e.op.Or? && a == B(true)) {
      ConnectiveTyped(h, e, lt, rt, t, a);
    } else {
      MeaningPreserved(m, h, st, g, env, scope, dt, self, d, e.rhs, rt);
      var b := Eval(m, h, g, env, e.rhs, rt).value;
      OperatorEval(h, self, d, e, lt, rt, t, l, r, a, b);
    }
  }

  lemma ConnectiveTyped(h: Heap, e: Expr, lt: Ty, rt: Ty, t: Ty, a: Value)
    requires e.Binary? && (e.op.And? || e.op.Or?) && CheckBinary(e.op, e.lhs, e.rhs, lt, rt) == Some(t) && a.B?
    ensures HasType(h, a, t) && !Concatenates(e.op, lt, rt)
  {}

  /** No literal stands on the left of a long. */
  lemma LeftOperand(m: Model, g: Types, e: Expr, lt: Ty, rt: Ty, t: Ty)
    requires Operator?(e) && TypeOf(m, g, e.lhs) == Some(lt) && OperandTy(m, g, e.rhs, lt.TLong?) == Some(rt)
    requires CheckBinary(e.op, e.lhs, e.rhs, lt, rt) == Some(t)
    requires Numeric(e.op) && IsNumeric(lt) ==> rt == lt
    ensures OperandType(m, g, e.lhs, TypeOf(m, g, e.rhs)) == Some(lt)
  {
    if NegatedLiteral(e.lhs) {
      NegatedLiteralType(m, g, e.lhs);
    } else if e.lhs.Int? {
      LiteralRange(m, g, e.lhs);
    }
  }

  lemma OperatorEval(h: Heap, self: map<string, Value>, d: REnv, e: Expr, lt: Ty, rt: Ty, t: Ty, l: RExpr, r: RExpr, a: Value, b: Value)
    requires Operator?(e) && CheckBinary(e.op, e.lhs, e.rhs, lt, rt) == Some(t) && (l.Deref? ==> IsCopy(lt))
    requires HasType(h, a, lt) && HasType(h, b, rt)
    requires REval(h, self, d, l) == Some(a) && REval(h, self, d, r) == Some(b)
    requires !((e.op.And? && a == B(false)) || (e.op.Or? && a == B(true)))
    requires ApplyBinary(e.op, a, b).Some?
    ensures HasType(h, ApplyBinary(e.op, a, b).value, t)
    ensures REval(h, self, d, if Concatenates(e.op, lt, rt) then ConcatCode(lt, rt, l, r) else Bin(e.op, l, r)) == ApplyBinary(e.op, a, b)
  {
    hide REval, ConcatCode;
    if Concatenates(e.op, lt, rt) {
      ConcatEval(h, self, d, lt, rt, l, r, a, b);
    } else {
      RBin(h, self, d, e.op, l, r);
      OperatorAgrees(h, e, lt, rt, t, a, b);
    }
  }

  lemma OperatorAgrees(h: Heap, e: Expr, lt: Ty, rt: Ty, t: Ty, a: Value, b: Value)
    requires Operator?(e) && CheckBinary(e.op, e.lhs, e.rhs, lt, rt) == Some(t) && !Concatenates(e.op, lt, rt)
    requires HasType(h, a, lt) && HasType(h, b, rt) && ApplyBinary(e.op, a, b).Some?
    ensures RustBin(e.op, a, b) == ApplyBinary(e.op, a, b)
    ensures HasType(h, ApplyBinary(e.op, a, b).value, t)
  {}

  lemma ConcatEval(h: Heap, self: map<string, Value>, d: REnv, lt: Ty, rt: Ty, l: RExpr, r: RExpr, a: Value, b: Value)
    requires IsStringOperand(lt) && IsStringOperand(rt) && (l.Deref? ==> IsCopy(lt))
    requires HasType(h, a, lt) && HasType(h, b, rt)
    requires REval(h, self, d, l) == Some(a) && REval(h, self, d, r) == Some(b)
    ensures Concat(a, b).Some? && HasType(h, Concat(a, b).value, if lt.TOption? || rt.TOption? then TOption(TString) else TString)
    ensures REval(h, self, d, ConcatCode(lt, rt, l, r)) == Concat(a, b)
  {
    hide REval, ConcatCode;
    ConcatShape(lt, rt, l, r);
    RFormat(h, self, d, l, r);
    RSome(h, self, d, l);
    RSome(h, self, d, r);
    RZip(h, self, d, l, r);
    RZip(h, self, d, l, SomeE(r));
    RZip(h, self, d, SomeE(l), r);
  }

  // ----- navigation -----

  lemma {:induction false} AccessMeaning(m: Model, h: Heap, st: map<string, RTy>, g: Types, env: seq<Value>, scope: Scope, dt: RTypes,
                                         self: map<string, Value>, d: REnv, e: Expr, t: Ty)
    requires e.FeatureAccess? && Runs(m, h, st, g, env, scope, dt, self, d, e, t)
    ensures Agrees(m, h, g, env, scope, self, d, e, t)
    decreases e, 0
  {
    hide Lower, RType, Eval, REval, Check, Clean, Hygienic, EnvTyped, HeapOk, HasType, DerefCode, AccessCode, Access, RequiredReference;
    var rt, cls := AccessPremises(m, st, g, scope, dt, e, t);
    AccessClean(m, g, scope, e, rt, true);
    EvalAccess(m, h, g, env, e, t, rt);
    MeaningPreserved(m, h, st, g, env, scope, dt, self, d, e.receiver, rt);
    Preserved(m, st, g, scope, dt, e.receiver, rt, true);
    AccessLowered(m, g, scope, e, t, rt, cls);
    AccessEval(m, h, self, d, cls, e.feature, rt, e.safe, Code(m, g, scope, e.receiver, rt), Eval(m, h, g, env, e.receiver, rt).value);
  }

  /** Reading a stored feature off a live object, or through an absent one. */
  lemma AccessEval(m: Model, h: Heap, self: map<string, Value>, d: REnv, cls: string, feature: string, rt: Ty, safe: bool, recv: RExpr, v: Value)
    requires ModelOk(m) && HeapOk(m, h) && (cls, feature) in m && !RequiredReference(m[(cls, feature)]) && Lookup(d, RES).None?
    requires rt == TClass(cls) || (safe && rt == TOption(TClass(cls)) && !recv.Deref?)
    requires HasType(h, v, rt) && REval(h, self, d, recv) == Some(v)
    ensures Access(h, v, feature, safe).Some?
    ensures HasType(h, Access(h, v, feature, safe).value, WrapOptional(FeatureType(m[(cls, feature)]), safe))
    ensures REval(h, self, d, AccessCode(cls, feature, m[(cls, feature)], recv, rt.TOption?, safe)) == Access(h, v, feature, safe)
  {
    hide REval, AccessCode, FieldShape, ModelOk, HeapOk, FeatureType, RequiredReference;
    var decl := m[(cls, feature)];
    FeatureHasType(m, cls, feature);
    var (cloned, option) := FieldShape(decl);
    AccessShape(cls, feature, decl, recv, rt.TOption?, safe);
    RLookup(h, self, d, cls, recv, feature, cloned);
    RAndThen(h, self, d, cls, recv, feature, cloned, option);
    RSome(h, self, d, LookupField(cls, recv, feature, cloned));
    if rt.TClass? || v.v.Some? {
      var id := if rt.TClass? then v else v.v.value;
      StoredFeature(m, h, cls, feature, id.idx);
    }
  }

  lemma StoredFeature(m: Model, h: Heap, cls: string, feature: string, i: nat)
    requires HeapOk(m, h) && (cls, feature) in m && !RequiredReference(m[(cls, feature)]) && (cls, i) in h
    ensures feature in h[(cls, i)] && HasType(h, h[(cls, i)][feature], FeatureType(m[(cls, feature)]))
    ensures h[(cls, i)][feature].Opt? <==> FeatureType(m[(cls, feature)]).TOption?
  {
    NeverRef(h, h[(cls, i)][feature], FeatureType(m[(cls, feature)]));
  }

  // ----- list literals -----

  lemma {:induction false} ListMeaning(m: Model, h: Heap, st: map<string, RTy>, g: Types, env: seq<Value>, scope: Scope, dt: RTypes,
                                       self: map<string, Value>, d: REnv, e: Expr, t: Ty)
    requires e.ListLiteral? && Runs(m, h, st, g, env, scope, dt, self, d, e, t)
    ensures Agrees(m, h, g, env, scope, self, d, e, t)
    decreases e, 0, |e.items|
  {
    hide Lower, LowerItems, RType, Eval, EvalItems, REval, REvalItems, Check, Hygienic, EnvTyped, ModelOk, HeapOk, EnvValued;
    var et := ListPremises(m, st, g, scope, dt, e, t);
    EvalList(m, h, g, env, e, et);
    var items := e.items;
    FirstItem(m, h, g, env, items, et);
    MeaningPreserved(m, h, st, g, env, scope, dt, self, d, items[0], et);
    ItemsMeaning(m, h, st, g, env, scope, dt, self, d, e, items[1..], et);
    ListLowered(m, g, scope, e, t, et);
    var codes := [Code(m, g, scope, items[0], et)] + LowerItems(m, g, scope, items[1..], et.TLong?).value;
    assert codes[1..] == LowerItems(m, g, scope, items[1..], et.TLong?).value;
    RItems(h, self, d, codes);
    RVecItems(h, self, d, codes);
  }

  lemma FirstItem(m: Model, h: Heap, g: Types, env: seq<Value>, items: seq<Expr>, et: Ty)
    requires |env| == |g| && items != [] && EvalItems(m, h, g, env, items, et).Some?
    ensures Eval(m, h, g, env, items[0], et).Some? && EvalItems(m, h, g, env, items[1..], et).Some?
    ensures EvalItems(m, h, g, env, items, et).value
            == [Eval(m, h, g, env, items[0], et).value] + EvalItems(m, h, g, env, items[1..], et).value
  {
    hide Eval;
  }

  lemma {:induction false} ItemsMeaning(m: Model, h: Heap, st: map<string, RTy>, g: Types, env: seq<Value>, scope: Scope, dt: RTypes,
                                        self: map<string, Value>, d: REnv, e: Expr, items: seq<Expr>, et: Ty)
    requires e.ListLiteral? && (forall x :: x in items ==> x in e.items)
    requires ModelOk(m) && EnvTyped(st, g, scope, dt) && HeapOk(m, h) && |env| == |g| && EnvValued(h, self, g, env, scope, d)
    requires forall i :: 0 <= i < |items| ==> Hygienic(m, g, scope, items[i]) && Clean(m, g, scope, items[i], true)
    requires forall i :: 0 <= i < |items| ==> Check(m, g, items[i], et.TLong?) == Some(et)
    requires EvalItems(m, h, g, env, items, et).Some?
    ensures var vs := EvalItems(m, h, g, env, items, et);
            var codes := LowerItems(m, g, scope, items, et.TLong?);
            && (forall i :: 0 <= i < |vs.value| ==> HasType(h, vs.value[i], et))
            && codes.Ok? && REvalItems(h, self, d, codes.value) == vs
    decreases e, 0, |items|
  {
    hide Lower, LowerItems, RType, Eval, EvalItems, REval, REvalItems, Check, Clean, Hygienic, EnvTyped, ModelOk, HeapOk, HasType;
    if items == [] {
      NoItems(m, h, g, env, scope, self, d, et);
    } else {
      assert items[0] in e.items;
      FirstItem(m, h, g, env, items, et);
      OperandTypeAgrees(m, g, items[0], et);
      MeaningPreserved(m, h, st, g, env, scope, dt, self, d, items[0], et);
      ItemsMeaning(m, h, st, g, env, scope, dt, self, d, e, items[1..], et);
      ItemsLowered(m, g, scope, items, et);
      var codes := LowerItems(m, g, scope, items, et.TLong?).value;
      assert codes[1..] == LowerItems(m, g, scope, items[1..], et.TLong?).value;
      RItems(h, self, d, codes);
    }
  }

  lemma NoItems(m: Model, h: Heap, g: Types, env: seq<Value>, scope: Scope, self: map<string, Value>, d: REnv, et: Ty)
    requires |env| == |g|
    ensures EvalItems(m, h, g, env, [], et) == Some([]) && LowerItems(m, g, scope, [], et.TLong?) == Ok([])
    ensures REvalItems(h, self, d, []) == Some([])
  {}

  // ----- the collection algebra -----

  lemma {:induction false} AlgebraMeaning(m: Model, h: Heap, st: map<string, RTy>, g: Types, env: seq<Value>, scope: Scope, dt: RTypes,
                                          self: map<string, Value>, d: REnv, e: Expr, t: Ty)
    requires e.Algebra? && Runs(m, h, st, g, env, scope, dt, self, d, e, t)
    ensures Agrees(m, h, g, env, scope, self, d, e, t)
    decreases e, 0, 2
  {
    hide Lower, RType, Eval, EvalCall, REval, Check, Clean, Setting, HeapOk, EnvValued, NoCapture, IsCopy, RustIdent,
      Post, AlgebraCode, CheckAlgebra, LambdaBinding, HasType, BodyCode, SizeCode, DerefCode;
    var elem, bt := AlgebraPremises(m, st, g, scope, dt, e, t);
    EvalAlgebra(m, h, g, env, e, t, elem);
    var vs := ReceiverMeaning(m, h, st, g, env, scope, dt, self, d, e, t, elem);
    AlgebraLowered(m, g, scope, e, t, elem);
    CallMeaning(m, h, st, g, env, scope, dt, self, d, e, t, elem, bt, vs);
    var list, body := Code(m, g, scope, e.list, TList(elem)), BodyCode(m, g, scope, e, elem);
    RSome(h, self, d, AlgebraCode(e.kind, elem, e.lambda, list, body).value);
    OptionalValue(h, EvalCall(m, h, g, env, e, elem, vs).value, CheckAlgebra(e.kind, elem, e.lambda.Some?, bt).value, e.kind, e.optional,
                  elem, e.lambda.Some?, bt);
  }

  /** The list a call is made on, element by element of its type. */
  lemma {:induction false} ReceiverMeaning(m: Model, h: Heap, st: map<string, RTy>, g: Types, env: seq<Value>, scope: Scope, dt: RTypes,
                                           self: map<string, Value>, d: REnv, e: Expr, t: Ty, elem: Ty) returns (vs: seq<Value>)
    requires e.Algebra? && Runs(m, h, st, g, env, scope, dt, self, d, e, t) && TypeOf(m, g, e.list) == Some(TList(elem))
    requires Setting(m, st, g, scope, dt, e.list, TList(elem)) && Eval(m, h, g, env, e.list, TList(elem)).Some?
    ensures Eval(m, h, g, env, e.list, TList(elem)) == Some(Seq(vs))
    ensures forall i :: 0 <= i < |vs| ==> HasType(h, vs[i], elem)
    ensures Lowers(m, g, scope, e.list, TList(elem)) && !Code(m, g, scope, e.list, TList(elem)).Deref?
    ensures REval(h, self, d, Code(m, g, scope, e.list, TList(elem))) == Some(Seq(vs))
    ensures RustType(elem).Some?
    decreases e, 0, 0
  {
    hide Lower, RType, Eval, REval, Check, Clean, Setting, HeapOk, EnvValued, IsCopy, HasType, SizeCode, DerefCode, LambdaBinding;
    AlgebraClean(m, g, scope, e, elem, true);
    MeaningPreserved(m, h, st, g, env, scope, dt, self, d, e.list, TList(elem));
    Preserved(m, st, g, scope, dt, e.list, TList(elem), true);
    ListIsNoCopy(elem);
    ListValue(h, Eval(m, h, g, env, e.list, TList(elem)).value, elem);
    vs := Eval(m, h, g, env, e.list, TList(elem)).value.vs;
  }

  /** The call itself, on the elements of its list. */
  lemma {:induction false} CallMeaning(m: Model, h: Heap, st: map<string, RTy>, g: Types, env: seq<Value>, scope: Scope, dt: RTypes,
                                       self: map<string, Value>, d: REnv, e: Expr, t: Ty, elem: Ty, bt: Option<Ty>, vs: seq<Value>)
    requires e.Algebra? && Runs(m, h, st, g, env, scope, dt, self, d, e, t) && TypeOf(m, g, e.list) == Some(TList(elem))
    requires RustType(elem).Some? && forall i :: 0 <= i < |vs| ==> HasType(h, vs[i], elem)
    requires Lowers(m, g, scope, e.list, TList(elem)) && !Code(m, g, scope, e.list, TList(elem)).Deref?
    requires REval(h, self, d, Code(m, g, scope, e.list, TList(elem))) == Some(Seq(vs))
    requires CheckAlgebra(e.kind, elem, e.lambda.Some?, bt).Some? && (e.lambda.None? ==> bt.None?)
    requires e.lambda.Some? ==>
               var l := e.lambda.value;
               var g' := g + [(l.param, elem)];
               && bt.Some? && TypeOf(m, g', l.body) == bt
               && NoCapture(scope, l.param)
               && Hygienic(m, g', scope + [(l.param, LambdaBinding(e.kind, l.param, elem))], l.body)
    requires EvalCall(m, h, g, env, e, elem, vs).Some?
    ensures HasType(h, EvalCall(m, h, g, env, e, elem, vs).value, CheckAlgebra(e.kind, elem, e.lambda.Some?, bt).value)
    ensures var out := AlgebraCode(e.kind, elem, e.lambda, Code(m, g, scope, e.list, TList(elem)), BodyCode(m, g, scope, e, elem));
            out.Ok? && REval(h, self, d, out.value) == EvalCall(m, h, g, env, e, elem, vs)
    decreases e, 0, 1
  {
    hide Lower, RType, Eval, EvalCall, REval, Check, Clean, Hygienic, EnvTyped, ModelOk, HeapOk, EnvValued, NoCapture,
      IsCopy, RustIdent, Post, AlgebraCode, CheckAlgebra, LambdaBinding, HasType, BodyAgrees, BodyCode;
    var list, body := Code(m, g, scope, e.list, TList(elem)), BodyCode(m, g, scope, e, elem);
    if e.lambda.None? {
      PlainEval(m, h, g, env, self, d, e, elem, list, body, vs);
    } else {
      AlgebraClean(m, g, scope, e, elem, true);
      LambdaMeaning(m, h, st, g, env, scope, dt, self, d, e, elem, bt.value, vs);
      ChainEval(m, h, g, env, self, d, e, elem, list, body.value, bt.value, vs);
    }
  }

  lemma ListValue(h: Heap, v: Value, elem: Ty)
    requires HasType(h, v, TList(elem))
    ensures v.Seq? && forall i :: 0 <= i < |v.vs| ==> HasType(h, v.vs[i], elem)
  {}

  lemma OptionalValue(h: Heap, v: Value, t: Ty, kind: AlgebraKind, optional: bool, elem: Ty, hasLambda: bool, bt: Option<Ty>)
    requires HasType(h, v, t) && CheckAlgebra(kind, elem, hasLambda, bt) == Some(t)
    ensures HasType(h, if optional && !kind.First? then Opt(Some(v)) else v, WrapOptional(t, optional))
  {}

  /** What `find` and `filter`, and what `map` and `any`, lend their closure. */
  function LentValue(kind: AlgebraKind, v: Value): Value {
    if kind.First? || kind.Filter? then Ref(Ref(v)) else Ref(v)
  }

  lemma LendOnce(v: Value)
    ensures Lend(1, v) == Ref(v) && Lend(2, v) == Ref(Ref(v))
  {
    assert Lend(0, v) == v;
  }

  /** The body agrees with its code on every element it has a value on. */
  ghost predicate BodyAgrees(m: Model, h: Heap, g: Types, env: seq<Value>, self: map<string, Value>, d: REnv, kind: AlgebraKind, elem: Ty,
                             l: Lambda, body: RExpr, bt: Ty, vs: seq<Value>)
    requires |env| == |g|
  {
    forall v :: v in vs && EvalBody(m, h, g, env, elem, l.param, l.body, v).Some? ==>
      var w := EvalBody(m, h, g, env, elem, l.param, l.body, v);
      HasType(h, w.value, bt) && REval(h, self, d + [(Bare(l.param), LentValue(kind, v))], body) == w
  }

  lemma {:induction false} LambdaMeaning(m: Model, h: Heap, st: map<string, RTy>, g: Types, env: seq<Value>, scope: Scope, dt: RTypes,
                                         self: map<string, Value>, d: REnv, e: Expr, elem: Ty, bt: Ty, vs: seq<Value>)
    requires e.Algebra? && e.lambda.Some? && ModelOk(m) && EnvTyped(st, g, scope, dt) && RustType(elem).Some?
    requires HeapOk(m, h) && |env| == |g| && EnvValued(h, self, g, env, scope, d)
    requires forall i :: 0 <= i < |vs| ==> HasType(h, vs[i], elem)
    requires var l := e.lambda.value;
             var g', scope' := g + [(l.param, elem)], scope + [(l.param, LambdaBinding(e.kind, l.param, elem))];
             && TypeOf(m, g', l.body) == Some(bt)
             && NoCapture(scope, l.param)
             && Hygienic(m, g', scope', l.body) && Clean(m, g', scope', l.body, true)
    ensures BodyCode(m, g, scope, e, elem).Ok?
    ensures BodyAgrees(m, h, g, env, self, d, e.kind, elem, e.lambda.value, BodyCode(m, g, scope, e, elem).value, bt, vs)
    decreases e, 0, 0
  {
    hide Lower, RType, Eval, REval, Check, Clean, Hygienic, EnvTyped, ModelOk, HeapOk, EnvValued, NoCapture, IsCopy,
      RustIdent, Bare, Refs, Lend, HasType, EvalBody;
    var l := e.lambda.value;
    BareIdent(l.param);
    var b := LambdaBinding(e.kind, l.param, elem);
    var g', scope' := g + [(l.param, elem)], scope + [(l.param, b)];
    var rt := Lent(e.kind, RustType(elem).value);
    LambdaPreserved(m, st, g, scope, dt, e, elem, bt, true);
    RefsOnce(RustType(elem).value);
    EnvTypedPush(st, g, scope, dt, l.param, elem, b, rt);
    BodyLowered(m, g, scope, e, elem, bt);
    var body := BodyCode(m, g, scope, e, elem).value;
    forall v | v in vs && EvalBody(m, h, g, env, elem, l.param, l.body, v).Some?
      ensures HasType(h, EvalBody(m, h, g, env, elem, l.param, l.body, v).value, bt)
      ensures REval(h, self, d + [(Bare(l.param), LentValue(e.kind, v))], body) == EvalBody(m, h, g, env, elem, l.param, l.body, v)
    {
      var lent := LentValue(e.kind, v);
      LendOnce(v);
      EnvValuedPush(h, self, g, env, scope, d, l.param, elem, v, b, lent);
      BodyValue(m, h, g, env, elem, l, v, bt);
      MeaningPreserved(m, h, st, g', env + [v], scope', dt + [(Bare(l.param), rt)], self, d + [(Bare(l.param), lent)], l.body, bt);
    }
  }

  lemma BodyValue(m: Model, h: Heap, g: Types, env: seq<Value>, elem: Ty, l: Lambda, v: Value, bt: Ty)
    requires |env| == |g| && TypeOf(m, g + [(l.param, elem)], l.body) == Some(bt)
    ensures EvalBody(m, h, g, env, elem, l.param, l.body, v) == Eval(m, h, g + [(l.param, elem)], env + [v], l.body, bt)
  {
    hide TypeOf, Eval;
  }

  /** `size`, `sum` and `first` without a lambda. */
  lemma PlainEval(m: Model, h: Heap, g: Types, env: seq<Value>, self: map<string, Value>, d: REnv, e: Expr, elem: Ty, list: RExpr,
                  body: Result<RExpr, LowerError>, vs: seq<Value>)
    requires |env| == |g| && e.Algebra? && e.lambda.None? && CheckAlgebra(e.kind, elem, false, None).Some?
    requires forall i :: 0 <= i < |vs| ==> HasType(h, vs[i], elem)
    requires REval(h, self, d, list) == Some(Seq(vs)) && !list.Deref?
    requires EvalCall(m, h, g, env, e, elem, vs).Some?
    ensures HasType(h, EvalCall(m, h, g, env, e, elem, vs).value, CheckAlgebra(e.kind, elem, false, None).value)
    ensures AlgebraCode(e.kind, elem, e.lambda, list, body).Ok?
    ensures REval(h, self, d, AlgebraCode(e.kind, elem, e.lambda, list, body).value) == EvalCall(m, h, g, env, e, elem, vs)
  {
    hide REval, IsCopy;
    match e.kind
    case Size => RLen(h, self, d, list, vs);
    case Sum =>
      RSum(h, self, d, list, vs, elem.TLong?);
      SumTyped(h, elem, Zero(elem), vs);
    case First => RFirst(h, self, d, list, vs, IsCopy(elem));
  }

  lemma {:induction false} SumTyped(h: Heap, t: Ty, acc: Value, vs: seq<Value>)
    requires IsNumeric(t) && HasType(h, acc, t) && forall i :: 0 <= i < |vs| ==> HasType(h, vs[i], t)
    requires SumFrom(acc, vs).Some?
    ensures HasType(h, SumFrom(acc, vs).value, t)
    decreases |vs|
  {
    if vs != [] {
      SumTyped(h, t, Arith(Add, acc, vs[0]).value, vs[1..]);
    }
  }

  /** The calls that take a lambda. */
  lemma ChainEval(m: Model, h: Heap, g: Types, env: seq<Value>, self: map<string, Value>, d: REnv, e: Expr, elem: Ty, list: RExpr,
                  body: RExpr, bt: Ty, vs: seq<Value>)
    requires |env| == |g| && e.Algebra? && e.lambda.Some? && CheckAlgebra(e.kind, elem, true, Some(bt)).Some?
    requires forall i :: 0 <= i < |vs| ==> HasType(h, vs[i], elem)
    requires REval(h, self, d, list) == Some(Seq(vs)) && !list.Deref?
    requires EvalCall(m, h, g, env, e, elem, vs).Some?
    requires BodyAgrees(m, h, g, env, self, d, e.kind, elem, e.lambda.value, body, bt, vs)
    ensures HasType(h, EvalCall(m, h, g, env, e, elem, vs).value, CheckAlgebra(e.kind, elem, true, Some(bt)).value)
    ensures AlgebraCode(e.kind, elem, e.lambda, list, Ok(body)).Ok?
    ensures REval(h, self, d, AlgebraCode(e.kind, elem, e.lambda, list, Ok(body)).value) == EvalCall(m, h, g, env, e, elem, vs)
  {
    hide REval, IsCopy, BodyAgrees, EvalFind, EvalFilter, EvalMap, EvalAny, REvalFind, REvalFilter, REvalMap, REvalAny;
    var l := e.lambda.value;
    match e.kind
    case First =>
      RFind(h, self, d, list, vs, l.param, body, IsCopy(elem));
      FindAgrees(m, h, g, env, self, d, elem, l, body, bt, vs);
    case Filter =>
      RFilter(h, self, d, list, vs, l.param, body, IsCopy(elem));
      FilterAgrees(m, h, g, env, self, d, elem, l, body, bt, vs);
    case Map =>
      RMap(h, self, d, list, vs, l.param, body);
      MapAgrees(m, h, g, env, self, d, elem, l, body, bt, vs);
    case Any =>
      RAny(h, self, d, list, vs, l.param, body);
      AnyAgrees(m, h, g, env, self, d, elem, l, body, bt, vs);
  }

  lemma BodyAt(m: Model, h: Heap, g: Types, env: seq<Value>, self: map<string, Value>, d: REnv, kind: AlgebraKind, elem: Ty,
               l: Lambda, body: RExpr, bt: Ty, vs: seq<Value>)
    requires |env| == |g| && vs != [] && BodyAgrees(m, h, g, env, self, d, kind, elem, l, body, bt, vs)
    ensures BodyAgrees(m, h, g, env, self, d, kind, elem, l, body, bt, vs[1..])
    ensures var w := EvalBody(m, h, g, env, elem, l.param, l.body, vs[0]);
            w.Some? ==> HasType(h, w.value, bt) && REval(h, self, d + [(Bare(l.param), LentValue(kind, vs[0]))], body) == w
  {
    hide EvalBody, REval, HasType, LentValue, Bare;
    assert vs[0] in vs;
    forall v | v in vs[1..] && EvalBody(m, h, g, env, elem, l.param, l.body, v).Some?
      ensures HasType(h, EvalBody(m, h, g, env, elem, l.param, l.body, v).value, bt)
      ensures REval(h, self, d + [(Bare(l.param), LentValue(kind, v))], body) == EvalBody(m, h, g, env, elem, l.param, l.body, v)
    {
      assert v in vs;
    }
  }

  lemma LentTwice(v: Value)
    ensures LentValue(First, v) == Ref(Ref(v))
  {}

  lemma LentOnce(v: Value)
    ensures LentValue(Any, v) == Ref(v)
  {}

  lemma NothingFound(h: Heap, elem: Ty)
    ensures HasType(h, Opt(None), TOption(elem))
  {}

  lemma FoundTyped(h: Heap, v: Value, elem: Ty)
    requires HasType(h, v, elem)
    ensures HasType(h, Opt(Some(v)), TOption(elem))
  {}

  lemma {:induction false} FindAgrees(m: Model, h: Heap, g: Types, env: seq<Value>, self: map<string, Value>, d: REnv, elem: Ty, l: Lambda,
                                      body: RExpr, bt: Ty, vs: seq<Value>)
    requires |env| == |g| && BodyAgrees(m, h, g, env, self, d, First, elem, l, body, bt, vs)
    requires forall i :: 0 <= i < |vs| ==> HasType(h, vs[i], elem)
    requires EvalFind(m, h, g, env, elem, l.param, l.body, vs).Some?
    ensures REvalFind(h, self, d, l.param, body, vs) == EvalFind(m, h, g, env, elem, l.param, l.body, vs)
    ensures HasType(h, EvalFind(m, h, g, env, elem, l.param, l.body, vs).value, TOption(elem))
    decreases |vs|
  {
    hide EvalBody, REval, BodyAgrees, HasType, LentValue, Bare;
    NothingFound(h, elem);
    if vs != [] {
      FoundTyped(h, vs[0], elem);
      LentTwice(vs[0]);
      BodyAt(m, h, g, env, self, d, First, elem, l, body, bt, vs);
      if EvalBody(m, h, g, env, elem, l.param, l.body, vs[0]) == Some(B(false)) {
        FindAgrees(m, h, g, env, self, d, elem, l, body, bt, vs[1..]);
      }
    }
  }

  lemma {:induction false} AnyAgrees(m: Model, h: Heap, g: Types, env: seq<Value>, self: map<string, Value>, d: REnv, elem: Ty, l: Lambda,
                                     body: RExpr, bt: Ty, vs: seq<Value>)
    requires |env| == |g| && BodyAgrees(m, h, g, env, self, d, Any, elem, l, body, bt, vs)
    requires EvalAny(m, h, g, env, elem, l.param, l.body, vs).Some?
    ensures REvalAny(h, self, d, l.param, body, vs) == EvalAny(m, h, g, env, elem, l.param, l.body, vs)
    ensures HasType(h, EvalAny(m, h, g, env, elem, l.param, l.body, vs).value, TBool)
    decreases |vs|
  {
    hide EvalBody, REval, BodyAgrees, Bare, LentValue;
    if vs != [] {
      LentOnce(vs[0]);
      BodyAt(m, h, g, env, self, d, Any, elem, l, body, bt, vs);
      if EvalBody(m, h, g, env, elem, l.param, l.body, vs[0]) == Some(B(false)) {
        AnyAgrees(m, h, g, env, self, d, elem, l, body, bt, vs[1..]);
      }
    }
  }

  lemma {:induction false} FilterAgrees(m: Model, h: Heap, g: Types, env: seq<Value>, self: map<string, Value>, d: REnv, elem: Ty, l: Lambda,
                                        body: RExpr, bt: Ty, vs: seq<Value>)
    requires |env| == |g| && BodyAgrees(m, h, g, env, self, d, Filter, elem, l, body, bt, vs)
    requires forall i :: 0 <= i < |vs| ==> HasType(h, vs[i], elem)
    requires EvalFilter(m, h, g, env, elem, l.param, l.body, vs).Some?
    ensures REvalFilter(h, self, d, l.param, body, vs) == EvalFilter(m, h, g, env, elem, l.param, l.body, vs)
    ensures HasType(h, EvalFilter(m, h, g, env, elem, l.param, l.body, vs).value, TList(elem))
    decreases |vs|
  {
    hide EvalBody, REval, BodyAgrees, Bare;
    if vs != [] {
      BodyAt(m, h, g, env, self, d, Filter, elem, l, body, bt, vs);
      FilterAgrees(m, h, g, env, self, d, elem, l, body, bt, vs[1..]);
    }
  }

  lemma {:induction false} MapAgrees(m: Model, h: Heap, g: Types, env: seq<Value>, self: map<string, Value>, d: REnv, elem: Ty, l: Lambda,
                                     body: RExpr, bt: Ty, vs: seq<Value>)
    requires |env| == |g| && BodyAgrees(m, h, g, env, self, d, Map, elem, l, body, bt, vs)
    requires EvalMap(m, h, g, env, elem, l.param, l.body, vs).Some?
    ensures REvalMap(h, self, d, l.param, body, vs) == EvalMap(m, h, g, env, elem, l.param, l.body, vs)
    ensures HasType(h, EvalMap(m, h, g, env, elem, l.param, l.body, vs).value, TList(bt))
    decreases |vs|
  {
    hide EvalBody, REval, BodyAgrees, Bare;
    if vs != [] {
      BodyAt(m, h, g, env, self, d, Map, elem, l, body, bt, vs);
      MapAgrees(m, h, g, env, self, d, elem, l, body, bt, vs[1..]);
    }
  }
}

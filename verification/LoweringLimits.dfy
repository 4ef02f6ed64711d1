/** Families of inputs on which the emitter's promises fail, one for each clause of
    the conditions under which they hold. */
module LoweringLimits {
  import opened Common
  import opened E = Expr
  import opened RustTarget
  import opened RustRules
  import opened Lowering
  import opened LoweringTypes
  import opened LoweringRules
  import opened EvalRules

  /** The tree typechecks and lowers, but not to code of its type. */
  ghost predicate Rejected(m: Model, d: RTypes, g: Types, scope: Scope, e: Expr, t: Ty) {
    && TypeOf(m, g, e) == Some(t)
    && Lowers(m, g, scope, e, t)
    && RType(m, map[], d, Code(m, g, scope, e, t)) != RustType(t)
  }

  /** A parameter or `let` named x of type t, held by the Rust variable v. */
  ghost predicate Variable(g: Types, scope: Scope, d: RTypes, x: string, t: Ty, v: string) {
    && Lookup(g, x) == Some(t) && Lookup(scope, x) == Some(Local(v, IsCopy(t)))
    && RustName(v) && RustType(t).Some? && Lookup(d, Bare(v)) == RustType(t)
  }

  lemma VariableCode(m: Model, g: Types, scope: Scope, d: RTypes, x: string, t: Ty, v: string)
    requires Variable(g, scope, d, x, t, v)
    ensures TypeOf(m, g, Name(x)) == Some(t) && Lowers(m, g, scope, Name(x), t)
    ensures Code(m, g, scope, Name(x), t) == if IsCopy(t) then Var(v) else Clone(Var(v))
    ensures RType(m, map[], d, Code(m, g, scope, Name(x), t)) == RustType(t)
  {
    hide OperatorType, BothAre, IfType, IsNoneType, UnwrapType, FirstType, ShapeType, FitsWidth, BinType, RustName,
      Bare, Binder, Lookup, IsCopy, IsCopyR, RustType;
    CopyAgrees(t);
  }

  lemma LiteralCode(m: Model, g: Types, scope: Scope, d: RTypes, n: nat)
    requires n < 0x8000_0000
    ensures TypeOf(m, g, Int(n)) == Some(TInt) && Lowers(m, g, scope, Int(n), TInt)
    ensures Code(m, g, scope, Int(n), TInt) == IntLit(n, false) && RType(m, map[], d, IntLit(n, false)) == Some(RI32)
  {}

  /** L1 adapts a literal to a long on the right only: `2 + n` renders an `i32`
      beside an `i64`. */
  lemma LiteralLeftOfALong(m: Model, g: Types, scope: Scope, d: RTypes, n: nat, x: string, v: string)
    requires n < 0x8000_0000 && Variable(g, scope, d, x, TLong, v)
    ensures Rejected(m, d, g, scope, Binary(Add, Int(n), Name(x)), TLong)
  {
    hide Lower, RType, RustName, Bare;
    LiteralCode(m, g, scope, d, n);
    VariableCode(m, g, scope, d, x, TLong, v);
    OperatorLowered(m, g, scope, Binary(Add, Int(n), Name(x)), TLong, TInt, TLong);
    BinRule(m, map[], d, Add, IntLit(n, false), Var(v));
  }

  /** A negated literal is rendered as an `i32` wherever it stands: so is the `-5` of
      `n + -5`. */
  lemma NegatedLiteralBesideALong(m: Model, g: Types, scope: Scope, d: RTypes, n: nat, x: string, v: string)
    requires n < 0x8000_0000 && Variable(g, scope, d, x, TLong, v)
    ensures Rejected(m, d, g, scope, Binary(Add, Name(x), Unary(Neg, Int(n))), TLong)
  {
    hide Lower, RType, RustName, Bare;
    var neg := Unary(Neg, Int(n));
    LiteralCode(m, g, scope, d, n);
    VariableCode(m, g, scope, d, x, TLong, v);
    NegatedLiteralType(m, g, neg);
    LongMattersToLiteralsOnly(m, g, neg);
    UnaryLowered(m, g, scope, neg, TLong, TInt);
    OperatorLowered(m, g, scope, Binary(Add, Name(x), neg), TLong, TLong, TLong);
    NegRule(m, map[], d, IntLit(n, false));
    BinRule(m, map[], d, Add, Var(v), NegE(IntLit(n, false)));
  }

  /** `xs.size() < k` renders `xs.len() as i32 < k`, whose `<` opens generics. */
  lemma SizeBelow(m: Model, g: Types, scope: Scope, d: RTypes, xs: string, vs: string, k: string, v: string)
    requires Variable(g, scope, d, xs, TList(TInt), vs) && Variable(g, scope, d, k, TInt, v)
    ensures Rejected(m, d, g, scope, Binary(Lt, Algebra(Name(xs), Size, None, false), Name(k)), TBool)
  {
    hide Lower, RType, RustName, Bare;
    var size := Algebra(Name(xs), Size, None, false);
    VariableCode(m, g, scope, d, xs, TList(TInt), vs);
    VariableCode(m, g, scope, d, k, TInt, v);
    assert TypeOf(m, g, size) == Some(TInt);
    AlgebraLowered(m, g, scope, size, TInt, TInt);
    OperatorLowered(m, g, scope, Binary(Lt, size, Name(k)), TBool, TInt, TInt);
    BinRule(m, map[], d, Lt, LenAsI32(Clone(Var(vs))), Var(v));
  }

  /** The size of a list too long for an `int`: its code wraps, the tree has no value. */
  lemma SizeWraps(m: Model, h: Heap, xs: string, v: string, vs: seq<Value>)
    requires |vs| >= 0x8000_0000
    ensures var g: Types, scope: Scope, d: REnv := [(xs, TList(TInt))], [(xs, Local(v, false))], [(Bare(v), Seq(vs))];
            var e := Algebra(Name(xs), Size, None, false);
            && Eval(m, h, g, [Seq(vs)], e, TInt) == None
            && Lowers(m, g, scope, e, TInt) && REval(h, map[], d, Code(m, g, scope, e, TInt)) == Some(I32(Wrap32(|vs|)))
  {
    var g: Types, scope: Scope, d: REnv := [(xs, TList(TInt))], [(xs, Local(v, false))], [(Bare(v), Seq(vs))];
    var e := Algebra(Name(xs), Size, None, false);
    ListParameter(m, h, g, scope, d, xs, v, vs);
    hide Lower, Eval, REval, Lookup, Bind, Check, Wrap32, Bare;
    AlgebraLowered(m, g, scope, e, TInt, TInt);
    EvalAlgebra(m, h, g, [Seq(vs)], e, TInt, TInt);
    RLen(h, map[], d, Clone(Var(v)), vs);
  }

  lemma ListParameter(m: Model, h: Heap, g: Types, scope: Scope, d: REnv, xs: string, v: string, vs: seq<Value>)
    requires g == [(xs, TList(TInt))] && scope == [(xs, Local(v, false))] && d == [(Bare(v), Seq(vs))]
    ensures TypeOf(m, g, Name(xs)) == Some(TList(TInt)) && Lower(m, g, scope, Name(xs), TList(TInt)) == Ok(Clone(Var(v)))
    ensures Eval(m, h, g, [Seq(vs)], Name(xs), TList(TInt)) == Some(Seq(vs)) && REval(h, map[], d, Clone(Var(v))) == Some(Seq(vs))
  {
    hide Bare;
    assert Lookup(g, xs) == Some(TList(TInt)) && Lookup(scope, xs) == Some(Local(v, false)) && Lookup(d, Bare(v)) == Some(Seq(vs));
    assert Bind(g, [Seq(vs)]) == [(xs, Seq(vs))];
    assert Lookup(Bind(g, [Seq(vs)]), xs) == Some(Seq(vs));
  }

  /** A lambda parameter no pattern may be, as `fn` or `try`: the closure head keeps the
      authored word. */
  lemma UnnameableParameter(m: Model, g: Types, scope: Scope, d: RTypes, xs: string, vs: string, p: string)
    requires Variable(g, scope, d, xs, TList(TInt), vs) && !Binder(p)
    ensures Rejected(m, d, g, scope, Algebra(Name(xs), Map, Some(Lambda(p, Int(1))), false), TList(TInt))
  {
    hide Lower, RType, RustIdent, RustName, Binder, Bare;
    var e := Algebra(Name(xs), Map, Some(Lambda(p, Int(1))), false);
    var g', scope' := g + [(p, TInt)], scope + [(p, LambdaBinding(Map, p, TInt))];
    VariableCode(m, g, scope, d, xs, TList(TInt), vs);
    LiteralCode(m, g', scope', d, 1);
    assert TypeOf(m, g, e) == Some(TList(TInt));
    AlgebraLowered(m, g, scope, e, TList(TInt), TInt);
    BodyLowered(m, g, scope, e, TInt, TInt);
    MapRule(m, map[], d, Clone(Var(vs)), p, IntLit(1, false));
  }

  /** A `let` whose name no pattern, or no use, may be: `let try = 1; try`, and so with
      `r#self`, `r#crate`, `None` and `_`. */
  lemma UnnameableVariable(m: Model, g: Types, scope: Scope, d: RTypes, p: string)
    requires !Binder(RustIdent(p)) || !RustName(RustIdent(p))
    ensures Rejected(m, d, g, scope, Let(p, Int(1), Name(p)), TInt)
  {
    hide Lower, RType, RustIdent, RustName, Binder, Bare;
    var e := Let(p, Int(1), Name(p));
    var g', scope' := g + [(p, TInt)], scope + [(p, LetBinding(p, TInt))];
    LiteralCode(m, g, scope, d, 1);
    LookupPush(g, p, TInt, p);
    LookupPush(scope, p, LetBinding(p, TInt), p);
    NameInScope(m, g', scope', p);
    assert TypeOf(m, g, e) == Some(TInt);
    LetLowered(m, g, scope, e, TInt, TInt);
    LetRule(m, map[], d, RustIdent(p), IntLit(1, false), Var(RustIdent(p)));
    if !RustName(RustIdent(p)) {
      NoName(m, d + [(Bare(RustIdent(p)), RI32)], RustIdent(p));
    }
  }

  lemma NameInScope(m: Model, g: Types, scope: Scope, p: string)
    requires Lookup(g, p) == Some(TInt) && Lookup(scope, p) == Some(LetBinding(p, TInt))
    ensures TypeOf(m, g, Name(p)) == Some(TInt) && Lower(m, g, scope, Name(p), TInt) == Ok(Var(RustIdent(p)))
  {
    hide RustIdent, Lookup;
  }

  lemma NoName(m: Model, d: RTypes, v: string)
    requires !RustName(v)
    ensures RType(m, map[], d, Var(v)).None?
  {
    hide RustName, Bare;
  }

  /** The words the emitter leaves or makes illegal: the reserved ones it does not
      escape, and those `r#` does not make a name of. */
  predicate Unnameable(p: string) {
    Unescaped(p) || NeverRaw(p)
  }

  predicate Unescaped(p: string) {
    p in ["abstract", "become", "do", "final", "macro", "override", "priv", "try", "typeof", "unsized", "virtual"]
  }

  /** An identifier renders to a name of Rust if and only if it is none of these. */
  lemma UnnameableExactly(p: string)
    requires Word(p)
    ensures RustName(RustIdent(p)) <==> !Unnameable(p)
  {
    hide Keyword, Unescaped, NeverRaw, Reserved;
    WordsAreBare(p);
    if Keyword(p) {
      KeywordsAreBare(p);
      EscapedIsBare(p);
      UnescapedIsNoKeyword(p);
    } else {
      ReservedUnescaped(p);
    }
  }

  lemma WordsAreBare(p: string)
    requires Word(p)
    ensures !Raw(p)
  {
    assert |p| >= 2 ==> p[1] != '#' && "r#"[1] == '#';
  }

  lemma UnescapedIsNoKeyword(p: string)
    ensures Unescaped(p) ==> !Keyword(p)
  {
    hide KeywordToE, KeywordToM, KeywordFromN, TypeWord, Unescaped;
    UnescapedToE(p);
    UnescapedToM(p);
    UnescapedFromN(p);
    UnescapedType(p);
  }

  lemma UnescapedToE(p: string)
    ensures Unescaped(p) ==> !KeywordToE(p)
  {}

  lemma UnescapedToM(p: string)
    ensures Unescaped(p) ==> !KeywordToM(p)
  {}

  lemma UnescapedFromN(p: string)
    ensures Unescaped(p) ==> !KeywordFromN(p)
  {}

  lemma UnescapedType(p: string)
    ensures Unescaped(p) ==> !TypeWord(p)
  {}

  lemma ReservedUnescaped(p: string)
    requires !Keyword(p)
    ensures Reserved(p) <==> Unescaped(p) || NeverRaw(p)
  {}

  /** A required single reference types as never absent, but the struct stores an
      option: reading it off an object has the wrong type. */
  lemma RequiredReferenceRead(m: Model, g: Types, scope: Scope, d: RTypes, x: string, v: string, cls: string, feature: string, target: string)
    requires (cls, feature) in m && m[(cls, feature)] == FeatureDecl(CrossReference, false, true, TClass(target))
    requires Variable(g, scope, d, x, TClass(cls), v) && Lookup(d, RES).None?
    ensures var e := FeatureAccess(Name(x), feature, false);
            !Hygienic(m, g, scope, e) && Rejected(m, d, g, scope, e, TClass(target))
  {
    hide Lower, RType, RustName, Bare;
    VariableCode(m, g, scope, d, x, TClass(cls), v);
    AccessLowered(m, g, scope, FeatureAccess(Name(x), feature, false), TClass(target), TClass(cls), cls);
    LookupRule(m, map[], d, cls, Var(v), feature, false);
  }

  /** `let y = 1 in x`, where the parameter `x` is held by the Rust variable `y` (its
      name snake-cased, as a `let`'s is not): the `let` captures it. */
  lemma LetCaptures(m: Model, h: Heap, x: string, y: string, v: Value)
    requires x != y
    ensures var g: Types, scope: Scope, d: REnv := [(x, TInt)], [(x, Local(RustIdent(y), true))], [(Bare(y), v)];
            var e := Let(y, Int(1), Name(x));
            && TypeOf(m, g, e) == Some(TInt) && !Hygienic(m, g, scope, e)
            && Eval(m, h, g, [v], e, TInt) == Some(v)
            && Lowers(m, g, scope, e, TInt) && REval(h, map[], d, Code(m, g, scope, e, TInt)) == Some(I32(1))
  {
    var g: Types, scope: Scope, d: REnv := [(x, TInt)], [(x, Local(RustIdent(y), true))], [(Bare(y), v)];
    var g', scope' := g + [(y, TInt)], scope + [(y, LetBinding(y, TInt))];
    var e := Let(y, Int(1), Name(x));
    CapturedBody(m, h, g, scope, g', scope', d, x, y, v);
    LiteralCode(m, g, scope, [], 1);
    hide RustIdent, Bare, RType, Clean, HasType, Lookup, Bind, REval, Eval, Lower, Check;
    LetLowered(m, g, scope, e, TInt, TInt);
    EvalLet(m, h, g, [v], e, TInt, TInt);
    BareIdent(y);
    RLet(h, map[], d, RustIdent(y), IntLit(1, false), Var(RustIdent(y)));
  }

  lemma CapturedBody(m: Model, h: Heap, g: Types, scope: Scope, g': Types, scope': Scope, d: REnv, x: string, y: string, v: Value)
    requires x != y
    requires g == [(x, TInt)] && scope == [(x, Local(RustIdent(y), true))] && d == [(Bare(y), v)]
    requires g' == g + [(y, TInt)] && scope' == scope + [(y, LetBinding(y, TInt))]
    ensures TypeOf(m, g', Name(x)) == Some(TInt) && TypeOf(m, g, Let(y, Int(1), Name(x))) == Some(TInt)
    ensures Lower(m, g', scope', Name(x), TInt) == Ok(Var(RustIdent(y))) && Eval(m, h, g', [v] + [I32(1)], Name(x), TInt) == Some(v)
    ensures Eval(m, h, g, [v], Int(1), TInt) == Some(I32(1))
    ensures REval(h, map[], d, IntLit(1, false)) == Some(I32(1)) && REval(h, map[], d + [(Bare(y), I32(1))], Var(RustIdent(y))) == Some(I32(1))
    ensures !Hygienic(m, g, scope, Let(y, Int(1), Name(x)))
  {
    hide RustIdent, Bare, RType, Clean, HasType;
    BareIdent(y);
    LookupPush(g, y, TInt, x);
    LookupPush(scope, y, LetBinding(y, TInt), x);
    LookupPush(d, Bare(y), I32(1), Bare(y));
    LookupPush([(x, v)], y, I32(1), x);
    assert Lookup(g, x) == Some(TInt) && Lookup(scope, x) == Some(Local(RustIdent(y), true)) && Lookup([(x, v)], x) == Some(v);
    assert Bind(g', [v] + [I32(1)]) == [(x, v)] + [(y, I32(1))];
    assert Bare(scope[0].1.variable) == Bare(RustIdent(y));
    assert !NoCapture(scope, y);
    assert Check(m, g, Int(1), false) == Some(TInt) && TypeOf(m, g', Name(x)) == Some(TInt);
    assert TypeOf(m, g, Let(y, Int(1), Name(x))) == TypeOf(m, g', Name(x));
  }

  /** `(y ?: y) == null` with `y` optional: the checker types `y ?: y` as never absent,
      so its code is dropped for `false`; an absent `y` makes it absent all the same. */
  lemma DroppedOperand(m: Model, h: Heap, y: string, v: string)
    requires RustName(v)
    ensures var g: Types, scope: Scope := [(y, TOption(TInt))], [(y, Local(v, true))];
            var e := Binary(Eq, Coalesce(Name(y), Name(y)), NullLit);
            && TypeOf(m, g, e) == Some(TBool) && Clean(m, g, scope, e, false) && !Clean(m, g, scope, e, true)
            && Eval(m, h, g, [Opt(None)], e, TBool) == Some(B(true))
            && Lower(m, g, scope, e, TBool) == Ok(BoolLit(false))
  {
    var g: Types, scope: Scope := [(y, TOption(TInt))], [(y, Local(v, true))];
    OptionalParameter(m, h, g, scope, y, v);
    hide Lower, Eval, Clean, Lowerable, Check, Lookup, Bind, RustName;
    var c := Coalesce(Name(y), Name(y));
    CoalesceLowered(m, g, scope, c, TInt, TOption(TInt), TOption(TInt));
    var e := Binary(Eq, c, NullLit);
    AgainstNullLowered(m, g, scope, e, TBool, TInt);
    EvalCoalesce(m, h, g, [Opt(None)], c, TInt, TOption(TInt), TOption(TInt));
    EvalAgainstNull(m, h, g, [Opt(None)], e, TBool, c, TInt);
    AgainstNullClean(m, g, scope, e, TInt, false);
    AgainstNullClean(m, g, scope, e, TInt, true);
    CoalesceClean(m, g, scope, c, TOption(TInt), true);
  }

  lemma OptionalParameter(m: Model, h: Heap, g: Types, scope: Scope, y: string, v: string)
    requires RustName(v) && g == [(y, TOption(TInt))] && scope == [(y, Local(v, true))]
    ensures TypeOf(m, g, Name(y)) == Some(TOption(TInt)) && Lower(m, g, scope, Name(y), TOption(TInt)) == Ok(Var(v))
    ensures Eval(m, h, g, [Opt(None)], Name(y), TOption(TInt)) == Some(Opt(None))
    ensures Clean(m, g, scope, Name(y), true) && Lowerable(m, g, Coalesce(Name(y), Name(y)))
    ensures var c := Coalesce(Name(y), Name(y));
            && TypeOf(m, g, c) == Some(TInt) && Check(m, g, NullLit, false) == Some(TNull)
            && TypeOf(m, g, Binary(Eq, c, NullLit)) == CheckBinary(Eq, c, NullLit, TInt, TNull)
  {
    hide RustName;
    assert Lookup(g, y) == Some(TOption(TInt)) && Lookup(scope, y) == Some(Local(v, true));
    assert Bind(g, [Opt(None)]) == [(y, Opt(None))];
    assert Lookup(Bind(g, [Opt(None)]), y) == Some(Opt(None));
  }
}

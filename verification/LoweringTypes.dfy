/** Lowered expressions have exactly the Rust type of their source type, and
    exactly when. */
module LoweringTypes {
  import opened Common
  import opened E = Expr
  import opened RustTarget
  import opened Lowering

  // ----- side conditions -----

  /** Attributes have a value type, references a class type, and a container end is
      single. */
  ghost predicate ModelOk(m: Model) {
    forall k :: k in m ==> DeclOk(m[k])
  }

  predicate DeclOk(d: FeatureDecl) {
    && !d.base.TOption? && !d.base.TList? && !d.base.TNull?
    && (!d.kind.Attribute? ==> d.base.TClass?)
    && (d.kind.Container? ==> !d.many)
  }

  /** The two scopes the walk keeps in step. */
  ghost predicate Mirror(g: Types, scope: Scope) {
    && |g| == |scope|
    && forall i :: 0 <= i < |g| ==> g[i].0 == scope[i].0 && scope[i].1.copy == IsCopy(g[i].1)
  }

  /** Binding `x` in Rust captures nothing in scope, nor the resource parameter. */
  ghost predicate NoCapture(scope: Scope, x: string) {
    && Bare(RustIdent(x)) != RES
    && forall i :: 0 <= i < |scope| && scope[i].0 != x && !scope[i].1.SelfFeature? ==> Bare(scope[i].1.variable) != Bare(RustIdent(x))
  }

  /** A required single reference of the surrounding class, in scope by its name. */
  predicate Misfit(b: Binding, t: Ty) {
    b.SelfFeature? && !b.derived && t.TClass?
  }

  /** No `let` or lambda captures, and no required single reference is read. */
  ghost predicate Hygienic(m: Model, g: Types, scope: Scope, e: Expr)
    decreases e
  {
    match e
    case Name(x) => var b, t := Lookup(scope, x), Lookup(g, x); b.Some? && t.Some? ==> !Misfit(b.value, t.value)
    case Unary(_, inner) => Hygienic(m, g, scope, inner)
    case Binary(_, l, r) => Hygienic(m, g, scope, l) && Hygienic(m, g, scope, r)
    case FeatureAccess(recv, feature, _) =>
      && Hygienic(m, g, scope, recv)
      && (var decl := Accessed(m, TypeOf(m, g, recv), feature); decl.Some? ==> !RequiredReference(decl.value))
    case Algebra(list, kind, lambda, _) =>
      && Hygienic(m, g, scope, list)
      && (lambda.Some? && TypeOf(m, g, list).Some? && TypeOf(m, g, list).value.TList? ==>
            var elem := TypeOf(m, g, list).value.elem;
            && NoCapture(scope, lambda.value.param)
            && Hygienic(m, g + [(lambda.value.param, elem)], scope + [(lambda.value.param, LambdaBinding(kind, lambda.value.param, elem))],
                        lambda.value.body))
    case Coalesce(v, f) => Hygienic(m, g, scope, v) && Hygienic(m, g, scope, f)
    case If(c, t, f) => Hygienic(m, g, scope, c) && Hygienic(m, g, scope, t) && Hygienic(m, g, scope, f)
    case Let(x, init, body) =>
      && Hygienic(m, g, scope, init)
      && NoCapture(scope, x)
      && (TypeOf(m, g, init).Some? ==>
            var t := TypeOf(m, g, init).value;
            Hygienic(m, g + [(x, t)], scope + [(x, Local(RustIdent(x), IsCopy(t)))], body))
    case ListLiteral(items) => forall i :: 0 <= i < |items| ==> Hygienic(m, g, scope, items[i])
    case _ => true
  }

  /** The feature read off a receiver of a type. */
  function Accessed(m: Model, rt: Option<Ty>, feature: string): Option<FeatureDecl> {
    if rt.None? then None
    else
      var target := if rt.value.TOption? then rt.value.some else rt.value;
      if target.TClass? && (target.name, feature) in m then Some(m[(target.name, feature)]) else None
  }

  function LambdaBinding(kind: AlgebraKind, param: string, elem: Ty): Binding {
    ClosureParam(RustIdent(param), IsCopy(elem), if kind.First? || kind.Filter? then 2 else 1)
  }

  /** The lowered code begins with `*`: a `Copy` closure parameter, possibly behind
      `null ?: _`. */
  predicate DerefCode(m: Model, g: Types, scope: Scope, e: Expr)
    decreases e
  {
    match e
    case Name(x) => var b := Lookup(scope, x); b.Some? && b.value.ClosureParam? && b.value.copy && b.value.refs > 0
    case Coalesce(v, f) => TypeOf(m, g, v) == Some(TNull) && DerefCode(m, g, scope, f)
    case _ => false
  }

  /** The lowered code ends in `as i32`. */
  predicate SizeCode(m: Model, g: Types, e: Expr)
    decreases e
  {
    match e
    case Algebra(_, kind, _, optional) => kind.Size? && !optional
    case Coalesce(v, f) => TypeOf(m, g, v) == Some(TNull) && SizeCode(m, g, f)
    case _ => false
  }

  /** `null` only in equality and before `?:`: all that a typed tree needs in order to
      lower. */
  predicate Lowerable(m: Model, g: Types, e: Expr)
    decreases e
  {
    match e
    case NullLit => false
    case Unary(_, inner) => Lowerable(m, g, inner)
    case Binary(op, l, r) =>
      if AgainstNull?(e) then Lowerable(m, g, Compared(e)) else BothNull?(e) || (Lowerable(m, g, l) && Lowerable(m, g, r))
    case FeatureAccess(recv, _, _) => Lowerable(m, g, recv)
    case Algebra(list, _, lambda, _) =>
      && Lowerable(m, g, list)
      && (lambda.Some? && TypeOf(m, g, list).Some? && TypeOf(m, g, list).value.TList? ==>
            Lowerable(m, g + [(lambda.value.param, TypeOf(m, g, list).value.elem)], lambda.value.body))
    case Coalesce(v, f) => (TypeOf(m, g, v) == Some(TNull) || Lowerable(m, g, v)) && Lowerable(m, g, f)
    case If(c, t, f) => Lowerable(m, g, c) && Lowerable(m, g, t) && Lowerable(m, g, f)
    case Let(x, init, body) =>
      Lowerable(m, g, init) && (TypeOf(m, g, init).Some? ==> Lowerable(m, g + [(x, TypeOf(m, g, init).value)], body))
    case ListLiteral(items) => forall i :: 0 <= i < |items| ==> Lowerable(m, g, items[i])
    case _ => true
  }

  /** The variable a name stands for may be written in Rust. */
  predicate Sayable(b: Option<Binding>) {
    b.Some? && !b.value.SelfFeature? ==> RustName(b.value.variable)
  }

  /** What rustc accepts of the lowering, read off the source tree: `null` only in
      equality and before `?:`; binders and variables are names of Rust; a long
      operand meets a long, or a plain literal on its right; a size is not the left
      operand of `<`; a `?:` default has the inner type; and no option that is a
      `Copy` closure parameter is compared with `null`, coalesced or navigated.
      Comparing a value that is never absent with `null` drops its code: `deep` asks
      the same of such an operand, otherwise it need only lower. */
  predicate Clean(m: Model, g: Types, scope: Scope, e: Expr, deep: bool)
    decreases e
  {
    match e
    case NullLit => false
    case Name(x) => Sayable(Lookup(scope, x))
    case Unary(_, inner) => Clean(m, g, scope, inner, deep)
    case Binary(op, l, r) =>
      if AgainstNull?(e) then
        var e' := Compared(e);
        if OptionTyped(m, g, e') then Clean(m, g, scope, e', deep) && !DerefCode(m, g, scope, e')
        else if deep then Clean(m, g, scope, e', deep)
        else Lowerable(m, g, e')
      else if BothNull?(e) then true
      else
        && Clean(m, g, scope, l, deep) && Clean(m, g, scope, r, deep)
        && (Numeric(op) && TypeOf(m, g, l).Some? && IsNumeric(TypeOf(m, g, l).value) ==>
              TypeOf(m, g, r) == TypeOf(m, g, l) || (TypeOf(m, g, l) == Some(TLong) && r.Int?))
        && !(op.Lt? && SizeCode(m, g, l))
    case FeatureAccess(recv, _, safe) =>
      Clean(m, g, scope, recv, deep) && (OptionTyped(m, g, recv) ==> !DerefCode(m, g, scope, recv))
    case Algebra(list, kind, lambda, _) =>
      && Clean(m, g, scope, list, deep)
      && (lambda.Some? && TypeOf(m, g, list).Some? && TypeOf(m, g, list).value.TList? ==>
            var elem := TypeOf(m, g, list).value.elem;
            && Binder(lambda.value.param)
            && Clean(m, g + [(lambda.value.param, elem)], scope + [(lambda.value.param, LambdaBinding(kind, lambda.value.param, elem))],
                     lambda.value.body, deep))
    case Coalesce(v, f) =>
      if TypeOf(m, g, v) == Some(TNull) then Clean(m, g, scope, f, deep)
      else
        && Clean(m, g, scope, v, deep) && Clean(m, g, scope, f, deep) && !DerefCode(m, g, scope, v)
        && (OptionTyped(m, g, v) ==>
              var inner := TypeOf(m, g, v).value.some;
              TypeOf(m, g, f) == Some(inner) || (inner.TLong? && f.Int?))
    case If(c, t, f) => Clean(m, g, scope, c, deep) && Clean(m, g, scope, t, deep) && Clean(m, g, scope, f, deep)
    case Let(x, init, body) =>
      && Clean(m, g, scope, init, deep) && Binder(RustIdent(x))
      && (TypeOf(m, g, init).Some? ==>
            var t := TypeOf(m, g, init).value;
            Clean(m, g + [(x, t)], scope + [(x, Local(RustIdent(x), IsCopy(t)))], body, deep))
    case ListLiteral(items) => forall i :: 0 <= i < |items| ==> Clean(m, g, scope, items[i], deep)
    case _ => true
  }

  predicate BothNull?(e: Expr) {
    e.Binary? && (e.op.Eq? || e.op.Ne?) && e.lhs.NullLit? && e.rhs.NullLit?
  }

  predicate AgainstNull?(e: Expr) {
    e.Binary? && (e.op.Eq? || e.op.Ne?) && (e.lhs.NullLit? || e.rhs.NullLit?) && !(e.lhs.NullLit? && e.rhs.NullLit?)
  }

  /** The operand compared with `null`. */
  function Compared(e: Expr): Expr
    requires AgainstNull?(e)
  {
    if e.rhs.NullLit? then e.lhs else e.rhs
  }

  predicate OptionTyped(m: Model, g: Types, e: Expr) {
    TypeOf(m, g, e).Some? && TypeOf(m, g, e).value.TOption?
  }

  predicate Numeric(op: BinOp) {
    !op.Eq? && !op.Ne? && !op.And? && !op.Or?
  }

  // ----- environments -----

  function Refs(k: nat, t: RTy): RTy {
    if k == 0 then t else RRef(Refs(k - 1, t))
  }

  ghost predicate NameTyped(self: map<string, RTy>, d: RTypes, b: Binding, t: Ty) {
    && RustType(t).Some?
    && match b
       case SelfFeature(ident, _, _) => ident in self && self[ident] == RustType(t).value
       case Local(v, _) => Lookup(d, Bare(v)) == RustType(t)
       case ClosureParam(v, _, k) => Lookup(d, Bare(v)) == Some(Refs(k, RustType(t).value))
  }

  /** Every name in scope denotes a Rust place of its type, but for the features of
      the surrounding class that are stored otherwise. */
  ghost predicate EnvTyped(self: map<string, RTy>, g: Types, scope: Scope, d: RTypes) {
    && Mirror(g, scope)
    && Lookup(d, RES).None?
    && forall x :: Lookup(g, x).Some? ==> PlaceTyped(self, d, Lookup(scope, x), Lookup(g, x).value)
  }

  ghost predicate PlaceTyped(self: map<string, RTy>, d: RTypes, b: Option<Binding>, t: Ty) {
    b.Some? && (Misfit(b.value, t) || NameTyped(self, d, b.value, t))
  }

  lemma LookupPush<T>(s: seq<(string, T)>, x: string, v: T, y: string)
    ensures Lookup(s + [(x, v)], y) == if y == x then Some(v) else Lookup(s, y)
  {
    assert (s + [(x, v)])[..|s|] == s;
  }

  lemma {:induction false} LookupMirror(g: Types, scope: Scope, x: string)
    requires Mirror(g, scope)
    ensures Lookup(g, x).Some? <==> Lookup(scope, x).Some?
    ensures Lookup(g, x).Some? ==> Lookup(scope, x).value.copy == IsCopy(Lookup(g, x).value)
  {
    if g != [] {
      LookupMirror(g[..|g| - 1], scope[..|g| - 1], x);
    }
  }

  lemma {:induction false} LookupEntry<T>(s: seq<(string, T)>, x: string) returns (i: nat)
    requires Lookup(s, x).Some?
    ensures i < |s| && s[i] == (x, Lookup(s, x).value)
  {
    if s[|s| - 1].0 == x {
      i := |s| - 1;
    } else {
      i := LookupEntry(s[..|s| - 1], x);
    }
  }

  /** A binder that captures nothing keeps every other name where it was. */
  lemma EnvTypedPush(self: map<string, RTy>, g: Types, scope: Scope, d: RTypes, x: string, t: Ty, b: Binding, rt: RTy)
    requires EnvTyped(self, g, scope, d) && NoCapture(scope, x)
    requires !b.SelfFeature? && b.variable == RustIdent(x) && b.copy == IsCopy(t) && RustType(t).Some?
    requires rt == if b.ClosureParam? then Refs(b.refs, RustType(t).value) else RustType(t).value
    ensures EnvTyped(self, g + [(x, t)], scope + [(x, b)], d + [(Bare(RustIdent(x)), rt)])
  {
    hide RustName, Binder, RustIdent, Bare;
    var v := Bare(RustIdent(x));
    var g', scope', d' := g + [(x, t)], scope + [(x, b)], d + [(v, rt)];
    LookupPush(d, v, rt, RES);
    forall y | Lookup(g', y).Some?
      ensures PlaceTyped(self, d', Lookup(scope', y), Lookup(g', y).value)
    {
      LookupPush(g, x, t, y);
      LookupPush(scope, x, b, y);
      if y == x {
        LookupPush(d, v, rt, v);
      } else {
        var bound := Lookup(scope, y).value;
        if !bound.SelfFeature? {
          var i := LookupEntry(scope, y);
          LookupPush(d, v, rt, Bare(bound.variable));
        }
      }
    }
  }

  // ----- small facts -----

  lemma KeywordsAreBare(x: string)
    requires Keyword(x)
    ensures NoHash(x)
  {
    hide KeywordToE, KeywordToM, KeywordFromN, TypeWord, NoHash;
    if KeywordToE(x) {
      EarlyWords(x);
    } else if KeywordToM(x) {
      MiddleWords(x);
    } else if KeywordFromN(x) {
      LateWords(x);
    } else {
      TypeWords(x);
    }
  }

  predicate NoHash(x: string) {
    |x| >= 2 && x[1] != '#'
  }

  lemma EarlyWords(x: string)
    requires KeywordToE(x)
    ensures NoHash(x)
  {}

  lemma MiddleWords(x: string)
    requires KeywordToM(x)
    ensures NoHash(x)
  {}

  lemma LateWords(x: string)
    requires KeywordFromN(x)
    ensures NoHash(x)
  {}

  lemma TypeWords(x: string)
    requires TypeWord(x)
    ensures NoHash(x)
  {}

  /** `r#` makes no other name. */
  lemma BareIdent(x: string)
    ensures Bare(RustIdent(x)) == Bare(x)
  {
    hide Keyword;
    if Keyword(x) {
      KeywordsAreBare(x);
      EscapedIsBare(x);
    }
  }

  lemma EscapedIsBare(x: string)
    requires |x| >= 2 && x[1] != '#'
    ensures Bare("r#" + x) == x == Bare(x)
  {
    assert ("r#" + x)[2..] == x && "r#"[1] == '#';
  }

  lemma {:induction false} CopyAgrees(t: Ty)
    requires RustType(t).Some?
    ensures IsCopyR(RustType(t).value) == IsCopy(t)
    ensures !RustType(t).value.RRef? && !RustType(t).value.RSlice?
  {
    if t.TOption? {
      CopyAgrees(t.some);
    }
  }

  lemma {:induction false} RustTypeInjective(t: Ty, t': Ty)
    requires RustType(t).Some? && RustType(t) == RustType(t')
    ensures t == t'
  {
    match t
    case TList(a) => RustTypeInjective(a, t'.elem);
    case TOption(a) => RustTypeInjective(a, t'.some);
    case _ =>
  }

  lemma {:induction false} DerefsPlace(self: map<string, RTy>, d: RTypes, v: string, k: nat, t: RTy)
    requires RustName(v) && Lookup(d, Bare(v)) == Some(Refs(k, t))
    ensures PlaceType(self, d, Derefs(k, Var(v))) == Some(t)
  {
    if k > 0 {
      DerefsPlaceFrom(self, d, v, k, k, t);
    }
  }

  lemma {:induction false} DerefsPlaceFrom(self: map<string, RTy>, d: RTypes, v: string, n: nat, k: nat, t: RTy)
    requires RustName(v) && Lookup(d, Bare(v)) == Some(Refs(k, t)) && n <= k
    ensures PlaceType(self, d, Derefs(n, Var(v))) == Some(Refs(k - n, t))
  {
    hide RustName, Bare, Lookup;
    if n > 0 {
      DerefsPlaceFrom(self, d, v, n - 1, k, t);
    }
  }

  lemma NameHasType(m: Model, self: map<string, RTy>, d: RTypes, b: Binding, t: Ty)
    requires NameTyped(self, d, b, t) && b.copy == IsCopy(t) && Lookup(d, RES).None? && Sayable(Some(b))
    ensures RType(m, self, d, LowerName(b)) == RustType(t)
    ensures LowerName(b).Deref? <==> b.ClosureParam? && b.copy && b.refs > 0
    ensures !LowerName(b).LenAsI32?
  {
    hide RustName, Bare;
    CopyAgrees(t);
    match b
    case ClosureParam(v, _, k) => DerefsPlace(self, d, v, k, RustType(t).value);
    case Local(v, copy) =>
    case SelfFeature(_, _, _) =>
  }

  lemma FeatureHasType(m: Model, cls: string, feature: string)
    requires ModelOk(m) && (cls, feature) in m && !RequiredReference(m[(cls, feature)])
    ensures var decl := m[(cls, feature)];
            var (cloned, option) := FieldShape(decl);
            && RustType(FeatureType(decl)).Some?
            && ShapeType(m, cls, feature, cloned) == RustType(FeatureType(decl))
            && option == FeatureType(decl).TOption?
  {
    assert DeclOk(m[(cls, feature)]);
    CopyAgrees(m[(cls, feature)].base);
  }

  /** The type a tree is lowered at: its own, or long for a literal beside a long. */
  predicate LoweredAt(m: Model, g: Types, e: Expr, t: Ty) {
    TypeOf(m, g, e) == Some(t) || (e.Int? && t.TLong? && e.n < 0x8000_0000_0000_0000)
  }

  /** A typed, hygienic tree in a scope whose names are in place. */
  ghost predicate Setting(m: Model, self: map<string, RTy>, g: Types, scope: Scope, d: RTypes, e: Expr, t: Ty) {
    ModelOk(m) && EnvTyped(self, g, scope, d) && Hygienic(m, g, scope, e) && LoweredAt(m, g, e, t)
  }

  /** The outcome the theorem is about: the tree lowers, at exactly its type. */
  ghost predicate Accepted(m: Model, self: map<string, RTy>, g: Types, scope: Scope, d: RTypes, e: Expr, t: Ty) {
    Lower(m, g, scope, e, t).Ok? && RustType(t).Some? && RType(m, self, d, Lower(m, g, scope, e, t).value) == RustType(t)
  }
}

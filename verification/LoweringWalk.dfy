/** The walk that lowers: one object whose scope and checker are pushed and popped as
    it descends. Its answer is the lowering function's, and on success both are back
    where they were. */
module LoweringWalk {
  import opened Common
  import opened E = Expr
  import opened RustTarget
  import opened Lowering

  class Lowerer {
    const m: Model
    var checker: Types
    var scope: Scope

    constructor (m: Model, checker: Types, scope: Scope)
      ensures this.m == m && this.checker == checker && this.scope == scope
    {
      this.m, this.checker, this.scope := m, checker, scope;
    }

    method TypeOfNow(e: Expr) returns (t: Option<Ty>)
      ensures t == TypeOf(m, checker, e)
    {
      t := TypeOf(m, checker, e);
    }

    method LowerExpr(e: Expr, t: Ty) returns (r: Result<RExpr, LowerError>)
      modifies `checker, `scope
      ensures r == Lower(m, old(checker), old(scope), e, t)
      ensures r.Ok? ==> checker == old(checker) && scope == old(scope)
      decreases e, 1
    {
      match e {
        case Int(n) => r := Ok(IntLit(n, t.TLong?));
        case Str(s) => r := Ok(OwnedStr(s));
        case Boolean(b) => r := Ok(BoolLit(b));
        case NullLit => r := Err(NullNotAllowed);
        case Name(x) => r := LowerNamed(e);
        case Unary(_, _) => r := LowerUnary(e, t);
        case Binary(op, _, _) =>
          if op.Eq? || op.Ne? {
            r := LowerEqual(e, t);
          } else {
            r := LowerOperator(e, t);
          }
        case FeatureAccess(_, _, _) => r := LowerAccess(e, t);
        case Algebra(_, _, _, _) => r := LowerAlgebra(e, t);
        case Coalesce(_, _) => r := LowerCoalesce(e, t);
        case If(_, _, _) => r := LowerIf(e, t);
        case Let(_, _, _) => r := LowerLet(e, t);
        case ListLiteral(_) => r := LowerList(e, t);
      }
    }

    method LowerAtType(e: Expr) returns (r: Result<RExpr, LowerError>)
      modifies `checker, `scope
      ensures r == LowerTyped(m, old(checker), old(scope), e)
      ensures r.Ok? ==> checker == old(checker) && scope == old(scope)
      decreases e, 2
    {
      hide TypeOf;
      var t := TypeOfNow(e);
      if t.None? { return Err(NotTyped); }
      r := LowerExpr(e, t.value);
    }

    method LowerNamed(e: Expr) returns (r: Result<RExpr, LowerError>)
      requires e.Name?
      ensures forall t :: r == Lower(m, checker, scope, e, t)
    {
      var i := |scope|;
      assert scope[..i] == scope;
      while i > 0
        invariant 0 <= i <= |scope|
        invariant Lookup(scope, e.x) == Lookup(scope[..i], e.x)
      {
        assert scope[..i][..i - 1] == scope[..i - 1];
        if scope[i - 1].0 == e.x { return Ok(LowerName(scope[i - 1].1)); }
        i := i - 1;
      }
      return Err(UnknownName);
    }

    method LowerUnary(e: Expr, t: Ty) returns (r: Result<RExpr, LowerError>)
      requires e.Unary?
      modifies `checker, `scope
      ensures r == Lower(m, old(checker), old(scope), e, t)
      ensures r.Ok? ==> checker == old(checker) && scope == old(scope)
      decreases e, 0
    {
      hide TypeOf, LowerTyped;
      var code := LowerAtType(e.inner);
      if code.Err? { return code; }
      r := Ok(if e.uop.Not? then NotE(code.value) else NegE(code.value));
    }

    method LowerIf(e: Expr, t: Ty) returns (r: Result<RExpr, LowerError>)
      requires e.If?
      modifies `checker, `scope
      ensures r == Lower(m, old(checker), old(scope), e, t)
      ensures r.Ok? ==> checker == old(checker) && scope == old(scope)
      decreases e, 0
    {
      hide TypeOf, LowerTyped;
      var c := LowerAtType(e.cond);
      if c.Err? { return c; }
      var a := LowerAtType(e.then_);
      if a.Err? { return a; }
      var b := LowerAtType(e.else_);
      if b.Err? { return b; }
      r := Ok(IfE(c.value, a.value, b.value));
    }

    /** The scope and the checker grow together around the body. */
    method LowerLet(e: Expr, t: Ty) returns (r: Result<RExpr, LowerError>)
      requires e.Let?
      modifies `checker, `scope
      ensures r == Lower(m, old(checker), old(scope), e, t)
      ensures r.Ok? ==> checker == old(checker) && scope == old(scope)
      decreases e, 0
    {
      hide TypeOf, RustIdent, IsCopy;
      var it := TypeOfNow(e.init);
      if it.None? { return Err(NotTyped); }
      var code := LowerExpr(e.init, it.value);
      if code.Err? { return code; }
      scope := scope + [(e.name, Local(RustIdent(e.name), IsCopy(it.value)))];
      var saved := checker;
      checker := saved + [(e.name, it.value)];
      var body := LowerExpr(e.body, t);
      if body.Err? { return body; }
      checker := saved;
      scope := scope[..|scope| - 1];
      assert scope == old(scope);
      r := Ok(LetE(RustIdent(e.name), code.value, body.value));
    }

    method WithClosureParam(param: string, elem: Ty, body: Expr, refs: nat) returns (r: Result<RExpr, LowerError>)
      modifies `checker, `scope
      ensures r == LowerLambda(m, old(checker), old(scope), param, elem, body, refs)
      ensures r.Ok? ==> checker == old(checker) && scope == old(scope)
      decreases body, 3
    {
      hide TypeOf, RustIdent, IsCopy, LowerTyped;
      scope := scope + [(param, ClosureParam(RustIdent(param), IsCopy(elem), refs))];
      var saved := checker;
      checker := saved + [(param, elem)];
      r := LowerAtType(body);
      if r.Err? { return r; }
      checker := saved;
      scope := scope[..|scope| - 1];
      assert scope == old(scope);
    }

    method LowerAlgebra(e: Expr, t: Ty) returns (r: Result<RExpr, LowerError>)
      requires e.Algebra?
      modifies `checker, `scope
      ensures r == Lower(m, old(checker), old(scope), e, t)
      ensures r.Ok? ==> checker == old(checker) && scope == old(scope)
      decreases e, 0
    {
      hide TypeOf, RustIdent, IsCopy, LowerLambda, Post;
      var lt := TypeOfNow(e.list);
      if lt.None? { return Err(NotTyped); }
      if !lt.value.TList? { return Err(NotAList); }
      var elem := lt.value.elem;
      var list := LowerExpr(e.list, lt.value);
      if list.Err? { return list; }
      var body: Result<RExpr, LowerError> := Err(LambdaMissing);
      if e.lambda.Some? && !e.kind.Size? && !e.kind.Sum? {
        body := WithClosureParam(e.lambda.value.param, elem, e.lambda.value.body, if e.kind.First? || e.kind.Filter? then 2 else 1);
      }
      var out := AlgebraCode(e.kind, elem, e.lambda, list.value, body);
      if out.Err? { return out; }
      r := Ok(if e.optional && !e.kind.First? then SomeE(out.value) else out.value);
    }

    method LowerAccess(e: Expr, t: Ty) returns (r: Result<RExpr, LowerError>)
      requires e.FeatureAccess?
      modifies `checker, `scope
      ensures r == Lower(m, old(checker), old(scope), e, t)
      ensures r.Ok? ==> checker == old(checker) && scope == old(scope)
      decreases e, 0
    {
      hide TypeOf, AccessCode;
      var rt := TypeOfNow(e.receiver);
      if rt.None? { return Err(NotTyped); }
      var target := if rt.value.TOption? then rt.value.some else rt.value;
      if !target.TClass? || (target.name, e.feature) !in m { return Err(UnknownFeature); }
      var recv := LowerExpr(e.receiver, rt.value);
      if recv.Err? { return recv; }
      r := Ok(AccessCode(target.name, e.feature, m[(target.name, e.feature)], recv.value, rt.value.TOption?, e.safe));
    }

    /** The default is lowered before the value. */
    method LowerCoalesce(e: Expr, t: Ty) returns (r: Result<RExpr, LowerError>)
      requires e.Coalesce?
      modifies `checker, `scope
      ensures r == Lower(m, old(checker), old(scope), e, t)
      ensures r.Ok? ==> checker == old(checker) && scope == old(scope)
      decreases e, 0
    {
      hide TypeOf, OperandTy, Post, LowerTyped;
      var vt := TypeOfNow(e.value);
      if vt.None? { return Err(NotTyped); }
      if vt.value.TNull? {
        r := LowerAtType(e.fallback);
        return;
      }
      var ft := OperandTy(m, checker, e.fallback, vt.value == TOption(TLong));
      if ft.None? { return Err(NotTyped); }
      var d := LowerExpr(e.fallback, ft.value);
      if d.Err? { return d; }
      var v := LowerExpr(e.value, vt.value);
      if v.Err? { return v; }
      r := Ok(Post(v.value, v' => UnwrapOr(v', d.value)));
    }

    method LowerOperator(e: Expr, t: Ty) returns (r: Result<RExpr, LowerError>)
      requires e.Binary? && !e.op.Eq? && !e.op.Ne?
      modifies `checker, `scope
      ensures r == Lower(m, old(checker), old(scope), e, t)
      ensures r.Ok? ==> checker == old(checker) && scope == old(scope)
      decreases e, 0
    {
      hide TypeOf, OperandTy, ConcatCode, IsStringOperand;
      var lt := TypeOfNow(e.lhs);
      if lt.None? { return Err(NotTyped); }
      var rt := OperandTy(m, checker, e.rhs, lt == Some(TLong));
      if rt.None? { return Err(NotTyped); }
      var l := LowerExpr(e.lhs, lt.value);
      if l.Err? { return l; }
      var rc := LowerExpr(e.rhs, rt.value);
      if rc.Err? { return rc; }
      r := Ok(if e.op.Add? && (IsStringOperand(lt.value) || IsStringOperand(rt.value))
              then ConcatCode(lt.value, rt.value, l.value, rc.value) else Bin(e.op, l.value, rc.value));
    }

    method LowerEqual(e: Expr, t: Ty) returns (r: Result<RExpr, LowerError>)
      requires e.Binary? && (e.op.Eq? || e.op.Ne?)
      modifies `checker, `scope
      ensures r == Lower(m, old(checker), old(scope), e, t)
      ensures r.Ok? ==> checker == old(checker) && scope == old(scope)
      decreases e, 0
    {
      hide TypeOf, OperandTy, StripLiteral, AgainstNull;
      assert Lower(m, checker, scope, e, t) == LowerEquality(m, checker, scope, e.op, e.lhs, e.rhs);
      if e.lhs.NullLit? && e.rhs.NullLit? { return Ok(BoolLit(e.op.Eq?)); }
      if e.lhs.NullLit? || e.rhs.NullLit? {
        var compared := if e.rhs.NullLit? then e.lhs else e.rhs;
        var ct := TypeOfNow(compared);
        if ct.None? { return Err(NotTyped); }
        var code := LowerExpr(compared, ct.value);
        if code.Err? { return code; }
        return Ok(AgainstNull(e.op, ct.value, code.value));
      }
      var lt := TypeOfNow(e.lhs);
      if lt.None? { return Err(NotTyped); }
      var rt := OperandTy(m, checker, e.rhs, lt == Some(TLong));
      if rt.None? { return Err(NotTyped); }
      var l := LowerExpr(e.lhs, lt.value);
      if l.Err? { return l; }
      var rc := LowerExpr(e.rhs, rt.value);
      if rc.Err? { return rc; }
      r := Ok(Bin(e.op, StripLiteral(e.lhs, l.value), StripLiteral(e.rhs, rc.value)));
    }

    /** The first item fixes the element type; the later ones adapt to it. */
    method LowerList(e: Expr, t: Ty) returns (r: Result<RExpr, LowerError>)
      requires e.ListLiteral?
      modifies `checker, `scope
      ensures r == Lower(m, old(checker), old(scope), e, t)
      ensures r.Ok? ==> checker == old(checker) && scope == old(scope)
      decreases e, 0
    {
      hide TypeOf, LowerItems;
      var items := e.items;
      if items == [] { return Err(EmptyList); }
      var et := TypeOfNow(items[0]);
      if et.None? { return Err(NotTyped); }
      var first := LowerExpr(items[0], et.value);
      if first.Err? { return first; }
      var rest := LowerRest(items[1..], et.value.TLong?);
      if rest.Err? { return Err(rest.error); }
      r := Ok(VecE([first.value] + rest.value));
    }

    method LowerRest(items: seq<Expr>, long: bool) returns (r: Result<seq<RExpr>, LowerError>)
      modifies `checker, `scope
      ensures r == LowerItems(m, old(checker), old(scope), items, long)
      ensures r.Ok? ==> checker == old(checker) && scope == old(scope)
      decreases items, 2
    {
      hide TypeOf, OperandTy, Lower;
      ghost var goal := LowerItems(m, checker, scope, items, long);
      var parts: seq<RExpr> := [];
      assert items[0..] == items && (goal.Ok? ==> [] + goal.value == goal.value);
      for i := 0 to |items|
        invariant checker == old(checker) && scope == old(scope)
        invariant var rest := LowerItems(m, checker, scope, items[i..], long);
                  goal == if rest.Ok? then Ok(parts + rest.value) else rest
      {
        assert items[i..][0] == items[i] && items[i..][1..] == items[i + 1..];
        var it := OperandTy(m, checker, items[i], long);
        if it.None? { return Err(NotTyped); }
        ghost var rest := LowerItems(m, checker, scope, items[i + 1..], long);
        var code := LowerExpr(items[i], it.value);
        if code.Err? { return Err(code.error); }
        if rest.Ok? {
          assert parts + ([code.value] + rest.value) == (parts + [code.value]) + rest.value;
        }
        parts := parts + [code.value];
      }
      assert LowerItems(m, checker, scope, items[|items|..], long) == Ok([]) && parts + [] == parts;
      r := Ok(parts);
    }
  }
}

/** The two evaluators, one shape of tree at a time. */
module EvalRules {
  import opened Common
  import opened E = Expr
  import opened RustTarget

  // ----- the Rust side -----

  lemma RNot(h: Heap, self: map<string, Value>, d: REnv, e: RExpr)
    ensures var v := REval(h, self, d, e);
            REval(h, self, d, NotE(e)) == if v.Some? && v.value.B? then Some(B(!v.value.b)) else None
  {
    hide Bare, Lookup, ReadField, RustBin, Negate, SumFrom, Wrap32, REvalItems, REvalFind, REvalFilter, REvalMap,
      REvalAny, CloneValue, DerefValue, NegValue, BinValue, IsNoneValue, UnwrapValue, SomeValue, FormatValue, ZipValue,
      FieldValue, ThroughValue, FirstValue, LenValue, SumValue;
  }

  lemma RNeg(h: Heap, self: map<string, Value>, d: REnv, e: RExpr)
    ensures var v := REval(h, self, d, e);
            REval(h, self, d, NegE(e)) == if v.Some? then Negate(v.value) else None
  {
    hide Bare, Lookup, ReadField, RustBin, Negate, SumFrom, Wrap32, REvalItems, REvalFind, REvalFilter, REvalMap,
      REvalAny, CloneValue, DerefValue, NotValue, BinValue, IsNoneValue, UnwrapValue, SomeValue, FormatValue, ZipValue,
      FieldValue, ThroughValue, FirstValue, LenValue, SumValue;
  }

  lemma RBin(h: Heap, self: map<string, Value>, d: REnv, op: BinOp, l: RExpr, r: RExpr)
    ensures var a, b := REval(h, self, d, l), REval(h, self, d, r);
            REval(h, self, d, Bin(op, l, r))
            == if a.None? then None
               else if (op.And? && a.value == B(false)) || (op.Or? && a.value == B(true)) then a
               else if b.None? then None
               else RustBin(op, a.value, b.value)
  {
    hide Bare, Lookup, ReadField, RustBin, Negate, SumFrom, Wrap32, REvalItems, REvalFind, REvalFilter, REvalMap,
      REvalAny, CloneValue, DerefValue, NotValue, NegValue, IsNoneValue, UnwrapValue, SomeValue, FormatValue, ZipValue,
      FieldValue, ThroughValue, FirstValue, LenValue, SumValue;
  }

  lemma RIsNone(h: Heap, self: map<string, Value>, d: REnv, e: RExpr)
    ensures var v := REval(h, self, d, e);
            REval(h, self, d, IsNone(e)) == if v.Some? && v.value.Opt? then Some(B(v.value.v.None?)) else None
  {
    hide Bare, Lookup, ReadField, RustBin, Negate, SumFrom, Wrap32, REvalItems, REvalFind, REvalFilter, REvalMap,
      REvalAny, CloneValue, DerefValue, NotValue, NegValue, BinValue, UnwrapValue, SomeValue, FormatValue, ZipValue,
      FieldValue, ThroughValue, FirstValue, LenValue, SumValue;
  }

  lemma RUnwrap(h: Heap, self: map<string, Value>, d: REnv, e: RExpr, f: RExpr)
    ensures var v, w := REval(h, self, d, e), REval(h, self, d, f);
            REval(h, self, d, UnwrapOr(e, f))
            == if v.Some? && v.value.Opt? && w.Some? then Some(if v.value.v.Some? then v.value.v.value else w.value) else None
  {
    hide Bare, Lookup, ReadField, RustBin, Negate, SumFrom, Wrap32, REvalItems, REvalFind, REvalFilter, REvalMap,
      REvalAny, CloneValue, DerefValue, NotValue, NegValue, BinValue, IsNoneValue, SomeValue, FormatValue, ZipValue,
      FieldValue, ThroughValue, FirstValue, LenValue, SumValue;
  }

  lemma RSomeParts(h: Heap, self: map<string, Value>, d: REnv, e: RExpr)
    ensures REval(h, self, d, SomeE(e)) == SomeValue(REval(h, self, d, e))
  {
    hide Bare, Lookup, ReadField, RustBin, Negate, SumFrom, Wrap32, REvalItems, REvalFind, REvalFilter, REvalMap,
      REvalAny, CloneValue, DerefValue, NotValue, NegValue, BinValue, IsNoneValue, UnwrapValue, FormatValue, ZipValue,
      FieldValue, ThroughValue, FirstValue, LenValue, SumValue, SomeValue;
  }

  lemma RSome(h: Heap, self: map<string, Value>, d: REnv, e: RExpr)
    ensures var v := REval(h, self, d, e);
            REval(h, self, d, SomeE(e)) == if v.Some? then Some(Opt(Some(v.value))) else None
  {
    hide REval;
    RSomeParts(h, self, d, e);
  }

  lemma RFormat(h: Heap, self: map<string, Value>, d: REnv, l: RExpr, r: RExpr)
    ensures var a, b := REval(h, self, d, l), REval(h, self, d, r);
            REval(h, self, d, Format(l, r))
            == if a.Some? && a.value.S? && b.Some? && b.value.S? then Some(S(a.value.s + b.value.s)) else None
  {
    hide Bare, Lookup, ReadField, RustBin, Negate, SumFrom, Wrap32, REvalItems, REvalFind, REvalFilter, REvalMap,
      REvalAny, CloneValue, DerefValue, NotValue, NegValue, BinValue, IsNoneValue, UnwrapValue, SomeValue, ZipValue,
      FieldValue, ThroughValue, FirstValue, LenValue, SumValue;
  }

  predicate MaybeString(v: Value) {
    v.Opt? && (v.v.Some? ==> v.v.value.S?)
  }

  lemma RZipParts(h: Heap, self: map<string, Value>, d: REnv, l: RExpr, r: RExpr)
    ensures REval(h, self, d, ZipFormat(l, r)) == ZipValue(REval(h, self, d, l), REval(h, self, d, r))
  {
    hide Bare, Lookup, ReadField, RustBin, Negate, SumFrom, Wrap32, REvalItems, REvalFind, REvalFilter, REvalMap,
      REvalAny, CloneValue, DerefValue, NotValue, NegValue, BinValue, IsNoneValue, UnwrapValue, SomeValue, FormatValue,
      FieldValue, ThroughValue, FirstValue, LenValue, SumValue, ZipValue;
  }

  lemma RZip(h: Heap, self: map<string, Value>, d: REnv, l: RExpr, r: RExpr)
    ensures var a, b := REval(h, self, d, l), REval(h, self, d, r);
            a.Some? && b.Some? && MaybeString(a.value) && MaybeString(b.value) ==>
              REval(h, self, d, ZipFormat(l, r))
              == Some(Opt(if a.value.v.Some? && b.value.v.Some? then Some(S(a.value.v.value.s + b.value.v.value.s)) else None))
  {
    hide REval;
    RZipParts(h, self, d, l, r);
  }

  lemma RLookup(h: Heap, self: map<string, Value>, d: REnv, cls: string, id: RExpr, field: string, cloned: bool)
    ensures var v := REval(h, self, d, id);
            REval(h, self, d, LookupField(cls, id, field, cloned)) == if v.Some? then ReadField(h, d, cls, v.value, field) else None
  {
    hide Bare, Lookup, ReadField, RustBin, Negate, SumFrom, Wrap32, REvalItems, REvalFind, REvalFilter, REvalMap,
      REvalAny, CloneValue, DerefValue, NotValue, NegValue, BinValue, IsNoneValue, UnwrapValue, SomeValue, FormatValue,
      ZipValue, ThroughValue, FirstValue, LenValue, SumValue;
  }

  lemma RAndThen(h: Heap, self: map<string, Value>, d: REnv, cls: string, id: RExpr, field: string, cloned: bool, flatten: bool)
    ensures var v := REval(h, self, d, id);
            v.Some? && v.value.Opt? ==>
              REval(h, self, d, AndThenField(cls, id, field, cloned, flatten))
              == if v.value.v.None? then Some(Opt(None))
                 else
                   var w := ReadField(h, d, cls, v.value.v.value, field);
                   if w.None? then Some(Opt(None)) else Some(if flatten then w.value else Opt(w))
  {
    hide Bare, Lookup, ReadField, RustBin, Negate, SumFrom, Wrap32, REvalItems, REvalFind, REvalFilter, REvalMap,
      REvalAny, CloneValue, DerefValue, NotValue, NegValue, BinValue, IsNoneValue, UnwrapValue, SomeValue, FormatValue,
      ZipValue, FieldValue, FirstValue, LenValue, SumValue;
  }

  lemma RFind(h: Heap, self: map<string, Value>, d: REnv, list: RExpr, vs: seq<Value>, param: string, body: RExpr, copied: bool)
    requires REval(h, self, d, list) == Some(Seq(vs))
    ensures REval(h, self, d, IterFind(list, param, body, copied)) == REvalFind(h, self, d, param, body, vs)
  {
    hide Bare, Lookup, ReadField, RustBin, Negate, SumFrom, Wrap32, REvalItems, REvalFind, REvalFilter, REvalMap,
      REvalAny, CloneValue, DerefValue, NotValue, NegValue, BinValue, IsNoneValue, UnwrapValue, SomeValue, FormatValue,
      ZipValue, FieldValue, ThroughValue, FirstValue, LenValue, SumValue;
  }

  lemma RFilter(h: Heap, self: map<string, Value>, d: REnv, list: RExpr, vs: seq<Value>, param: string, body: RExpr, copied: bool)
    requires REval(h, self, d, list) == Some(Seq(vs))
    ensures REval(h, self, d, IterFilter(list, param, body, copied)) == REvalFilter(h, self, d, param, body, vs)
  {
    hide Bare, Lookup, ReadField, RustBin, Negate, SumFrom, Wrap32, REvalItems, REvalFind, REvalFilter, REvalMap,
      REvalAny, CloneValue, DerefValue, NotValue, NegValue, BinValue, IsNoneValue, UnwrapValue, SomeValue, FormatValue,
      ZipValue, FieldValue, ThroughValue, FirstValue, LenValue, SumValue;
  }

  lemma RMap(h: Heap, self: map<string, Value>, d: REnv, list: RExpr, vs: seq<Value>, param: string, body: RExpr)
    requires REval(h, self, d, list) == Some(Seq(vs))
    ensures REval(h, self, d, IterMap(list, param, body)) == REvalMap(h, self, d, param, body, vs)
  {
    hide Bare, Lookup, ReadField, RustBin, Negate, SumFrom, Wrap32, REvalItems, REvalFind, REvalFilter, REvalMap,
      REvalAny, CloneValue, DerefValue, NotValue, NegValue, BinValue, IsNoneValue, UnwrapValue, SomeValue, FormatValue,
      ZipValue, FieldValue, ThroughValue, FirstValue, LenValue, SumValue;
  }

  lemma RAny(h: Heap, self: map<string, Value>, d: REnv, list: RExpr, vs: seq<Value>, param: string, body: RExpr)
    requires REval(h, self, d, list) == Some(Seq(vs))
    ensures REval(h, self, d, IterAny(list, param, body)) == REvalAny(h, self, d, param, body, vs)
  {
    hide Bare, Lookup, ReadField, RustBin, Negate, SumFrom, Wrap32, REvalItems, REvalFind, REvalFilter, REvalMap,
      REvalAny, CloneValue, DerefValue, NotValue, NegValue, BinValue, IsNoneValue, UnwrapValue, SomeValue, FormatValue,
      ZipValue, FieldValue, ThroughValue, FirstValue, LenValue, SumValue;
  }

  lemma RFirst(h: Heap, self: map<string, Value>, d: REnv, list: RExpr, vs: seq<Value>, copied: bool)
    requires REval(h, self, d, list) == Some(Seq(vs))
    ensures REval(h, self, d, FirstElem(list, copied)) == Some(Opt(if vs == [] then None else Some(vs[0])))
  {
    hide Bare, Lookup, ReadField, RustBin, Negate, SumFrom, Wrap32, REvalItems, REvalFind, REvalFilter, REvalMap,
      REvalAny, CloneValue, DerefValue, NotValue, NegValue, BinValue, IsNoneValue, UnwrapValue, SomeValue, FormatValue,
      ZipValue, FieldValue, ThroughValue, LenValue, SumValue;
  }

  lemma RLen(h: Heap, self: map<string, Value>, d: REnv, list: RExpr, vs: seq<Value>)
    requires REval(h, self, d, list) == Some(Seq(vs))
    ensures REval(h, self, d, LenAsI32(list)) == Some(I32(Wrap32(|vs|)))
  {
    hide Bare, Lookup, ReadField, RustBin, Negate, SumFrom, Wrap32, REvalItems, REvalFind, REvalFilter, REvalMap,
      REvalAny, CloneValue, DerefValue, NotValue, NegValue, BinValue, IsNoneValue, UnwrapValue, SomeValue, FormatValue,
      ZipValue, FieldValue, ThroughValue, FirstValue, SumValue;
  }

  lemma RSum(h: Heap, self: map<string, Value>, d: REnv, list: RExpr, vs: seq<Value>, wide: bool)
    requires REval(h, self, d, list) == Some(Seq(vs))
    ensures REval(h, self, d, IterSum(list, wide)) == SumFrom(if wide then I64(0) else I32(0), vs)
  {
    hide Bare, Lookup, ReadField, RustBin, Negate, SumFrom, Wrap32, REvalItems, REvalFind, REvalFilter, REvalMap,
      REvalAny, CloneValue, DerefValue, NotValue, NegValue, BinValue, IsNoneValue, UnwrapValue, SomeValue, FormatValue,
      ZipValue, FieldValue, ThroughValue, FirstValue, LenValue;
  }

  lemma RIf(h: Heap, self: map<string, Value>, d: REnv, c: RExpr, t: RExpr, e: RExpr)
    ensures var b := REval(h, self, d, c);
            REval(h, self, d, IfE(c, t, e))
            == if b.Some? && b.value.B? then (if b.value.b then REval(h, self, d, t) else REval(h, self, d, e)) else None
  {
    hide Bare, Lookup, ReadField, RustBin, Negate, SumFrom, Wrap32, REvalItems, REvalFind, REvalFilter, REvalMap,
      REvalAny, CloneValue, DerefValue, NotValue, NegValue, BinValue, IsNoneValue, UnwrapValue, SomeValue, FormatValue,
      ZipValue, FieldValue, ThroughValue, FirstValue, LenValue, SumValue;
  }

  lemma RLet(h: Heap, self: map<string, Value>, d: REnv, x: string, init: RExpr, body: RExpr)
    ensures var v := REval(h, self, d, init);
            REval(h, self, d, LetE(x, init, body)) == if v.Some? then REval(h, self, d + [(Bare(x), v.value)], body) else None
  {
    hide Bare, Lookup, ReadField, RustBin, Negate, SumFrom, Wrap32, REvalItems, REvalFind, REvalFilter, REvalMap,
      REvalAny, CloneValue, DerefValue, NotValue, NegValue, BinValue, IsNoneValue, UnwrapValue, SomeValue, FormatValue,
      ZipValue, FieldValue, ThroughValue, FirstValue, LenValue, SumValue;
  }

  lemma RVecItems(h: Heap, self: map<string, Value>, d: REnv, items: seq<RExpr>)
    ensures var vs := REvalItems(h, self, d, items);
            REval(h, self, d, VecE(items)) == if vs.Some? then Some(Seq(vs.value)) else None
  {
    hide Bare, Lookup, ReadField, RustBin, Negate, SumFrom, Wrap32, REvalItems, REvalFind, REvalFilter, REvalMap,
      REvalAny, CloneValue, DerefValue, NotValue, NegValue, BinValue, IsNoneValue, UnwrapValue, SomeValue, FormatValue,
      ZipValue, FieldValue, ThroughValue, FirstValue, LenValue, SumValue;
  }

  lemma RItems(h: Heap, self: map<string, Value>, d: REnv, items: seq<RExpr>)
    requires items != []
    ensures var v, vs := REval(h, self, d, items[0]), REvalItems(h, self, d, items[1..]);
            REvalItems(h, self, d, items) == if v.Some? && vs.Some? then Some([v.value] + vs.value) else None
  {
    hide REval;
  }

  // ----- the source side -----

  /** The operand types of a binary operator, when both are known. */
  lemma EvalBinary(m: Model, h: Heap, g: Types, env: seq<Value>, e: Expr, t: Ty, lt: Ty, rt: Ty)
    requires |env| == |g| && e.Binary? && !((e.op.Eq? || e.op.Ne?) && (e.lhs.NullLit? || e.rhs.NullLit?))
    requires OperandType(m, g, e.lhs, TypeOf(m, g, e.rhs)) == Some(lt) && OperandType(m, g, e.rhs, TypeOf(m, g, e.lhs)) == Some(rt)
    ensures var a, b := Eval(m, h, g, env, e.lhs, lt), Eval(m, h, g, env, e.rhs, rt);
            Eval(m, h, g, env, e, t)
            == if a.None? then None
               else if (e.op.And? && a.value == B(false)) || (e.op.Or? && a.value == B(true)) then a
               else if b.None? then None
               else ApplyBinary(e.op, a.value, b.value)
  {
    hide TypeOf, OperandType, ApplyBinary;
  }

  lemma EvalUnary(m: Model, h: Heap, g: Types, env: seq<Value>, e: Expr, t: Ty, it: Ty)
    requires |env| == |g| && e.Unary? && TypeOf(m, g, e.inner) == Some(it) && !(t.TLong? && e.inner.Int?)
    ensures var v := Eval(m, h, g, env, e.inner, it);
            Eval(m, h, g, env, e, t)
            == if v.None? then None else if e.uop.Neg? then Negate(v.value) else if v.value.B? then Some(B(!v.value.b)) else None
  {
    hide TypeOf, Negate;
  }

  lemma EvalAgainstNull(m: Model, h: Heap, g: Types, env: seq<Value>, e: Expr, t: Ty, compared: Expr, ct: Ty)
    requires |env| == |g| && e.Binary? && (e.op.Eq? || e.op.Ne?) && !(e.lhs.NullLit? && e.rhs.NullLit?)
    requires (e.rhs.NullLit? && compared == e.lhs) || (e.lhs.NullLit? && compared == e.rhs)
    requires TypeOf(m, g, compared) == Some(ct)
    ensures var v := Eval(m, h, g, env, compared, ct);
            Eval(m, h, g, env, e, t) == if v.None? then None else Some(B((v.value == Opt(None)) == e.op.Eq?))
  {
    hide TypeOf;
  }

  lemma EvalAccess(m: Model, h: Heap, g: Types, env: seq<Value>, e: Expr, t: Ty, rt: Ty)
    requires |env| == |g| && e.FeatureAccess? && TypeOf(m, g, e.receiver) == Some(rt)
    ensures var v := Eval(m, h, g, env, e.receiver, rt);
            Eval(m, h, g, env, e, t) == if v.None? then None else Access(h, v.value, e.feature, e.safe)
  {
    hide TypeOf, Access;
  }

  lemma EvalCoalesce(m: Model, h: Heap, g: Types, env: seq<Value>, e: Expr, t: Ty, vt: Ty, ft: Ty)
    requires |env| == |g| && e.Coalesce? && TypeOf(m, g, e.value) == Some(vt)
    requires if vt.TNull? then TypeOf(m, g, e.fallback) == Some(ft)
             else vt.TOption? && OperandType(m, g, e.fallback, Some(vt.some)) == Some(ft)
    ensures var v, d := Eval(m, h, g, env, e.value, vt), Eval(m, h, g, env, e.fallback, ft);
            Eval(m, h, g, env, e, t)
            == if vt.TNull? then d
               else if v.Some? && v.value.Opt? && d.Some? then Some(if v.value.v.None? then d.value else v.value.v.value)
               else None
  {
    hide TypeOf, OperandType;
  }

  lemma EvalIf(m: Model, h: Heap, g: Types, env: seq<Value>, e: Expr, t: Ty)
    requires |env| == |g| && e.If? && TypeOf(m, g, e.then_) == Some(t) && TypeOf(m, g, e.else_) == Some(t)
    ensures var b := Eval(m, h, g, env, e.cond, TBool);
            Eval(m, h, g, env, e, t)
            == if b.Some? && b.value.B? then (if b.value.b then Eval(m, h, g, env, e.then_, t) else Eval(m, h, g, env, e.else_, t)) else None
  {
    hide TypeOf;
  }

  lemma EvalLet(m: Model, h: Heap, g: Types, env: seq<Value>, e: Expr, t: Ty, it: Ty)
    requires |env| == |g| && e.Let? && TypeOf(m, g, e.init) == Some(it)
    ensures var v := Eval(m, h, g, env, e.init, it);
            Eval(m, h, g, env, e, t) == if v.None? then None else Eval(m, h, g + [(e.name, it)], env + [v.value], e.body, t)
  {
    hide TypeOf;
  }

  /** One algebra call on the elements of its list. */
  function EvalCall(m: Model, h: Heap, g: Types, env: seq<Value>, e: Expr, elem: Ty, vs: seq<Value>): Option<Value>
    requires |env| == |g| && e.Algebra?
  {
    match (e.kind, e.lambda)
    case (Size, None) => if FitsWidth(|vs|, false) then Some(I32(|vs|)) else None
    case (Sum, None) => SumFrom(Zero(elem), vs)
    case (First, None) => Some(Opt(if vs == [] then None else Some(vs[0])))
    case (First, Some(l)) => EvalFind(m, h, g, env, elem, l.param, l.body, vs)
    case (Filter, Some(l)) => EvalFilter(m, h, g, env, elem, l.param, l.body, vs)
    case (Map, Some(l)) => EvalMap(m, h, g, env, elem, l.param, l.body, vs)
    case (Any, Some(l)) => EvalAny(m, h, g, env, elem, l.param, l.body, vs)
    case _ => None
  }

  lemma EvalAlgebra(m: Model, h: Heap, g: Types, env: seq<Value>, e: Expr, t: Ty, elem: Ty)
    requires |env| == |g| && e.Algebra? && TypeOf(m, g, e.list) == Some(TList(elem))
    ensures var v := Eval(m, h, g, env, e.list, TList(elem));
            Eval(m, h, g, env, e, t)
            == if v.None? || !v.value.Seq? then None
               else
                 var out := EvalCall(m, h, g, env, e, elem, v.value.vs);
                 if out.None? then None else Some(if e.optional && !e.kind.First? then Opt(out) else out.value)
  {
    hide TypeOf, EvalFind, EvalFilter, EvalMap, EvalAny, SumFrom, FitsWidth, Zero;
  }

  lemma EvalList(m: Model, h: Heap, g: Types, env: seq<Value>, e: Expr, et: Ty)
    requires |env| == |g| && e.ListLiteral?
    ensures var vs := EvalItems(m, h, g, env, e.items, et);
            Eval(m, h, g, env, e, TList(et)) == if vs.Some? then Some(Seq(vs.value)) else None
  {
    hide EvalItems;
  }
}

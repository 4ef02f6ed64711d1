/** The typing rules of the Rust fragment, one shape at a time. */
module RustRules {
  import opened Common
  import opened E = Expr
  import opened RustTarget

  lemma NotRule(m: Model, self: map<string, RTy>, d: RTypes, e: RExpr)
    ensures RType(m, self, d, NotE(e)) == if RType(m, self, d, e) == Some(RBool) then Some(RBool) else None
  {
    hide TestedType, MappedType, FitsWidth, RustName, Bare, Binder, ShapeType, PlaceType, CopyPlace, BinType, Lookup,
      IsCopyR, OperatorType, IsNoneType, UnwrapType, FirstType, IfType, BothAre;
  }

  lemma NegRule(m: Model, self: map<string, RTy>, d: RTypes, e: RExpr)
    ensures var t := RType(m, self, d, e);
            RType(m, self, d, NegE(e)) == if t.Some? && (t.value.RI32? || t.value.RI64?) then t else None
  {
    hide TestedType, MappedType, FitsWidth, RustName, Bare, Binder, ShapeType, PlaceType, CopyPlace, BinType, Lookup,
      IsCopyR, OperatorType, IsNoneType, UnwrapType, FirstType, IfType, BothAre;
  }

  lemma BinRule(m: Model, self: map<string, RTy>, d: RTypes, op: BinOp, l: RExpr, r: RExpr)
    ensures var a, b := RType(m, self, d, l), RType(m, self, d, r);
            RType(m, self, d, Bin(op, l, r))
            == if a.None? || b.None? || (op.Lt? && l.LenAsI32?) then None else BinType(op, a.value, b.value)
  {
    hide TestedType, MappedType, FitsWidth, RustName, Bare, Binder, ShapeType, PlaceType, CopyPlace, BinType, Lookup,
      IsCopyR, IsNoneType, UnwrapType, FirstType, IfType, BothAre;
  }

  lemma IsNoneRule(m: Model, self: map<string, RTy>, d: RTypes, e: RExpr)
    ensures var t := RType(m, self, d, e);
            RType(m, self, d, IsNone(e)) == if t.Some? && t.value.ROpt? then Some(RBool) else None
  {
    hide TestedType, MappedType, FitsWidth, RustName, Bare, Binder, ShapeType, PlaceType, CopyPlace, BinType, Lookup,
      IsCopyR, OperatorType, UnwrapType, FirstType, IfType, BothAre;
  }

  lemma UnwrapRule(m: Model, self: map<string, RTy>, d: RTypes, e: RExpr, f: RExpr)
    ensures var t := RType(m, self, d, e);
            RType(m, self, d, UnwrapOr(e, f))
            == if t.Some? && t.value.ROpt? && RType(m, self, d, f) == Some(t.value.t) then Some(t.value.t) else None
  {
    hide TestedType, MappedType, FitsWidth, RustName, Bare, Binder, ShapeType, PlaceType, CopyPlace, BinType, Lookup,
      IsCopyR, OperatorType, IsNoneType, FirstType, IfType, BothAre;
  }

  lemma SomeRule(m: Model, self: map<string, RTy>, d: RTypes, e: RExpr)
    ensures var t := RType(m, self, d, e);
            RType(m, self, d, SomeE(e)) == if t.Some? then Some(ROpt(t.value)) else None
  {
    hide TestedType, MappedType, FitsWidth, RustName, Bare, Binder, ShapeType, PlaceType, CopyPlace, BinType, Lookup,
      IsCopyR, OperatorType, IsNoneType, UnwrapType, FirstType, IfType, BothAre;
  }

  lemma FormatRule(m: Model, self: map<string, RTy>, d: RTypes, l: RExpr, r: RExpr)
    ensures RType(m, self, d, Format(l, r))
            == if RType(m, self, d, l) == Some(RString) && RType(m, self, d, r) == Some(RString) then Some(RString) else None
  {
    hide TestedType, MappedType, FitsWidth, RustName, Bare, Binder, ShapeType, PlaceType, CopyPlace, BinType, Lookup,
      IsCopyR, OperatorType, IsNoneType, UnwrapType, FirstType, IfType;
  }

  lemma ZipRule(m: Model, self: map<string, RTy>, d: RTypes, l: RExpr, r: RExpr)
    ensures RType(m, self, d, ZipFormat(l, r))
            == if RType(m, self, d, l) == Some(ROpt(RString)) && RType(m, self, d, r) == Some(ROpt(RString))
               then Some(ROpt(RString)) else None
  {
    hide TestedType, MappedType, FitsWidth, RustName, Bare, Binder, ShapeType, PlaceType, CopyPlace, BinType, Lookup,
      IsCopyR, OperatorType, IsNoneType, UnwrapType, FirstType, IfType;
  }

  lemma LookupRule(m: Model, self: map<string, RTy>, d: RTypes, cls: string, id: RExpr, field: string, cloned: bool)
    ensures RType(m, self, d, LookupField(cls, id, field, cloned))
            == if Lookup(d, RES).None? && RType(m, self, d, id) == Some(RId(cls)) then ShapeType(m, cls, field, cloned) else None
  {
    hide TestedType, MappedType, FitsWidth, RustName, Bare, Binder, ShapeType, PlaceType, CopyPlace, BinType, Lookup,
      IsCopyR, OperatorType, IsNoneType, UnwrapType, FirstType, IfType, BothAre;
  }

  lemma AndThenRule(m: Model, self: map<string, RTy>, d: RTypes, cls: string, id: RExpr, field: string, cloned: bool, flatten: bool)
    ensures var t := ShapeType(m, cls, field, cloned);
            RType(m, self, d, AndThenField(cls, id, field, cloned, flatten))
            == if Lookup(d, RES).None? && RType(m, self, d, id) == Some(ROpt(RId(cls))) && t.Some? then
                 (if !flatten then Some(ROpt(t.value)) else if t.value.ROpt? then t else None)
               else None
  {
    hide TestedType, MappedType, FitsWidth, RustName, Bare, Binder, ShapeType, PlaceType, CopyPlace, BinType, Lookup,
      IsCopyR, OperatorType, IsNoneType, UnwrapType, FirstType, IfType, BothAre;
  }

  lemma FindRule(m: Model, self: map<string, RTy>, d: RTypes, list: RExpr, param: string, pred: RExpr, copied: bool)
    ensures var t := RType(m, self, d, list);
            RType(m, self, d, IterFind(list, param, pred, copied))
            == if t.Some? && t.value.RVec? && Binder(param) && RType(m, self, d + [(Bare(param), RRef(RRef(t.value.t)))], pred) == Some(RBool)
                  && (copied ==> IsCopyR(t.value.t))
               then Some(ROpt(t.value.t)) else None
  {
    hide MappedType, FitsWidth, RustName, Bare, Binder, ShapeType, PlaceType, CopyPlace, BinType, Lookup, IsCopyR,
      OperatorType, IsNoneType, UnwrapType, FirstType, IfType, BothAre;
  }

  lemma FilterRule(m: Model, self: map<string, RTy>, d: RTypes, list: RExpr, param: string, pred: RExpr, copied: bool)
    ensures var t := RType(m, self, d, list);
            RType(m, self, d, IterFilter(list, param, pred, copied))
            == if t.Some? && t.value.RVec? && Binder(param) && RType(m, self, d + [(Bare(param), RRef(RRef(t.value.t)))], pred) == Some(RBool)
                  && (copied ==> IsCopyR(t.value.t))
               then t else None
  {
    hide MappedType, FitsWidth, RustName, Bare, Binder, ShapeType, PlaceType, CopyPlace, BinType, Lookup, IsCopyR,
      OperatorType, IsNoneType, UnwrapType, FirstType, IfType, BothAre;
  }

  lemma MapRule(m: Model, self: map<string, RTy>, d: RTypes, list: RExpr, param: string, body: RExpr)
    ensures var t := RType(m, self, d, list);
            RType(m, self, d, IterMap(list, param, body))
            == if t.Some? && t.value.RVec? && Binder(param) && RType(m, self, d + [(Bare(param), RRef(t.value.t))], body).Some?
               then Some(RVec(RType(m, self, d + [(Bare(param), RRef(t.value.t))], body).value)) else None
  {
    hide TestedType, FitsWidth, RustName, Bare, Binder, ShapeType, PlaceType, CopyPlace, BinType, Lookup, IsCopyR,
      OperatorType, IsNoneType, UnwrapType, FirstType, IfType, BothAre;
  }

  lemma AnyRule(m: Model, self: map<string, RTy>, d: RTypes, list: RExpr, param: string, pred: RExpr)
    ensures var t := RType(m, self, d, list);
            RType(m, self, d, IterAny(list, param, pred))
            == if t.Some? && t.value.RVec? && Binder(param) && RType(m, self, d + [(Bare(param), RRef(t.value.t))], pred) == Some(RBool)
               then Some(RBool) else None
  {
    hide MappedType, FitsWidth, RustName, Bare, Binder, ShapeType, PlaceType, CopyPlace, BinType, Lookup, IsCopyR,
      OperatorType, IsNoneType, UnwrapType, FirstType, IfType, BothAre;
  }

  lemma FirstRule(m: Model, self: map<string, RTy>, d: RTypes, list: RExpr, copied: bool)
    ensures var t := RType(m, self, d, list);
            RType(m, self, d, FirstElem(list, copied))
            == if t.Some? && t.value.RVec? && (copied ==> IsCopyR(t.value.t)) then Some(ROpt(t.value.t)) else None
  {
    hide TestedType, MappedType, FitsWidth, RustName, Bare, Binder, ShapeType, PlaceType, CopyPlace, BinType, Lookup,
      IsCopyR, OperatorType, IsNoneType, UnwrapType, IfType, BothAre;
  }

  lemma LenRule(m: Model, self: map<string, RTy>, d: RTypes, list: RExpr)
    ensures var t := RType(m, self, d, list);
            RType(m, self, d, LenAsI32(list)) == if t.Some? && t.value.RVec? then Some(RI32) else None
  {
    hide TestedType, MappedType, FitsWidth, RustName, Bare, Binder, ShapeType, PlaceType, CopyPlace, BinType, Lookup,
      IsCopyR, OperatorType, IsNoneType, UnwrapType, FirstType, IfType, BothAre;
  }

  lemma SumRule(m: Model, self: map<string, RTy>, d: RTypes, list: RExpr, wide: bool)
    ensures var want := if wide then RI64 else RI32;
            RType(m, self, d, IterSum(list, wide)) == if RType(m, self, d, list) == Some(RVec(want)) then Some(want) else None
  {
    hide TestedType, MappedType, FitsWidth, RustName, Bare, Binder, ShapeType, PlaceType, CopyPlace, BinType, Lookup,
      IsCopyR, OperatorType, IsNoneType, UnwrapType, FirstType, IfType, BothAre;
  }

  lemma IfRule(m: Model, self: map<string, RTy>, d: RTypes, c: RExpr, t: RExpr, e: RExpr)
    ensures RType(m, self, d, IfE(c, t, e))
            == if RType(m, self, d, c) == Some(RBool) && RType(m, self, d, t) == RType(m, self, d, e) then RType(m, self, d, t) else None
  {
    hide TestedType, MappedType, FitsWidth, RustName, Bare, Binder, ShapeType, PlaceType, CopyPlace, BinType, Lookup,
      IsCopyR, OperatorType, IsNoneType, UnwrapType, FirstType, BothAre;
  }

  lemma LetRule(m: Model, self: map<string, RTy>, d: RTypes, x: string, init: RExpr, body: RExpr)
    ensures var t := RType(m, self, d, init);
            RType(m, self, d, LetE(x, init, body)) == if t.Some? && Binder(x) then RType(m, self, d + [(Bare(x), t.value)], body) else None
  {
    hide TestedType, MappedType, FitsWidth, RustName, Bare, Binder, ShapeType, PlaceType, CopyPlace, BinType, Lookup,
      IsCopyR, OperatorType, IsNoneType, UnwrapType, FirstType, IfType, BothAre;
  }

  lemma VecRule(m: Model, self: map<string, RTy>, d: RTypes, items: seq<RExpr>)
    requires items != []
    ensures var t := RType(m, self, d, items[0]);
            RType(m, self, d, VecE(items))
            == if t.Some? && (forall i :: 1 <= i < |items| ==> RType(m, self, d, items[i]) == t) then Some(RVec(t.value)) else None
  {
    hide TestedType, MappedType, FitsWidth, RustName, Bare, Binder, ShapeType, PlaceType, CopyPlace, BinType, Lookup,
      IsCopyR, OperatorType, IsNoneType, UnwrapType, FirstType, IfType, BothAre;
  }
}

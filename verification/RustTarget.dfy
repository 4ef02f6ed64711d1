/** The fragment of Rust that expressions are lowered to: trees, the types rustc
    gives them (values owned, no moves out of places), and what they compute. */
module RustTarget {
  import opened Common
  import opened E = Expr

  /** Rust expression shapes. `LookupField` is the arena read
      `res.c(id).map(|o| o.f).expect(..)`; `AndThenField` the read behind an
      optional id, flattened when the field is optional itself; `ZipFormat` is
      `l.zip(r).map(|(a, b)| format!(..))`. Iterator closures lend their parameter
      behind two references (`find`, `filter`) or one (`map`, `any`). */
  datatype RExpr =
    | IntLit(n: nat, wide: bool)
    | OwnedStr(s: string)
    | StrSlice(s: string)
    | BoolLit(b: bool)
    | Var(x: string)
    | SelfField(f: string)
    | SelfAccessor(f: string)
    | Clone(e: RExpr)
    | Deref(e: RExpr)
    | NotE(e: RExpr)
    | NegE(e: RExpr)
    | Bin(op: BinOp, l: RExpr, r: RExpr)
    | IsNone(e: RExpr)
    | UnwrapOr(e: RExpr, d: RExpr)
    | SomeE(e: RExpr)
    | Format(l: RExpr, r: RExpr)
    | ZipFormat(l: RExpr, r: RExpr)
    | LookupField(cls: string, id: RExpr, field: string, cloned: bool)
    | AndThenField(cls: string, opt: RExpr, field: string, cloned: bool, flatten: bool)
    | IterFind(list: RExpr, param: string, pred: RExpr, copied: bool)
    | IterFilter(list: RExpr, param: string, pred: RExpr, copied: bool)
    | IterMap(list: RExpr, param: string, body: RExpr)
    | IterAny(list: RExpr, param: string, pred: RExpr)
    | FirstElem(list: RExpr, copied: bool)
    | LenAsI32(list: RExpr)
    | IterSum(list: RExpr, wide: bool)
    | IfE(cond: RExpr, then_: RExpr, else_: RExpr)
    | LetE(x: string, init: RExpr, body: RExpr)
    | VecE(items: seq<RExpr>)

  datatype RTy = RI32 | RI64 | RBool | RString | RSlice | RId(cls: string) | RVec(t: RTy) | ROpt(t: RTy) | RRef(t: RTy)

  function RustType(t: Ty): Option<RTy> {
    match t
    case TInt => Some(RI32)
    case TLong => Some(RI64)
    case TBool => Some(RBool)
    case TString => Some(RString)
    case TClass(c) => Some(RId(c))
    case TList(elem) => (match RustType(elem) case Some(r) => Some(RVec(r)) case None => None)
    case TOption(inner) => (match RustType(inner) case Some(r) => Some(ROpt(r)) case None => None)
    case TNull => None
  }

  predicate IsCopyR(t: RTy) {
    match t
    case RString => false
    case RVec(_) => false
    case ROpt(inner) => IsCopyR(inner)
    case _ => true
  }

  /** The field a struct stores: `Vec` for many, `Option` for every single
      reference and for optional attributes, the plain value otherwise. */
  function FieldType(d: FeatureDecl): Option<RTy> {
    match RustType(d.base)
    case None => None
    case Some(t) =>
      if d.many then Some(RVec(t))
      else if !d.kind.Attribute? || !d.required then Some(ROpt(t))
      else Some(t)
  }

  // ----- types -----

  /** The words no name may be (edition 2021), in use or reserved, nor is `_` one. */
  predicate Reserved(v: string) {
    || v in [
         "as", "async", "await", "break", "const", "continue", "crate", "dyn", "else", "enum", "extern", "false", "fn",
         "for", "if", "impl", "in", "let", "loop", "match", "mod", "move", "mut"]
    || v in [
         "pub", "ref", "return", "Self", "self", "static", "struct", "super", "trait", "true", "type", "unsafe", "use",
         "where", "while"]
    || v in [
         "abstract", "become", "box", "do", "final", "macro", "override", "priv", "try", "typeof", "unsized", "virtual",
         "yield", "_"]
  }

  /** The words `r#` does not make a name of. */
  predicate NeverRaw(v: string) {
    v in ["_", "crate", "self", "Self", "super"]
  }

  /** Variants a pattern would match instead of binding. */
  predicate Variant(v: string) {
    v in ["None", "Some", "Ok", "Err"]
  }

  predicate Raw(v: string) {
    "r#" <= v
  }

  /** The name itself: `r#x` and `x` are one name. */
  function Bare(v: string): string {
    if Raw(v) then v[2..] else v
  }

  predicate Word(v: string) {
    && v != ""
    && forall i :: 0 <= i < |v| ==> v[i] == '_' || 'a' <= v[i] <= 'z' || 'A' <= v[i] <= 'Z' || (i > 0 && '0' <= v[i] <= '9')
  }

  /** A name that may be used as an expression. */
  predicate RustName(v: string) {
    Word(Bare(v)) && if Raw(v) then !NeverRaw(Bare(v)) else !Reserved(v)
  }

  /** A pattern that takes any value, be it to drop it. */
  predicate Binder(v: string) {
    v == "_" || (RustName(v) && !Variant(Bare(v)))
  }

  /** The names of the variables in scope, without `r#`. */
  type RTypes = seq<(string, RTy)>

  /** The name of the resource parameter in generated code. */
  const RES := "res"

  function PlaceType(self: map<string, RTy>, d: RTypes, r: RExpr): Option<RTy> {
    match r
    case Var(x) => if RustName(x) then Lookup(d, Bare(x)) else None
    case SelfField(f) => if f in self then Some(self[f]) else None
    case Deref(e) => (match PlaceType(self, d, e) case Some(RRef(t)) => Some(t) case _ => None)
    case _ => None
  }

  /** The type of the stored field a shape reads off an object: reading without
      cloning moves, so it needs a `Copy` field. */
  function ShapeType(m: Model, cls: string, field: string, cloned: bool): Option<RTy> {
    if (cls, field) !in m then None
    else
      match FieldType(m[(cls, field)])
      case None => None
      case Some(t) => if cloned || IsCopyR(t) then Some(t) else None
  }

  function OperatorType(op: BinOp, l: Option<RTy>, r: Option<RTy>): Option<RTy> {
    if l.Some? && r.Some? then BinType(op, l.value, r.value) else None
  }

  function IsNoneType(t: Option<RTy>): Option<RTy> {
    match t case Some(ROpt(_)) => Some(RBool) case _ => None
  }

  function UnwrapType(t: Option<RTy>, dflt: Option<RTy>): Option<RTy> {
    match t
    case Some(ROpt(inner)) => if dflt == Some(inner) then Some(inner) else None
    case _ => None
  }

  function IfType(c: Option<RTy>, t: Option<RTy>, e: Option<RTy>): Option<RTy> {
    if c == Some(RBool) && t == e then t else None
  }

  function BothAre(t: RTy, l: Option<RTy>, r: Option<RTy>): Option<RTy> {
    if l == r == Some(t) then Some(t) else None
  }

  function FirstType(list: Option<RTy>, copied: bool): Option<RTy> {
    match list
    case Some(RVec(t)) => if copied ==> IsCopyR(t) then Some(ROpt(t)) else None
    case _ => None
  }

  /** A closure whose body tests, and one whose body maps, under an admissible binder. */
  function TestedType(admissible: bool, body: Option<RTy>, out: RTy): Option<RTy> {
    if admissible && body == Some(RBool) then Some(out) else None
  }

  function MappedType(admissible: bool, body: Option<RTy>): Option<RTy> {
    if admissible && body.Some? then Some(RVec(body.value)) else None
  }

  /** The type of a lowered expression, or nothing when rustc rejects it. */
  function RType(m: Model, self: map<string, RTy>, d: RTypes, r: RExpr): Option<RTy>
    decreases r
  {
    match r
    case IntLit(n, wide) => if FitsWidth(n, wide) then Some(if wide then RI64 else RI32) else None
    case OwnedStr(_) => Some(RString)
    case StrSlice(_) => Some(RSlice)
    case BoolLit(_) => Some(RBool)
    case Var(_) => CopyPlace(self, d, r)
    case SelfField(_) => CopyPlace(self, d, r)
    case Deref(_) => CopyPlace(self, d, r)
    case SelfAccessor(f) => if Lookup(d, RES).None? && f in self then Some(self[f]) else None
    case Clone(e) => (match PlaceType(self, d, e) case Some(t) => if t.RRef? then None else Some(t) case None => None)
    case NotE(e) => if RType(m, self, d, e) == Some(RBool) then Some(RBool) else None
    case NegE(e) =>
      (match RType(m, self, d, e) case Some(t) => if t.RI32? || t.RI64? then Some(t) else None case None => None)
    case Bin(op, l, r') =>
      // `x.len() as i32 < y` does not parse: `<` opens generic arguments.
      if op.Lt? && l.LenAsI32? then None else OperatorType(op, RType(m, self, d, l), RType(m, self, d, r'))
    case IsNone(e) => IsNoneType(RType(m, self, d, e))
    case UnwrapOr(e, dflt) => UnwrapType(RType(m, self, d, e), RType(m, self, d, dflt))
    case SomeE(e) => (match RType(m, self, d, e) case Some(t) => Some(ROpt(t)) case None => None)
    case Format(l, r') => BothAre(RString, RType(m, self, d, l), RType(m, self, d, r'))
    case ZipFormat(l, r') => BothAre(ROpt(RString), RType(m, self, d, l), RType(m, self, d, r'))
    case LookupField(cls, id, field, cloned) =>
      if Lookup(d, RES).None? && RType(m, self, d, id) == Some(RId(cls)) then ShapeType(m, cls, field, cloned) else None
    case AndThenField(cls, opt, field, cloned, flatten) =>
      if Lookup(d, RES).None? && RType(m, self, d, opt) == Some(ROpt(RId(cls))) then
        (match ShapeType(m, cls, field, cloned)
         case None => None
         case Some(t) => if !flatten then Some(ROpt(t)) else if t.ROpt? then Some(t) else None)
      else None
    case IterFind(list, param, pred, copied) =>
      (match RType(m, self, d, list)
       case Some(RVec(t)) =>
         TestedType(Binder(param) && (copied ==> IsCopyR(t)), RType(m, self, d + [(Bare(param), RRef(RRef(t)))], pred), ROpt(t))
       case _ => None)
    case IterFilter(list, param, pred, copied) =>
      (match RType(m, self, d, list)
       case Some(RVec(t)) =>
         TestedType(Binder(param) && (copied ==> IsCopyR(t)), RType(m, self, d + [(Bare(param), RRef(RRef(t)))], pred), RVec(t))
       case _ => None)
    case IterMap(list, param, body) =>
      (match RType(m, self, d, list)
       case Some(RVec(t)) => MappedType(Binder(param), RType(m, self, d + [(Bare(param), RRef(t))], body))
       case _ => None)
    case IterAny(list, param, pred) =>
      (match RType(m, self, d, list)
       case Some(RVec(t)) => TestedType(Binder(param), RType(m, self, d + [(Bare(param), RRef(t))], pred), RBool)
       case _ => None)
    case FirstElem(list, copied) => FirstType(RType(m, self, d, list), copied)
    case LenAsI32(list) => (match RType(m, self, d, list) case Some(RVec(_)) => Some(RI32) case _ => None)
    case IterSum(list, wide) =>
      var want := if wide then RI64 else RI32;
      if RType(m, self, d, list) == Some(RVec(want)) then Some(want) else None
    case IfE(c, t, e) => IfType(RType(m, self, d, c), RType(m, self, d, t), RType(m, self, d, e))
    case LetE(x, init, body) =>
      (match RType(m, self, d, init)
       case Some(t) => if Binder(x) then RType(m, self, d + [(Bare(x), t)], body) else None
       case None => None)
    case VecE(items) =>
      if items == [] then None
      else
        match RType(m, self, d, items[0])
        case None => None
        case Some(t) =>
          if forall i :: 1 <= i < |items| ==> RType(m, self, d, items[i]) == Some(t) then Some(RVec(t)) else None
  }

  function CopyPlace(self: map<string, RTy>, d: RTypes, r: RExpr): Option<RTy> {
    match PlaceType(self, d, r)
    case Some(t) => if IsCopyR(t) then Some(t) else None
    case None => None
  }

  function BinType(op: BinOp, a: RTy, b: RTy): Option<RTy> {
    match op
    case And => if a.RBool? && b.RBool? then Some(RBool) else None
    case Or => if a.RBool? && b.RBool? then Some(RBool) else None
    case Eq => if EqTypes(a, b) then Some(RBool) else None
    case Ne => if EqTypes(a, b) then Some(RBool) else None
    case _ =>
      if a != b || !(a.RI32? || a.RI64?) then None
      else if op.Lt? || op.Le? || op.Gt? || op.Ge? then Some(RBool)
      else Some(a)
  }

  /** `==` compares equal types, and `String` with `&str` either way round. */
  predicate EqTypes(a: RTy, b: RTy) {
    !a.RRef? && !b.RRef? && (a == b || (a.RString? && b.RSlice?) || (a.RSlice? && b.RString?))
  }

  // ----- evaluation -----

  type REnv = seq<(string, Value)>

  function Wrap32(n: int): int {
    (n + 0x8000_0000) % 0x1_0000_0000 - 0x8000_0000
  }

  /** The stored field of a live object; a dangling id panics. */
  function ReadField(h: Heap, d: REnv, cls: string, id: Value, field: string): Option<Value> {
    if Lookup(d, RES).None? && id.Id? && id.cls == cls && (cls, id.idx) in h && field in h[(cls, id.idx)]
    then Some(h[(cls, id.idx)][field]) else None
  }

  // What each operation makes of its operands' values.

  function CloneValue(v: Option<Value>): Option<Value> {
    match v case Some(w) => if w.Ref? then None else v case None => None
  }

  function DerefValue(v: Option<Value>): Option<Value> {
    match v case Some(Ref(w)) => Some(w) case _ => None
  }

  function NotValue(v: Option<Value>): Option<Value> {
    match v case Some(B(b)) => Some(B(!b)) case _ => None
  }

  function NegValue(v: Option<Value>): Option<Value> {
    match v case Some(w) => Negate(w) case None => None
  }

  /** `&&` and `||` ignore their right operand where the left decides. */
  function BinValue(op: BinOp, a: Option<Value>, b: Option<Value>): Option<Value> {
    if a.None? then None
    else if (op.And? && a.value == B(false)) || (op.Or? && a.value == B(true)) then a
    else if b.None? then None
    else RustBin(op, a.value, b.value)
  }

  function IsNoneValue(v: Option<Value>): Option<Value> {
    match v case Some(Opt(o)) => Some(B(o.None?)) case _ => None
  }

  function UnwrapValue(v: Option<Value>, dflt: Option<Value>): Option<Value> {
    match (v, dflt)
    case (Some(Opt(o)), Some(w)) => Some(if o.Some? then o.value else w)
    case _ => None
  }

  function SomeValue(v: Option<Value>): Option<Value> {
    match v case Some(w) => Some(Opt(Some(w))) case None => None
  }

  function FormatValue(a: Option<Value>, b: Option<Value>): Option<Value> {
    match (a, b)
    case (Some(S(x)), Some(S(y))) => Some(S(x + y))
    case _ => None
  }

  function ZipValue(a: Option<Value>, b: Option<Value>): Option<Value> {
    match (a, b)
    case (Some(Opt(Some(S(x)))), Some(Opt(Some(S(y))))) => Some(Opt(Some(S(x + y))))
    case (Some(Opt(x)), Some(Opt(y))) => if x.None? || y.None? then Some(Opt(None)) else None
    case _ => None
  }

  function FieldValue(h: Heap, d: REnv, cls: string, id: Option<Value>, field: string): Option<Value> {
    match id case Some(v) => ReadField(h, d, cls, v, field) case None => None
  }

  function ThroughValue(h: Heap, d: REnv, cls: string, opt: Option<Value>, field: string, flatten: bool): Option<Value> {
    match opt
    case Some(Opt(None)) => Some(Opt(None))
    case Some(Opt(Some(id))) =>
      (match ReadField(h, d, cls, id, field)
       case None => Some(Opt(None))
       case Some(v) => Some(if flatten then v else Opt(Some(v))))
    case _ => None
  }

  function FirstValue(v: Option<Value>): Option<Value> {
    match v
    case Some(Seq(vs)) => Some(Opt(if vs == [] then None else Some(vs[0])))
    case _ => None
  }

  function LenValue(v: Option<Value>): Option<Value> {
    match v case Some(Seq(vs)) => Some(I32(Wrap32(|vs|))) case _ => None
  }

  function SumValue(wide: bool, v: Option<Value>): Option<Value> {
    match v
    case Some(Seq(vs)) => SumFrom(if wide then I64(0) else I32(0), vs)
    case _ => None
  }

  /** What a lowered expression evaluates to; no value means a panic. */
  function REval(h: Heap, self: map<string, Value>, d: REnv, r: RExpr): Option<Value>
    decreases r, 0, 0
  {
    match r
    case IntLit(n, wide) => Some(if wide then I64(n) else I32(n))
    case OwnedStr(s) => Some(S(s))
    case StrSlice(s) => Some(S(s))
    case BoolLit(b) => Some(B(b))
    case Var(x) => Lookup(d, Bare(x))
    case SelfField(f) => if f in self then Some(self[f]) else None
    case SelfAccessor(f) => if Lookup(d, RES).None? && f in self then Some(self[f]) else None
    case Clone(e) => CloneValue(REval(h, self, d, e))
    case Deref(e) => DerefValue(REval(h, self, d, e))
    case NotE(e) => NotValue(REval(h, self, d, e))
    case NegE(e) => NegValue(REval(h, self, d, e))
    case Bin(op, l, r') => BinValue(op, REval(h, self, d, l), REval(h, self, d, r'))
    case IsNone(e) => IsNoneValue(REval(h, self, d, e))
    case UnwrapOr(e, dflt) => UnwrapValue(REval(h, self, d, e), REval(h, self, d, dflt))
    case SomeE(e) => SomeValue(REval(h, self, d, e))
    case Format(l, r') => FormatValue(REval(h, self, d, l), REval(h, self, d, r'))
    case ZipFormat(l, r') => ZipValue(REval(h, self, d, l), REval(h, self, d, r'))
    case LookupField(cls, id, field, _) => FieldValue(h, d, cls, REval(h, self, d, id), field)
    case AndThenField(cls, opt, field, _, flatten) => ThroughValue(h, d, cls, REval(h, self, d, opt), field, flatten)
    case IterFind(list, param, pred, _) =>
      (match REval(h, self, d, list) case Some(Seq(vs)) => REvalFind(h, self, d, param, pred, vs) case _ => None)
    case IterFilter(list, param, pred, _) =>
      (match REval(h, self, d, list) case Some(Seq(vs)) => REvalFilter(h, self, d, param, pred, vs) case _ => None)
    case IterMap(list, param, body) =>
      (match REval(h, self, d, list) case Some(Seq(vs)) => REvalMap(h, self, d, param, body, vs) case _ => None)
    case IterAny(list, param, pred) =>
      (match REval(h, self, d, list) case Some(Seq(vs)) => REvalAny(h, self, d, param, pred, vs) case _ => None)
    case FirstElem(list, _) => FirstValue(REval(h, self, d, list))
    case LenAsI32(list) => LenValue(REval(h, self, d, list))
    case IterSum(list, wide) => SumValue(wide, REval(h, self, d, list))
    case IfE(c, t, e) =>
      (match REval(h, self, d, c)
       case Some(B(b)) => if b then REval(h, self, d, t) else REval(h, self, d, e)
       case _ => None)
    case LetE(x, init, body) =>
      (match REval(h, self, d, init) case Some(v) => REval(h, self, d + [(Bare(x), v)], body) case None => None)
    case VecE(items) => (match REvalItems(h, self, d, items) case Some(vs) => Some(Seq(vs)) case None => None)
  }

  function RustBin(op: BinOp, a: Value, b: Value): Option<Value> {
    match op
    case And => if a.B? && b.B? then Some(B(a.b && b.b)) else None
    case Or => if a.B? && b.B? then Some(B(a.b || b.b)) else None
    case Eq => Some(B(a == b))
    case Ne => Some(B(a != b))
    case _ => if op.Lt? || op.Le? || op.Gt? || op.Ge? then Compare(op, a, b) else Arith(op, a, b)
  }

  function REvalItems(h: Heap, self: map<string, Value>, d: REnv, items: seq<RExpr>): Option<seq<Value>>
    decreases items, 1, 0
  {
    if items == [] then Some([])
    else
      match (REval(h, self, d, items[0]), REvalItems(h, self, d, items[1..]))
      case (Some(v), Some(vs)) => Some([v] + vs)
      case _ => None
  }

  function REvalFind(h: Heap, self: map<string, Value>, d: REnv, param: string, pred: RExpr, vs: seq<Value>): Option<Value>
    decreases pred, 1, |vs|
  {
    if vs == [] then Some(Opt(None))
    else
      match REval(h, self, d + [(Bare(param), Ref(Ref(vs[0])))], pred)
      case Some(B(b)) => if b then Some(Opt(Some(vs[0]))) else REvalFind(h, self, d, param, pred, vs[1..])
      case _ => None
  }

  function REvalAny(h: Heap, self: map<string, Value>, d: REnv, param: string, pred: RExpr, vs: seq<Value>): Option<Value>
    decreases pred, 1, |vs|
  {
    if vs == [] then Some(B(false))
    else
      match REval(h, self, d + [(Bare(param), Ref(vs[0]))], pred)
      case Some(B(b)) => if b then Some(B(true)) else REvalAny(h, self, d, param, pred, vs[1..])
      case _ => None
  }

  function REvalFilter(h: Heap, self: map<string, Value>, d: REnv, param: string, pred: RExpr, vs: seq<Value>): Option<Value>
    decreases pred, 1, |vs|
  {
    if vs == [] then Some(Seq([]))
    else
      match (REval(h, self, d + [(Bare(param), Ref(Ref(vs[0])))], pred), REvalFilter(h, self, d, param, pred, vs[1..]))
      case (Some(B(b)), Some(Seq(rest))) => Some(Seq(if b then [vs[0]] + rest else rest))
      case _ => None
  }

  function REvalMap(h: Heap, self: map<string, Value>, d: REnv, param: string, body: RExpr, vs: seq<Value>): Option<Value>
    decreases body, 1, |vs|
  {
    if vs == [] then Some(Seq([]))
    else
      match (REval(h, self, d + [(Bare(param), Ref(vs[0]))], body), REvalMap(h, self, d, param, body, vs[1..]))
      case (Some(v), Some(Seq(rest))) => Some(Seq([v] + rest))
      case _ => None
  }
}

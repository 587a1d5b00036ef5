/** The assembler as a pure state machine: what each item does to the offset, the modes,
    the symbol table and the output, in either pass. */
module Assembler {
  import opened Bits
  import opened Bytes
  import Ieee
  import opened Strings
  import opened Wrappers

  // ---------- Source items ----------

  datatype Type = U8 | U16 | U32 | U64 | S8 | S16 | S32 | S64 | Float | Double

  type IntType = t: Type | t != Float && t != Double witness U8
  type FpType = t: Type | t == Float || t == Double witness Float

  function Width(t: Type): (w: nat)
    ensures w == 1 || w == 2 || w == 4 || w == 8
  {
    match t
    case U8 | S8 => 1
    case U16 | S16 => 2
    case U32 | S32 | Float => 4
    case U64 | S64 | Double => 8
  }

  datatype Expr =
    | Num(value: int)
    | Sym(name: string)
    | Add(left: Expr, right: Expr)
    | Sub(left: Expr, right: Expr)
    | BitOr(left: Expr, right: Expr)
    | Paren(inner: Expr)

  type Fp = Ieee.Fp

  datatype FpExpr =
    | FpNum(value: Fp)
    | FpAdd(left: FpExpr, right: FpExpr)
    | FpSub(left: FpExpr, right: FpExpr)
    | FpMul(left: FpExpr, right: FpExpr)
    | FpDiv(left: FpExpr, right: FpExpr)
    | FpNeg(inner: FpExpr)
    | FpParen(inner: FpExpr)

  /** One item: of the source text, or with its argument evaluated. */
  datatype Item<E, F> =
    | Typed(ty: IntType, arg: E)
    | TypedFp(fpty: FpType, fp: F)
    | Default(arg: E)
    | DefaultFp(fp: F)
    | Text(token: seq<Byte>)
    | Align(arg: E)
    | Blank(arg: E)
    | AllowNan(arg: E)
    | AllowInfinity(arg: E)
    | AddressLen(arg: E)
    | Fixup(arg: E)
    | SetType(newType: Type)
    | SetOrder(newOrder: Order)
    | Pass0(name: string, arg: E)
    | Label(name: string)
    | Assign(name: string, arg: E)

  type SourceItem = Item<Expr, FpExpr>

  type Command = Item<int, Fp>

  // ---------- State ----------

  datatype Modes = Modes(ty: Type, order: Order, allowNan: bool, allowInfinity: bool, addressLen: nat)

  datatype State = State(pass: nat, offset: nat, symbols: map<string, int>, modes: Modes, out: seq<Byte>)

  const INITIAL_MODES := Modes(U32, LittleEndian, true, true, 64)

  /** A fresh assembler at the start of its first pass. */
  const FRESH := State(0, 0, map[], INITIAL_MODES, [])

  // ---------- Expressions ----------

  function Lookup(name: string, s: State): int {
    if name in s.symbols then s.symbols[name]
    else if s.pass == 0 then 1
    else 0
  }

  function Eval(e: Expr, s: State): int {
    match e
    case Num(v) => v
    case Sym(n) => Lookup(n, s)
    case Add(l, r) => Wrap64(Eval(l, s) + Eval(r, s))
    case Sub(l, r) => Wrap64(Eval(l, s) - Eval(r, s))
    case BitOr(l, r) => Or(Eval(l, s), Eval(r, s))
    case Paren(i) => Eval(i, s)
  }

  /** The arithmetic of doubles. */
  function FpEval(e: FpExpr): Fp {
    match e
    case FpNum(v) => v
    case FpAdd(l, r) => Ieee.Add(FpEval(l), FpEval(r))
    case FpSub(l, r) => Ieee.Sub(FpEval(l), FpEval(r))
    case FpMul(l, r) => Ieee.Mul(FpEval(l), FpEval(r))
    case FpDiv(l, r) => Ieee.Div(FpEval(l), FpEval(r))
    case FpNeg(i) => Ieee.Negate(FpEval(i))
    case FpParen(i) => FpEval(i)
  }

  function Resolve(it: SourceItem, s: State): Command {
    match it
    case Typed(t, e) => Typed(t, Eval(e, s))
    case TypedFp(t, f) => TypedFp(t, FpEval(f))
    case Default(e) => Default(Eval(e, s))
    case DefaultFp(f) => DefaultFp(FpEval(f))
    case Text(t) => Text(t)
    case Align(e) => Align(Eval(e, s))
    case Blank(e) => Blank(Eval(e, s))
    case AllowNan(e) => AllowNan(Eval(e, s))
    case AllowInfinity(e) => AllowInfinity(Eval(e, s))
    case AddressLen(e) => AddressLen(Eval(e, s))
    case Fixup(e) => Fixup(Eval(e, s))
    case SetType(t) => SetType(t)
    case SetOrder(o) => SetOrder(o)
    case Pass0(n, e) => Pass0(n, Eval(e, s))
    case Label(n) => Label(n)
    case Assign(n, e) => Assign(n, Eval(e, s))
  }

  // ---------- What an item emits ----------

  /** The padding loop ends (and the remainder exists) for these boundaries only. */
  predicate Alignable(offset: nat, boundary: int) {
    boundary > 0 || (boundary < 0 && offset % boundary == 0)
  }

  function Pad(offset: nat, boundary: int): (n: nat)
    requires Alignable(offset, boundary)
    ensures boundary > 0 ==> n < boundary
  {
    if offset % boundary == 0 then 0 else boundary - offset % boundary
  }

  /** What is written instead of x when NaN or infinities are not allowed: zero, or the largest number of the format. A
      NaN that survives the first test is still not finite for the second one. */
  function Replaced(x: Fp, allowNan: bool, allowInfinity: bool, f: Ieee.Format): Fp {
    if x.Nan? && !allowNan then Ieee.ZERO
    else if x.Finite? || allowInfinity then x
    else Ieee.Largest(x == Ieee.Infinite(true), f)
  }

  /** The double itself is tested, and narrowed afterwards. */
  function FloatField(x: Fp, m: Modes): (r: seq<Byte>)
    ensures |r| == 4
  {
    Field(Ieee.Image(Ieee.Narrow(Replaced(x, m.allowNan, m.allowInfinity, Ieee.SINGLE)), Ieee.SINGLE), 4, m.order)
  }

  function DoubleField(x: Fp, m: Modes): (r: seq<Byte>)
    ensures |r| == 8
  {
    Field(Ieee.Image(Replaced(x, m.allowNan, m.allowInfinity, Ieee.DOUBLE), Ieee.DOUBLE), 8, m.order)
  }

  function TypedFpField(t: FpType, x: Fp, m: Modes): (r: seq<Byte>)
    ensures |r| == Width(t)
  {
    if t == Float then FloatField(x, m) else DoubleField(x, m)
  }

  /** Without a type a double is written only when that is the default; otherwise it is narrowed before it is tested. */
  function DefaultFpField(x: Fp, m: Modes): (r: seq<Byte>)
    ensures |r| == if m.ty == Double then 8 else 4
  {
    if m.ty == Double then DoubleField(x, m) else FloatField(Ieee.Narrow(x), m)
  }

  function FixupWidth(addressLen: nat): nat {
    if addressLen == 32 then 4 else 8
  }

  /** The bytes of one item at a given offset; None where the source divides by zero,
      fails an assert, or enters a loop that counts down past zero. */
  function Encode(c: Command, m: Modes, offset: nat): Option<seq<Byte>> {
    match c
    case Typed(t, v) => Some(Field(v, Width(t), m.order))
    case TypedFp(t, x) => Some(TypedFpField(t, x, m))
    case Default(v) => if m.ty == Float || m.ty == Double then None else Some(Field(v, Width(m.ty), m.order))
    case DefaultFp(x) => Some(DefaultFpField(x, m))
    case Text(token) => Contents(token)
    case Align(b) => if Alignable(offset, b) then Some(Zeros(Pad(offset, b))) else None
    case Blank(n) => if n >= 0 then Some(Zeros(n)) else None
    case Fixup(v) =>
      if m.addressLen < 8 then None
      else Some(Zeros(Pad(offset, m.addressLen / 8)) + Field(v, FixupWidth(m.addressLen), m.order))
    case _ => Some([])
  }

  // ---------- What an item changes ----------

  predicate ValidAddressLen(bits: int) {
    bits % 8 == 0 && bits >= 0
  }

  function ChangeModes(c: Command, m: Modes): Modes {
    match c
    case SetType(t) => m.(ty := t)
    case SetOrder(o) => m.(order := o)
    case AllowNan(v) => m.(allowNan := v != 0)
    case AllowInfinity(v) => m.(allowInfinity := v != 0)
    case AddressLen(v) => if ValidAddressLen(v) then m.(addressLen := v) else m
    case _ => m
  }

  function Bind(c: Command, s: State): map<string, int> {
    match c
    case Label(n) => if s.pass == 0 then s.symbols[n := s.offset] else s.symbols
    case Pass0(n, v) => if s.pass == 0 then s.symbols[n := v] else s.symbols
    case Assign(n, v) => s.symbols[n := v]
    case _ => s.symbols
  }

  /** Bytes always move the offset; only the second pass writes them. */
  function Emit(s: State, bytes: seq<Byte>): State {
    s.(offset := s.offset + |bytes|, out := if s.pass == 1 then s.out + bytes else s.out)
  }

  function Perform(c: Command, s: State): Option<State> {
    match Encode(c, s.modes, s.offset)
    case None => None
    case Some(bytes) => Some(Emit(s, bytes).(modes := ChangeModes(c, s.modes), symbols := Bind(c, s)))
  }

  function Step(it: SourceItem, s: State): Option<State> {
    Perform(Resolve(it, s), s)
  }

  function Run(items: seq<SourceItem>, s: State): Option<State> {
    if items == [] then Some(s) else
    match Step(items[0], s)
    case None => None
    case Some(next) => Run(items[1..], next)
  }

  // ---------- Two passes ----------

  /** Between the passes only the offset and the pass number change. */
  function Rewind(s: State): State {
    s.(offset := 0, pass := 1)
  }

  function Assemble(items: seq<SourceItem>): Option<State> {
    match Run(items, FRESH)
    case None => None
    case Some(counted) => Run(items, Rewind(counted))
  }
}

/** The shift-reduce driver, one step at a time, for any tables, and the semantic actions of the grammar. */
module LrDriver {
  import opened Bits
  import opened Bytes
  import opened Assembler
  import Ieee
  import opened LrTables
  import opened Wrappers

  // ---------- Tokens ----------

  datatype Value =
    | Empty
    | Number(i: int)
    | Real(fp: Fp)
    | Str(bytes: seq<Byte>)
    | Name(name: string)
    | Kind(ty: Type)

  datatype Token = Token(sym: int, value: Value)

  /** A token without a value. */
  function Mark(sym: int): Token {
    Token(sym, Empty)
  }

  // Symbol numbers of the grammar.
  const END := 0
  const INTNUM := 3
  const FPNUM := 4
  const STRING := 5
  const IDENTIFIER := 6
  const ALIGN := 7
  const BLANK := 8
  const LITTLE_ENDIAN := 9
  const BIG_ENDIAN := 10
  const ADDRESS_LEN := 11
  const FIXUP := 12
  const TYPE := 13
  const ALLOW_NAN := 14
  const ALLOW_INFINITY := 15
  const U8_NAME := 16
  const MINUS := 26
  const PLUS := 27
  const STAR := 28
  const SLASH := 29
  const BAR := 30
  const OPEN := 31
  const CLOSE := 32
  const EQUALS := 34
  const NEW_LINE := 35
  const COMMA := 36
  const COLON := 37
  const INPUT := 39
  const LINE := 40
  const RUN := 41
  const TYPE_NT := 42
  const ITEM := 43
  const INTEXP := 44
  const FPEXP := 45

  // ---------- Semantic actions ----------

  /** A reduction either yields a value or calls back into the assembler. */
  datatype Effect = Yield(value: Value) | Do(command: Command)

  /** Rules 8 to 17: type names. */
  function TypeOf(k: nat): Type {
    match k
    case 0 => U8 case 1 => U16 case 2 => U32 case 3 => U64 case 4 => S8
    case 5 => S16 case 6 => S32 case 7 => S64 case 8 => Float case _ => Double
  }

  /** The action of rule r on the values of its right-hand side; None for values of other kinds. */
  function Action(r: int, vals: seq<Value>, s: State): Option<Effect> {
    if 8 <= r <= 17 then Some(Yield(Kind(TypeOf(r - 8))))
    else if 18 <= r <= 42 then ItemAction(r, vals)
    else if 43 <= r <= 48 then ExprAction(r, vals, s)
    else if 49 <= r <= 55 then FpExprAction(r, vals)
    else if 2 <= r <= 7 then Some(Yield(Empty))
    else None
  }

  function ExprAction(r: int, vals: seq<Value>, s: State): Option<Effect> {
    match r
    case 43 => if |vals| == 1 && vals[0].Number? then Some(Yield(vals[0])) else None
    case 44 =>
      if |vals| == 3 && vals[0].Number? && vals[2].Number?
      then Some(Yield(Number(Wrap64(vals[0].i - vals[2].i)))) else None
    case 45 =>
      if |vals| == 3 && vals[0].Number? && vals[2].Number?
      then Some(Yield(Number(Wrap64(vals[0].i + vals[2].i)))) else None
    case 46 => if |vals| == 3 && vals[1].Number? then Some(Yield(vals[1])) else None
    case 47 =>
      if |vals| == 3 && vals[0].Number? && vals[2].Number?
      then Some(Yield(Number(Or(vals[0].i, vals[2].i)))) else None
    case 48 => if |vals| == 1 && vals[0].Name? then Some(Yield(Number(Lookup(vals[0].name, s)))) else None
    case _ => None
  }

  function FpExprAction(r: int, vals: seq<Value>): Option<Effect> {
    if 50 <= r <= 53 then
      if |vals| == 3 && vals[0].Real? && vals[2].Real?
      then Some(Yield(Real(FpOperation(r, vals[0].fp, vals[2].fp)))) else None
    else match r
      case 49 => if |vals| == 1 && vals[0].Real? then Some(Yield(vals[0])) else None
      case 54 => if |vals| == 2 && vals[1].Real? then Some(Yield(Real(Ieee.Negate(vals[1].fp)))) else None
      case _ => if |vals| == 3 && vals[1].Real? then Some(Yield(vals[1])) else None
  }

  function FpOperation(r: int, x: Fp, y: Fp): Fp {
    match r
    case 50 => Ieee.Add(x, y)
    case 51 => Ieee.Sub(x, y)
    case 52 => Ieee.Mul(x, y)
    case _ => Ieee.Div(x, y)
  }

  function ItemAction(r: int, vals: seq<Value>): Option<Effect> {
    if 18 <= r <= 25 || r == 40 then LongAction(r, vals)
    else if r == 26 || r == 27 then FpAction(r, vals)
    else if 31 <= r <= 36 then KeywordAction(r, vals)
    else match r
      case 28 => if |vals| == 1 && vals[0].Number? then Some(Do(Default(vals[0].i))) else None
      case 29 => if |vals| == 1 && vals[0].Real? then Some(Do(DefaultFp(vals[0].fp))) else None
      case 30 => if |vals| == 1 && vals[0].Str? then Some(Do(Text(vals[0].bytes))) else None
      case 37 => if |vals| == 2 && vals[1].Kind? then Some(Do(SetType(vals[1].ty))) else None
      case 38 => Some(Do(SetOrder(LittleEndian)))
      case 39 => Some(Do(SetOrder(BigEndian)))
      case 41 => if |vals| == 2 && vals[0].Name? then Some(Do(Label(vals[0].name))) else None
      case 42 =>
        if |vals| == 3 && vals[0].Name? && vals[2].Number? then Some(Do(Assign(vals[0].name, vals[2].i))) else None
      case _ => None
  }

  function LongAction(r: int, vals: seq<Value>): Option<Effect>
    requires 18 <= r
  {
    if |vals| != 4 || !vals[3].Number? then None
    else if r <= 25 then Some(Do(Typed(IntTypeOf(r - 18), vals[3].i)))
    else if vals[1].Name? then Some(Do(Pass0(vals[1].name, vals[3].i)))
    else None
  }

  function FpAction(r: int, vals: seq<Value>): Option<Effect> {
    if |vals| != 4 || !vals[3].Real? then None
    else Some(Do(TypedFp(if r == 26 then Float else Double, vals[3].fp)))
  }

  function KeywordAction(r: int, vals: seq<Value>): Option<Effect> {
    if |vals| != 2 || !vals[1].Number? then None
    else match r
      case 31 => Some(Do(Align(vals[1].i)))
      case 32 => Some(Do(Blank(vals[1].i)))
      case 33 => Some(Do(AllowNan(vals[1].i)))
      case 34 => Some(Do(AllowInfinity(vals[1].i)))
      case 35 => Some(Do(AddressLen(vals[1].i)))
      case _ => Some(Do(Fixup(vals[1].i)))
  }

  function IntTypeOf(k: nat): IntType {
    if k < 8 then TypeOf(k) else U8
  }

  /** A reduction's value and what its callback leaves of the assembler; None where the callback fails. */
  function Act(r: int, vals: seq<Value>, s: State): Option<(Value, State)> {
    match Action(r, vals, s)
    case None => None
    case Some(Yield(v)) => Some((v, s))
    case Some(Do(command)) =>
      match Perform(command, s)
      case None => None
      case Some(t) => Some((Empty, t))
  }

  // ---------- One step ----------

  /** A parser: the driver's skeleton is the same for any tables and actions. */
  datatype Parser = Parser(
    decide: (int, int) -> Decision,
    goto: (int, int) -> int,
    lhs: int -> int,
    length: int -> int,
    act: (int, seq<Value>, State) -> Option<(Value, State)>)

  /** The parser of the source. */
  const LALR := Parser(Decide, Goto, Lhs, Length, Act)

  datatype Entry = Entry(state: int, value: Value)

  datatype Config = Config(stack: seq<Entry>, input: seq<Token>, asm: State)

  datatype Outcome = Next(config: Config) | Accept | Reject

  const FINAL := 2

  function Values(entries: seq<Entry>): (vals: seq<Value>)
    ensures |vals| == |entries|
    ensures forall k :: 0 <= k < |entries| ==> vals[k] == entries[k].value
  {
    if entries == [] then [] else [entries[0].value] + Values(entries[1..])
  }

  function Top(stack: seq<Entry>): int {
    if stack == [] then 0 else stack[|stack| - 1].state
  }

  /** Replace the top entries, as many as rule r has symbols, by its nonterminal, after its action. */
  function ReduceBy(tb: Parser, r: int, c: Config): Outcome {
    var keep := |c.stack| - tb.length(r);
    if !(1 <= keep <= |c.stack|) then Reject else
    var base := c.stack[..keep];
    match tb.act(r, Values(c.stack[keep..]), c.asm)
    case None => Reject
    case Some((v, asm)) => Next(Config(base + [Entry(tb.goto(Top(base), tb.lhs(r)), v)], c.input, asm))
  }

  function Advance(tb: Parser, c: Config): Outcome {
    if Top(c.stack) == FINAL then Accept
    else if c.input == [] then Reject
    else match tb.decide(Top(c.stack), c.input[0].sym)
      case Error => Reject
      case Reduce(r) => ReduceBy(tb, r, c)
      case Shift(q) => Next(Config(c.stack + [Entry(q, c.input[0].value)], c.input[1..], c.asm))
  }

  /** S contains every step from its members. */
  ghost predicate Closed(tb: Parser, S: iset<Config>) {
    forall x {:trigger Advance(tb, x)} :: x in S && Advance(tb, x).Next? ==> Advance(tb, x).config in S
  }

  /** The driver gets from c to d: d is in every closed set that c is in. */
  ghost predicate Reaches(tb: Parser, c: Config, d: Config) {
    forall S: iset<Config> :: Closed(tb, S) && c in S ==> d in S
  }

  /** c becomes d in n steps. */
  predicate Leads(tb: Parser, c: Config, d: Config, n: nat)
    decreases n
  {
    if n == 0 then c == d else Advance(tb, c).Next? && Leads(tb, Advance(tb, c).config, d, n - 1)
  }

  ghost predicate LeadsSome(tb: Parser, c: Config, d: Config) {
    exists n: nat :: Leads(tb, c, d, n)
  }

  lemma {:induction false} LeadsFurther(tb: Parser, c: Config, d: Config, n: nat)
    requires Leads(tb, c, d, n) && Advance(tb, d).Next?
    ensures Leads(tb, c, Advance(tb, d).config, n + 1)
    decreases n
  {
    if n == 0 {
      assert Leads(tb, Advance(tb, d).config, Advance(tb, d).config, 0);
    } else {
      LeadsFurther(tb, Advance(tb, c).config, d, n - 1);
    }
  }

  /** Whatever is reached is reached in some number of steps. */
  lemma {:induction false} StepsTo(tb: Parser, c: Config, d: Config) returns (n: nat)
    requires Reaches(tb, c, d)
    ensures Leads(tb, c, d, n)
  {
    var S := iset x | LeadsSome(tb, c, x);
    assert Leads(tb, c, c, 0);
    forall x | x in S && Advance(tb, x).Next? ensures Advance(tb, x).config in S {
      var k :| Leads(tb, c, x, k);
      LeadsFurther(tb, c, x, k);
    }
    assert Closed(tb, S) && c in S;
    n :| Leads(tb, c, d, n);
  }

  lemma {:induction false} ShiftNext(tb: Parser, c: Config, q: int)
    requires c.input != [] && Top(c.stack) != FINAL && tb.decide(Top(c.stack), c.input[0].sym) == Shift(q)
    ensures Advance(tb, c) == Next(Config(c.stack + [Entry(q, c.input[0].value)], c.input[1..], c.asm))
  {
  }

  lemma {:induction false} ShiftStep(tb: Parser, c: Config, token: Token, q: int)
    requires c.input != [] && c.input[0] == token && Top(c.stack) != FINAL
    requires tb.decide(Top(c.stack), token.sym) == Shift(q)
    ensures Reaches(tb, c, Config(c.stack + [Entry(q, token.value)], c.input[1..], c.asm))
  {
    assert Advance(tb, c).Next?;
  }

  lemma {:induction false} ReduceNext(tb: Parser, c: Config, base: seq<Entry>, rhs: seq<Entry>, r: int, v: Value, asm: State)
    requires c.stack == base + rhs && base != [] && tb.length(r) == |rhs|
    requires c.input != [] && Top(c.stack) != FINAL && tb.decide(Top(c.stack), c.input[0].sym) == Reduce(r)
    requires tb.act(r, Values(rhs), c.asm) == Some((v, asm))
    ensures Advance(tb, c) == Next(Config(base + [Entry(tb.goto(Top(base), tb.lhs(r)), v)], c.input, asm))
  {
    assert c.stack[..|base|] == base && c.stack[|base|..] == rhs;
  }

  lemma {:induction false} ReduceStep(tb: Parser, c: Config, base: seq<Entry>, rhs: seq<Entry>, r: int, v: Value, asm: State)
    requires c.stack == base + rhs && base != [] && tb.length(r) == |rhs|
    requires c.input != [] && Top(c.stack) != FINAL && tb.decide(Top(c.stack), c.input[0].sym) == Reduce(r)
    requires tb.act(r, Values(rhs), c.asm) == Some((v, asm))
    ensures Reaches(tb, c, Config(base + [Entry(tb.goto(Top(base), tb.lhs(r)), v)], c.input, asm))
  {
    ReduceNext(tb, c, base, rhs, r, v, asm);
  }
}

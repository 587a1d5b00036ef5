/** Items, lines and whole programs: their text, and what the shift-reduce driver makes of it. */
module LrProgram {
  import opened Bytes
  import opened Assembler
  import opened Layout
  import opened LrTables
  import opened LrDriver
  import opened LrExpressions
  import opened Wrappers

  // ---------- Text of an item ----------

  function TypeIndex(t: Type): (k: nat)
    ensures k < 10 && TypeOf(k) == t
    ensures t != Float && t != Double <==> k < 8
  {
    match t
    case U8 => 0 case U16 => 1 case U32 => 2 case U64 => 3 case S8 => 4
    case S16 => 5 case S32 => 6 case S64 => 7 case Float => 8 case Double => 9
  }

  function TypeToken(t: Type): Token {
    Token(U8_NAME + TypeIndex(t), Kind(t))
  }

  /** The tokens of an item in front of its argument. */
  function Head(it: SourceItem): seq<Token> {
    match it
    case Typed(t, _) => [Mark(OPEN), TypeToken(t), Mark(CLOSE)]
    case TypedFp(t, _) => [Mark(OPEN), TypeToken(t), Mark(CLOSE)]
    case Default(_) => []
    case DefaultFp(_) => []
    case Text(bytes) => [Token(STRING, Str(bytes))]
    case Align(_) => [Mark(ALIGN)]
    case Blank(_) => [Mark(BLANK)]
    case AllowNan(_) => [Mark(ALLOW_NAN)]
    case AllowInfinity(_) => [Mark(ALLOW_INFINITY)]
    case AddressLen(_) => [Mark(ADDRESS_LEN)]
    case Fixup(_) => [Mark(FIXUP)]
    case SetType(_) => [Mark(TYPE)]
    case SetOrder(o) => [Mark(if o == LittleEndian then LITTLE_ENDIAN else BIG_ENDIAN)]
    case Pass0(n, _) => [Mark(STAR), Token(IDENTIFIER, Name(n)), Mark(STAR)]
    case Label(n) => [Token(IDENTIFIER, Name(n)), Mark(COLON)]
    case Assign(n, _) => [Token(IDENTIFIER, Name(n)), Mark(EQUALS)]
  }

  /** The states the driver goes through when it shifts the head. */
  function Route(it: SourceItem): (r: seq<int>)
    ensures |r| == |Head(it)|
  {
    match it
    case Typed(t, _) => [18, 49 + TypeIndex(t), 73 + TypeIndex(t)]
    case TypedFp(t, _) => [18, 49 + TypeIndex(t), 73 + TypeIndex(t)]
    case Default(_) => []
    case DefaultFp(_) => []
    case Text(_) => [5]
    case Align(_) => [7]
    case Blank(_) => [8]
    case AllowNan(_) => [14]
    case AllowInfinity(_) => [15]
    case AddressLen(_) => [11]
    case Fixup(_) => [12]
    case SetType(_) => [13]
    case SetOrder(o) => [if o == LittleEndian then 9 else 10]
    case Pass0(_, _) => [17, 48, 72]
    case Label(_) => [6, 26]
    case Assign(_, _) => [6, 25]
  }

  /** The rule that ends an item. */
  function ItemRule(it: SourceItem): int {
    match it
    case Typed(t, _) => 18 + TypeIndex(t)
    case TypedFp(t, _) => 18 + TypeIndex(t)
    case Default(_) => 28
    case DefaultFp(_) => 29
    case Text(_) => 30
    case Align(_) => 31
    case Blank(_) => 32
    case AllowNan(_) => 33
    case AllowInfinity(_) => 34
    case AddressLen(_) => 35
    case Fixup(_) => 36
    case SetType(_) => 37
    case SetOrder(o) => if o == LittleEndian then 38 else 39
    case Pass0(_, _) => 40
    case Label(_) => 41
    case Assign(_, _) => 42
  }

  datatype Argument = NoArgument | ExprArgument(sort: Sort, tree: Tree) | TypeArgument(ty: Type)

  function ArgumentOf(it: SourceItem): Argument {
    match it
    case TypedFp(_, e) => ExprArgument(Floats, FpTree(e))
    case DefaultFp(e) => ExprArgument(Floats, FpTree(e))
    case SetType(t) => TypeArgument(t)
    case Text(_) | SetOrder(_) | Label(_) => NoArgument
    case _ => ExprArgument(Ints, IntTree(it.arg))
  }

  function ArgumentTokens(a: Argument): seq<Token> {
    match a
    case NoArgument => []
    case ExprArgument(_, t) => TreeTokens(t)
    case TypeArgument(t) => [TypeToken(t)]
  }

  /** How an item is written and read: the tokens in front of its argument, the states that shifting them goes through,
      its argument, and the rule that ends it. */
  datatype Shape = Shape(head: seq<Token>, route: seq<int>, arg: Argument, rule: int)

  function ShapeOf(it: SourceItem): (sh: Shape)
    ensures |sh.head| == |sh.route|
  {
    Shape(Head(it), Route(it), ArgumentOf(it), ItemRule(it))
  }

  function ItemTokens(it: SourceItem): seq<Token> {
    Head(it) + ArgumentTokens(ArgumentOf(it))
  }

  predicate GroupedArgument(a: Argument) {
    a.ExprArgument? ==> WellSorted(a.sort, a.tree) && Grouped(a.tree)
  }

  predicate GroupedItem(it: SourceItem) {
    GroupedArgument(ArgumentOf(it))
  }

  // ---------- What the tables must say ----------

  /** Symbols that may follow an item. */
  predicate EndOfItem(sym: int) {
    sym == COMMA || sym == NEW_LINE
  }

  /** The state in which the argument of an item begins. */
  function ArgumentStart(q: int, sh: Shape): int {
    if sh.route == [] then q else sh.route[|sh.route| - 1]
  }

  function ArgumentSymbol(a: Argument): int
    requires !a.NoArgument?
  {
    if a.ExprArgument? then Nonterminal(a.sort) else TYPE_NT
  }

  /** The state that ends an item. */
  function ItemEnd(tb: Parser, q: int, sh: Shape): int {
    if sh.arg.NoArgument? then ArgumentStart(q, sh) else tb.goto(ArgumentStart(q, sh), ArgumentSymbol(sh.arg))
  }

  /** Shifting the tokens from state q goes through the given states. */
  predicate Shifts(tb: Parser, q: int, tokens: seq<Token>, states: seq<int>)
    decreases |tokens|
  {
    |tokens| == |states| && (tokens != [] ==>
      && q != FINAL && tb.decide(q, tokens[0].sym) == Shift(states[0])
      && Shifts(tb, states[0], tokens[1..], states[1..]))
  }

  ghost predicate ArgumentFacts(tb: Parser, p: int, a: Argument) {
    match a
    case NoArgument => true
    case ExprArgument(sort, t) => Outer(sort, p)
    case TypeArgument(t) =>
      var k := TypeIndex(t);
      && tb.decide(p, U8_NAME + k) == Shift(33 + k) && tb.length(8 + k) == 1 && tb.lhs(8 + k) == TYPE_NT
      && (forall r, vals, s :: r == 8 + k ==> tb.act(r, vals, s) == Some((Kind(t), s)))
      && forall f :: EndOfItem(f) ==> tb.decide(33 + k, f) == Reduce(8 + k)
  }

  ghost predicate EndFacts(tb: Parser, g: int, sh: Shape) {
    && g != FINAL
    && tb.lhs(sh.rule) == ITEM
    && tb.length(sh.rule) == |sh.head| + (if sh.arg.NoArgument? then 0 else 1)
    && forall f :: EndOfItem(f) ==> tb.decide(g, f) == Reduce(sh.rule)
  }

  ghost predicate ItemFacts(tb: Parser, q: int, sh: Shape) {
    && Shifts(tb, q, sh.head, sh.route)
    && ArgumentStart(q, sh) != FINAL
    && ArgumentFacts(tb, ArgumentStart(q, sh), sh.arg)
    && EndFacts(tb, ItemEnd(tb, q, sh), sh)
  }

  /** States that reduce whatever comes next. */
  predicate LineReductions(tb: Parser, f: int) {
    && tb.decide(0, f) == Reduce(2) && tb.decide(19, f) == Reduce(4) && tb.decide(20, f) == Reduce(3)
    && tb.decide(62, f) == Reduce(5) && tb.decide(22, f) == Reduce(6) && tb.decide(85, f) == Reduce(7)
  }

  ghost predicate LineFacts(tb: Parser) {
    && (forall f :: LineReductions(tb, f))
    && (forall r, vals, s :: 2 <= r <= 7 ==> tb.act(r, vals, s) == Some((Empty, s)))
    && tb.decide(1, NEW_LINE) == Shift(19) && tb.decide(1, END) == Shift(FINAL)
    && tb.decide(21, COMMA) == Shift(63) && tb.decide(21, NEW_LINE) == Shift(62)
    && tb.length(2) == 0 && tb.length(3) == 2 && tb.length(4) == 1 && tb.length(5) == 2
    && tb.length(6) == 1 && tb.length(7) == 3
    && tb.goto(0, tb.lhs(2)) == 1 && tb.goto(0, tb.lhs(3)) == 1
    && tb.goto(1, tb.lhs(4)) == 20 && tb.goto(1, tb.lhs(5)) == 20
    && tb.goto(1, tb.lhs(6)) == 21 && tb.goto(1, tb.lhs(7)) == 21
    && tb.goto(1, ITEM) == 22 && tb.goto(63, ITEM) == 85
  }

  /** The value of an argument, as the actions compute it. */
  function ArgumentValue(tb: Parser, a: Argument, s: State): Option<Value> {
    match a
    case NoArgument => Some(Empty)
    case ExprArgument(sort, t) => Attribute(tb, sort, t, s)
    case TypeArgument(t) => Some(Kind(t))
  }

  function HeadValues(head: seq<Token>): (vals: seq<Value>)
    ensures |vals| == |head|
  {
    seq(|head|, k requires 0 <= k < |head| => head[k].value)
  }

  /** The values on the stack when an item is reduced: those of its head, and that of its argument if it has one. */
  function ShapeValues(sh: Shape, v: Value): seq<Value> {
    HeadValues(sh.head) + (if sh.arg.NoArgument? then [] else [v])
  }

  /** The argument has a value, and with it the action of an item's rule is the item's step. */
  predicate ItemActs(tb: Parser, it: SourceItem, s: State) {
    var v := ArgumentValue(tb, ArgumentOf(it), s);
    && v.Some?
    && tb.act(ItemRule(it), ShapeValues(ShapeOf(it), v.value), s) ==
      match Step(it, s) case None => None case Some(t) => Some((Empty, t))
  }

  ghost predicate GrammarFacts(tb: Parser) {
    && ExprFacts(tb) && LineFacts(tb)
    && (forall q, it :: ItemStart(q) ==> ItemFacts(tb, q, ShapeOf(it)))
    && (forall it, s :: ItemActs(tb, it, s))
  }

  // ---------- One item ----------

  /** Entries for shifted tokens. */
  function Shifted(tokens: seq<Token>, states: seq<int>): (r: seq<Entry>)
    requires |tokens| == |states|
    ensures |r| == |tokens|
    ensures forall k :: 0 <= k < |r| ==> r[k] == Entry(states[k], tokens[k].value)
  {
    seq(|tokens|, k requires 0 <= k < |tokens| => Entry(states[k], tokens[k].value))
  }

  lemma {:induction false} ShiftAll(tb: Parser, c: Config, tokens: seq<Token>, states: seq<int>, rest: seq<Token>)
    requires Shifts(tb, Top(c.stack), tokens, states) && c.input == tokens + rest && c.stack != []
    ensures Reaches(tb, c, Config(c.stack + Shifted(tokens, states), rest, c.asm))
    decreases |tokens|
  {
    if tokens == [] {
      assert c == Config(c.stack + Shifted(tokens, states), rest, c.asm);
    } else {
      ShiftStep(tb, c, tokens[0], states[0]);
      var next := Config(c.stack + [Entry(states[0], tokens[0].value)], tokens[1..] + rest, c.asm);
      assert c.input[1..] == next.input;
      ShiftAll(tb, next, tokens[1..], states[1..], rest);
      assert next.stack + Shifted(tokens[1..], states[1..]) == c.stack + Shifted(tokens, states);
    }
  }

  lemma {:induction false} ReadyArgument(tb: Parser, sort: Sort, t: Tree, c: Config, rest: seq<Token>)
    requires Outer(sort, Top(c.stack)) && c.stack != []
    requires c.input == TreeTokens(t) + rest && rest != [] && EndOfItem(rest[0].sym)
    ensures Ready(sort, t, c, rest)
  {
  }

  /** The argument of an item becomes one entry. */
  lemma {:induction false} ParseArgument(tb: Parser, a: Argument, c: Config, rest: seq<Token>, v: Value)
    requires ExprFacts(tb) && ArgumentFacts(tb, Top(c.stack), a) && !a.NoArgument? && GroupedArgument(a)
    requires c.stack != [] && Top(c.stack) != FINAL
    requires c.input == ArgumentTokens(a) + rest && rest != [] && EndOfItem(rest[0].sym)
    requires ArgumentValue(tb, a, c.asm) == Some(v)
    ensures Reaches(tb, c, Config(c.stack + [Entry(tb.goto(Top(c.stack), ArgumentSymbol(a)), v)], rest, c.asm))
  {
    if a.ExprArgument? {
      ReadyArgument(tb, a.sort, a.tree, c, rest);
      ParseExpr(tb, a.sort, a.tree, c, rest, v);
    } else {
      ParseTypeName(tb, a.ty, c, rest);
    }
  }

  lemma {:induction false} ParseTypeName(tb: Parser, t: Type, c: Config, rest: seq<Token>)
    requires ArgumentFacts(tb, Top(c.stack), TypeArgument(t)) && c.stack != [] && Top(c.stack) != FINAL
    requires c.input == [TypeToken(t)] + rest && rest != [] && EndOfItem(rest[0].sym)
    ensures Reaches(tb, c, Config(c.stack + [Entry(tb.goto(Top(c.stack), TYPE_NT), Kind(t))], rest, c.asm))
  {
    var k := TypeIndex(t);
    ShiftStep(tb, c, TypeToken(t), 33 + k);
    var top := Entry(33 + k, Kind(t));
    var d := Config(c.stack + [top], rest, c.asm);
    assert c.input[1..] == rest;
    assert Values([top]) == [Kind(t)];
    ReduceStep(tb, d, c.stack, [top], 8 + k, Kind(t), c.asm);
  }

  /** The driver is about to read an item of this shape. */
  predicate AtItem(sh: Shape, c: Config, rest: seq<Token>) {
    && c.stack != [] && GroupedArgument(sh.arg) && |sh.head| == |sh.route|
    && c.input == sh.head + (ArgumentTokens(sh.arg) + rest) && rest != [] && EndOfItem(rest[0].sym)
  }

  /** The head of the item is on the stack. */
  function HeadShifted(sh: Shape, c: Config, rest: seq<Token>): Config
    requires |sh.head| == |sh.route|
  {
    Config(c.stack + Shifted(sh.head, sh.route), ArgumentTokens(sh.arg) + rest, c.asm)
  }

  /** The entries of an item just before the reduction that ends it. */
  function ItemEntries(tb: Parser, q: int, sh: Shape, v: Value): (r: seq<Entry>)
    requires |sh.head| == |sh.route|
  {
    Shifted(sh.head, sh.route) + (if sh.arg.NoArgument? then [] else [Entry(ItemEnd(tb, q, sh), v)])
  }

  lemma {:induction false} EntryValues(tb: Parser, q: int, sh: Shape, v: Value)
    requires |sh.head| == |sh.route|
    ensures Values(ItemEntries(tb, q, sh, v)) == ShapeValues(sh, v)
    ensures |ItemEntries(tb, q, sh, v)| == |sh.head| + (if sh.arg.NoArgument? then 0 else 1)
  {
  }

  lemma {:induction false} EntryTop(tb: Parser, stack: seq<Entry>, sh: Shape, v: Value)
    requires |sh.head| == |sh.route| && stack != []
    ensures Top(stack + ItemEntries(tb, Top(stack), sh, v)) == ItemEnd(tb, Top(stack), sh)
  {
  }

  function ItemShifted(tb: Parser, sh: Shape, c: Config, rest: seq<Token>, v: Value): Config
    requires |sh.head| == |sh.route|
  {
    Config(c.stack + ItemEntries(tb, Top(c.stack), sh, v), rest, c.asm)
  }

  lemma {:induction false} ReadArgument(tb: Parser, sh: Shape, c: Config, rest: seq<Token>, v: Value)
    requires ExprFacts(tb) && ItemFacts(tb, Top(c.stack), sh) && AtItem(sh, c, rest)
    requires ArgumentValue(tb, sh.arg, c.asm) == Some(v)
    ensures Reaches(tb, HeadShifted(sh, c, rest), ItemShifted(tb, sh, c, rest, v))
  {
    var d := HeadShifted(sh, c, rest);
    if sh.arg.NoArgument? {
      assert d == ItemShifted(tb, sh, c, rest, v);
    } else {
      assert Top(d.stack) == ArgumentStart(Top(c.stack), sh);
      ParseArgument(tb, sh.arg, d, rest, v);
      assert d.stack + [Entry(ItemEnd(tb, Top(c.stack), sh), v)] == ItemShifted(tb, sh, c, rest, v).stack;
    }
  }

  /** An item parsed: one entry on the stack, and the assembler moved by exactly this item. */
  function ItemDone(tb: Parser, c: Config, rest: seq<Token>, asm: State): Config {
    Config(c.stack + [Entry(tb.goto(Top(c.stack), ITEM), Empty)], rest, asm)
  }

  lemma {:induction false} EndItem(tb: Parser, sh: Shape, c: Config, rest: seq<Token>, v: Value, asm: State)
    requires ItemFacts(tb, Top(c.stack), sh) && AtItem(sh, c, rest)
    requires tb.act(sh.rule, ShapeValues(sh, v), c.asm) == Some((Empty, asm))
    ensures Reaches(tb, ItemShifted(tb, sh, c, rest, v), ItemDone(tb, c, rest, asm))
  {
    EntryValues(tb, Top(c.stack), sh, v);
    EntryTop(tb, c.stack, sh, v);
    ReduceStep(tb, ItemShifted(tb, sh, c, rest, v), c.stack, ItemEntries(tb, Top(c.stack), sh, v), sh.rule, Empty, asm);
  }

  lemma {:induction false} ParseShape(tb: Parser, sh: Shape, c: Config, rest: seq<Token>, v: Value, asm: State)
    requires ExprFacts(tb) && ItemFacts(tb, Top(c.stack), sh) && AtItem(sh, c, rest)
    requires ArgumentValue(tb, sh.arg, c.asm) == Some(v)
    requires tb.act(sh.rule, ShapeValues(sh, v), c.asm) == Some((Empty, asm))
    ensures Reaches(tb, c, ItemDone(tb, c, rest, asm))
  {
    ShiftAll(tb, c, sh.head, sh.route, ArgumentTokens(sh.arg) + rest);
    ReadArgument(tb, sh, c, rest, v);
    EndItem(tb, sh, c, rest, v, asm);
  }

  lemma {:induction false} AtShape(it: SourceItem, c: Config, rest: seq<Token>)
    requires c.stack != [] && GroupedItem(it)
    requires c.input == ItemTokens(it) + rest && rest != [] && EndOfItem(rest[0].sym)
    ensures AtItem(ShapeOf(it), c, rest)
  {
    assert Head(it) + (ArgumentTokens(ArgumentOf(it)) + rest) == c.input;
  }

  lemma {:induction false} ParseItemOf(tb: Parser, it: SourceItem, c: Config, rest: seq<Token>, asm: State)
    requires ExprFacts(tb) && ItemFacts(tb, Top(c.stack), ShapeOf(it)) && ItemActs(tb, it, c.asm)
    requires c.stack != [] && GroupedItem(it)
    requires c.input == ItemTokens(it) + rest && rest != [] && EndOfItem(rest[0].sym)
    requires Step(it, c.asm) == Some(asm)
    ensures Reaches(tb, c, ItemDone(tb, c, rest, asm))
  {
    AtShape(it, c, rest);
    ParseShape(tb, ShapeOf(it), c, rest, ArgumentValue(tb, ArgumentOf(it), c.asm).value, asm);
  }

  lemma {:induction false} ParseItem(tb: Parser, it: SourceItem, c: Config, rest: seq<Token>, asm: State)
    requires GrammarFacts(tb) && GroupedItem(it) && c.stack != [] && ItemStart(Top(c.stack))
    requires c.input == ItemTokens(it) + rest && rest != [] && EndOfItem(rest[0].sym)
    requires Step(it, c.asm) == Some(asm)
    ensures Reaches(tb, c, ItemDone(tb, c, rest, asm))
  {
    assert ItemFacts(tb, Top(c.stack), ShapeOf(it)) && ItemActs(tb, it, c.asm);
    ParseItemOf(tb, it, c, rest, asm);
  }

  // ---------- Lines ----------

  /** The rest of a line that already has an item. */
  function TailTokens(items: Items): (r: seq<Token>)
    ensures r != [] && EndOfItem(r[0].sym)
  {
    if items == [] then [Mark(NEW_LINE)] else [Mark(COMMA)] + (ItemTokens(items[0]) + TailTokens(items[1..]))
  }

  function LineTokens(items: Items): (r: seq<Token>)
    ensures r != []
  {
    if items == [] then [Mark(NEW_LINE)] else ItemTokens(items[0]) + TailTokens(items[1..])
  }

  function LinesTokens(lines: seq<Items>): seq<Token> {
    if lines == [] then [] else LineTokens(lines[0]) + LinesTokens(lines[1..])
  }

  function ProgramTokens(lines: seq<Items>): seq<Token> {
    LinesTokens(lines) + [Mark(END)]
  }

  function Flatten(lines: seq<Items>): Items {
    if lines == [] then [] else lines[0] + Flatten(lines[1..])
  }

  predicate GroupedLine(items: Items) {
    forall k :: 0 <= k < |items| ==> GroupedItem(items[k])
  }

  predicate GroupedLines(lines: seq<Items>) {
    forall k :: 0 <= k < |lines| ==> GroupedLine(lines[k])
  }

  const BOTTOM := [Entry(0, Empty)]
  const LINE_START := [Entry(0, Empty), Entry(1, Empty)]
  const IN_RUN := [Entry(0, Empty), Entry(1, Empty), Entry(21, Empty)]

  /** A reduction whose action only yields the empty value. */
  lemma {:induction false} Structural(tb: Parser, c: Config, base: seq<Entry>, rhs: seq<Entry>, r: int)
    requires c.stack == base + rhs && base != [] && tb.length(r) == |rhs| && LineFacts(tb) && 2 <= r <= 7
    requires c.input != [] && Top(c.stack) != FINAL && tb.decide(Top(c.stack), c.input[0].sym) == Reduce(r)
    ensures Reaches(tb, c, Config(base + [Entry(tb.goto(Top(base), tb.lhs(r)), Empty)], c.input, c.asm))
  {
    ReduceStep(tb, c, base, rhs, r, Empty, c.asm);
  }

  /** The new-line token is shifted onto `stack`, and the line is reduced. */
  lemma {:induction false} EndLine(tb: Parser, stack: seq<Entry>, rest: seq<Token>, asm: State)
    requires GrammarFacts(tb) && (stack == IN_RUN || stack == LINE_START) && rest != []
    ensures Reaches(tb, Config(stack, [Mark(NEW_LINE)] + rest, asm), Config(LINE_START + [Entry(20, Empty)], rest, asm))
  {
    assert LineReductions(tb, rest[0].sym);
    var c := Config(stack, [Mark(NEW_LINE)] + rest, asm);
    var q := if stack == IN_RUN then 62 else 19;
    ShiftStep(tb, c, Mark(NEW_LINE), q);
    var d := Config(stack + [Entry(q, Empty)], rest, asm);
    assert c.input[1..] == rest;
    var rhs := d.stack[2..];
    assert d.stack == LINE_START + rhs;
    Structural(tb, d, LINE_START, rhs, if stack == IN_RUN then 5 else 4);
  }

  /** The line is folded into the input. */
  lemma {:induction false} FoldLine(tb: Parser, rest: seq<Token>, asm: State)
    requires GrammarFacts(tb) && rest != []
    ensures Reaches(tb, Config(LINE_START + [Entry(20, Empty)], rest, asm), Config(LINE_START, rest, asm))
  {
    assert LineReductions(tb, rest[0].sym);
    var e := Config(LINE_START + [Entry(20, Empty)], rest, asm);
    assert e.stack == BOTTOM + [Entry(1, Empty), Entry(20, Empty)];
    Structural(tb, e, BOTTOM, [Entry(1, Empty), Entry(20, Empty)], 3);
    assert BOTTOM + [Entry(1, Empty)] == LINE_START;
  }

  lemma {:induction false} CloseLine(tb: Parser, stack: seq<Entry>, rest: seq<Token>, asm: State)
    requires GrammarFacts(tb) && (stack == IN_RUN || stack == LINE_START) && rest != []
    ensures Reaches(tb, Config(stack, [Mark(NEW_LINE)] + rest, asm), Config(LINE_START, rest, asm))
  {
    EndLine(tb, stack, rest, asm);
    FoldLine(tb, rest, asm);
  }

  /** An item joins the run of its line. */
  lemma {:induction false} JoinRun(tb: Parser, stack: seq<Entry>, rest: seq<Token>, asm: State)
    requires GrammarFacts(tb) && rest != [] && EndOfItem(rest[0].sym)
    requires stack == LINE_START + [Entry(22, Empty)] || stack == IN_RUN + [Entry(63, Empty), Entry(85, Empty)]
    ensures Reaches(tb, Config(stack, rest, asm), Config(IN_RUN, rest, asm))
  {
    assert LineReductions(tb, rest[0].sym);
    var rhs := stack[2..];
    assert stack == LINE_START + rhs;
    Structural(tb, Config(stack, rest, asm), LINE_START, rhs, if |rhs| == 1 then 6 else 7);
    assert LINE_START + [Entry(21, Empty)] == IN_RUN;
  }

  /** A comma and one more item. */
  lemma {:induction false} ParseNext(tb: Parser, it: SourceItem, more: seq<Token>, s: State, next: State)
    requires GrammarFacts(tb) && GroupedItem(it) && more != [] && EndOfItem(more[0].sym) && Step(it, s) == Some(next)
    ensures Reaches(tb, Config(IN_RUN, [Mark(COMMA)] + (ItemTokens(it) + more), s), Config(IN_RUN, more, next))
  {
    var c := Config(IN_RUN, [Mark(COMMA)] + (ItemTokens(it) + more), s);
    var d := Config(IN_RUN + [Entry(63, Empty)], ItemTokens(it) + more, s);
    ShiftStep(tb, c, Mark(COMMA), 63);
    assert c.input[1..] == d.input;
    ParseItem(tb, it, d, more, next);
    var e := ItemDone(tb, d, more, next);
    assert e.stack == IN_RUN + [Entry(63, Empty), Entry(85, Empty)];
    JoinRun(tb, e.stack, more, next);
  }

  /** The first item of a line. */
  lemma {:induction false} ParseFirst(tb: Parser, it: SourceItem, more: seq<Token>, s: State, next: State)
    requires GrammarFacts(tb) && GroupedItem(it) && more != [] && EndOfItem(more[0].sym) && Step(it, s) == Some(next)
    ensures Reaches(tb, Config(LINE_START, ItemTokens(it) + more, s), Config(IN_RUN, more, next))
  {
    var c := Config(LINE_START, ItemTokens(it) + more, s);
    ParseItem(tb, it, c, more, next);
    var d := ItemDone(tb, c, more, next);
    JoinRun(tb, d.stack, more, next);
  }

  lemma {:induction false} TailStartsWith(items: Items, rest: seq<Token>)
    requires items != []
    ensures TailTokens(items) + rest == [Mark(COMMA)] + (ItemTokens(items[0]) + (TailTokens(items[1..]) + rest))
  {
  }

  lemma {:induction false} ParseTail(tb: Parser, items: Items, rest: seq<Token>, s: State, t: State)
    requires GrammarFacts(tb) && GroupedLine(items) && rest != [] && Run(items, s) == Some(t)
    ensures Reaches(tb, Config(IN_RUN, TailTokens(items) + rest, s), Config(LINE_START, rest, t))
    decreases |items|
  {
    if items == [] {
      CloseLine(tb, IN_RUN, rest, s);
    } else {
      var more := TailTokens(items[1..]) + rest;
      var next := Step(items[0], s).value;
      ParseNext(tb, items[0], more, s, next);
      ParseTail(tb, items[1..], rest, next, t);
      TailStartsWith(items, rest);
    }
  }

  lemma {:induction false} LineStartsWith(items: Items, rest: seq<Token>)
    requires items != []
    ensures LineTokens(items) + rest == ItemTokens(items[0]) + (TailTokens(items[1..]) + rest)
  {
  }

  lemma {:induction false} ParseLine(tb: Parser, items: Items, rest: seq<Token>, s: State, t: State)
    requires GrammarFacts(tb) && GroupedLine(items) && rest != [] && Run(items, s) == Some(t)
    ensures Reaches(tb, Config(LINE_START, LineTokens(items) + rest, s), Config(LINE_START, rest, t))
  {
    if items == [] {
      CloseLine(tb, LINE_START, rest, s);
    } else {
      var more := TailTokens(items[1..]) + rest;
      var next := Step(items[0], s).value;
      ParseFirst(tb, items[0], more, s, next);
      ParseTail(tb, items[1..], rest, next, t);
      LineStartsWith(items, rest);
    }
  }

  lemma {:induction false} SplitLines(lines: seq<Items>, s: State, t: State) returns (next: State)
    requires lines != [] && Run(Flatten(lines), s) == Some(t)
    ensures Run(lines[0], s) == Some(next) && Run(Flatten(lines[1..]), next) == Some(t)
  {
    RunConcat(lines[0], Flatten(lines[1..]), s);
    next := Run(lines[0], s).value;
  }

  /** One line of several. */
  lemma {:induction false} ParseOneLine(tb: Parser, lines: seq<Items>, rest: seq<Token>, s: State, next: State)
    requires GrammarFacts(tb) && lines != [] && GroupedLine(lines[0]) && rest != [] && Run(lines[0], s) == Some(next)
    ensures Reaches(tb, Config(LINE_START, LinesTokens(lines) + rest, s),
      Config(LINE_START, LinesTokens(lines[1..]) + rest, next))
  {
    var more := LinesTokens(lines[1..]) + rest;
    assert LinesTokens(lines) + rest == LineTokens(lines[0]) + more;
    ParseLine(tb, lines[0], more, s, next);
  }

  lemma {:induction false} ParseLines(tb: Parser, lines: seq<Items>, rest: seq<Token>, s: State, t: State)
    requires GrammarFacts(tb) && GroupedLines(lines) && rest != [] && Run(Flatten(lines), s) == Some(t)
    ensures Reaches(tb, Config(LINE_START, LinesTokens(lines) + rest, s), Config(LINE_START, rest, t))
    decreases |lines|
  {
    if lines == [] {
      assert LinesTokens(lines) + rest == rest;
    } else {
      var next := SplitLines(lines, s, t);
      ParseOneLine(tb, lines, rest, s, next);
      ParseLines(tb, lines[1..], rest, next, t);
    }
  }

  /** Where the driver starts on a token list. */
  function Initial(tokens: seq<Token>, s: State): Config {
    Config(BOTTOM, tokens, s)
  }

  /** The accepting configuration. */
  function Final(t: State): Config {
    Config(LINE_START + [Entry(FINAL, Empty)], [], t)
  }

  /** Before the first token the empty input is reduced. */
  lemma {:induction false} OpenProgram(tb: Parser, tokens: seq<Token>, s: State)
    requires LineFacts(tb) && tokens != []
    ensures Reaches(tb, Initial(tokens, s), Config(LINE_START, tokens, s))
  {
    assert LineReductions(tb, tokens[0].sym);
    Structural(tb, Initial(tokens, s), BOTTOM, [], 2);
    assert BOTTOM + [Entry(1, Empty)] == LINE_START;
  }

  lemma {:induction false} CloseProgram(tb: Parser, t: State)
    requires LineFacts(tb)
    ensures Reaches(tb, Config(LINE_START, [Mark(END)], t), Final(t))
  {
    var c := Config(LINE_START, [Mark(END)], t);
    ShiftStep(tb, c, Mark(END), FINAL);
    assert c.input[1..] == [];
  }

  /** On the text of any program the driver accepts, and by then has performed exactly its items, in order. */
  lemma {:induction false} ParseProgram(tb: Parser, lines: seq<Items>, s: State, t: State)
    requires GrammarFacts(tb) && GroupedLines(lines) && Run(Flatten(lines), s) == Some(t)
    ensures Reaches(tb, Initial(ProgramTokens(lines), s), Final(t))
    ensures Advance(tb, Final(t)) == Accept
  {
    OpenProgram(tb, ProgramTokens(lines), s);
    ParseLines(tb, lines, [Mark(END)], s, t);
    CloseProgram(tb, t);
  }
}

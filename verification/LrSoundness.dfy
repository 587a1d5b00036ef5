/** What the entries of the stack have been read from, and how each step of the driver keeps that. */
module LrSoundness {
  import opened Assembler
  import opened Layout
  import opened LrTables
  import opened LrDriver
  import opened LrExpressions
  import opened LrProgram
  import opened LrAutomaton
  import opened Wrappers

  // ---------- What stands on the stack ----------

  /** A token with the kind of value the scanner gives it. */
  predicate ScannerToken(token: Token) {
    && Terminal(token.sym)
    && match token.value
      case Number(_) => token.sym == INTNUM
      case Real(_) => token.sym == FPNUM
      case Str(_) => token.sym == STRING
      case Name(_) => token.sym == IDENTIFIER
      case Kind(t) => token == TypeToken(t)
      case Empty =>
        !(token.sym == INTNUM || token.sym == FPNUM || token.sym == STRING || token.sym == IDENTIFIER
          || U8_NAME <= token.sym <= U8_NAME + 9)
  }

  /** What an entry of the stack has been read from. */
  datatype Part =
    | TokenPart(token: Token)
    | ExprPart(sort: Sort, tree: Tree)
    | TypePart(ty: Type)
    | ItemPart(it: SourceItem)
    | RunPart(items: Items)
    | LinePart(items: Items)
    | InputPart(lines: seq<Items>)

  function SymbolOf(p: Part): int {
    match p
    case TokenPart(token) => token.sym
    case ExprPart(sort, _) => Nonterminal(sort)
    case TypePart(_) => TYPE_NT
    case ItemPart(_) => ITEM
    case RunPart(_) => RUN
    case LinePart(_) => LINE
    case InputPart(_) => INPUT
  }

  /** The tokens of a line, its new line left out. */
  function RunTokens(items: Items): seq<Token> {
    if items == [] then []
    else if |items| == 1 then ItemTokens(items[0])
    else RunTokens(items[..|items| - 1]) + ([Mark(COMMA)] + ItemTokens(items[|items| - 1]))
  }

  function TextOf(p: Part): seq<Token> {
    match p
    case TokenPart(token) => [token]
    case ExprPart(_, t) => TreeTokens(t)
    case TypePart(t) => [TypeToken(t)]
    case ItemPart(it) => ItemTokens(it)
    case RunPart(items) => RunTokens(items)
    case LinePart(items) => LineTokens(items)
    case InputPart(lines) => LinesTokens(lines)
  }

  function ItemsOf(p: Part): Items {
    match p
    case ItemPart(it) => [it]
    case RunPart(items) => items
    case LinePart(items) => items
    case InputPart(lines) => Flatten(lines)
    case _ => []
  }

  /** Every leaf has the value its symbol needs. */
  predicate Scanned(t: Tree) {
    match t
    case Leaf(token) => ScannerToken(token)
    case Infix(l, _, r) => Scanned(l) && Scanned(r)
    case Minus(i) => Scanned(i)
    case Nested(i) => Scanned(i)
  }

  /** The part may stand where it does, on state q. */
  predicate PartFits(q: int, p: Part) {
    match p
    case TokenPart(token) => ScannerToken(token)
    case ExprPart(sort, t) =>
      Start(sort, q) && WellSorted(sort, t) && Grouped(t) && Scanned(t) && Level(t) >= StartLevel(sort, q)
    case TypePart(_) => q == 13
    case ItemPart(it) => ItemStart(q) && GroupedItem(it)
    case RunPart(items) => q == 1 && items != [] && GroupedLine(items)
    case LinePart(items) => q == 1 && GroupedLine(items)
    case InputPart(lines) => q == 0 && GroupedLines(lines)
  }

  /** The value of the entry is that of its part. */
  predicate Carries(tb: Parser, p: Part, v: Value, asm: State) {
    match p
    case TokenPart(token) => v == token.value
    case ExprPart(sort, t) => Attribute(tb, sort, t, asm) == Some(v)
    case TypePart(t) => v == Kind(t)
    case _ => true
  }

  /** A symbol that may come behind the part without binding tighter than it does. */
  predicate MayFollow(p: Part, sym: int) {
    p.ExprPart? ==> !Tighter(p.sort, sym, Level(p.tree))
  }

  /** A transition, labelled with a part that fits. */
  predicate Link(q: int, p: Part, next: int) {
    Edge(q, SymbolOf(p), next) && PartFits(q, p)
  }

  /** The stack, labelled with what its entries have been read from. */
  datatype Pile = Bottom | On(below: Pile, part: Part, entry: Entry)

  function StateOf(p: Pile): int {
    if p.Bottom? then 0 else p.entry.state
  }

  function StackOf(p: Pile): (r: seq<Entry>)
    ensures r != [] && Top(r) == StateOf(p)
  {
    if p.Bottom? then BOTTOM else StackOf(p.below) + [p.entry]
  }

  function TextIn(p: Pile): seq<Token> {
    if p.Bottom? then [] else TextIn(p.below) + TextOf(p.part)
  }

  /** The items performed so far. */
  function ItemsIn(p: Pile): Items {
    if p.Bottom? then [] else ItemsIn(p.below) + ItemsOf(p.part)
  }

  /** The symbol may come next on the pile. */
  predicate Admits(p: Pile, sym: int) {
    p.On? ==> MayFollow(p.part, sym)
  }

  /** A path of the automaton, with the values its parts have. */
  predicate Path(tb: Parser, p: Pile, asm: State) {
    p.On? ==>
      && Path(tb, p.below, asm) && Link(StateOf(p.below), p.part, p.entry.state)
      && Carries(tb, p.part, p.entry.value, asm)
      && (p.part.TokenPart? ==> Admits(p.below, p.part.token.sym))
  }

  /** The invariant of the driver on a run from state s. */
  predicate Inv(tb: Parser, p: Pile, tokens: seq<Token>, c: Config, s: State) {
    && Path(tb, p, c.asm) && c.stack == StackOf(p)
    && TextIn(p) + c.input == tokens
    && Run(ItemsIn(p), s) == Some(c.asm)
    && (c.input != [] ==> Admits(p, c.input[0].sym))
  }

  predicate Scanning(tokens: seq<Token>) {
    forall k :: 0 <= k < |tokens| ==> ScannerToken(tokens[k])
  }

  lemma {:induction false} StateRange(tb: Parser, p: Pile, asm: State)
    requires Path(tb, p, asm)
    ensures 0 <= StateOf(p) <= 103 && (StateOf(p) == 0 <==> p.Bottom?)
  {
  }

  // ---------- Shift ----------

  /** Every shift is a transition of the automaton. */
  ghost predicate ShiftsAreEdges(tb: Parser) {
    forall q, f, next :: 0 <= q <= 103 && Terminal(f) && tb.decide(q, f) == Shift(next) ==> Edge(q, f, next)
  }

  lemma {:induction false} ShiftPath(tb: Parser, p: Pile, asm: State, token: Token, next: int)
    requires ShiftsAreEdges(tb) && Path(tb, p, asm) && ScannerToken(token) && Admits(p, token.sym)
    requires tb.decide(StateOf(p), token.sym) == Shift(next)
    ensures Path(tb, On(p, TokenPart(token), Entry(next, token.value)), asm)
  {
    StateRange(tb, p, asm);
  }

  lemma {:induction false} ShiftInv(tb: Parser, p: Pile, tokens: seq<Token>, c: Config, s: State, next: int) returns (after: Pile)
    requires ShiftsAreEdges(tb) && Scanning(tokens) && Inv(tb, p, tokens, c, s) && c.input != []
    requires tb.decide(StateOf(p), c.input[0].sym) == Shift(next)
    ensures Inv(tb, after, tokens, Config(c.stack + [Entry(next, c.input[0].value)], c.input[1..], c.asm), s)
  {
    var token := c.input[0];
    after := On(p, TokenPart(token), Entry(next, token.value));
    assert token == tokens[|TextIn(p)|];
    ShiftPath(tb, p, c.asm, token, next);
    NextToken(TextIn(p), c.input);
    NoMore(ItemsIn(p));
  }

  lemma {:induction false} NextToken(text: seq<Token>, input: seq<Token>)
    requires input != []
    ensures text + [input[0]] + input[1..] == text + input
  {
  }

  lemma {:induction false} NoMore<T>(a: seq<T>)
    ensures a + [] == a
  {
  }

  // ---------- Reduce ----------

  function Popped(p: Pile, n: nat): Pile {
    if n == 0 || p.Bottom? then p else Popped(p.below, n - 1)
  }

  predicate Deep(p: Pile, n: nat) {
    n == 0 || (p.On? && Deep(p.below, n - 1))
  }

  /** The values of the last n entries. */
  function TopValues(p: Pile, n: nat): (vals: seq<Value>)
    requires Deep(p, n)
    ensures |vals| == n
  {
    if n == 0 then [] else TopValues(p.below, n - 1) + [p.entry.value]
  }

  function TopEntries(p: Pile, n: nat): (r: seq<Entry>)
    requires Deep(p, n)
    ensures |r| == n
  {
    if n == 0 then [] else TopEntries(p.below, n - 1) + [p.entry]
  }

  lemma {:induction false} ValuesLast(entries: seq<Entry>, e: Entry)
    ensures Values(entries + [e]) == Values(entries) + [e.value]
  {
  }

  lemma {:induction false} TopEntryValues(p: Pile, n: nat)
    requires Deep(p, n)
    ensures Values(TopEntries(p, n)) == TopValues(p, n)
    decreases n
  {
    if n > 0 {
      TopEntryValues(p.below, n - 1);
      ValuesLast(TopEntries(p.below, n - 1), p.entry);
    }
  }

  lemma {:induction false} StackSplits(p: Pile, n: nat)
    requires Deep(p, n)
    ensures StackOf(p) == StackOf(Popped(p, n)) + TopEntries(p, n)
    decreases n
  {
    if n > 0 {
      StackSplits(p.below, n - 1);
      Together(StackOf(Popped(p, n)), TopEntries(p.below, n - 1), [p.entry]);
    } else {
      NoMore(StackOf(p));
    }
  }

  lemma {:induction false} Together<T>(a: seq<T>, b: seq<T>, c: seq<T>)
    ensures (a + b) + c == a + (b + c)
  {
  }

  /** The last n entries of p stand on b: their values and their text. */
  predicate Stands(p: Pile, b: Pile, n: nat, vals: seq<Value>, text: seq<Token>) {
    Deep(p, n) && Popped(p, n) == b && TopValues(p, n) == vals && TextIn(p) == TextIn(b) + text
  }

  lemma {:induction false} StandsOn(p: Pile, b: Pile, n: nat, vals: seq<Value>, text: seq<Token>)
    requires p.On? && Stands(p.below, b, n, vals, text)
    ensures Stands(p, b, n + 1, vals + [p.entry.value], text + TextOf(p.part))
  {
    Together(TextIn(b), text, TextOf(p.part));
  }

  lemma {:induction false} LastOne(p: Pile)
    requires p.On?
    ensures Stands(p, p.below, 1, [p.entry.value], TextOf(p.part))
  {
    NoMore(TextIn(p.below));
    StandsOn(p, p.below, 0, [], []);
  }

  lemma {:induction false} LastTwo(p: Pile)
    requires p.On? && p.below.On?
    ensures Stands(p, p.below.below, 2, [p.below.entry.value, p.entry.value], TextOf(p.below.part) + TextOf(p.part))
  {
    LastOne(p.below);
    StandsOn(p, p.below.below, 1, [p.below.entry.value], TextOf(p.below.part));
  }

  lemma {:induction false} LastThree(p: Pile)
    requires p.On? && p.below.On? && p.below.below.On?
    ensures Stands(p, p.below.below.below, 3, [p.below.below.entry.value, p.below.entry.value, p.entry.value],
      TextOf(p.below.below.part) + (TextOf(p.below.part) + TextOf(p.part)))
  {
    LastTwo(p.below);
    StandsOn(p, p.below.below.below, 2, [p.below.below.entry.value, p.below.entry.value],
      TextOf(p.below.below.part) + TextOf(p.below.part));
    Together(TextOf(p.below.below.part), TextOf(p.below.part), TextOf(p.part));
  }

  /** Every nonterminal leads on from where its part fits. */
  ghost predicate GotosAreEdges(tb: Parser) {
    forall q, part ::
      PartFits(q, part) && !part.TokenPart? ==> Edge(q, SymbolOf(part), tb.goto(q, SymbolOf(part)))
  }

  /** A part that is made of a single other one ranks below it. */
  function Rank(p: Part): nat {
    match p
    case TokenPart(_) => 6
    case ExprPart(_, _) => 5
    case TypePart(_) => 5
    case ItemPart(_) => 4
    case RunPart(_) => 3
    case LinePart(_) => 2
    case InputPart(_) => 1
  }

  /** Two parts and more become one, a single one becomes a lower one, and only the empty input is made of nothing. */
  predicate Smaller(p: Pile, n: nat, part: Part) {
    (n == 0 ==> p.Bottom?) && (n == 1 ==> p.On? && Rank(part) < Rank(p.part))
  }

  /** The last n parts make up one; the assembler is in state `after` by then. */
  predicate Makes(tb: Parser, p: Pile, n: nat, part: Part, after: State) {
    && Deep(p, n) && !part.TokenPart?
    && Path(tb, Popped(p, n), after) && PartFits(StateOf(Popped(p, n)), part)
    && TextIn(p) == TextIn(Popped(p, n)) + TextOf(part)
    && Smaller(p, n, part)
  }

  function Depth(p: Pile): nat {
    if p.Bottom? then 0 else Depth(p.below) + 1
  }

  /** How far the driver is from the next shift. */
  predicate Nearer(whole: Pile, p: Pile) {
    || (p.Bottom? && whole.On?)
    || (p.On? && whole.On? && (Depth(whole) < Depth(p) || (Depth(whole) == Depth(p) && Rank(whole.part) < Rank(p.part))))
  }

  lemma {:induction false} PoppedDepth(p: Pile, n: nat)
    requires Deep(p, n)
    ensures Depth(p) == Depth(Popped(p, n)) + n
    decreases n
  {
    if n > 0 {
      PoppedDepth(p.below, n - 1);
    }
  }

  lemma {:induction false} FoldNearer(p: Pile, n: nat, part: Part, whole: Pile)
    requires Deep(p, n) && Smaller(p, n, part) && whole.On? && whole.below == Popped(p, n) && whole.part == part
    ensures Nearer(whole, p)
  {
    PoppedDepth(p, n);
  }

  lemma {:induction false} FoldPath(tb: Parser, p: Pile, n: nat, part: Part, v: Value, after: State) returns (whole: Pile)
    requires GotosAreEdges(tb) && Makes(tb, p, n, part, after) && Carries(tb, part, v, after)
    ensures Path(tb, whole, after) && TextIn(whole) == TextIn(p) && ItemsIn(whole) == ItemsIn(Popped(p, n)) + ItemsOf(part)
    ensures whole.On? && whole.part == part && Nearer(whole, p)
    ensures StackOf(whole)
      == StackOf(Popped(p, n)) + [Entry(tb.goto(StateOf(Popped(p, n)), SymbolOf(part)), v)]
  {
    whole := On(Popped(p, n), part, Entry(tb.goto(StateOf(Popped(p, n)), SymbolOf(part)), v));
    FoldNearer(p, n, part, whole);
  }

  /** On this configuration the driver reduces by rule r, which has n symbols. */
  predicate Reducing(tb: Parser, p: Pile, c: Config, r: int, sym: int, n: nat) {
    && Deep(p, n) && c.stack == StackOf(p) && RuleIs(tb, r, sym, n)
    && c.input != [] && StateOf(p) != FINAL && tb.decide(StateOf(p), c.input[0].sym) == Reduce(r)
  }

  /** The reduction of the last n entries. */
  lemma {:induction false} FoldStep(tb: Parser, p: Pile, c: Config, r: int, n: nat, sym: int)
    requires Reducing(tb, p, c, r, sym, n)
    ensures var result := tb.act(r, TopValues(p, n), c.asm);
      Advance(tb, c) == if result.None? then Reject else
        Next(Config(StackOf(Popped(p, n)) + [Entry(tb.goto(StateOf(Popped(p, n)), sym), result.value.0)], c.input,
          result.value.1))
  {
    StackSplits(p, n);
    TopEntryValues(p, n);
    var base, rhs := StackOf(Popped(p, n)), TopEntries(p, n);
    assert c.stack[..|base|] == base && c.stack[|base|..] == rhs;
  }

  lemma {:induction false} FoldInv(tb: Parser, p: Pile, tokens: seq<Token>, c: Config, s: State, r: int, n: nat, part: Part,
      v: Value, after: State) returns (whole: Pile)
    requires GotosAreEdges(tb) && Inv(tb, p, tokens, c, s) && Makes(tb, p, n, part, after) && Carries(tb, part, v, after)
    requires Reducing(tb, p, c, r, SymbolOf(part), n) && tb.act(r, TopValues(p, n), c.asm) == Some((v, after))
    requires MayFollow(part, c.input[0].sym)
    requires Run(ItemsIn(Popped(p, n)) + ItemsOf(part), s) == Some(after)
    ensures Advance(tb, c).Next? && Inv(tb, whole, tokens, Advance(tb, c).config, s) && Nearer(whole, p)
  {
    whole := FoldPath(tb, p, n, part, v, after);
    FoldStep(tb, p, c, r, n, SymbolOf(part));
  }

  // ---------- Expressions ----------

  /** What a path says about its last entry. */
  lemma {:induction false} LastLink(tb: Parser, p: Pile, asm: State)
    requires Path(tb, p, asm) && StateOf(p) != 0
    ensures p.On? && Path(tb, p.below, asm) && Link(StateOf(p.below), p.part, StateOf(p))
    ensures Carries(tb, p.part, p.entry.value, asm)
    ensures p.part.TokenPart? ==> Admits(p.below, p.part.token.sym)
  {
  }

  /** The actions of expressions leave the assembler alone. */
  ghost predicate ExprActsKeep(tb: Parser) {
    forall r, vals, s :: 43 <= r <= 55 && tb.act(r, vals, s).Some? ==> tb.act(r, vals, s).value.1 == s
  }

  /** The last n parts make up an expression, whose value the rule computes. */
  predicate MakesExpr(tb: Parser, p: Pile, n: nat, e: Part, r: int, asm: State) {
    && Makes(tb, p, n, e, asm) && e.ExprPart? && 43 <= r <= 55
    && Attribute(tb, e.sort, e.tree, asm) == Yielded(tb.act(r, TopValues(p, n), asm), asm)
    && ItemsIn(p) == ItemsIn(Popped(p, n))
  }

  lemma {:induction false} ExprStep(tb: Parser, p: Pile, tokens: seq<Token>, c: Config, s: State, r: int, n: nat, e: Part)
    returns (whole: Pile)
    requires GotosAreEdges(tb) && ExprActsKeep(tb) && Inv(tb, p, tokens, c, s) && MakesExpr(tb, p, n, e, r, c.asm)
    requires Reducing(tb, p, c, r, Nonterminal(e.sort), n) && Advance(tb, c).Next?
    requires !Tighter(e.sort, c.input[0].sym, Level(e.tree))
    ensures Inv(tb, whole, tokens, Advance(tb, c).config, s) && Nearer(whole, p)
  {
    FoldStep(tb, p, c, r, n, Nonterminal(e.sort));
    NoMore(ItemsIn(p));
    whole := FoldInv(tb, p, tokens, c, s, r, n, e, tb.act(r, TopValues(p, n), c.asm).value.0, c.asm);
  }

  /** The state whose reduction makes a leaf of the symbol before it. */
  predicate LeafEnd(q: int) {
    q == INTNUM || q == FPNUM || q == IDENTIFIER || q == 27
  }

  function LeafSymbol(q: int): int {
    if q == 27 then IDENTIFIER else q
  }

  function LeafSort(sym: int): Sort {
    if sym == FPNUM then Floats else Ints
  }

  lemma {:induction false} LeafFits(q: int, part: Part, next: int) returns (e: Part)
    requires Link(q, part, next) && LeafEnd(next)
    ensures part.TokenPart? && part.token.sym == LeafSymbol(next)
    ensures e == ExprPart(LeafSort(LeafSymbol(next)), Leaf(part.token)) && PartFits(q, e)
  {
    e := ExprPart(LeafSort(LeafSymbol(next)), Leaf(part.token));
  }

  lemma {:induction false} MakesLeaf(tb: Parser, p: Pile, asm: State) returns (e: Part)
    requires Path(tb, p, asm) && LeafEnd(StateOf(p))
    ensures MakesExpr(tb, p, 1, e, LeafRule(LeafSymbol(StateOf(p))), asm)
    ensures e.sort == LeafSort(LeafSymbol(StateOf(p))) && Level(e.tree) == 2
  {
    LastLink(tb, p, asm);
    LastOne(p);
    e := LeafFits(StateOf(p.below), p.part, StateOf(p));
    NoMore(ItemsIn(p.below));
  }

  /** A state behind a closed parenthesis, the state inside, and the one behind the opening parenthesis. */
  lemma {:induction false} NestedFits(q: int, o: Part, q1: int, e: Part, q2: int, x: Part, q3: int)
    requires Link(q, o, q1) && Link(q1, e, q2) && Link(q2, x, q3) && (q3 == 83 || q3 == 84)
    ensures o == TokenPart(Mark(OPEN)) && x == TokenPart(Mark(CLOSE)) && e.ExprPart?
    ensures e.sort == (if q3 == 83 then Ints else Floats) && PartFits(q, ExprPart(e.sort, Nested(e.tree)))
  {
  }

  /** Three parts that have done nothing. */
  lemma {:induction false} ThreeIdle(p: Pile)
    requires p.On? && p.below.On? && p.below.below.On?
    requires ItemsOf(p.part) == ItemsOf(p.below.part) == ItemsOf(p.below.below.part) == []
    ensures ItemsIn(p) == ItemsIn(p.below.below.below)
  {
    NoMore(ItemsIn(p.below.below.below));
    NoMore(ItemsIn(p.below.below));
    NoMore(ItemsIn(p.below));
  }

  /** The expression is made of what stands on b. */
  predicate ExprOn(tb: Parser, b: Pile, vals: seq<Value>, e: Part, r: int, asm: State) {
    && e.ExprPart? && 43 <= r <= 55 && Path(tb, b, asm) && PartFits(StateOf(b), e)
    && Attribute(tb, e.sort, e.tree, asm) == Yielded(tb.act(r, vals, asm), asm)
  }

  lemma {:induction false} ExprMade(tb: Parser, p: Pile, b: Pile, n: nat, vals: seq<Value>, e: Part, r: int, asm: State)
    requires Stands(p, b, n, vals, TextOf(e)) && ItemsIn(p) == ItemsIn(b) && ExprOn(tb, b, vals, e, r, asm)
    requires n > 1
    ensures MakesExpr(tb, p, n, e, r, asm)
  {
  }

  /** Three entries that read a parenthesised expression. */
  predicate NestedPile(p: Pile, sort: Sort, t: Tree) {
    && p.On? && p.below.On? && p.below.below.On?
    && p.below.below.part == TokenPart(Mark(OPEN)) && p.below.part == ExprPart(sort, t) && p.part == TokenPart(Mark(CLOSE))
    && p.below.below.entry.value == p.entry.value == Empty
  }

  /** The last three entries are linked, and the values of all carried. */
  predicate LinkedThree(tb: Parser, p: Pile, asm: State) {
    && p.On? && p.below.On? && p.below.below.On?
    && Link(StateOf(p.below), p.part, StateOf(p)) && Link(StateOf(p.below.below), p.below.part, StateOf(p.below))
    && Link(StateOf(p.below.below.below), p.below.below.part, StateOf(p.below.below))
    && Carries(tb, p.part, p.entry.value, asm) && Carries(tb, p.below.part, p.below.entry.value, asm)
    && Carries(tb, p.below.below.part, p.below.below.entry.value, asm)
    && (p.below.part.TokenPart? ==> MayFollow(p.below.below.part, p.below.part.token.sym))
    && Path(tb, p.below.below.below, asm)
  }

  /** Behind a parenthesis or an operator. */
  lemma {:induction false} PathThree(tb: Parser, p: Pile, asm: State)
    requires Path(tb, p, asm) && 83 <= StateOf(p) <= 92
    ensures LinkedThree(tb, p, asm)
  {
    LastLink(tb, p, asm);
    LastLink(tb, p.below, asm);
    LastLink(tb, p.below.below, asm);
  }

  lemma {:induction false} NestedOn(tb: Parser, p: Pile, asm: State, sort: Sort) returns (t: Tree)
    requires LinkedThree(tb, p, asm) && StateOf(p) == CloseState(sort)
    ensures NestedPile(p, sort, t)
    ensures ExprOn(tb, p.below.below.below, [Empty, p.below.entry.value, Empty], ExprPart(sort, Nested(t)), NestedRule(sort),
      asm)
  {
    NestedFits(StateOf(p.below.below.below), p.below.below.part, StateOf(p.below.below), p.below.part, StateOf(p.below),
      p.part, StateOf(p));
    t := p.below.part.tree;
  }

  lemma {:induction false} MakesNested(tb: Parser, p: Pile, asm: State, sort: Sort) returns (e: Part)
    requires Path(tb, p, asm) && StateOf(p) == CloseState(sort)
    ensures MakesExpr(tb, p, 3, e, NestedRule(sort), asm) && e.ExprPart? && e.sort == sort && Level(e.tree) == 2
  {
    PathThree(tb, p, asm);
    var t := NestedOn(tb, p, asm, sort);
    e := ExprPart(sort, Nested(t));
    LastThree(p);
    ThreeIdle(p);
    ExprMade(tb, p, p.below.below.below, 3, [Empty, p.below.entry.value, Empty], e, NestedRule(sort), asm);
  }

  /** The operator behind whose right operand a state is. */
  function OpAt(q: int): int {
    if q == 86 || q == 89 then MINUS else if q == 87 || q == 90 then PLUS
    else if q == 88 then BAR else if q == 91 then STAR else SLASH
  }

  function SortAt(q: int): Sort {
    if q <= 88 then Ints else Floats
  }

  lemma {:induction false} RightOperand(q: int, r: Part, next: int)
    requires Link(q, r, next) && 86 <= next <= 92
    ensures q == next - 22 && r.ExprPart? && r.sort == SortAt(next)
    ensures WellSorted(r.sort, r.tree) && Grouped(r.tree) && Scanned(r.tree) && Level(r.tree) > OpLevel(OpAt(next))
  {
  }

  /** Where this operator may come: behind an expression, and behind a looser operator if it is a tight one. */
  predicate OpAfter(sort: Sort, op: int, q: int) {
    (if sort == Ints then IntEnd(q) else FpEnd(q))
    || (OpLevel(op) == 1 && if sort == Ints then q == 86 || q == 87 else q == 89 || q == 90)
  }

  lemma {:induction false} Operator(q: int, o: Part, next: int)
    requires Link(q, o, next - 22) && 86 <= next <= 92
    ensures o == TokenPart(Mark(OpAt(next))) && OpAfter(SortAt(next), OpAt(next), q) && IsOp(SortAt(next), OpAt(next))
  {
  }

  lemma {:induction false} LeftOperand(q: int, l: Part, next: int, sort: Sort, op: int)
    requires Link(q, l, next) && OpAfter(sort, op, next)
    ensures l.ExprPart? && l.sort == sort && Start(sort, q) && StartLevel(sort, q) <= OpLevel(op)
    ensures WellSorted(sort, l.tree) && Grouped(l.tree) && Scanned(l.tree)
  {
  }

  /** An operator binds no tighter than its left operand, and its right operand binds tighter than it does. */
  lemma {:induction false} InfixFits(q: int, l: Part, q1: int, o: Part, q2: int, r: Part, q3: int)
    requires Link(q, l, q1) && Link(q1, o, q2) && Link(q2, r, q3) && 86 <= q3 <= 92
    requires o.TokenPart? ==> MayFollow(l, o.token.sym)
    ensures o == TokenPart(Mark(OpAt(q3))) && l.ExprPart? && r.ExprPart? && l.sort == r.sort == SortAt(q3)
    ensures PartFits(q, ExprPart(SortAt(q3), Infix(l.tree, OpAt(q3), r.tree)))
  {
    RightOperand(q2, r, q3);
    Operator(q1, o, q3);
    LeftOperand(q, l, q1, SortAt(q3), OpAt(q3));
  }

  predicate InfixPile(p: Pile, sort: Sort, t: Tree) {
    && p.On? && p.below.On? && p.below.below.On? && t.Infix?
    && p.below.below.part == ExprPart(sort, t.left) && p.below.part == TokenPart(Mark(t.op))
    && p.part == ExprPart(sort, t.right) && p.below.entry.value == Empty
  }

  lemma {:induction false} InfixOn(tb: Parser, p: Pile, asm: State) returns (t: Tree)
    requires LinkedThree(tb, p, asm) && 86 <= StateOf(p) <= 92
    ensures InfixPile(p, SortAt(StateOf(p)), t) && t.op == OpAt(StateOf(p))
    ensures ExprOn(tb, p.below.below.below, [p.below.below.entry.value, Empty, p.entry.value],
      ExprPart(SortAt(StateOf(p)), t), OpRule(SortAt(StateOf(p)), t.op), asm)
  {
    InfixFits(StateOf(p.below.below.below), p.below.below.part, StateOf(p.below.below), p.below.part, StateOf(p.below),
      p.part, StateOf(p));
    t := Infix(p.below.below.part.tree, OpAt(StateOf(p)), p.part.tree);
  }

  lemma {:induction false} MakesInfix(tb: Parser, p: Pile, asm: State) returns (e: Part)
    requires Path(tb, p, asm) && 86 <= StateOf(p) <= 92
    ensures MakesExpr(tb, p, 3, e, OpRule(SortAt(StateOf(p)), OpAt(StateOf(p))), asm)
    ensures e.ExprPart? && e.sort == SortAt(StateOf(p)) && Level(e.tree) == OpLevel(OpAt(StateOf(p)))
  {
    PathThree(tb, p, asm);
    var t := InfixOn(tb, p, asm);
    e := ExprPart(SortAt(StateOf(p)), t);
    LastThree(p);
    ThreeIdle(p);
    ExprMade(tb, p, p.below.below.below, 3, [p.below.below.entry.value, Empty, p.entry.value], e, OpRule(e.sort, t.op), asm);
  }

  lemma {:induction false} MinusFits(q: int, o: Part, q1: int, e: Part)
    requires Link(q, o, q1) && Link(q1, e, 47)
    ensures o == TokenPart(Mark(MINUS)) && e.ExprPart? && e.sort == Floats
    ensures PartFits(q, ExprPart(Floats, Minus(e.tree)))
  {
  }

  /** Two parts that have done nothing. */
  lemma {:induction false} TwoIdle(p: Pile)
    requires p.On? && p.below.On? && ItemsOf(p.part) == ItemsOf(p.below.part) == []
    ensures ItemsIn(p) == ItemsIn(p.below.below)
  {
    NoMore(ItemsIn(p.below.below));
    NoMore(ItemsIn(p.below));
  }

  lemma {:induction false} MinusOn(tb: Parser, p: Pile, asm: State) returns (t: Tree)
    requires Path(tb, p, asm) && StateOf(p) == 47
    ensures p.On? && p.below.On? && p.below.part == TokenPart(Mark(MINUS)) && p.part == ExprPart(Floats, t)
    ensures p.below.entry.value == Empty
    ensures ExprOn(tb, p.below.below, [Empty, p.entry.value], ExprPart(Floats, Minus(t)), MINUS_RULE, asm)
  {
    LastLink(tb, p, asm);
    LastLink(tb, p.below, asm);
    MinusFits(StateOf(p.below.below), p.below.part, StateOf(p.below), p.part);
    t := p.part.tree;
  }

  lemma {:induction false} MakesMinus(tb: Parser, p: Pile, asm: State) returns (e: Part)
    requires Path(tb, p, asm) && StateOf(p) == 47
    ensures MakesExpr(tb, p, 2, e, MINUS_RULE, asm) && e.ExprPart? && e.sort == Floats && Level(e.tree) == 2
  {
    var t := MinusOn(tb, p, asm);
    e := ExprPart(Floats, Minus(t));
    LastTwo(p);
    TwoIdle(p);
    ExprMade(tb, p, p.below.below, 2, [Empty, p.entry.value], e, MINUS_RULE, asm);
  }
}

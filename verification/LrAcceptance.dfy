/** The text the driver accepts is that of a program, whose items it has performed in order. */
module LrAcceptance {
  import opened Bytes
  import opened Assembler
  import opened Layout
  import opened LrTables
  import opened LrDriver
  import opened LrExpressions
  import opened LrProgram
  import opened LrFacts
  import opened LrAutomaton
  import opened LrSoundness
  import opened Wrappers

  // ---------- From trees back to expressions ----------

  function IntOf(t: Tree): Expr
    requires WellSorted(Ints, t) && Scanned(t)
  {
    match t
    case Leaf(token) => if token.sym == INTNUM then Num(token.value.i) else Sym(token.value.name)
    case Infix(l, op, r) =>
      if op == PLUS then Add(IntOf(l), IntOf(r)) else if op == MINUS then Sub(IntOf(l), IntOf(r))
      else BitOr(IntOf(l), IntOf(r))
    case Nested(i) => Paren(IntOf(i))
  }

  lemma {:induction false} IntOfTree(t: Tree)
    requires WellSorted(Ints, t) && Scanned(t)
    ensures IntTree(IntOf(t)) == t
  {
    match t
    case Leaf(_) =>
    case Infix(l, _, r) =>
      IntOfTree(l);
      IntOfTree(r);
    case Nested(i) =>
      IntOfTree(i);
  }

  function FpOf(t: Tree): FpExpr
    requires WellSorted(Floats, t) && Scanned(t)
  {
    match t
    case Leaf(token) => FpNum(token.value.fp)
    case Infix(l, op, r) =>
      if op == PLUS then FpAdd(FpOf(l), FpOf(r)) else if op == MINUS then FpSub(FpOf(l), FpOf(r))
      else if op == STAR then FpMul(FpOf(l), FpOf(r)) else FpDiv(FpOf(l), FpOf(r))
    case Minus(i) => FpNeg(FpOf(i))
    case Nested(i) => FpParen(FpOf(i))
  }

  lemma {:induction false} FpOfTree(t: Tree)
    requires WellSorted(Floats, t) && Scanned(t)
    ensures FpTree(FpOf(t)) == t
  {
    match t
    case Leaf(_) =>
    case Infix(l, _, r) =>
      FpOfTree(l);
      FpOfTree(r);
    case Minus(i) =>
      FpOfTree(i);
    case Nested(i) =>
      FpOfTree(i);
  }

  // ---------- Items ----------

  /** The rule that a state at the end of an item reduces by. */
  function EndRule(q: int): int {
    match q
    case 5 => 30 case 9 => 38 case 10 => 39 case 23 => 28 case 24 => 29 case 26 => 41 case 29 => 31 case 30 => 32
    case 31 => 35 case 32 => 36 case 43 => 37 case 44 => 33 case 45 => 34 case 71 => 42 case 93 => 40
    case _ => q - 76
  }

  /** The number of symbols of an item. */
  function Symbols(it: SourceItem): nat {
    |Head(it)| + (if ArgumentOf(it).NoArgument? then 0 else 1)
  }

  /** What stands on b is an item, with the value of its argument. */
  predicate ItemOn(tb: Parser, b: Pile, it: SourceItem, v: Value, asm: State) {
    && Path(tb, b, asm) && ItemStart(StateOf(b)) && GroupedItem(it)
    && ArgumentValue(tb, ArgumentOf(it), asm) == Some(v)
  }

  predicate MakesItem(tb: Parser, p: Pile, b: Pile, it: SourceItem, v: Value, asm: State) {
    && ItemOn(tb, b, it, v, asm) && Stands(p, b, Symbols(it), ShapeValues(ShapeOf(it), v), ItemTokens(it))
    && ItemsIn(p) == ItemsIn(b) && ItemRule(it) == EndRule(StateOf(p))
    && Symbols(it) > 0 && p.On? && (p.part.TokenPart? || p.part.ExprPart? || Symbols(it) > 1)
  }

  /** Where an item may begin, or ends a line, no expression is open. */
  predicate Flat(q: int) {
    q == 0 || q == 1 || q == 21 || q == 63
  }

  /** So no value on the stack depends on the assembler. */
  lemma {:induction false} Unaffected(tb: Parser, b: Pile, asm: State, after: State)
    requires Path(tb, b, asm) && Flat(StateOf(b))
    ensures Path(tb, b, after)
    decreases b
  {
    StateRange(tb, b, asm);
    if b.On? {
      LastLink(tb, b, asm);
      FlatBelow(StateOf(b.below), b.part, StateOf(b));
      Unaffected(tb, b.below, asm, after);
    }
  }

  lemma {:induction false} FlatBelow(q: int, part: Part, next: int)
    requires Link(q, part, next) && Flat(next)
    ensures Flat(q) && !part.ExprPart?
  {
  }

  lemma {:induction false} ItemActed(tb: Parser, it: SourceItem, v: Value, asm: State)
    requires ItemActs(tb, it, asm) && ArgumentValue(tb, ArgumentOf(it), asm) == Some(v)
    requires tb.act(ItemRule(it), ShapeValues(ShapeOf(it), v), asm).Some?
    ensures Step(it, asm).Some?
    ensures tb.act(ItemRule(it), ShapeValues(ShapeOf(it), v), asm) == Some((Empty, Step(it, asm).value))
  {
  }

  lemma {:induction false} ItemFolds(tb: Parser, p: Pile, b: Pile, it: SourceItem, v: Value, asm: State, after: State)
    requires MakesItem(tb, p, b, it, v, asm)
    ensures Makes(tb, p, Symbols(it), ItemPart(it), after) && Popped(p, Symbols(it)) == b
    ensures TopValues(p, Symbols(it)) == ShapeValues(ShapeOf(it), v)
  {
    Unaffected(tb, b, asm, after);
  }

  lemma {:induction false} ItemStep(tb: Parser, p: Pile, tokens: seq<Token>, c: Config, s: State, b: Pile, it: SourceItem, v: Value)
    returns (whole: Pile)
    requires GotosAreEdges(tb) && ItemActs(tb, it, c.asm) && Inv(tb, p, tokens, c, s) && MakesItem(tb, p, b, it, v, c.asm)
    requires Reducing(tb, p, c, ItemRule(it), ITEM, Symbols(it)) && Advance(tb, c).Next?
    ensures Inv(tb, whole, tokens, Advance(tb, c).config, s) && Nearer(whole, p)
  {
    FoldStep(tb, p, c, ItemRule(it), Symbols(it), ITEM);
    ItemFolds(tb, p, b, it, v, c.asm, c.asm);
    ItemActed(tb, it, v, c.asm);
    var after := Step(it, c.asm).value;
    ItemFolds(tb, p, b, it, v, c.asm, after);
    RunLast(ItemsIn(b), it, s);
    whole := FoldInv(tb, p, tokens, c, s, ItemRule(it), Symbols(it), ItemPart(it), Empty, after);
  }

  // ---------- Heads ----------

  /** States in the head of an item, behind its tokens. */
  predicate HeadShape(q: int, tokens: seq<Token>) {
    && (forall k :: 0 <= k < |tokens| ==> ScannerToken(tokens[k]))
    && (if ItemStart(q) then tokens == []
        else if 5 <= q <= 15 then |tokens| == 1 && tokens[0].sym == q
        else if q == 17 then tokens == [Mark(STAR)]
        else if q == 18 then tokens == [Mark(OPEN)]
        else if q == 25 then |tokens| == 2 && tokens[0].sym == IDENTIFIER && tokens[1] == Mark(EQUALS)
        else if q == 26 then |tokens| == 2 && tokens[0].sym == IDENTIFIER && tokens[1] == Mark(COLON)
        else if q == 48 then |tokens| == 2 && tokens[0] == Mark(STAR) && tokens[1].sym == IDENTIFIER
        else if q == 72 then |tokens| == 3 && tokens[0] == tokens[2] == Mark(STAR) && tokens[1].sym == IDENTIFIER
        else if 49 <= q <= 58 then |tokens| == 2 && tokens[0] == Mark(OPEN) && tokens[1].sym == q - 33
        else |tokens| == 3 && tokens[0] == Mark(OPEN) && tokens[1].sym == q - 57 && tokens[2] == Mark(CLOSE))
  }

  predicate HeadState(q: int) {
    ItemStart(q) || 5 <= q <= 15 || q == 17 || q == 18 || q == 25 || q == 26 || q == 48 || 49 <= q <= 58 || 72 <= q <= 82
  }

  lemma {:induction false} HeadBelow(q: int, part: Part, next: int)
    requires Link(q, part, next) && HeadState(next) && !ItemStart(next)
    ensures HeadState(q) && part.TokenPart? && ScannerToken(part.token)
    ensures 5 <= next <= 15 || next == 17 || next == 18 ==> ItemStart(q)
  {
  }

  lemma {:induction false} HeadLink(q: int, part: Part, next: int, tokens: seq<Token>)
    requires Link(q, part, next) && HeadState(next) && !ItemStart(next) && HeadShape(q, tokens) && part.TokenPart?
    ensures HeadShape(next, tokens + [part.token])
  {
  }

  /** The entries above b are those of these tokens. */
  predicate HeadOn(tb: Parser, h: Pile, b: Pile, tokens: seq<Token>, asm: State) {
    && Path(tb, b, asm) && ItemStart(StateOf(b)) && ItemsIn(h) == ItemsIn(b)
    && Stands(h, b, |tokens|, HeadValues(tokens), tokens)
  }

  lemma {:induction false} HeadValuesLast(tokens: seq<Token>, token: Token)
    ensures HeadValues(tokens + [token]) == HeadValues(tokens) + [token.value]
  {
  }

  lemma {:induction false} HeadGrows(tb: Parser, h: Pile, b: Pile, tokens: seq<Token>, asm: State)
    requires h.On? && h.part.TokenPart? && h.entry.value == h.part.token.value && HeadOn(tb, h.below, b, tokens, asm)
    ensures HeadOn(tb, h, b, tokens + [h.part.token], asm)
  {
    StandsOn(h, b, |tokens|, HeadValues(tokens), tokens);
    HeadValuesLast(tokens, h.part.token);
    NoMore(ItemsIn(h.below));
  }

  lemma {:induction false} HeadNone(tb: Parser, b: Pile, asm: State)
    requires Path(tb, b, asm) && ItemStart(StateOf(b))
    ensures HeadOn(tb, b, b, [], asm)
  {
    NoMore(TextIn(b));
  }

  /** In a state of a head, the entries down to the beginning of the item are those of its tokens. */
  lemma {:induction false} HeadAt(tb: Parser, h: Pile, asm: State) returns (b: Pile, tokens: seq<Token>)
    requires Path(tb, h, asm) && HeadState(StateOf(h))
    ensures HeadOn(tb, h, b, tokens, asm) && HeadShape(StateOf(h), tokens)
    ensures !ItemStart(StateOf(h)) ==> h.On? && h.part.TokenPart?
    decreases h
  {
    if ItemStart(StateOf(h)) {
      b, tokens := h, [];
      HeadNone(tb, b, asm);
    } else {
      LastLink(tb, h, asm);
      HeadBelow(StateOf(h.below), h.part, StateOf(h));
      var front;
      b, front := HeadAt(tb, h.below, asm);
      HeadGrows(tb, h, b, front, asm);
      HeadLink(StateOf(h.below), h.part, StateOf(h), front);
      tokens := front + [h.part.token];
    }
  }

  // ---------- Whole items ----------

  predicate PlainEnd(q: int) {
    q == 5 || q == 9 || q == 10 || q == 26
  }

  predicate EndsIntItem(q: int) {
    q == 23 || 29 <= q <= 32 || q == 44 || q == 45 || q == 71 || 93 <= q <= 101
  }

  predicate EndsFpItem(q: int) {
    q == 24 || q == 102 || q == 103
  }

  /** The type in a head of three tokens. */
  lemma {:induction false} TypeOfToken(token: Token) returns (t: Type)
    requires ScannerToken(token) && U8_NAME <= token.sym <= U8_NAME + 9
    ensures token == TypeToken(t) && TypeIndex(t) == token.sym - U8_NAME
  {
    t := token.value.ty;
  }

  lemma {:induction false} PlainItem(q: int, tokens: seq<Token>) returns (it: SourceItem)
    requires HeadShape(q, tokens) && PlainEnd(q)
    ensures Head(it) == tokens && ArgumentOf(it) == NoArgument && ItemRule(it) == EndRule(q)
  {
    it := if q == 5 then Text(tokens[0].value.bytes) else if q == 9 then SetOrder(LittleEndian)
      else if q == 10 then SetOrder(BigEndian) else Label(tokens[0].value.name);
  }

  lemma {:induction false} IntItem(q: int, tokens: seq<Token>, e: Expr, next: int) returns (it: SourceItem)
    requires HeadShape(q, tokens) && Edge(q, INTEXP, next) && EndsIntItem(next)
    ensures Head(it) == tokens && ArgumentOf(it) == ExprArgument(Ints, IntTree(e)) && ItemRule(it) == EndRule(next)
  {
    if 94 <= next {
      var t := TypeOfToken(tokens[1]);
      it := Typed(t, e);
    } else if next == 23 || next == 71 || next == 93 {
      it := ItemOfName(q, tokens, e, next);
    } else {
      it := ItemOfKeyword(q, tokens, e, next);
    }
  }

  lemma {:induction false} ItemOfKeyword(q: int, tokens: seq<Token>, e: Expr, next: int) returns (it: SourceItem)
    requires HeadShape(q, tokens) && Edge(q, INTEXP, next) && (29 <= next <= 32 || next == 44 || next == 45)
    ensures Head(it) == tokens && ArgumentOf(it) == ExprArgument(Ints, IntTree(e)) && ItemRule(it) == EndRule(next)
  {
    assert tokens == [Mark(q)];
    it := match next
      case 29 => Align(e) case 30 => Blank(e) case 31 => AddressLen(e) case 32 => Fixup(e) case 44 => AllowNan(e)
      case _ => AllowInfinity(e);
  }

  lemma {:induction false} ItemOfName(q: int, tokens: seq<Token>, e: Expr, next: int) returns (it: SourceItem)
    requires HeadShape(q, tokens) && Edge(q, INTEXP, next) && (next == 23 || next == 71 || next == 93)
    ensures Head(it) == tokens && ArgumentOf(it) == ExprArgument(Ints, IntTree(e)) && ItemRule(it) == EndRule(next)
  {
    it := if next == 23 then Default(e) else if next == 71 then Assign(tokens[0].value.name, e)
      else Pass0(tokens[1].value.name, e);
  }

  lemma {:induction false} FpItem(q: int, tokens: seq<Token>, e: FpExpr, next: int) returns (it: SourceItem)
    requires HeadShape(q, tokens) && Edge(q, FPEXP, next) && EndsFpItem(next)
    ensures Head(it) == tokens && ArgumentOf(it) == ExprArgument(Floats, FpTree(e)) && ItemRule(it) == EndRule(next)
  {
    if next == 24 {
      it := DefaultFp(e);
    } else {
      var t := TypeOfToken(tokens[1]);
      it := TypedFp(t, e);
    }
  }

  lemma {:induction false} TypeItem(tokens: seq<Token>, t: Type) returns (it: SourceItem)
    requires HeadShape(13, tokens)
    ensures Head(it) == tokens && ArgumentOf(it) == TypeArgument(t) && ItemRule(it) == EndRule(43)
  {
    it := SetType(t);
  }

  /** An item that is nothing but its head. */
  lemma {:induction false} HeadOnly(tb: Parser, p: Pile, b: Pile, it: SourceItem, asm: State)
    requires HeadOn(tb, p, b, Head(it), asm) && ArgumentOf(it) == NoArgument && ItemRule(it) == EndRule(StateOf(p))
    requires p.On? && p.part.TokenPart?
    ensures MakesItem(tb, p, b, it, Empty, asm)
  {
    NoMore(Head(it));
    NoMore(HeadValues(Head(it)));
  }

  /** A head and an argument. */
  lemma {:induction false} HeadAndArgument(tb: Parser, p: Pile, b: Pile, it: SourceItem, asm: State)
    requires p.On? && HeadOn(tb, p.below, b, Head(it), asm) && !ArgumentOf(it).NoArgument? && GroupedItem(it)
    requires TextOf(p.part) == ArgumentTokens(ArgumentOf(it)) && ItemsOf(p.part) == []
    requires ArgumentValue(tb, ArgumentOf(it), asm) == Some(p.entry.value) && ItemRule(it) == EndRule(StateOf(p))
    requires p.part.ExprPart? || |Head(it)| > 0
    ensures MakesItem(tb, p, b, it, p.entry.value, asm)
  {
    ArgumentStands(p, b, it);
    NoMore(ItemsIn(p.below));
  }

  lemma {:induction false} ArgumentStands(p: Pile, b: Pile, it: SourceItem)
    requires p.On? && Stands(p.below, b, |Head(it)|, HeadValues(Head(it)), Head(it)) && !ArgumentOf(it).NoArgument?
    requires TextOf(p.part) == ArgumentTokens(ArgumentOf(it))
    ensures Stands(p, b, Symbols(it), ShapeValues(ShapeOf(it), p.entry.value), ItemTokens(it))
  {
    StandsOn(p, b, |Head(it)|, HeadValues(Head(it)), Head(it));
    ArgumentLast(it, p.entry.value);
  }

  lemma {:induction false} ArgumentLast(it: SourceItem, v: Value)
    requires !ArgumentOf(it).NoArgument?
    ensures Symbols(it) == |Head(it)| + 1 && ShapeValues(ShapeOf(it), v) == HeadValues(Head(it)) + [v]
  {
  }

  /** At the end of an item stands one, and its argument has the value it should. */
  lemma {:induction false} PlainAt(tb: Parser, p: Pile, asm: State) returns (b: Pile, it: SourceItem, v: Value)
    requires Path(tb, p, asm) && PlainEnd(StateOf(p))
    ensures MakesItem(tb, p, b, it, v, asm)
  {
    var tokens;
    b, tokens := HeadAt(tb, p, asm);
    it := PlainItem(StateOf(p), tokens);
    v := Empty;
    HeadOnly(tb, p, b, it, asm);
  }

  lemma {:induction false} IntItemLink(q: int, part: Part, next: int)
    requires Link(q, part, next) && EndsIntItem(next)
    ensures HeadState(q) && part.ExprPart? && part.sort == Ints && Edge(q, INTEXP, next)
    ensures WellSorted(Ints, part.tree) && Scanned(part.tree) && Grouped(part.tree)
  {
  }

  lemma {:induction false} IntItemAt(tb: Parser, p: Pile, asm: State) returns (b: Pile, it: SourceItem, v: Value)
    requires Path(tb, p, asm) && EndsIntItem(StateOf(p))
    ensures MakesItem(tb, p, b, it, v, asm)
  {
    LastLink(tb, p, asm);
    IntItemLink(StateOf(p.below), p.part, StateOf(p));
    var tokens;
    b, tokens := HeadAt(tb, p.below, asm);
    IntOfTree(p.part.tree);
    it := IntItem(StateOf(p.below), tokens, IntOf(p.part.tree), StateOf(p));
    v := p.entry.value;
    HeadAndArgument(tb, p, b, it, asm);
  }

  lemma {:induction false} FpItemLink(q: int, part: Part, next: int)
    requires Link(q, part, next) && EndsFpItem(next)
    ensures HeadState(q) && part.ExprPart? && part.sort == Floats && Edge(q, FPEXP, next)
    ensures WellSorted(Floats, part.tree) && Scanned(part.tree) && Grouped(part.tree)
  {
  }

  lemma {:induction false} FpItemAt(tb: Parser, p: Pile, asm: State) returns (b: Pile, it: SourceItem, v: Value)
    requires Path(tb, p, asm) && EndsFpItem(StateOf(p))
    ensures MakesItem(tb, p, b, it, v, asm)
  {
    LastLink(tb, p, asm);
    FpItemLink(StateOf(p.below), p.part, StateOf(p));
    var tokens;
    b, tokens := HeadAt(tb, p.below, asm);
    FpOfTree(p.part.tree);
    it := FpItem(StateOf(p.below), tokens, FpOf(p.part.tree), StateOf(p));
    v := p.entry.value;
    HeadAndArgument(tb, p, b, it, asm);
  }

  lemma {:induction false} TypeItemLink(q: int, part: Part)
    requires Link(q, part, 43)
    ensures q == 13 && part.TypePart?
  {
  }

  lemma {:induction false} TypeItemAt(tb: Parser, p: Pile, asm: State) returns (b: Pile, it: SourceItem, v: Value)
    requires Path(tb, p, asm) && StateOf(p) == 43
    ensures MakesItem(tb, p, b, it, v, asm)
  {
    LastLink(tb, p, asm);
    TypeItemLink(StateOf(p.below), p.part);
    var tokens;
    b, tokens := HeadAt(tb, p.below, asm);
    it := TypeItem(tokens, p.part.ty);
    v := p.entry.value;
    HeadAndArgument(tb, p, b, it, asm);
  }

  // ---------- Type names and lines ----------

  /** The last n parts make up one that has done what they have. */
  predicate MakesPart(tb: Parser, p: Pile, n: nat, part: Part, asm: State) {
    Makes(tb, p, n, part, asm) && !part.ExprPart? && ItemsIn(p) == ItemsIn(Popped(p, n)) + ItemsOf(part)
  }

  lemma {:induction false} PartStep(tb: Parser, p: Pile, tokens: seq<Token>, c: Config, s: State, r: int, n: nat, part: Part, v: Value)
    returns (whole: Pile)
    requires GotosAreEdges(tb) && Inv(tb, p, tokens, c, s) && MakesPart(tb, p, n, part, c.asm) && Carries(tb, part, v, c.asm)
    requires Reducing(tb, p, c, r, SymbolOf(part), n) && tb.act(r, TopValues(p, n), c.asm) == Some((v, c.asm))
    ensures Advance(tb, c).Next? && Inv(tb, whole, tokens, Advance(tb, c).config, s) && Nearer(whole, p)
  {
    whole := FoldInv(tb, p, tokens, c, s, r, n, part, v, c.asm);
  }

  predicate TypeEnd(q: int) {
    33 <= q <= 42
  }

  lemma {:induction false} TypeFits(q: int, part: Part, next: int) returns (t: Type)
    requires Link(q, part, next) && TypeEnd(next)
    ensures q == 13 && part == TokenPart(TypeToken(t)) && TypeIndex(t) == next - 33
  {
    t := TypeOfToken(part.token);
  }

  lemma {:induction false} MakesType(tb: Parser, p: Pile, asm: State) returns (t: Type)
    requires Path(tb, p, asm) && TypeEnd(StateOf(p))
    ensures MakesPart(tb, p, 1, TypePart(t), asm) && TypeOf(StateOf(p) - 33) == t
  {
    LastLink(tb, p, asm);
    LastOne(p);
    t := TypeFits(StateOf(p.below), p.part, StateOf(p));
  }

  /** One more item behind a comma. */
  lemma {:induction false} RunGrows(items: Items, it: SourceItem)
    requires items != []
    ensures RunTokens(items + [it]) == RunTokens(items) + ([Mark(COMMA)] + ItemTokens(it))
    ensures GroupedLine(items) && GroupedItem(it) ==> GroupedLine(items + [it])
  {
    assert (items + [it])[..|items|] == items;
  }

  /** The first k items as a run, and the others as the rest of the line. */
  lemma {:induction false} RunAndTail(items: Items, k: nat)
    requires 0 < k <= |items|
    ensures RunTokens(items[..k]) + TailTokens(items[k..]) == LineTokens(items)
    decreases k
  {
    if k == 1 {
      FirstOfLine(items);
    } else {
      RunAndTail(items, k - 1);
      NextOfTail(items, k - 1);
    }
  }

  lemma {:induction false} FirstOfLine(items: Items)
    requires items != []
    ensures RunTokens(items[..1]) + TailTokens(items[1..]) == LineTokens(items)
  {
    assert items[..1] == [items[0]];
    assert RunTokens([items[0]]) == ItemTokens(items[0]);
  }

  lemma {:induction false} NextOfTail(items: Items, k: nat)
    requires 0 < k < |items|
    ensures RunTokens(items[..k]) + TailTokens(items[k..]) == RunTokens(items[..k + 1]) + TailTokens(items[k + 1..])
  {
    PrefixNext(items, k);
    RunGrows(items[..k], items[k]);
    assert items[k..][1..] == items[k + 1..];
    Together(RunTokens(items[..k]), [Mark(COMMA)] + ItemTokens(items[k]), TailTokens(items[k + 1..]));
    Together([Mark(COMMA)], ItemTokens(items[k]), TailTokens(items[k + 1..]));
  }

  lemma {:induction false} RunIsLine(items: Items)
    requires items != []
    ensures LineTokens(items) == RunTokens(items) + [Mark(NEW_LINE)]
  {
    RunAndTail(items, |items|);
    assert items[..|items|] == items;
  }

  /** One more line. */
  lemma {:induction false} LinesGrow(lines: seq<Items>, items: Items)
    ensures LinesTokens(lines + [items]) == LinesTokens(lines) + LineTokens(items)
    ensures Flatten(lines + [items]) == Flatten(lines) + items
    decreases |lines|
  {
    if lines == [] {
      OneLineOnly(items);
    } else {
      assert (lines + [items])[1..] == lines[1..] + [items];
      LinesGrow(lines[1..], items);
      Together(LineTokens(lines[0]), LinesTokens(lines[1..]), LineTokens(items));
      Together(lines[0], Flatten(lines[1..]), items);
    }
  }

  lemma {:induction false} AllGrouped(lines: seq<Items>, items: Items)
    requires GroupedLines(lines) && GroupedLine(items)
    ensures GroupedLines(lines + [items])
  {
  }

  lemma {:induction false} OneLineOnly(items: Items)
    ensures LinesTokens([] + [items]) == LinesTokens([]) + LineTokens(items)
    ensures Flatten([] + [items]) == Flatten([]) + items
  {
    assert ([] + [items])[1..] == [];
    NoMore(items);
    NoMore(LineTokens(items));
  }

  /** What stands below the states of lines and runs. */
  lemma {:induction false} LineLink(q: int, part: Part, next: int)
    requires Link(q, part, next) && next in {1, 19, 20, 21, 22, 62, 63, 85}
    ensures next == 1 ==> q == 0 && part.InputPart? && GroupedLines(part.lines)
    ensures next == 19 ==> q == 1 && part == TokenPart(Mark(NEW_LINE))
    ensures next == 20 ==> q == 1 && part.LinePart? && GroupedLine(part.items)
    ensures next == 21 ==> q == 1 && part.RunPart? && part.items != [] && GroupedLine(part.items)
    ensures next == 22 ==> q == 1 && part.ItemPart? && GroupedItem(part.it)
    ensures next == 62 ==> q == 21 && part == TokenPart(Mark(NEW_LINE))
    ensures next == 63 ==> q == 21 && part == TokenPart(Mark(COMMA))
    ensures next == 85 ==> q == 63 && part.ItemPart? && GroupedItem(part.it)
  {
  }

  lemma {:induction false} MakesNoLines(tb: Parser, p: Pile, asm: State)
    requires Path(tb, p, asm) && StateOf(p) == 0
    ensures MakesPart(tb, p, 0, InputPart([]), asm)
  {
    StateRange(tb, p, asm);
  }

  lemma {:induction false} MakesEmptyLine(tb: Parser, p: Pile, asm: State)
    requires Path(tb, p, asm) && StateOf(p) == 19
    ensures MakesPart(tb, p, 1, LinePart([]), asm)
  {
    LastLink(tb, p, asm);
    LineLink(StateOf(p.below), p.part, StateOf(p));
    LastOne(p);
  }

  lemma {:induction false} MakesRun(tb: Parser, p: Pile, asm: State) returns (part: Part)
    requires Path(tb, p, asm) && StateOf(p) == 22
    ensures MakesPart(tb, p, 1, part, asm) && part.RunPart?
  {
    LastLink(tb, p, asm);
    LineLink(StateOf(p.below), p.part, StateOf(p));
    LastOne(p);
    part := RunPart([p.part.it]);
  }

  lemma {:induction false} MakesLine(tb: Parser, p: Pile, asm: State) returns (part: Part)
    requires Path(tb, p, asm) && StateOf(p) == 62
    ensures MakesPart(tb, p, 2, part, asm) && part.LinePart?
  {
    LastLink(tb, p, asm);
    LineLink(StateOf(p.below), p.part, StateOf(p));
    LastLink(tb, p.below, asm);
    LineLink(StateOf(p.below.below), p.below.part, StateOf(p.below));
    LastTwo(p);
    part := LinePart(p.below.part.items);
    RunIsLine(part.items);
    NoMore(ItemsIn(p.below));
  }

  lemma {:induction false} MakesInput(tb: Parser, p: Pile, asm: State) returns (part: Part)
    requires Path(tb, p, asm) && StateOf(p) == 20
    ensures MakesPart(tb, p, 2, part, asm) && part.InputPart?
  {
    LastLink(tb, p, asm);
    LineLink(StateOf(p.below), p.part, StateOf(p));
    LastLink(tb, p.below, asm);
    LineLink(StateOf(p.below.below), p.below.part, StateOf(p.below));
    LastTwo(p);
    part := InputPart(p.below.part.lines + [p.part.items]);
    LinesGrow(p.below.part.lines, p.part.items);
    AllGrouped(p.below.part.lines, p.part.items);
    Together(ItemsIn(p.below.below), Flatten(p.below.part.lines), p.part.items);
  }

  lemma {:induction false} MakesLongRun(tb: Parser, p: Pile, asm: State) returns (part: Part)
    requires Path(tb, p, asm) && StateOf(p) == 85
    ensures MakesPart(tb, p, 3, part, asm) && part.RunPart?
  {
    LastLink(tb, p, asm);
    LineLink(StateOf(p.below), p.part, StateOf(p));
    LastLink(tb, p.below, asm);
    LineLink(StateOf(p.below.below), p.below.part, StateOf(p.below));
    LastLink(tb, p.below.below, asm);
    LineLink(StateOf(p.below.below.below), p.below.below.part, StateOf(p.below.below));
    LastThree(p);
    part := RunPart(p.below.below.part.items + [p.part.it]);
    RunGrows(p.below.below.part.items, p.part.it);
    NoMore(ItemsIn(p.below.below));
    Together(ItemsIn(p.below.below.below), p.below.below.part.items, [p.part.it]);
  }

  // ---------- What the tables and actions must say ----------

  predicate EndsItem(q: int) {
    PlainEnd(q) || EndsIntItem(q) || EndsFpItem(q) || q == 43
  }

  function LineRule(q: int): int {
    if q == 0 then 2 else if q == 20 then 3 else if q == 19 then 4 else if q == 62 then 5 else if q == 22 then 6 else 7
  }

  predicate EndsLine(q: int) {
    q in {0, 19, 20, 22, 62, 85}
  }

  predicate ExprStateEnd(q: int) {
    LeafEnd(q) || q == 83 || q == 84 || 86 <= q <= 92 || q == 47
  }

  /** In state q, in front of f, the rule of an expression. */
  predicate ExprReduces(tb: Parser, q: int, f: int, r: int) {
    if LeafEnd(q) then r == LeafRule(LeafSymbol(q)) && RuleIs(tb, r, Nonterminal(LeafSort(LeafSymbol(q))), 1)
    else if q == 47 then r == MINUS_RULE && RuleIs(tb, r, FPEXP, 2)
    else if q == 83 then r == NestedRule(Ints) && RuleIs(tb, r, INTEXP, 3)
    else if q == 84 then r == NestedRule(Floats) && RuleIs(tb, r, FPEXP, 3)
    else
      && r == OpRule(SortAt(q), OpAt(q)) && RuleIs(tb, r, Nonterminal(SortAt(q)), 3)
      && !Tighter(SortAt(q), f, OpLevel(OpAt(q)))
  }

  predicate TypeReduces(tb: Parser, q: int, r: int) {
    r == q - 25 && RuleIs(tb, r, TYPE_NT, 1)
  }

  ghost predicate ItemReduces(tb: Parser, q: int, r: int) {
    r == EndRule(q) && forall it :: ItemRule(it) == r ==> RuleIs(tb, r, ITEM, Symbols(it))
  }

  /** The reduction in state q in front of f, by the kind of the state. */
  ghost predicate ReducesIn(tb: Parser, q: int, f: int, r: int) {
    && (ExprStateEnd(q) ==> ExprReduces(tb, q, f, r))
    && (TypeEnd(q) ==> TypeReduces(tb, q, r))
    && (EndsItem(q) ==> ItemReduces(tb, q, r))
    && (EndsLine(q) ==> r == LineRule(q))
    && (ExprStateEnd(q) || TypeEnd(q) || EndsItem(q) || EndsLine(q))
  }

  predicate LineRulesAre(tb: Parser) {
    && RuleIs(tb, 2, INPUT, 0) && RuleIs(tb, 3, INPUT, 2) && RuleIs(tb, 4, LINE, 1) && RuleIs(tb, 5, LINE, 2)
    && RuleIs(tb, 6, RUN, 1) && RuleIs(tb, 7, RUN, 3)
  }

  ghost predicate Reductions(tb: Parser) {
    && (forall q, f, r :: 0 <= q <= 103 && Terminal(f) && q != FINAL && tb.decide(q, f) == Reduce(r) ==> ReducesIn(tb, q, f, r))
    && LineRulesAre(tb)
  }

  ghost predicate Actions(tb: Parser) {
    && ExprActsKeep(tb)
    && (forall r, vals, s :: 8 <= r <= 17 ==> tb.act(r, vals, s) == Some((Kind(TypeOf(r - 8)), s)))
    && (forall r, vals, s :: 2 <= r <= 7 ==> tb.act(r, vals, s) == Some((Empty, s)))
    && (forall it, s :: ItemActs(tb, it, s))
  }

  // ---------- One step ----------

  /** The driver is about to reduce, and does not fail. */
  ghost predicate AtReduction(tb: Parser, p: Pile, tokens: seq<Token>, c: Config, s: State, r: int) {
    && Inv(tb, p, tokens, c, s) && Advance(tb, c).Next? && c.input != [] && StateOf(p) != FINAL
    && tb.decide(StateOf(p), c.input[0].sym) == Reduce(r)
  }

  lemma {:induction false} MakesExpression(tb: Parser, p: Pile, asm: State, f: int, r: int) returns (e: Part, n: nat)
    requires Path(tb, p, asm) && ExprStateEnd(StateOf(p)) && ExprReduces(tb, StateOf(p), f, r)
    ensures MakesExpr(tb, p, n, e, r, asm) && RuleIs(tb, r, Nonterminal(e.sort), n) && !Tighter(e.sort, f, Level(e.tree))
  {
    if LeafEnd(StateOf(p)) {
      e := MakesLeaf(tb, p, asm);
      n := 1;
    } else if StateOf(p) == 47 {
      e := MakesMinus(tb, p, asm);
      n := 2;
    } else if StateOf(p) <= 84 {
      e := MakesNested(tb, p, asm, if StateOf(p) == 83 then Ints else Floats);
      n := 3;
    } else {
      e := MakesInfix(tb, p, asm);
      n := 3;
    }
  }

  lemma {:induction false} ExpressionStep(tb: Parser, p: Pile, tokens: seq<Token>, c: Config, s: State, r: int)
    returns (whole: Pile)
    requires GotosAreEdges(tb) && ExprActsKeep(tb) && AtReduction(tb, p, tokens, c, s, r)
    requires ExprStateEnd(StateOf(p)) && ExprReduces(tb, StateOf(p), c.input[0].sym, r)
    ensures Inv(tb, whole, tokens, Advance(tb, c).config, s) && Nearer(whole, p)
  {
    var e, n := MakesExpression(tb, p, c.asm, c.input[0].sym, r);
    whole := ExprStep(tb, p, tokens, c, s, r, n, e);
  }

  lemma {:induction false} ItemAt(tb: Parser, p: Pile, asm: State) returns (b: Pile, it: SourceItem, v: Value)
    requires Path(tb, p, asm) && EndsItem(StateOf(p))
    ensures MakesItem(tb, p, b, it, v, asm)
  {
    if PlainEnd(StateOf(p)) {
      b, it, v := PlainAt(tb, p, asm);
    } else if EndsIntItem(StateOf(p)) {
      b, it, v := IntItemAt(tb, p, asm);
    } else if EndsFpItem(StateOf(p)) {
      b, it, v := FpItemAt(tb, p, asm);
    } else {
      b, it, v := TypeItemAt(tb, p, asm);
    }
  }

  lemma {:induction false} WholeItemStep(tb: Parser, p: Pile, tokens: seq<Token>, c: Config, s: State, r: int)
    returns (whole: Pile)
    requires GotosAreEdges(tb) && (forall it, a :: ItemActs(tb, it, a)) && AtReduction(tb, p, tokens, c, s, r)
    requires EndsItem(StateOf(p)) && ItemReduces(tb, StateOf(p), r)
    ensures Inv(tb, whole, tokens, Advance(tb, c).config, s) && Nearer(whole, p)
  {
    var b, it, v := ItemAt(tb, p, c.asm);
    whole := ItemStep(tb, p, tokens, c, s, b, it, v);
  }

  lemma {:induction false} TypeStep(tb: Parser, p: Pile, tokens: seq<Token>, c: Config, s: State, r: int) returns (whole: Pile)
    requires GotosAreEdges(tb) && (forall k, vals, a :: 8 <= k <= 17 ==> tb.act(k, vals, a) == Some((Kind(TypeOf(k - 8)), a)))
    requires AtReduction(tb, p, tokens, c, s, r) && TypeEnd(StateOf(p)) && TypeReduces(tb, StateOf(p), r)
    ensures Inv(tb, whole, tokens, Advance(tb, c).config, s) && Nearer(whole, p)
  {
    var t := MakesType(tb, p, c.asm);
    whole := PartStep(tb, p, tokens, c, s, r, 1, TypePart(t), Kind(t));
  }

  lemma {:induction false} MakesStructure(tb: Parser, p: Pile, asm: State) returns (part: Part, n: nat)
    requires Path(tb, p, asm) && EndsLine(StateOf(p)) && LineRulesAre(tb)
    ensures MakesPart(tb, p, n, part, asm) && RuleIs(tb, LineRule(StateOf(p)), SymbolOf(part), n)
    ensures part.InputPart? || part.LinePart? || part.RunPart?
  {
    match StateOf(p)
    case 0 =>
      part, n := InputPart([]), 0;
      MakesNoLines(tb, p, asm);
    case 19 =>
      part, n := LinePart([]), 1;
      MakesEmptyLine(tb, p, asm);
    case 20 =>
      n := 2;
      part := MakesInput(tb, p, asm);
    case 22 =>
      n := 1;
      part := MakesRun(tb, p, asm);
    case 62 =>
      n := 2;
      part := MakesLine(tb, p, asm);
    case _ =>
      n := 3;
      part := MakesLongRun(tb, p, asm);
  }

  lemma {:induction false} StructureStep(tb: Parser, p: Pile, tokens: seq<Token>, c: Config, s: State, r: int)
    returns (whole: Pile)
    requires GotosAreEdges(tb) && (forall k, vals, a :: 2 <= k <= 7 ==> tb.act(k, vals, a) == Some((Empty, a)))
    requires LineRulesAre(tb) && AtReduction(tb, p, tokens, c, s, r) && EndsLine(StateOf(p)) && r == LineRule(StateOf(p))
    ensures Inv(tb, whole, tokens, Advance(tb, c).config, s) && Nearer(whole, p)
  {
    var part, n := MakesStructure(tb, p, c.asm);
    whole := PartStep(tb, p, tokens, c, s, r, n, part, Empty);
  }

  ghost predicate Machine(tb: Parser) {
    ShiftsAreEdges(tb) && GotosAreEdges(tb) && Reductions(tb) && Actions(tb)
  }

  lemma {:induction false} ReduceInv(tb: Parser, p: Pile, tokens: seq<Token>, c: Config, s: State, r: int)
    returns (whole: Pile)
    requires Machine(tb) && AtReduction(tb, p, tokens, c, s, r) && ReducesIn(tb, StateOf(p), c.input[0].sym, r)
    ensures Inv(tb, whole, tokens, Advance(tb, c).config, s) && Nearer(whole, p)
  {
    if ExprStateEnd(StateOf(p)) {
      whole := ExpressionStep(tb, p, tokens, c, s, r);
    } else if TypeEnd(StateOf(p)) {
      whole := TypeStep(tb, p, tokens, c, s, r);
    } else if EndsItem(StateOf(p)) {
      whole := WholeItemStep(tb, p, tokens, c, s, r);
    } else {
      whole := StructureStep(tb, p, tokens, c, s, r);
    }
  }

  lemma {:induction false} NextScanned(tb: Parser, p: Pile, tokens: seq<Token>, c: Config, s: State)
    requires Scanning(tokens) && Inv(tb, p, tokens, c, s) && c.input != []
    ensures ScannerToken(c.input[0]) && Terminal(c.input[0].sym) && 0 <= StateOf(p) <= 103
  {
    assert c.input[0] == tokens[|TextIn(p)|];
    StateRange(tb, p, c.asm);
  }

  /** One token fewer, or one reduction nearer to the next shift. */
  predicate Progress(after: Pile, d: Config, p: Pile, c: Config) {
    |d.input| < |c.input| || (d.input == c.input && Nearer(after, p))
  }

  /** Every step of the driver keeps the invariant. */
  lemma {:induction false} StepInv(tb: Parser, p: Pile, tokens: seq<Token>, c: Config, s: State) returns (whole: Pile)
    requires Machine(tb) && Scanning(tokens) && Inv(tb, p, tokens, c, s) && Advance(tb, c).Next?
    ensures Inv(tb, whole, tokens, Advance(tb, c).config, s) && Progress(whole, Advance(tb, c).config, p, c)
  {
    Decided(tb, c);
    NextScanned(tb, p, tokens, c, s);
    match tb.decide(StateOf(p), c.input[0].sym)
    case Shift(next) => whole := ShiftInv(tb, p, tokens, c, s, next);
    case Reduce(r) => whole := ReduceInv(tb, p, tokens, c, s, r);
  }

  lemma {:induction false} Decided(tb: Parser, c: Config)
    requires Advance(tb, c).Next?
    ensures c.input != [] && Top(c.stack) != FINAL
    ensures var decision := tb.decide(Top(c.stack), c.input[0].sym);
      && !decision.Error?
      && (decision.Shift? ==>
        Advance(tb, c).config == Config(c.stack + [Entry(decision.state, c.input[0].value)], c.input[1..], c.asm))
      && (decision.Reduce? ==> Advance(tb, c).config.input == c.input)
  {
  }

  // ---------- The parser of the source ----------

  lemma {:induction false} PartGoto(q: int, part: Part)
    requires PartFits(q, part) && !part.TokenPart?
    ensures Edge(q, SymbolOf(part), Goto(q, SymbolOf(part)))
  {
    match part
    case ExprPart(sort, _) => BehindEdge(sort, q);
    case TypePart(_) => TypeGoto();
    case ItemPart(_) => ItemGotos();
    case RunPart(_) => RunGoto();
    case LinePart(_) => LineGoto();
    case InputPart(_) => InputGoto();
  }

  lemma {:induction false} EdgesHold()
    ensures ShiftsAreEdges(LALR) && GotosAreEdges(LALR)
  {
    forall q, f, next | 0 <= q <= 103 && Terminal(f) && Decide(q, f) == Shift(next) ensures Edge(q, f, next) {
      ShiftEdge(q, f, next);
    }
    forall q, part | PartFits(q, part) && !part.TokenPart? ensures Edge(q, SymbolOf(part), Goto(q, SymbolOf(part))) {
      PartGoto(q, part);
    }
  }

  /** The states that reduce, other than the accepting one. */
  lemma {:induction false} EndKindsLow(q: int)
    requires 0 <= q < 64 && Defact(q) > 0 && q != FINAL
    ensures ExprStateEnd(q) || TypeEnd(q) || EndsItem(q) || EndsLine(q)
    ensures TypeEnd(q) ==> Defact(q) == q - 25
    ensures EndsItem(q) ==> Defact(q) == EndRule(q)
    ensures EndsLine(q) ==> Defact(q) == LineRule(q)
  {
  }

  lemma {:induction false} EndKindsHigh(q: int)
    requires 64 <= q <= 103 && Defact(q) > 0
    ensures ExprStateEnd(q) || EndsItem(q) || EndsLine(q)
    ensures EndsItem(q) ==> Defact(q) == EndRule(q)
    ensures EndsLine(q) ==> Defact(q) == LineRule(q)
  {
  }

  lemma {:induction false} ExprEndRules(q: int)
    requires ExprStateEnd(q)
    ensures LeafEnd(q) ==> Defact(q) == LeafRule(LeafSymbol(q))
    ensures 86 <= q <= 92 ==> Defact(q) == OpRule(SortAt(q), OpAt(q))
    ensures q == 47 ==> Defact(q) == MINUS_RULE
    ensures q == 83 ==> Defact(q) == NestedRule(Ints)
    ensures q == 84 ==> Defact(q) == NestedRule(Floats)
  {
  }

  /** A state that reduces by an operator does so in front of nothing tighter. */
  lemma {:induction false} NothingTighter(q: int, f: int, r: int)
    requires 86 <= q <= 92 && Decide(q, f) == Reduce(r)
    ensures !Tighter(SortAt(q), f, OpLevel(OpAt(q)))
  {
    TighterRows(q);
    assert Pact(86) == -16 && Pact(87) == -16 && Pact(89) == 25 && Pact(90) == 25;
  }

  lemma {:induction false} ExprReducesHere(q: int, f: int, r: int)
    requires ExprStateEnd(q) && Terminal(f) && Decide(q, f) == Reduce(r)
    ensures ExprReduces(LALR, q, f, r)
  {
    ReducesByDefault(q, f, r);
    ExprEndRules(q);
    ExprRules(r);
    if 86 <= q <= 92 {
      NothingTighter(q, f, r);
    }
  }

  lemma {:induction false} ItemReducesHere(q: int, r: int)
    requires EndsItem(q) && r == EndRule(q)
    ensures ItemReduces(LALR, q, r)
  {
    forall it | ItemRule(it) == r ensures RuleIs(LALR, r, ITEM, Symbols(it)) {
      ItemRules(it);
    }
  }

  lemma {:induction false} TypeReducesHere(q: int, r: int)
    requires TypeEnd(q) && r == q - 25
    ensures TypeReduces(LALR, q, r)
  {
    TypeNames(q - 33, NEW_LINE);
  }

  lemma {:induction false} EndKinds(q: int, f: int, r: int)
    requires 0 <= q <= 103 && Terminal(f) && q != FINAL && Decide(q, f) == Reduce(r)
    ensures ExprStateEnd(q) || TypeEnd(q) || EndsItem(q) || EndsLine(q)
    ensures TypeEnd(q) ==> r == q - 25
    ensures EndsItem(q) ==> r == EndRule(q)
    ensures EndsLine(q) ==> r == LineRule(q)
  {
    ReducesByDefault(q, f, r);
    if q < 64 {
      EndKindsLow(q);
    } else {
      EndKindsHigh(q);
    }
  }

  lemma {:induction false} ReducesHere(q: int, f: int, r: int)
    requires 0 <= q <= 103 && Terminal(f) && q != FINAL && Decide(q, f) == Reduce(r)
    ensures ReducesIn(LALR, q, f, r)
  {
    EndKinds(q, f, r);
    if ExprStateEnd(q) {
      ExprReducesHere(q, f, r);
    }
    if TypeEnd(q) {
      TypeReducesHere(q, r);
    }
    if EndsItem(q) {
      ItemReducesHere(q, r);
    }
  }

  lemma {:induction false} ReductionsHold()
    ensures Reductions(LALR)
  {
    forall q, f, r | 0 <= q <= 103 && Terminal(f) && q != FINAL && Decide(q, f) == Reduce(r) ensures ReducesIn(LALR, q, f, r) {
      ReducesHere(q, f, r);
    }
    LineRules();
  }

  lemma {:induction false} ExprActKeeps(r: int, vals: seq<Value>, s: State)
    requires 43 <= r <= 55 && Act(r, vals, s).Some?
    ensures Act(r, vals, s).value.1 == s
  {
  }

  lemma {:induction false} ActionsHold()
    ensures Actions(LALR)
  {
    forall r, vals, s | 43 <= r <= 55 && Act(r, vals, s).Some? ensures Act(r, vals, s).value.1 == s {
      ExprActKeeps(r, vals, s);
    }
    forall r, vals, s | 8 <= r <= 17 ensures Act(r, vals, s) == Some((Kind(TypeOf(r - 8)), s)) {
      TypeAction(r - 8, vals, s);
    }
    forall r, vals, s | 2 <= r <= 7 ensures Act(r, vals, s) == Some((Empty, s)) {
      LineActions(r, vals, s);
    }
    forall it, s ensures ItemActs(LALR, it, s) {
      MeaningHolds(it, s);
    }
  }

  lemma {:induction false} MachineHolds()
    ensures Machine(LALR)
  {
    EdgesHold();
    ReductionsHold();
    ActionsHold();
  }

  // ---------- Whole runs ----------

  ghost predicate Kept(tb: Parser, tokens: seq<Token>, s: State, c: Config) {
    exists p :: Inv(tb, p, tokens, c, s)
  }

  lemma {:induction false} StepKept(tb: Parser, tokens: seq<Token>, s: State, c: Config)
    requires Machine(tb) && Scanning(tokens) && Kept(tb, tokens, s, c) && Advance(tb, c).Next?
    ensures Kept(tb, tokens, s, Advance(tb, c).config)
  {
    var p :| Inv(tb, p, tokens, c, s);
    var whole := StepInv(tb, p, tokens, c, s);
  }

  /** The invariant holds wherever the driver gets. */
  lemma {:induction false} ReachedKept(tb: Parser, tokens: seq<Token>, s: State, c: Config, d: Config)
    requires Machine(tb) && Scanning(tokens) && Kept(tb, tokens, s, c) && Reaches(tb, c, d)
    ensures Kept(tb, tokens, s, d)
  {
    var S := iset x | Kept(tb, tokens, s, x);
    forall x | x in S && Advance(tb, x).Next? ensures Advance(tb, x).config in S {
      StepKept(tb, tokens, s, x);
    }
    assert Closed(tb, S) && c in S;
  }

  lemma {:induction false} InitialInv(tb: Parser, tokens: seq<Token>, s: State)
    ensures Inv(tb, Bottom, tokens, Initial(tokens, s), s)
  {
    NothingBefore(tokens);
  }

  lemma {:induction false} EndLink(q: int, part: Part)
    requires Link(q, part, FINAL)
    ensures q == 1 && part == TokenPart(Mark(END))
  {
  }

  /** In the accepting state a whole program has been read. */
  lemma {:induction false} FinalParts(tb: Parser, p: Pile, asm: State) returns (lines: seq<Items>)
    requires Path(tb, p, asm) && StateOf(p) == FINAL
    ensures p.On? && p.below.On? && p.below.below.Bottom? && GroupedLines(lines)
    ensures p.below.part == InputPart(lines) && p.part == TokenPart(Mark(END))
  {
    LastLink(tb, p, asm);
    EndLink(StateOf(p.below), p.part);
    LastLink(tb, p.below, asm);
    LineLink(StateOf(p.below.below), p.below.part, StateOf(p.below));
    StateRange(tb, p.below.below, asm);
    lines := p.below.part.lines;
  }

  lemma {:induction false} FinalText(p: Pile, lines: seq<Items>)
    requires p.On? && p.below.On? && p.below.below.Bottom?
    requires p.below.part == InputPart(lines) && p.part == TokenPart(Mark(END))
    ensures TextIn(p) == ProgramTokens(lines) && ItemsIn(p) == Flatten(lines)
  {
    NothingBefore(LinesTokens(lines));
    NothingBefore(Flatten(lines));
    NoMore(Flatten(lines));
    assert TextIn(p.below.below) == [] && ItemsIn(p.below.below) == [];
    assert TextIn(p.below) == [] + LinesTokens(lines) && ItemsIn(p.below) == [] + Flatten(lines);
  }

  lemma {:induction false} NothingBefore<T>(a: seq<T>)
    ensures [] + a == a
  {
  }

  lemma {:induction false} AcceptsInFinal(tb: Parser, d: Config)
    requires Advance(tb, d) == Accept
    ensures Top(d.stack) == FINAL
  {
  }

  /** Whatever the driver accepts begins with the text of a program, and it has performed exactly its items. */
  lemma {:induction false} AcceptedIsProgram(tokens: seq<Token>, s: State, d: Config) returns (lines: seq<Items>)
    requires Scanning(tokens) && Reaches(LALR, Initial(tokens, s), d) && Advance(LALR, d) == Accept
    ensures GroupedLines(lines) && tokens == ProgramTokens(lines) + d.input && Run(Flatten(lines), s) == Some(d.asm)
  {
    MachineHolds();
    InitialInv(LALR, tokens, s);
    ReachedKept(LALR, tokens, s, Initial(tokens, s), d);
    var p :| Inv(LALR, p, tokens, d, s);
    AcceptsInFinal(LALR, d);
    lines := FinalParts(LALR, p, d.asm);
    FinalText(p, lines);
  }

  /** The tokens are those of a program whose items take the assembler from s to t. */
  ghost predicate IsProgram(tokens: seq<Token>, s: State, t: State) {
    exists lines :: GroupedLines(lines) && tokens == ProgramTokens(lines) && Run(Flatten(lines), s) == Some(t)
  }

  /** The driver accepts the texts of programs and nothing else, and performs exactly their items. */
  lemma {:induction false} AcceptsExactly(tokens: seq<Token>, s: State, t: State)
    requires Scanning(tokens)
    ensures Reaches(LALR, Initial(tokens, s), Final(t)) <==> IsProgram(tokens, s, t)
  {
    if Reaches(LALR, Initial(tokens, s), Final(t)) {
      var lines := AcceptedIsProgram(tokens, s, Final(t));
      NoMore(ProgramTokens(lines));
    }
    if IsProgram(tokens, s, t) {
      var lines :| GroupedLines(lines) && tokens == ProgramTokens(lines) && Run(Flatten(lines), s) == Some(t);
      SourceParses(lines, s, t);
    }
  }
}

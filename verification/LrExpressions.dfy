/** Integer and floating-point expressions: their text, and what the shift-reduce driver makes of it. */
module LrExpressions {
  import opened Assembler
  import opened LrTables
  import opened LrDriver
  import opened Wrappers

  // ---------- Text ----------

  datatype Sort = Ints | Floats

  /** An expression as it is written; parentheses stand only where Nested does. */
  datatype Tree =
    | Leaf(token: Token)
    | Infix(left: Tree, op: int, right: Tree)
    | Minus(inner: Tree)
    | Nested(inner: Tree)

  function TreeTokens(t: Tree): (r: seq<Token>)
    ensures r != []
  {
    match t
    case Leaf(token) => [token]
    case Infix(l, op, r) => TreeTokens(l) + ([Mark(op)] + TreeTokens(r))
    case Minus(i) => [Mark(MINUS)] + TreeTokens(i)
    case Nested(i) => [Mark(OPEN)] + (TreeTokens(i) + [Mark(CLOSE)])
  }

  predicate IsLeaf(sort: Sort, sym: int) {
    if sort == Ints then sym == INTNUM || sym == IDENTIFIER else sym == FPNUM
  }

  predicate IsOp(sort: Sort, sym: int) {
    sym == PLUS || sym == MINUS || (if sort == Ints then sym == BAR else sym == STAR || sym == SLASH)
  }

  predicate WellSorted(sort: Sort, t: Tree) {
    match t
    case Leaf(token) => IsLeaf(sort, token.sym)
    case Infix(l, op, r) => IsOp(sort, op) && WellSorted(sort, l) && WellSorted(sort, r)
    case Minus(i) => sort == Floats && WellSorted(sort, i)
    case Nested(i) => WellSorted(sort, i)
  }

  /** How tightly an operator binds: `+` and `-`, then the others. */
  function OpLevel(op: int): nat {
    if op == PLUS || op == MINUS then 0 else 1
  }

  function Level(t: Tree): nat {
    if t.Infix? then OpLevel(t.op) else 2
  }

  /** The tree is the one its text stands for: equal operators to the left, and a prefixed minus binds tightest. */
  predicate Grouped(t: Tree) {
    match t
    case Leaf(_) => true
    case Infix(l, op, r) => Grouped(l) && Grouped(r) && Level(l) >= OpLevel(op) && Level(r) > OpLevel(op)
    case Minus(i) => Grouped(i) && Level(i) == 2
    case Nested(i) => Grouped(i)
  }

  function IntTree(e: Expr): (t: Tree)
    ensures WellSorted(Ints, t)
  {
    match e
    case Num(v) => Leaf(Token(INTNUM, Number(v)))
    case Sym(n) => Leaf(Token(IDENTIFIER, Name(n)))
    case Add(l, r) => Infix(IntTree(l), PLUS, IntTree(r))
    case Sub(l, r) => Infix(IntTree(l), MINUS, IntTree(r))
    case BitOr(l, r) => Infix(IntTree(l), BAR, IntTree(r))
    case Paren(i) => Nested(IntTree(i))
  }

  function FpTree(e: FpExpr): (t: Tree)
    ensures WellSorted(Floats, t)
  {
    match e
    case FpNum(v) => Leaf(Token(FPNUM, Real(v)))
    case FpAdd(l, r) => Infix(FpTree(l), PLUS, FpTree(r))
    case FpSub(l, r) => Infix(FpTree(l), MINUS, FpTree(r))
    case FpMul(l, r) => Infix(FpTree(l), STAR, FpTree(r))
    case FpDiv(l, r) => Infix(FpTree(l), SLASH, FpTree(r))
    case FpNeg(i) => Minus(FpTree(i))
    case FpParen(i) => Nested(FpTree(i))
  }

  function Wrap(e: Expr, level: nat): Expr {
    if Level(IntTree(e)) >= level then e else Paren(e)
  }

  /** Parentheses put in where the text of a tree would otherwise mean another tree. */
  function Group(e: Expr): Expr {
    match e
    case Num(_) | Sym(_) => e
    case Paren(i) => Paren(Group(i))
    case Add(l, r) => Add(Group(l), Wrap(Group(r), 1))
    case Sub(l, r) => Sub(Group(l), Wrap(Group(r), 1))
    case BitOr(l, r) => BitOr(Wrap(Group(l), 1), Wrap(Group(r), 2))
  }

  lemma {:induction false} WrapSound(e: Expr, level: nat, s: State)
    requires Grouped(IntTree(e)) && level <= 2
    ensures Grouped(IntTree(Wrap(e, level))) && Level(IntTree(Wrap(e, level))) >= level
    ensures Eval(Wrap(e, level), s) == Eval(e, s)
  {
  }

  /** Every tree has a text, of the same value. */
  lemma {:induction false} GroupSound(e: Expr, s: State)
    ensures Grouped(IntTree(Group(e))) && Eval(Group(e), s) == Eval(e, s)
  {
    match e
    case Num(_) | Sym(_) =>
    case Paren(i) =>
      GroupSound(i, s);
    case Add(l, r) =>
      GroupSound(l, s);
      GroupSound(r, s);
      WrapSound(Group(r), 1, s);
    case Sub(l, r) =>
      GroupSound(l, s);
      GroupSound(r, s);
      WrapSound(Group(r), 1, s);
    case BitOr(l, r) =>
      GroupSound(l, s);
      GroupSound(r, s);
      WrapSound(Group(l), 1, s);
      WrapSound(Group(r), 2, s);
  }

  function FpWrap(e: FpExpr, level: nat): FpExpr {
    if Level(FpTree(e)) >= level then e else FpParen(e)
  }

  function FpGroup(e: FpExpr): FpExpr {
    match e
    case FpNum(_) => e
    case FpParen(i) => FpParen(FpGroup(i))
    case FpNeg(i) => FpNeg(FpWrap(FpGroup(i), 2))
    case FpAdd(l, r) => FpAdd(FpWrap(FpGroup(l), 0), FpWrap(FpGroup(r), 1))
    case FpSub(l, r) => FpSub(FpWrap(FpGroup(l), 0), FpWrap(FpGroup(r), 1))
    case FpMul(l, r) => FpMul(FpWrap(FpGroup(l), 1), FpWrap(FpGroup(r), 2))
    case FpDiv(l, r) => FpDiv(FpWrap(FpGroup(l), 1), FpWrap(FpGroup(r), 2))
  }

  lemma {:induction false} FpWrapSound(e: FpExpr, level: nat)
    requires Grouped(FpTree(e)) && level <= 2
    ensures Grouped(FpTree(FpWrap(e, level))) && Level(FpTree(FpWrap(e, level))) >= level
    ensures FpEval(FpWrap(e, level)) == FpEval(e)
  {
  }

  /** The operands of an operator, grouped. */
  lemma {:induction false} FpOperandsSound(l: FpExpr, r: FpExpr, level: nat)
    requires Grouped(FpTree(FpGroup(l))) && FpEval(FpGroup(l)) == FpEval(l)
    requires Grouped(FpTree(FpGroup(r))) && FpEval(FpGroup(r)) == FpEval(r) && level <= 1
    ensures var a, b := FpWrap(FpGroup(l), level), FpWrap(FpGroup(r), level + 1);
      && Grouped(FpTree(a)) && Level(FpTree(a)) >= level && FpEval(a) == FpEval(l)
      && Grouped(FpTree(b)) && Level(FpTree(b)) > level && FpEval(b) == FpEval(r)
  {
    FpWrapSound(FpGroup(l), level);
    FpWrapSound(FpGroup(r), level + 1);
  }

  lemma {:induction false} FpGroupSound(e: FpExpr)
    ensures Grouped(FpTree(FpGroup(e))) && FpEval(FpGroup(e)) == FpEval(e)
  {
    match e
    case FpNum(_) =>
    case FpParen(i) =>
      FpGroupSound(i);
    case FpNeg(i) =>
      FpGroupSound(i);
      FpWrapSound(FpGroup(i), 2);
    case _ =>
      FpGroupSound(e.left);
      FpGroupSound(e.right);
      FpOperandsSound(e.left, e.right, if e.FpAdd? || e.FpSub? then 0 else 1);
  }

  // ---------- Rules and states ----------

  function Nonterminal(sort: Sort): int {
    if sort == Ints then INTEXP else FPEXP
  }

  function LeafRule(sym: int): int {
    if sym == INTNUM then 43 else if sym == IDENTIFIER then 48 else 49
  }

  function OpRule(sort: Sort, op: int): int {
    if sort == Ints then (if op == MINUS then 44 else if op == PLUS then 45 else 47)
    else if op == PLUS then 50 else if op == MINUS then 51 else if op == STAR then 52 else 53
  }

  function NestedRule(sort: Sort): int {
    if sort == Ints then 46 else 55
  }

  const MINUS_RULE := 54

  /** States in which an item may begin. */
  predicate ItemStart(q: int) {
    q == 1 || q == 63
  }

  /** States behind an opening parenthesis in which both kinds of expression may begin. */
  predicate MixedOpen(q: int) {
    q == 18 || q == 59
  }

  /** States behind an opening parenthesis. */
  predicate Opens(sort: Sort, q: int) {
    MixedOpen(q) || q == if sort == Ints then 28 else 46
  }

  /** States in which an expression may begin, outside an operator. */
  predicate Outer(sort: Sort, q: int) {
    ItemStart(q) || Opens(sort, q)
    || if sort == Ints
       then q == 7 || q == 8 || q == 11 || q == 12 || q == 14 || q == 15 || q == 25 || 72 <= q <= 80
       else q == 81 || q == 82
  }

  function LeafState(q: int, sym: int): int {
    if sym != IDENTIFIER then sym else if ItemStart(q) then 6 else 27
  }

  function OpenState(sort: Sort, q: int): int {
    if ItemStart(q) then 18 else if MixedOpen(q) then 59 else if sort == Ints then 28 else 46
  }

  function OpState(sort: Sort, op: int): int {
    if sort == Ints then (if op == MINUS then 64 else if op == PLUS then 65 else 66)
    else if op == MINUS then 67 else if op == PLUS then 68 else if op == STAR then 69 else 70
  }

  function CloseState(sort: Sort): int {
    if sort == Ints then 83 else 84
  }

  const MINUS_STATE := 16

  predicate Start(sort: Sort, q: int) {
    Outer(sort, q) || (if sort == Ints then 64 <= q <= 66 else q == MINUS_STATE || 67 <= q <= 70)
  }

  /** The least level an expression may have when it begins in state q. */
  function StartLevel(sort: Sort, q: int): nat {
    if sort == Ints then (if q == 64 || q == 65 then 1 else if q == 66 then 2 else 0)
    else if q == 67 || q == 68 then 1 else if q == 69 || q == 70 || q == MINUS_STATE then 2 else 0
  }

  /** Symbols that may follow an expression. */
  predicate Follow(sort: Sort, sym: int) {
    IsOp(sort, sym) || sym == CLOSE || sym == NEW_LINE || sym == COMMA
  }

  /** The symbol is an operator that binds tighter than this level. */
  predicate Tighter(sort: Sort, sym: int, level: nat) {
    IsOp(sort, sym) && OpLevel(sym) > level
  }

  // ---------- What the tables must say ----------

  ghost predicate LeavesShift(tb: Parser, sort: Sort, q: int) {
    forall sym :: IsLeaf(sort, sym) ==> tb.decide(q, sym) == Shift(LeafState(q, sym))
  }

  /** In state g the operators of this level and above are shifted. */
  ghost predicate OpsShift(tb: Parser, sort: Sort, g: int, level: nat) {
    forall op :: IsOp(sort, op) && OpLevel(op) >= level ==> tb.decide(g, op) == Shift(OpState(sort, op))
  }

  ghost predicate StartFacts(tb: Parser, sort: Sort, q: int) {
    var g := tb.goto(q, Nonterminal(sort));
    && LeavesShift(tb, sort, q)
    && tb.decide(q, OPEN) == Shift(OpenState(sort, q))
    && (sort == Floats ==> tb.decide(q, MINUS) == Shift(MINUS_STATE))
    && q != FINAL && g != FINAL
    && OpsShift(tb, sort, g, StartLevel(sort, q))
    && (Opens(sort, q) ==> tb.decide(g, CLOSE) == Shift(CloseState(sort)))
  }

  ghost predicate LeavesReduce(tb: Parser, sort: Sort, f: int) {
    forall q, sym :: IsLeaf(sort, sym) ==> tb.decide(LeafState(q, sym), f) == Reduce(LeafRule(sym))
  }

  /** In front of f an operator reduces, unless f binds tighter. */
  ghost predicate OpsReduce(tb: Parser, sort: Sort, f: int) {
    forall op :: IsOp(sort, op) && !Tighter(sort, f, OpLevel(op)) ==>
      tb.decide(tb.goto(OpState(sort, op), Nonterminal(sort)), f) == Reduce(OpRule(sort, op))
  }

  predicate MinusReduces(tb: Parser, f: int) {
    tb.decide(tb.goto(MINUS_STATE, FPEXP), f) == Reduce(MINUS_RULE)
  }

  ghost predicate FollowFacts(tb: Parser, sort: Sort, f: int) {
    && LeavesReduce(tb, sort, f) && OpsReduce(tb, sort, f)
    && tb.decide(CloseState(sort), f) == Reduce(NestedRule(sort))
    && (sort == Floats ==> MinusReduces(tb, f))
  }

  predicate RuleIs(tb: Parser, r: int, lhs: int, length: int) {
    tb.lhs(r) == lhs && tb.length(r) == length
  }

  ghost predicate RuleFacts(tb: Parser, sort: Sort) {
    && (forall sym :: IsLeaf(sort, sym) ==> RuleIs(tb, LeafRule(sym), Nonterminal(sort), 1))
    && (forall op :: IsOp(sort, op) ==> RuleIs(tb, OpRule(sort, op), Nonterminal(sort), 3))
    && RuleIs(tb, NestedRule(sort), Nonterminal(sort), 3)
    && (sort == Floats ==> RuleIs(tb, MINUS_RULE, FPEXP, 2))
  }

  ghost predicate SortFacts(tb: Parser, sort: Sort) {
    && (forall q :: Start(sort, q) ==> StartFacts(tb, sort, q))
    && (forall f :: Follow(sort, f) ==> FollowFacts(tb, sort, f))
    && RuleFacts(tb, sort)
  }

  ghost predicate ExprFacts(tb: Parser) {
    SortFacts(tb, Ints) && SortFacts(tb, Floats)
  }

  // ---------- The value of a text ----------

  /** What an action yields if it leaves the assembler alone. */
  function Yielded(result: Option<(Value, State)>, s: State): Option<Value> {
    if result.Some? && result.value.1 == s then Some(result.value.0) else None
  }

  /** The actions of the rules, applied from the leaves up. */
  function Attribute(tb: Parser, sort: Sort, t: Tree, s: State): Option<Value> {
    match t
    case Leaf(token) => Yielded(tb.act(LeafRule(token.sym), [token.value], s), s)
    case Infix(l, op, r) =>
      var a, b := Attribute(tb, sort, l, s), Attribute(tb, sort, r, s);
      if a.None? || b.None? then None else Yielded(tb.act(OpRule(sort, op), [a.value, Empty, b.value], s), s)
    case Minus(i) =>
      var a := Attribute(tb, sort, i, s);
      if a.None? then None else Yielded(tb.act(MINUS_RULE, [Empty, a.value], s), s)
    case Nested(i) =>
      var a := Attribute(tb, sort, i, s);
      if a.None? then None else Yielded(tb.act(NestedRule(sort), [Empty, a.value, Empty], s), s)
  }

  // ---------- One expression ----------

  /** An expression parsed: one entry with its value on the stack, and nothing else changed. */
  function Parsed(tb: Parser, sort: Sort, c: Config, rest: seq<Token>, v: Value): Config {
    Config(c.stack + [Entry(tb.goto(Top(c.stack), Nonterminal(sort)), v)], rest, c.asm)
  }

  /** The driver is about to read the text of t. */
  predicate Ready(sort: Sort, t: Tree, c: Config, rest: seq<Token>) {
    && c.stack != [] && Start(sort, Top(c.stack)) && Level(t) >= StartLevel(sort, Top(c.stack))
    && c.input == TreeTokens(t) + rest && rest != [] && Follow(sort, rest[0].sym)
    && !Tighter(sort, rest[0].sym, Level(t))
  }

  /** One reduction at the end of an expression. */
  lemma {:induction false} ReduceTo(tb: Parser, sort: Sort, c: Config, rhs: seq<Entry>, vals: seq<Value>, rest: seq<Token>, r: int, v: Value)
    requires c.stack != [] && rhs != [] && Values(rhs) == vals && RuleIs(tb, r, Nonterminal(sort), |rhs|)
    requires rest != [] && Top(rhs) != FINAL && tb.decide(Top(rhs), rest[0].sym) == Reduce(r)
    requires Yielded(tb.act(r, vals, c.asm), c.asm) == Some(v)
    ensures Reaches(tb, Config(c.stack + rhs, rest, c.asm), Parsed(tb, sort, c, rest, v))
  {
    ReduceStep(tb, Config(c.stack + rhs, rest, c.asm), c.stack, rhs, r, v, c.asm);
  }

  lemma {:induction false} ShiftLeaf(tb: Parser, sort: Sort, token: Token, c: Config, rest: seq<Token>)
    requires SortFacts(tb, sort) && IsLeaf(sort, token.sym) && Ready(sort, Leaf(token), c, rest)
    ensures Reaches(tb, c, Config(c.stack + [Entry(LeafState(Top(c.stack), token.sym), token.value)], rest, c.asm))
  {
    assert StartFacts(tb, sort, Top(c.stack));
    ShiftStep(tb, c, token, LeafState(Top(c.stack), token.sym));
    assert c.input[1..] == rest;
  }

  lemma {:induction false} ReduceLeaf(tb: Parser, sort: Sort, token: Token, c: Config, rest: seq<Token>, v: Value)
    requires SortFacts(tb, sort) && IsLeaf(sort, token.sym) && Ready(sort, Leaf(token), c, rest)
    requires Yielded(tb.act(LeafRule(token.sym), [token.value], c.asm), c.asm) == Some(v)
    ensures Reaches(tb, Config(c.stack + [Entry(LeafState(Top(c.stack), token.sym), token.value)], rest, c.asm),
      Parsed(tb, sort, c, rest, v))
  {
    assert FollowFacts(tb, sort, rest[0].sym);
    var rhs := [Entry(LeafState(Top(c.stack), token.sym), token.value)];
    assert Values(rhs) == [token.value];
    ReduceTo(tb, sort, c, rhs, [token.value], rest, LeafRule(token.sym), v);
  }

  /** The text behind the left operand. */
  function BehindLeft(t: Tree, rest: seq<Token>): seq<Token>
    requires t.Infix?
  {
    [Mark(t.op)] + (TreeTokens(t.right) + rest)
  }

  lemma {:induction false} InfixTokens(t: Tree, rest: seq<Token>)
    requires t.Infix?
    ensures TreeTokens(t) + rest == TreeTokens(t.left) + BehindLeft(t, rest)
  {
  }

  /** The left operand is parsed and the operator shifted. */
  function Middle(tb: Parser, sort: Sort, t: Tree, c: Config, rest: seq<Token>, a: Value): Config
    requires t.Infix?
  {
    Config(c.stack + [Entry(tb.goto(Top(c.stack), Nonterminal(sort)), a), Entry(OpState(sort, t.op), Empty)],
      TreeTokens(t.right) + rest, c.asm)
  }

  lemma {:induction false} ShiftOperator(tb: Parser, sort: Sort, t: Tree, c: Config, rest: seq<Token>, a: Value)
    requires SortFacts(tb, sort) && WellSorted(sort, t) && Grouped(t) && Ready(sort, t, c, rest) && t.Infix?
    ensures Ready(sort, t.left, c, BehindLeft(t, rest))
    ensures Reaches(tb, Parsed(tb, sort, c, BehindLeft(t, rest), a), Middle(tb, sort, t, c, rest, a))
    ensures Ready(sort, t.right, Middle(tb, sort, t, c, rest, a), rest)
  {
    InfixTokens(t, rest);
    assert StartFacts(tb, sort, Top(c.stack));
    var d := Parsed(tb, sort, c, BehindLeft(t, rest), a);
    ShiftStep(tb, d, Mark(t.op), OpState(sort, t.op));
    assert d.input[1..] == TreeTokens(t.right) + rest;
    assert d.stack + [Entry(OpState(sort, t.op), Empty)] == Middle(tb, sort, t, c, rest, a).stack;
  }

  lemma {:induction false} ReduceInfix(tb: Parser, sort: Sort, t: Tree, c: Config, rest: seq<Token>, a: Value, b: Value, v: Value)
    requires SortFacts(tb, sort) && WellSorted(sort, t) && Ready(sort, t, c, rest) && t.Infix?
    requires Yielded(tb.act(OpRule(sort, t.op), [a, Empty, b], c.asm), c.asm) == Some(v)
    ensures Reaches(tb, Parsed(tb, sort, Middle(tb, sort, t, c, rest, a), rest, b), Parsed(tb, sort, c, rest, v))
  {
    var o := OpState(sort, t.op);
    assert FollowFacts(tb, sort, rest[0].sym) && StartFacts(tb, sort, o);
    var rhs := [Entry(tb.goto(Top(c.stack), Nonterminal(sort)), a), Entry(o, Empty), Entry(tb.goto(o, Nonterminal(sort)), b)];
    assert Parsed(tb, sort, Middle(tb, sort, t, c, rest, a), rest, b).stack == c.stack + rhs;
    assert Values(rhs) == [a, Empty, b];
    ReduceTo(tb, sort, c, rhs, [a, Empty, b], rest, OpRule(sort, t.op), v);
  }

  /** The opening parenthesis is shifted. */
  function Inside(sort: Sort, t: Tree, c: Config, rest: seq<Token>): Config
    requires t.Nested?
  {
    Config(c.stack + [Entry(OpenState(sort, Top(c.stack)), Empty)], TreeTokens(t.inner) + ([Mark(CLOSE)] + rest), c.asm)
  }

  lemma {:induction false} OpenParen(tb: Parser, sort: Sort, t: Tree, c: Config, rest: seq<Token>)
    requires SortFacts(tb, sort) && Ready(sort, t, c, rest) && t.Nested?
    ensures Reaches(tb, c, Inside(sort, t, c, rest))
    ensures Ready(sort, t.inner, Inside(sort, t, c, rest), [Mark(CLOSE)] + rest)
  {
    assert StartFacts(tb, sort, Top(c.stack));
    ShiftStep(tb, c, Mark(OPEN), OpenState(sort, Top(c.stack)));
    assert c.input[1..] == Inside(sort, t, c, rest).input;
  }

  lemma {:induction false} CloseParen(tb: Parser, sort: Sort, t: Tree, c: Config, rest: seq<Token>, a: Value, v: Value)
    requires SortFacts(tb, sort) && Ready(sort, t, c, rest) && t.Nested?
    requires Yielded(tb.act(NestedRule(sort), [Empty, a, Empty], c.asm), c.asm) == Some(v)
    ensures Reaches(tb, Parsed(tb, sort, Inside(sort, t, c, rest), [Mark(CLOSE)] + rest, a), Parsed(tb, sort, c, rest, v))
  {
    var o := OpenState(sort, Top(c.stack));
    assert FollowFacts(tb, sort, rest[0].sym) && StartFacts(tb, sort, o);
    var d := Parsed(tb, sort, Inside(sort, t, c, rest), [Mark(CLOSE)] + rest, a);
    ShiftStep(tb, d, Mark(CLOSE), CloseState(sort));
    assert d.input[1..] == rest;
    var rhs := [Entry(o, Empty), Entry(tb.goto(o, Nonterminal(sort)), a), Entry(CloseState(sort), Empty)];
    assert d.stack + [Entry(CloseState(sort), Empty)] == c.stack + rhs;
    assert Values(rhs) == [Empty, a, Empty];
    ReduceTo(tb, sort, c, rhs, [Empty, a, Empty], rest, NestedRule(sort), v);
  }

  /** The prefixed minus is shifted. */
  function BehindMinus(t: Tree, c: Config, rest: seq<Token>): Config
    requires t.Minus?
  {
    Config(c.stack + [Entry(MINUS_STATE, Empty)], TreeTokens(t.inner) + rest, c.asm)
  }

  lemma {:induction false} ShiftMinus(tb: Parser, t: Tree, c: Config, rest: seq<Token>)
    requires SortFacts(tb, Floats) && Grouped(t) && Ready(Floats, t, c, rest) && t.Minus?
    ensures Reaches(tb, c, BehindMinus(t, c, rest))
    ensures Ready(Floats, t.inner, BehindMinus(t, c, rest), rest)
  {
    assert StartFacts(tb, Floats, Top(c.stack));
    ShiftStep(tb, c, Mark(MINUS), MINUS_STATE);
    assert c.input[1..] == TreeTokens(t.inner) + rest;
  }

  lemma {:induction false} ReduceMinus(tb: Parser, t: Tree, c: Config, rest: seq<Token>, a: Value, v: Value)
    requires SortFacts(tb, Floats) && Ready(Floats, t, c, rest) && t.Minus?
    requires Yielded(tb.act(MINUS_RULE, [Empty, a], c.asm), c.asm) == Some(v)
    ensures Reaches(tb, Parsed(tb, Floats, BehindMinus(t, c, rest), rest, a), Parsed(tb, Floats, c, rest, v))
  {
    assert FollowFacts(tb, Floats, rest[0].sym) && StartFacts(tb, Floats, MINUS_STATE);
    var rhs := [Entry(MINUS_STATE, Empty), Entry(tb.goto(MINUS_STATE, FPEXP), a)];
    assert Parsed(tb, Floats, BehindMinus(t, c, rest), rest, a).stack == c.stack + rhs;
    assert Values(rhs) == [Empty, a];
    ReduceTo(tb, Floats, c, rhs, [Empty, a], rest, MINUS_RULE, v);
  }

  /** Shift-reduce evaluation: on the text of any grouped tree the driver leaves exactly the value of the tree on top
      of the stack it started from, having read exactly the text and left the assembler alone. */
  lemma {:induction false} ParseExpr(tb: Parser, sort: Sort, t: Tree, c: Config, rest: seq<Token>, v: Value)
    requires SortFacts(tb, sort) && WellSorted(sort, t) && Grouped(t) && Ready(sort, t, c, rest)
    requires Attribute(tb, sort, t, c.asm) == Some(v)
    ensures Reaches(tb, c, Parsed(tb, sort, c, rest, v))
    decreases t
  {
    match t
    case Leaf(token) =>
      ShiftLeaf(tb, sort, token, c, rest);
      ReduceLeaf(tb, sort, token, c, rest, v);
    case Infix(l, _, r) =>
      var a, b := Attribute(tb, sort, l, c.asm).value, Attribute(tb, sort, r, c.asm).value;
      ShiftOperator(tb, sort, t, c, rest, a);
      ParseExpr(tb, sort, l, c, BehindLeft(t, rest), a);
      ParseExpr(tb, sort, r, Middle(tb, sort, t, c, rest, a), rest, b);
      ReduceInfix(tb, sort, t, c, rest, a, b, v);
    case Minus(i) =>
      var a := Attribute(tb, sort, i, c.asm).value;
      ShiftMinus(tb, t, c, rest);
      ParseExpr(tb, sort, i, BehindMinus(t, c, rest), rest, a);
      ReduceMinus(tb, t, c, rest, a, v);
    case Nested(i) =>
      var a := Attribute(tb, sort, i, c.asm).value;
      OpenParen(tb, sort, t, c, rest);
      ParseExpr(tb, sort, i, Inside(sort, t, c, rest), [Mark(CLOSE)] + rest, a);
      CloseParen(tb, sort, t, c, rest, a, v);
  }
}

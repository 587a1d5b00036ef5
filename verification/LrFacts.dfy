/** What the generated tables and actions say about the grammar. */
module LrFacts {
  import opened Assembler
  import opened Bits
  import Ieee
  import opened Layout
  import opened LrTables
  import opened LrDriver
  import opened LrExpressions
  import opened LrProgram
  import opened Wrappers

  // ---------- Expressions ----------

  /** States whose row begins at entry 2 accept an integer expression and nothing else. */
  lemma IntRow(q: int)
    requires Pact(q) == 2
    ensures Decide(q, INTNUM) == Shift(3) && Decide(q, IDENTIFIER) == Shift(27) && Decide(q, OPEN) == Shift(28)
  {
    assert Check(5) == 3 && Check(8) == 6 && Check(33) == 31;
  }

  /** States whose row begins at entry -3 accept a floating-point expression and nothing else. */
  lemma FpRow(q: int)
    requires Pact(q) == -3
    ensures Decide(q, FPNUM) == Shift(4) && Decide(q, MINUS) == Shift(16) && Decide(q, OPEN) == Shift(46)
  {
    assert Check(1) == 4 && Check(23) == 26 && Check(28) == 31;
  }

  lemma FirstItemRow()
    ensures Decide(1, INTNUM) == Shift(3) && Decide(1, IDENTIFIER) == Shift(6) && Decide(1, OPEN) == Shift(18)
    ensures Decide(1, FPNUM) == Shift(4) && Decide(1, MINUS) == Shift(16)
  {
    assert Pact(1) == 91;
    assert Check(94) == 3 && Check(97) == 6 && Check(122) == 31 && Check(95) == 4 && Check(117) == 26;
  }

  lemma NextItemRow()
    ensures Decide(63, INTNUM) == Shift(3) && Decide(63, IDENTIFIER) == Shift(6) && Decide(63, OPEN) == Shift(18)
    ensures Decide(63, FPNUM) == Shift(4) && Decide(63, MINUS) == Shift(16)
  {
    assert Pact(63) == 33;
    assert Check(36) == 3 && Check(39) == 6 && Check(64) == 31 && Check(37) == 4 && Check(59) == 26;
  }

  lemma OuterParenRow()
    ensures Decide(18, INTNUM) == Shift(3) && Decide(18, IDENTIFIER) == Shift(27) && Decide(18, OPEN) == Shift(59)
    ensures Decide(18, FPNUM) == Shift(4) && Decide(18, MINUS) == Shift(16)
  {
    assert Pact(18) == 112;
    assert Check(115) == 3 && Check(118) == 6 && Check(143) == 31 && Check(116) == 4 && Check(138) == 26;
  }

  lemma InnerParenRow()
    ensures Decide(59, INTNUM) == Shift(3) && Decide(59, IDENTIFIER) == Shift(27) && Decide(59, OPEN) == Shift(59)
    ensures Decide(59, FPNUM) == Shift(4) && Decide(59, MINUS) == Shift(16)
  {
    assert Pact(59) == 0;
    assert Check(3) == 3 && Check(6) == 6 && Check(31) == 31 && Check(4) == 4 && Check(26) == 26;
  }

  /** Where an expression of either kind may come. */
  lemma MixedRow(q: int)
    requires ItemStart(q) || MixedOpen(q)
    ensures Decide(q, INTNUM) == Shift(3) && Decide(q, IDENTIFIER) == Shift(LeafState(q, IDENTIFIER))
    ensures Decide(q, FPNUM) == Shift(4) && Decide(q, MINUS) == Shift(16)
    ensures Decide(q, OPEN) == Shift(if ItemStart(q) then 18 else 59)
  {
    if q == 1 {
      FirstItemRow();
    } else if q == 63 {
      NextItemRow();
    } else if q == 18 {
      OuterParenRow();
    } else {
      InnerParenRow();
    }
  }

  /** The state behind an expression that begins in state q. */
  function Behind(sort: Sort, q: int): int {
    if sort == Ints then
      if ItemStart(q) then 23
      else if q == 7 then 29 else if q == 8 then 30 else if q == 11 then 31 else if q == 12 then 32
      else if q == 14 then 44 else if q == 15 then 45 else if q == 25 then 71
      else if Opens(Ints, q) then 60
      else if q <= 66 then q + 22
      else q + 21
    else if ItemStart(q) then 24 else if Opens(Floats, q) then 61 else if q == 16 then 47
    else if q <= 70 then q + 22
    else q + 21
  }

  lemma IntGotos(q: int)
    requires Start(Ints, q)
    ensures Goto(q, INTEXP) == Behind(Ints, q) != FINAL && (Opens(Ints, q) ==> Goto(q, INTEXP) == 60)
  {
  }

  lemma FpGotos(q: int)
    requires Start(Floats, q)
    ensures Goto(q, FPEXP) == Behind(Floats, q) != FINAL && (Opens(Floats, q) ==> Goto(q, FPEXP) == 61)
  {
  }

  lemma IntOpRow(g: int)
    requires Pact(g) == -17 || g == 60
    ensures Decide(g, MINUS) == Shift(64) && Decide(g, PLUS) == Shift(65) && Decide(g, BAR) == Shift(66)
  {
    assert Check(9) == 26 && Check(10) == 27 && Check(13) == 30;
    assert Check(107) == 26 && Check(108) == 27 && Check(111) == 30;
  }

  lemma FpOpRow(g: int)
    requires Pact(g) == 113 || g == 61
    ensures Decide(g, MINUS) == Shift(67) && Decide(g, PLUS) == Shift(68)
    ensures Decide(g, STAR) == Shift(69) && Decide(g, SLASH) == Shift(70)
  {
    assert Check(139) == 26 && Check(140) == 27 && Check(141) == 28 && Check(142) == 29;
    assert Pact(61) == 23 && Check(49) == 26 && Check(50) == 27 && Check(51) == 28 && Check(52) == 29;
  }

  /** Behind `+` and `-` only the tighter operators are shifted. */
  lemma TighterRows(g: int)
    ensures Pact(g) == -16 ==> Decide(g, BAR) == Shift(66)
    ensures Pact(g) == 25 ==> Decide(g, STAR) == Shift(69) && Decide(g, SLASH) == Shift(70)
  {
    assert Check(14) == 30 && Check(53) == 28 && Check(54) == 29;
  }

  lemma CloseRows()
    ensures Decide(60, CLOSE) == Shift(83) && Decide(61, CLOSE) == Shift(84)
  {
    assert Pact(60) == 81 && Check(113) == 32 && Pact(61) == 23 && Check(55) == 32;
  }

  lemma IntLooseOps(q: int)
    requires Outer(Ints, q)
    ensures OpsShift(LALR, Ints, Behind(Ints, q), 0)
  {
    IntEndRow(q);
    IntOpRow(Behind(Ints, q));
  }

  lemma IntTightOps(q: int)
    requires q == 64 || q == 65
    ensures OpsShift(LALR, Ints, Behind(Ints, q), 1)
  {
    assert Pact(86) == -16 && Pact(87) == -16;
    TighterRows(Behind(Ints, q));
  }

  lemma IntOps(q: int)
    requires Start(Ints, q)
    ensures OpsShift(LALR, Ints, Goto(q, INTEXP), StartLevel(Ints, q))
  {
    IntGotos(q);
    if q == 64 || q == 65 {
      IntTightOps(q);
    } else if q != 66 {
      IntLooseOps(q);
    }
  }

  lemma IntEndRow(q: int)
    requires Outer(Ints, q)
    ensures Pact(Behind(Ints, q)) == -17 || Behind(Ints, q) == 60
  {
  }

  lemma FpLooseOps(q: int)
    requires Outer(Floats, q)
    ensures OpsShift(LALR, Floats, Behind(Floats, q), 0)
  {
    FpEndRow(q);
    FpOpRow(Behind(Floats, q));
  }

  lemma FpTightOps(q: int)
    requires q == 67 || q == 68
    ensures OpsShift(LALR, Floats, Behind(Floats, q), 1)
  {
    assert Pact(89) == 25 && Pact(90) == 25;
    TighterRows(Behind(Floats, q));
  }

  lemma FpOps(q: int)
    requires Start(Floats, q)
    ensures OpsShift(LALR, Floats, Goto(q, FPEXP), StartLevel(Floats, q))
  {
    FpGotos(q);
    if q == 67 || q == 68 {
      FpTightOps(q);
    } else if Outer(Floats, q) {
      FpLooseOps(q);
    }
  }

  lemma FpEndRow(q: int)
    requires Outer(Floats, q)
    ensures Pact(Behind(Floats, q)) == 113 || Behind(Floats, q) == 61
  {
  }

  lemma IntStartRow(q: int)
    requires Start(Ints, q)
    ensures Decide(q, INTNUM) == Shift(3) && Decide(q, IDENTIFIER) == Shift(LeafState(q, IDENTIFIER))
    ensures Decide(q, OPEN) == Shift(OpenState(Ints, q))
  {
    if ItemStart(q) || MixedOpen(q) {
      MixedRow(q);
    } else {
      IntRow(q);
    }
  }

  lemma FpStartRow(q: int)
    requires Start(Floats, q)
    ensures Decide(q, FPNUM) == Shift(4) && Decide(q, MINUS) == Shift(16) && Decide(q, OPEN) == Shift(OpenState(Floats, q))
  {
    if ItemStart(q) || MixedOpen(q) {
      MixedRow(q);
    } else {
      FpRow(q);
    }
  }

  lemma IntLeaves(q: int)
    requires Start(Ints, q)
    ensures LeavesShift(LALR, Ints, q)
  {
    IntStartRow(q);
  }

  lemma FpLeaves(q: int)
    requires Start(Floats, q)
    ensures LeavesShift(LALR, Floats, q)
  {
    FpStartRow(q);
  }

  lemma IntStartsHold(q: int)
    requires Start(Ints, q)
    ensures StartFacts(LALR, Ints, q)
  {
    CloseRows();
    IntGotos(q);
    IntStartRow(q);
    IntLeaves(q);
    IntOps(q);
  }

  lemma FpStartsHold(q: int)
    requires Start(Floats, q)
    ensures StartFacts(LALR, Floats, q)
  {
    CloseRows();
    FpGotos(q);
    FpStartRow(q);
    FpLeaves(q);
    FpOps(q);
  }

  /** The rows of every state in which an expression may begin, and of the state behind it. */
  lemma StartsHold(sort: Sort, q: int)
    requires Start(sort, q)
    ensures StartFacts(LALR, sort, q)
  {
    if sort == Ints {
      IntStartsHold(q);
    } else {
      FpStartsHold(q);
    }
  }

  /** A state without a row reduces whatever comes next. */
  lemma NoRow(q: int, f: int)
    requires Pact(q) == -32 && Defact(q) > 0
    ensures Decide(q, f) == Reduce(Defact(q))
  {
  }

  /** Behind `+` and `-` what does not bind tighter reduces. */
  lemma OperandRow(q: int, f: int)
    requires (Pact(q) == -16 && Follow(Ints, f) && f != BAR) || (Pact(q) == 25 && Follow(Floats, f) && f != STAR && f != SLASH)
    ensures Decide(q, f) == ByDefault(q)
  {
  }

  lemma NameRow(f: int)
    requires Follow(Ints, f)
    ensures Decide(6, f) == Reduce(48)
  {
  }

  lemma IntOperand(op: int, f: int)
    requires IsOp(Ints, op) && Follow(Ints, f) && !Tighter(Ints, f, OpLevel(op))
    ensures Decide(Goto(OpState(Ints, op), INTEXP), f) == Reduce(OpRule(Ints, op))
  {
    IntGotos(OpState(Ints, op));
    if op == BAR {
      NoRow(88, f);
    } else {
      OperandRow(if op == MINUS then 86 else 87, f);
    }
  }

  lemma FpOperand(op: int, f: int)
    requires IsOp(Floats, op) && Follow(Floats, f) && !Tighter(Floats, f, OpLevel(op))
    ensures Decide(Goto(OpState(Floats, op), FPEXP), f) == Reduce(OpRule(Floats, op))
  {
    FpGotos(OpState(Floats, op));
    if op == STAR || op == SLASH {
      NoRow(if op == STAR then 91 else 92, f);
    } else {
      OperandRow(if op == MINUS then 89 else 90, f);
    }
  }

  lemma LeafReduces(q: int, sym: int, sort: Sort, f: int)
    requires IsLeaf(sort, sym) && Follow(sort, f)
    ensures Decide(LeafState(q, sym), f) == Reduce(LeafRule(sym))
  {
    NoRow(3, f);
    NoRow(4, f);
    NoRow(27, f);
    if sort == Ints {
      NameRow(f);
    }
  }

  lemma LeavesHold(sort: Sort, f: int)
    requires Follow(sort, f)
    ensures LeavesReduce(LALR, sort, f)
  {
    forall q, sym | IsLeaf(sort, sym) ensures LALR.decide(LeafState(q, sym), f) == Reduce(LeafRule(sym)) {
      LeafReduces(q, sym, sort, f);
    }
  }

  lemma OpsHold(sort: Sort, f: int)
    requires Follow(sort, f)
    ensures OpsReduce(LALR, sort, f)
  {
    forall op | IsOp(sort, op) && !Tighter(sort, f, OpLevel(op))
      ensures LALR.decide(LALR.goto(OpState(sort, op), Nonterminal(sort)), f) == Reduce(OpRule(sort, op))
    {
      if sort == Ints {
        IntOperand(op, f);
      } else {
        FpOperand(op, f);
      }
    }
  }

  lemma MinusHolds(f: int)
    ensures MinusReduces(LALR, f)
  {
    FpGotos(MINUS_STATE);
    NoRow(47, f);
  }

  /** The reductions on every symbol that may follow an expression, with the precedence decisions. */
  lemma FollowsHold(sort: Sort, f: int)
    requires Follow(sort, f)
    ensures FollowFacts(LALR, sort, f)
  {
    LeavesHold(sort, f);
    OpsHold(sort, f);
    MinusHolds(f);
    CloseHolds(sort, f);
  }

  lemma CloseHolds(sort: Sort, f: int)
    ensures LALR.decide(CloseState(sort), f) == Reduce(NestedRule(sort))
  {
    NoRow(CloseState(sort), f);
  }

  lemma ExprRules(r: int)
    requires 43 <= r <= 55
    ensures Lhs(r) == (if r <= 48 then INTEXP else FPEXP)
    ensures Length(r) == if r == 43 || r == 48 || r == 49 then 1 else if r == 54 then 2 else 3
  {
  }

  lemma RulesHold(sort: Sort)
    ensures RuleFacts(LALR, sort)
  {
    forall sym | IsLeaf(sort, sym) ensures RuleIs(LALR, LeafRule(sym), Nonterminal(sort), 1) {
      ExprRules(LeafRule(sym));
    }
    forall op | IsOp(sort, op) ensures RuleIs(LALR, OpRule(sort, op), Nonterminal(sort), 3) {
      ExprRules(OpRule(sort, op));
    }
    ExprRules(NestedRule(sort));
    ExprRules(MINUS_RULE);
  }

  lemma SortHolds(sort: Sort)
    ensures SortFacts(LALR, sort)
  {
    forall q | Start(sort, q) ensures StartFacts(LALR, sort, q) {
      StartsHold(sort, q);
    }
    forall f | Follow(sort, f) ensures FollowFacts(LALR, sort, f) {
      FollowsHold(sort, f);
    }
    RulesHold(sort);
  }

  lemma ExprsHold()
    ensures ExprFacts(LALR)
  {
    SortHolds(Ints);
    SortHolds(Floats);
  }

  // ---------- Values ----------

  /** The action of an integer operator. */
  lemma IntOpAction(op: int, a: int, b: int, s: State)
    requires IsOp(Ints, op)
    ensures Act(OpRule(Ints, op), [Number(a), Empty, Number(b)], s)
      == Some((Number(if op == PLUS then Wrap64(a + b) else if op == MINUS then Wrap64(a - b) else Or(a, b)), s))
  {
  }

  lemma IntLeafAction(token: Token, s: State)
    requires (token.sym == INTNUM && token.value.Number?) || (token.sym == IDENTIFIER && token.value.Name?)
    ensures Act(LeafRule(token.sym), [token.value], s)
      == Some((if token.value.Number? then token.value else Number(Lookup(token.value.name, s)), s))
  {
  }

  lemma NestedAction(sort: Sort, v: Value, s: State)
    requires if sort == Ints then v.Number? else v.Real?
    ensures Act(NestedRule(sort), [Empty, v, Empty], s) == Some((v, s))
  {
  }

  /** The actions of the source evaluate the text of an integer expression to its value. */
  lemma {:induction false} IntMeaning(e: Expr, s: State)
    ensures Attribute(LALR, Ints, IntTree(e), s) == Some(Number(Eval(e, s)))
  {
    match e
    case Num(v) =>
      IntLeafAction(Token(INTNUM, Number(v)), s);
    case Sym(n) =>
      IntLeafAction(Token(IDENTIFIER, Name(n)), s);
    case Paren(i) =>
      IntMeaning(i, s);
      NestedAction(Ints, Number(Eval(i, s)), s);
    case _ =>
      IntMeaning(e.left, s);
      IntMeaning(e.right, s);
      IntOpMeaning(e, s);
  }

  lemma {:induction false} IntOpMeaning(e: Expr, s: State)
    requires e.Add? || e.Sub? || e.BitOr?
    requires Attribute(LALR, Ints, IntTree(e.left), s) == Some(Number(Eval(e.left, s)))
    requires Attribute(LALR, Ints, IntTree(e.right), s) == Some(Number(Eval(e.right, s)))
    ensures Attribute(LALR, Ints, IntTree(e), s) == Some(Number(Eval(e, s)))
  {
    IntOpAction(IntTree(e).op, Eval(e.left, s), Eval(e.right, s), s);
  }

  lemma FpOpAction(op: int, a: Fp, b: Fp, s: State)
    requires IsOp(Floats, op)
    ensures Act(OpRule(Floats, op), [Real(a), Empty, Real(b)], s)
      == Some((Real(FpOperation(OpRule(Floats, op), a, b)), s))
  {
  }

  lemma FpLeafAction(v: Fp, s: State)
    ensures Act(LeafRule(FPNUM), [Real(v)], s) == Some((Real(v), s))
  {
  }

  lemma MinusAction(v: Fp, s: State)
    ensures Act(MINUS_RULE, [Empty, Real(v)], s) == Some((Real(Ieee.Negate(v)), s))
  {
  }

  lemma {:induction false} FpMeaning(e: FpExpr, s: State)
    ensures Attribute(LALR, Floats, FpTree(e), s) == Some(Real(FpEval(e)))
  {
    match e
    case FpNum(v) =>
      FpLeafAction(v, s);
    case FpParen(i) =>
      FpMeaning(i, s);
      NestedAction(Floats, Real(FpEval(i)), s);
    case FpNeg(i) =>
      FpMeaning(i, s);
      MinusAction(FpEval(i), s);
    case _ =>
      FpMeaning(e.left, s);
      FpMeaning(e.right, s);
      FpOpMeaning(e, s);
  }

  lemma {:induction false} FpOpMeaning(e: FpExpr, s: State)
    requires e.FpAdd? || e.FpSub? || e.FpMul? || e.FpDiv?
    requires Attribute(LALR, Floats, FpTree(e.left), s) == Some(Real(FpEval(e.left)))
    requires Attribute(LALR, Floats, FpTree(e.right), s) == Some(Real(FpEval(e.right)))
    ensures Attribute(LALR, Floats, FpTree(e), s) == Some(Real(FpEval(e)))
  {
    FpOpAction(FpTree(e).op, FpEval(e.left), FpEval(e.right), s);
  }

  // ---------- Lines ----------

  lemma LineRows()
    ensures Decide(1, NEW_LINE) == Shift(19) && Decide(1, END) == Shift(FINAL)
    ensures Decide(21, COMMA) == Shift(63) && Decide(21, NEW_LINE) == Shift(62)
  {
  }

  lemma InputGoto()
    ensures Goto(0, INPUT) == 1
  {
  }

  lemma LineGoto()
    ensures Goto(1, LINE) == 20
  {
  }

  lemma RunGoto()
    ensures Goto(1, RUN) == 21
  {
  }

  lemma ItemGotos()
    ensures Goto(1, ITEM) == 22 && Goto(63, ITEM) == 85
  {
  }

  lemma LineReductionsHold(f: int)
    ensures Decide(0, f) == Reduce(2) && Decide(19, f) == Reduce(4) && Decide(20, f) == Reduce(3)
    ensures Decide(62, f) == Reduce(5) && Decide(22, f) == Reduce(6) && Decide(85, f) == Reduce(7)
  {
    NoRow(0, f);
    NoRow(19, f);
    NoRow(20, f);
    NoRow(62, f);
    NoRow(22, f);
    NoRow(85, f);
  }

  lemma LineActions(r: int, vals: seq<Value>, s: State)
    requires 2 <= r <= 7
    ensures LALR.act(r, vals, s) == Some((Empty, s))
  {
  }

  lemma LineRules()
    ensures Lhs(2) == INPUT && Lhs(3) == INPUT && Lhs(4) == LINE && Lhs(5) == LINE && Lhs(6) == RUN && Lhs(7) == RUN
    ensures Length(2) == 0 && Length(3) == 2 && Length(4) == 1 && Length(5) == 2 && Length(6) == 1 && Length(7) == 3
  {
  }

  lemma LinesHold()
    ensures LineFacts(LALR)
  {
    LineRows();
    InputGoto();
    LineGoto();
    RunGoto();
    ItemGotos();
    LineRules();
    forall f ensures LineReductions(LALR, f) {
      LineReductionsHold(f);
    }
    forall r, vals, s | 2 <= r <= 7 ensures LALR.act(r, vals, s) == Some((Empty, s)) {
      LineActions(r, vals, s);
    }
  }

  lemma ItemsHold(q: int, it: SourceItem)
    requires ItemStart(q)
    ensures ItemFacts(LALR, q, ShapeOf(it))
  {
    HeadsHold(q, it);
    ArgumentsHold(q, it);
    EndsHold(q, it);
  }

  lemma Shifts1(q: int, a: Token, p: int)
    requires q != FINAL && Decide(q, a.sym) == Shift(p)
    ensures Shifts(LALR, q, [a], [p])
  {
    assert Shifts(LALR, p, [], []);
    assert [a][1..] == [] && [p][1..] == [];
  }

  lemma Shifts2(q: int, a: Token, p: int, b: Token, r: int)
    requires q != FINAL && Decide(q, a.sym) == Shift(p)
    requires p != FINAL && Decide(p, b.sym) == Shift(r)
    ensures Shifts(LALR, q, [a, b], [p, r])
  {
    Shifts1(p, b, r);
    assert [a, b][1..] == [b] && [p, r][1..] == [r];
  }

  lemma Shifts3(q: int, a: Token, p: int, b: Token, r: int, c: Token, t: int)
    requires q != FINAL && Decide(q, a.sym) == Shift(p)
    requires p != FINAL && Decide(p, b.sym) == Shift(r)
    requires r != FINAL && Decide(r, c.sym) == Shift(t)
    ensures Shifts(LALR, q, [a, b, c], [p, r, t])
  {
    Shifts2(p, b, r, c, t);
    assert [a, b, c][1..] == [b, c] && [p, r, t][1..] == [r, t];
  }

  lemma TypeRow(k: int)
    requires 0 <= k < 10
    ensures Decide(18, U8_NAME + k) == Shift(49 + k)
  {
  }

  lemma ClosedTypeRow(k: int)
    requires 0 <= k < 10
    ensures Decide(49 + k, CLOSE) == Shift(73 + k)
  {
  }

  lemma TypeNameRow(k: int)
    requires 0 <= k < 10
    ensures Decide(13, U8_NAME + k) == Shift(33 + k)
  {
  }

  /** The rows a parenthesised type goes through, and the one behind `.type`. */
  lemma TypeRows(k: int)
    requires 0 <= k < 10
    ensures Decide(18, U8_NAME + k) == Shift(49 + k)
    ensures Decide(49 + k, CLOSE) == Shift(73 + k)
    ensures Decide(13, U8_NAME + k) == Shift(33 + k)
  {
    TypeRow(k);
    ClosedTypeRow(k);
    TypeNameRow(k);
  }

  lemma FirstKeywordRow(sym: int)
    requires 5 <= sym <= 15
    ensures Decide(1, sym) == Shift(sym)
  {
  }

  lemma NextKeywordRow(sym: int)
    requires 5 <= sym <= 15
    ensures Decide(63, sym) == Shift(sym)
  {
  }

  /** Tokens that begin an item and lead to the state of the same number. */
  lemma KeywordRows(q: int, sym: int)
    requires ItemStart(q) && 5 <= sym <= 15
    ensures Decide(q, sym) == Shift(sym)
  {
    if q == 1 {
      FirstKeywordRow(sym);
    } else {
      NextKeywordRow(sym);
    }
  }

  lemma StarRows()
    ensures Decide(1, STAR) == Shift(17) && Decide(63, STAR) == Shift(17)
    ensures Decide(17, IDENTIFIER) == Shift(48) && Decide(48, STAR) == Shift(72)
  {
    assert Check(119) == 28 && Check(61) == 28 && Check(2) == 6 && Check(7) == 28;
  }

  lemma BehindNameRow()
    ensures Decide(6, COLON) == Shift(26) && Decide(6, EQUALS) == Shift(25)
  {
    assert Check(19) == 37 && Check(16) == 34;
  }

  lemma CastHead(q: int, t: Type)
    requires ItemStart(q)
    ensures Shifts(LALR, q, [Mark(OPEN), TypeToken(t), Mark(CLOSE)], [18, 49 + TypeIndex(t), 73 + TypeIndex(t)])
  {
    MixedRow(q);
    TypeRows(TypeIndex(t));
    Shifts3(q, Mark(OPEN), 18, TypeToken(t), 49 + TypeIndex(t), Mark(CLOSE), 73 + TypeIndex(t));
  }

  lemma NameHeads(q: int, n: string)
    requires ItemStart(q)
    ensures Shifts(LALR, q, [Mark(STAR), Token(IDENTIFIER, Name(n)), Mark(STAR)], [17, 48, 72])
    ensures Shifts(LALR, q, [Token(IDENTIFIER, Name(n)), Mark(COLON)], [6, 26])
    ensures Shifts(LALR, q, [Token(IDENTIFIER, Name(n)), Mark(EQUALS)], [6, 25])
  {
    StarRows();
    BehindNameRow();
    MixedRow(q);
    Shifts3(q, Mark(STAR), 17, Token(IDENTIFIER, Name(n)), 48, Mark(STAR), 72);
    Shifts2(q, Token(IDENTIFIER, Name(n)), 6, Mark(COLON), 26);
    Shifts2(q, Token(IDENTIFIER, Name(n)), 6, Mark(EQUALS), 25);
  }

  lemma KeywordHead(q: int, token: Token)
    requires ItemStart(q) && 5 <= token.sym <= 15
    ensures Shifts(LALR, q, [token], [token.sym])
  {
    KeywordRows(q, token.sym);
    Shifts1(q, token, token.sym);
  }

  predicate IsKeywordItem(it: SourceItem) {
    !(it.Typed? || it.TypedFp? || it.Default? || it.DefaultFp? || it.Pass0? || it.Label? || it.Assign?)
  }

  lemma KeywordItem(it: SourceItem)
    requires IsKeywordItem(it)
    ensures |Head(it)| == 1 && 5 <= Head(it)[0].sym <= 15 && Route(it) == [Head(it)[0].sym]
  {
  }

  lemma HeadsHold(q: int, it: SourceItem)
    requires ItemStart(q)
    ensures Shifts(LALR, q, Head(it), Route(it))
  {
    if IsKeywordItem(it) {
      KeywordItem(it);
      KeywordHead(q, Head(it)[0]);
      assert Head(it) == [Head(it)[0]];
    } else {
      match it
      case Typed(t, _) => CastHead(q, t);
      case TypedFp(t, _) => CastHead(q, t);
      case Pass0(n, _) => NameHeads(q, n);
      case Label(n) => NameHeads(q, n);
      case Assign(n, _) => NameHeads(q, n);
      case _ =>
    }
  }

  /** Where the argument of an item begins. */
  lemma ArgumentStarts(q: int, it: SourceItem)
    requires ItemStart(q) && ArgumentOf(it).ExprArgument?
    ensures Outer(ArgumentOf(it).sort, ArgumentStart(q, ShapeOf(it)))
  {
  }

  lemma TypeArgumentHolds(t: Type)
    ensures ArgumentFacts(LALR, 13, TypeArgument(t))
  {
    var k := TypeIndex(t);
    TypeNameRow(k);
    TypeNames(k, COMMA);
    TypeNames(k, NEW_LINE);
    forall r, vals, s | r == 8 + k ensures LALR.act(r, vals, s) == Some((Kind(t), s)) {
      TypeAction(k, vals, s);
    }
  }

  lemma TypeAction(k: int, vals: seq<Value>, s: State)
    requires 0 <= k < 10
    ensures LALR.act(8 + k, vals, s) == Some((Kind(TypeOf(k)), s))
  {
  }

  lemma ArgumentsHold(q: int, it: SourceItem)
    requires ItemStart(q)
    ensures ArgumentStart(q, ShapeOf(it)) != FINAL
    ensures ArgumentFacts(LALR, ArgumentStart(q, ShapeOf(it)), ArgumentOf(it))
  {
    if it.SetType? {
      TypeArgumentHolds(it.newType);
    } else if ArgumentOf(it).ExprArgument? {
      ArgumentStarts(q, it);
    }
  }

  lemma TypeNames(k: int, f: int)
    requires 0 <= k < 10
    ensures Decide(33 + k, f) == Reduce(8 + k)
    ensures Lhs(8 + k) == TYPE_NT && Length(8 + k) == 1
  {
    NoRow(33 + k, f);
  }

  lemma ItemLhs(r: int)
    requires 18 <= r <= 42
    ensures Lhs(r) == ITEM
  {
  }

  /** The lengths of the item rules. */
  lemma ItemLength(r: int)
    requires 18 <= r <= 42
    ensures Length(r) ==
      if r <= 27 || r == 40 then 4 else if r == 42 then 3 else if 31 <= r <= 37 || r == 41 then 2 else 1
  {
  }

  lemma ItemRules(it: SourceItem)
    ensures Lhs(ItemRule(it)) == ITEM
    ensures Length(ItemRule(it)) == |Head(it)| + (if ArgumentOf(it).NoArgument? then 0 else 1)
  {
    ItemLhs(ItemRule(it));
    ItemLength(ItemRule(it));
  }

  /** A state on which an item ends, and its rule. */
  lemma EndRow(g: int, f: int)
    requires EndOfItem(f) && (Pact(g) == -17 || Pact(g) == 113 || Pact(g) == -32)
    ensures Decide(g, f) == ByDefault(g)
  {
  }

  lemma IntItemEnd(q: int, it: SourceItem)
    requires ItemStart(q) && ArgumentOf(it).ExprArgument? && ArgumentOf(it).sort == Ints
    ensures var g := Behind(Ints, ArgumentStart(q, ShapeOf(it)));
      g != FINAL && Pact(g) == -17 && Defact(g) == ItemRule(it)
  {
  }

  lemma FpItemEnd(q: int, it: SourceItem)
    requires ItemStart(q) && ArgumentOf(it).ExprArgument? && ArgumentOf(it).sort == Floats
    ensures var g := Behind(Floats, ArgumentStart(q, ShapeOf(it)));
      g != FINAL && Pact(g) == 113 && Defact(g) == ItemRule(it)
  {
  }

  lemma OtherEnd(q: int, it: SourceItem)
    requires ItemStart(q) && !ArgumentOf(it).ExprArgument?
    ensures var g := ItemEnd(LALR, q, ShapeOf(it));
      g != FINAL && Pact(g) == -32 && Defact(g) == ItemRule(it)
  {
  }

  lemma EndStates(q: int, it: SourceItem)
    requires ItemStart(q)
    ensures var g := ItemEnd(LALR, q, ShapeOf(it));
      g != FINAL && (Pact(g) == -17 || Pact(g) == 113 || Pact(g) == -32) && Defact(g) == ItemRule(it)
  {
    var p := ArgumentStart(q, ShapeOf(it));
    if !ArgumentOf(it).ExprArgument? {
      OtherEnd(q, it);
    } else if ArgumentOf(it).sort == Ints {
      ArgumentStarts(q, it);
      IntItemEnd(q, it);
      IntGotos(p);
    } else {
      ArgumentStarts(q, it);
      FpItemEnd(q, it);
      FpGotos(p);
    }
  }

  lemma EndsHold(q: int, it: SourceItem)
    requires ItemStart(q)
    ensures EndFacts(LALR, ItemEnd(LALR, q, ShapeOf(it)), ShapeOf(it))
  {
    ItemRules(it);
    EndStates(q, it);
    var g := ItemEnd(LALR, q, ShapeOf(it));
    forall f | EndOfItem(f) ensures Decide(g, f) == Reduce(ItemRule(it)) {
      EndRow(g, f);
    }
  }

  /** The value of an item's argument. */
  function ValueOf(it: SourceItem, s: State): Value {
    match it
    case TypedFp(_, e) => Real(FpEval(e))
    case DefaultFp(e) => Real(FpEval(e))
    case SetType(t) => Kind(t)
    case Text(_) | SetOrder(_) | Label(_) => Empty
    case _ => Number(Eval(it.arg, s))
  }

  lemma ValueHolds(it: SourceItem, s: State)
    ensures ArgumentValue(LALR, ArgumentOf(it), s) == Some(ValueOf(it, s))
  {
    if it.TypedFp? || it.DefaultFp? {
      FpMeaning(it.fp, s);
    } else if ArgumentOf(it).ExprArgument? {
      IntMeaning(it.arg, s);
    }
  }

  /** The action of an item's rule is the item with its argument evaluated. */
  lemma ItemMeaning(it: SourceItem, s: State)
    ensures Action(ItemRule(it), ShapeValues(ShapeOf(it), ValueOf(it, s)), s) == Some(Do(Resolve(it, s)))
  {
  }

  lemma MeaningHolds(it: SourceItem, s: State)
    ensures ItemActs(LALR, it, s)
  {
    ValueHolds(it, s);
    ItemMeaning(it, s);
  }

  /** The tables and actions of the source satisfy everything the parsing lemmas ask for. */
  lemma GrammarHolds()
    ensures GrammarFacts(LALR)
  {
    ExprsHold();
    LinesHold();
    forall q, it | ItemStart(q) ensures ItemFacts(LALR, q, ShapeOf(it)) {
      ItemsHold(q, it);
    }
    forall it, s ensures ItemActs(LALR, it, s) {
      MeaningHolds(it, s);
    }
  }

  /** The parser of the source on any integer expression, wherever one may stand: the value of the tree, nothing else
      on the stack, nothing else read, no callback but lookups. Any tree can be written so. */
  lemma SourceEvaluates(e: Expr, c: Config, rest: seq<Token>)
    requires Ready(Ints, IntTree(Group(e)), c, rest)
    ensures Reaches(LALR, c,
      Config(c.stack + [Entry(Goto(Top(c.stack), INTEXP), Number(Eval(e, c.asm)))], rest, c.asm))
  {
    ExprsHold();
    GroupSound(e, c.asm);
    IntMeaning(Group(e), c.asm);
    ParseExpr(LALR, Ints, IntTree(Group(e)), c, rest, Number(Eval(e, c.asm)));
  }

  /** The same for floating-point expressions, which call nothing at all. */
  lemma SourceEvaluatesFp(e: FpExpr, c: Config, rest: seq<Token>)
    requires Ready(Floats, FpTree(FpGroup(e)), c, rest)
    ensures Reaches(LALR, c,
      Config(c.stack + [Entry(Goto(Top(c.stack), FPEXP), Real(FpEval(e)))], rest, c.asm))
  {
    ExprsHold();
    FpGroupSound(e);
    FpMeaning(FpGroup(e), c.asm);
    ParseExpr(LALR, Floats, FpTree(FpGroup(e)), c, rest, Real(FpEval(e)));
  }

  /** The parser of the source on the text of any program: it accepts, having performed exactly the items, in order. */
  lemma SourceParses(lines: seq<Items>, s: State, t: State)
    requires GroupedLines(lines) && Run(Flatten(lines), s) == Some(t)
    ensures Reaches(LALR, Initial(ProgramTokens(lines), s), Final(t)) && Advance(LALR, Final(t)) == Accept
  {
    GrammarHolds();
    ParseProgram(LALR, lines, s, t);
  }
}

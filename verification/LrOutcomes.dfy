/** How a parse ends: on every text the driver stops, at the end of a program, at a syntax error, or at an item that the
    assembler cannot perform. */
module LrOutcomes {
  import opened Assembler
  import opened Layout
  import opened LrTables
  import opened LrDriver
  import opened LrExpressions
  import opened LrProgram
  import LrReading
  import opened LrFacts
  import opened LrAutomaton
  import opened LrSoundness
  import opened LrAcceptance
  import opened Wrappers

  // ---------- The driver stops ----------

  /** From c the driver makes progress inside K, a set of configurations with the piles that label their stacks. */
  ghost predicate Proceeds(tb: Parser, K: iset<(Pile, Config)>, p: Pile, c: Config)
    requires Advance(tb, c).Next?
  {
    exists after :: (after, Advance(tb, c).config) in K && Progress(after, Advance(tb, c).config, p, c)
  }

  ghost predicate AllProceed(tb: Parser, K: iset<(Pile, Config)>) {
    forall p, c :: (p, c) in K && Advance(tb, c).Next? ==> Proceeds(tb, K, p, c)
  }

  /** The next step inside K. */
  lemma {:induction false} Proceed(tb: Parser, K: iset<(Pile, Config)>, p: Pile, c: Config) returns (after: Pile)
    requires AllProceed(tb, K) && (p, c) in K && Advance(tb, c).Next?
    ensures (after, Advance(tb, c).config) in K && Progress(after, Advance(tb, c).config, p, c)
  {
    assert Proceeds(tb, K, p, c);
    after :| (after, Advance(tb, c).config) in K && Progress(after, Advance(tb, c).config, p, c);
  }

  /** What is left to do is bounded by the rest of the text and the stack. */
  lemma {:induction false} HaltsFrom(tb: Parser, K: iset<(Pile, Config)>, p: Pile, c: Config) returns (d: Config, n: nat)
    requires AllProceed(tb, K) && (p, c) in K
    ensures Leads(tb, c, d, n) && !Advance(tb, d).Next?
    decreases |c.input|, if p.Bottom? then 1 else 0, Depth(p), if p.On? then Rank(p.part) else 0
  {
    if Advance(tb, c).Next? {
      var after := Proceed(tb, K, p, c);
      d, n := HaltsFrom(tb, K, after, Advance(tb, c).config);
      n := n + 1;
    } else {
      d, n := c, 0;
    }
  }

  lemma {:induction false} InvProceeds(tb: Parser, tokens: seq<Token>, s: State) returns (K: iset<(Pile, Config)>)
    requires Machine(tb) && Scanning(tokens)
    ensures AllProceed(tb, K) && forall p, c :: (p, c) in K <==> Inv(tb, p, tokens, c, s)
  {
    K := iset p, c | Inv(tb, p, tokens, c, s) :: (p, c);
    forall p, c | (p, c) in K && Advance(tb, c).Next? ensures Proceeds(tb, K, p, c) {
      var after := StepInv(tb, p, tokens, c, s);
      assert (after, Advance(tb, c).config) in K;
    }
  }

  /** The driver of the source stops on every text. */
  lemma {:induction false} Halts(tokens: seq<Token>, s: State) returns (d: Config, n: nat)
    requires Scanning(tokens)
    ensures Leads(LALR, Initial(tokens, s), d, n) && !Advance(LALR, d).Next?
  {
    MachineHolds();
    InitialInv(LALR, tokens, s);
    var K := InvProceeds(LALR, tokens, s);
    d, n := HaltsFrom(LALR, K, Bottom, Initial(tokens, s));
  }

  /** It stops in one configuration only. */
  lemma {:induction false} OneEnd(tb: Parser, c: Config, d: Config, e: Config, n: nat, m: nat)
    requires Leads(tb, c, d, n) && Leads(tb, c, e, m) && !Advance(tb, d).Next? && !Advance(tb, e).Next?
    ensures d == e
    decreases n
  {
    if n > 0 && m > 0 {
      OneEnd(tb, Advance(tb, c).config, d, e, n - 1, m - 1);
    }
  }

  // ---------- What can stop a reduction ----------

  /** The driver reduces by rule r in this state. */
  ghost predicate InReduction(tb: Parser, p: Pile, tokens: seq<Token>, c: Config, s: State, r: int) {
    && Inv(tb, p, tokens, c, s) && c.input != [] && StateOf(p) != FINAL
    && tb.decide(StateOf(p), c.input[0].sym) == Reduce(r)
  }

  /** The item that has just been read is one the assembler cannot perform. */
  predicate Blocked(p: Pile, b: Pile, it: SourceItem, asm: State) {
    GroupedItem(it) && TextIn(p) == TextIn(b) + ItemTokens(it) && ItemsIn(p) == ItemsIn(b) && Step(it, asm).None?
  }

  /** The reduction goes through, or an item is blocked. */
  ghost predicate Reduced(tb: Parser, p: Pile, c: Config, r: int) {
    tb.length(r) >= 0 && Deep(p, tb.length(r)) && (Advance(tb, c).Next? || exists b, it :: Blocked(p, b, it, c.asm))
  }

  lemma {:induction false} ValueKnown(tb: Parser, sort: Sort, t: Tree, s: State)
    requires (forall it, a :: ItemActs(tb, it, a)) && WellSorted(sort, t) && Scanned(t)
    ensures Attribute(tb, sort, t, s).Some?
  {
    if sort == Ints {
      IntOfTree(t);
      assert ItemActs(tb, Default(IntOf(t)), s);
    } else {
      FpOfTree(t);
      assert ItemActs(tb, DefaultFp(FpOf(t)), s);
    }
  }

  lemma {:induction false} ExpressionReduced(tb: Parser, p: Pile, tokens: seq<Token>, c: Config, s: State, r: int)
    requires (forall it, a :: ItemActs(tb, it, a)) && InReduction(tb, p, tokens, c, s, r)
    requires ExprStateEnd(StateOf(p)) && ExprReduces(tb, StateOf(p), c.input[0].sym, r)
    ensures Reduced(tb, p, c, r)
  {
    var e, n := MakesExpression(tb, p, c.asm, c.input[0].sym, r);
    ValueKnown(tb, e.sort, e.tree, c.asm);
    FoldStep(tb, p, c, r, n, Nonterminal(e.sort));
  }

  lemma {:induction false} TypeReduced(tb: Parser, p: Pile, tokens: seq<Token>, c: Config, s: State, r: int)
    requires forall k, vals, a :: 8 <= k <= 17 ==> tb.act(k, vals, a) == Some((Kind(TypeOf(k - 8)), a))
    requires InReduction(tb, p, tokens, c, s, r) && TypeEnd(StateOf(p)) && TypeReduces(tb, StateOf(p), r)
    ensures Reduced(tb, p, c, r)
  {
    var t := MakesType(tb, p, c.asm);
    FoldStep(tb, p, c, r, 1, TYPE_NT);
  }

  lemma {:induction false} StructureReduced(tb: Parser, p: Pile, tokens: seq<Token>, c: Config, s: State, r: int)
    requires forall k, vals, a :: 2 <= k <= 7 ==> tb.act(k, vals, a) == Some((Empty, a))
    requires LineRulesAre(tb) && InReduction(tb, p, tokens, c, s, r) && EndsLine(StateOf(p)) && r == LineRule(StateOf(p))
    ensures Reduced(tb, p, c, r)
  {
    var part, n := MakesStructure(tb, p, c.asm);
    FoldStep(tb, p, c, r, n, SymbolOf(part));
  }

  lemma {:induction false} ItemReduced(tb: Parser, p: Pile, tokens: seq<Token>, c: Config, s: State, r: int)
    requires (forall it, a :: ItemActs(tb, it, a)) && InReduction(tb, p, tokens, c, s, r)
    requires EndsItem(StateOf(p)) && ItemReduces(tb, StateOf(p), r)
    ensures Reduced(tb, p, c, r)
  {
    var b, it, v := ItemAt(tb, p, c.asm);
    ItemFolds(tb, p, b, it, v, c.asm, c.asm);
    FoldStep(tb, p, c, r, Symbols(it), ITEM);
    if Step(it, c.asm).None? {
      assert Blocked(p, b, it, c.asm);
    } else {
      assert ItemActs(tb, it, c.asm);
    }
  }

  lemma {:induction false} ReductionEnds(tb: Parser, p: Pile, tokens: seq<Token>, c: Config, s: State, r: int)
    requires Machine(tb) && InReduction(tb, p, tokens, c, s, r) && ReducesIn(tb, StateOf(p), c.input[0].sym, r)
    ensures Reduced(tb, p, c, r)
  {
    if ExprStateEnd(StateOf(p)) {
      ExpressionReduced(tb, p, tokens, c, s, r);
    } else if TypeEnd(StateOf(p)) {
      TypeReduced(tb, p, tokens, c, s, r);
    } else if EndsItem(StateOf(p)) {
      ItemReduced(tb, p, tokens, c, s, r);
    } else {
      StructureReduced(tb, p, tokens, c, s, r);
    }
  }

  // ---------- The three ways to stop ----------

  /** The driver has read a symbol it cannot use. */
  predicate SyntaxError(tb: Parser, d: Config) {
    Top(d.stack) != FINAL && (d.input == [] || tb.decide(Top(d.stack), d.input[0].sym).Error?)
  }

  /** The action of a reduction fails. */
  predicate ItemFails(tb: Parser, d: Config) {
    Top(d.stack) != FINAL && d.input != [] && tb.decide(Top(d.stack), d.input[0].sym).Reduce? && Advance(tb, d) == Reject
  }

  lemma {:induction false} ThreeEnds(tb: Parser, d: Config)
    requires !Advance(tb, d).Next?
    ensures Top(d.stack) == FINAL || SyntaxError(tb, d) || ItemFails(tb, d)
  {
  }

  lemma {:induction false} FailingPile(tb: Parser, p: Pile, tokens: seq<Token>, d: Config, s: State) returns (b: Pile, it: SourceItem)
    requires Machine(tb) && Scanning(tokens) && Inv(tb, p, tokens, d, s) && ItemFails(tb, d)
    ensures Blocked(p, b, it, d.asm)
  {
    NextScanned(tb, p, tokens, d, s);
    var r := tb.decide(StateOf(p), d.input[0].sym).rule;
    ReductionEnds(tb, p, tokens, d, s, r);
    b, it :| Blocked(p, b, it, d.asm);
  }

  /** What makes the driver fail is an item that has just been read and that the assembler cannot perform after those
      before it. */
  lemma {:induction false} FailureIsItem(tokens: seq<Token>, s: State, d: Config)
    returns (before: seq<Token>, done: Items, it: SourceItem)
    requires Scanning(tokens) && Reaches(LALR, Initial(tokens, s), d) && ItemFails(LALR, d)
    ensures tokens == before + ItemTokens(it) + d.input && GroupedItem(it)
    ensures Run(done, s) == Some(d.asm) && Step(it, d.asm).None?
  {
    MachineHolds();
    InitialInv(LALR, tokens, s);
    ReachedKept(LALR, tokens, s, Initial(tokens, s), d);
    var p :| Inv(LALR, p, tokens, d, s);
    var b;
    b, it := FailingPile(LALR, p, tokens, d, s);
    before, done := TextIn(b), ItemsIn(b);
  }

  // ---------- Texts whose items cannot all be performed ----------

  /** The driver gets from c to a reduction that fails. */
  ghost predicate Stops(tb: Parser, c: Config) {
    exists d :: Reaches(tb, c, d) && ItemFails(tb, d)
  }

  lemma {:induction false} StopsBehind(tb: Parser, c: Config, d: Config)
    requires Reaches(tb, c, d) && Stops(tb, d)
    ensures Stops(tb, c)
  {
    var e :| Reaches(tb, d, e) && ItemFails(tb, e);
    forall S: iset<Config> | Closed(tb, S) && c in S ensures e in S {
      assert d in S;
    }
  }

  lemma {:induction false} EndFails(tb: Parser, sh: Shape, c: Config, rest: seq<Token>, v: Value)
    requires ItemFacts(tb, Top(c.stack), sh) && AtItem(sh, c, rest)
    requires tb.act(sh.rule, ShapeValues(sh, v), c.asm).None?
    ensures ItemFails(tb, ItemShifted(tb, sh, c, rest, v))
  {
    EntryValues(tb, Top(c.stack), sh, v);
    EntryTop(tb, c.stack, sh, v);
    ReduceFails(tb, ItemShifted(tb, sh, c, rest, v), c.stack, ItemEntries(tb, Top(c.stack), sh, v), sh.rule);
  }

  lemma {:induction false} ReduceFails(tb: Parser, c: Config, base: seq<Entry>, rhs: seq<Entry>, r: int)
    requires c.stack == base + rhs && tb.length(r) == |rhs|
    requires c.input != [] && Top(c.stack) != FINAL && tb.decide(Top(c.stack), c.input[0].sym) == Reduce(r)
    requires tb.act(r, Values(rhs), c.asm).None?
    ensures ItemFails(tb, c)
  {
    assert c.stack[..|base|] == base && c.stack[|base|..] == rhs;
  }

  lemma {:induction false} ShapeStops(tb: Parser, sh: Shape, c: Config, rest: seq<Token>, v: Value)
    requires ExprFacts(tb) && ItemFacts(tb, Top(c.stack), sh) && AtItem(sh, c, rest)
    requires ArgumentValue(tb, sh.arg, c.asm) == Some(v) && tb.act(sh.rule, ShapeValues(sh, v), c.asm).None?
    ensures Stops(tb, c)
  {
    ShiftAll(tb, c, sh.head, sh.route, ArgumentTokens(sh.arg) + rest);
    ReadArgument(tb, sh, c, rest, v);
    EndFails(tb, sh, c, rest, v);
  }

  lemma {:induction false} ItemStops(tb: Parser, it: SourceItem, c: Config, rest: seq<Token>)
    requires GrammarFacts(tb) && GroupedItem(it) && c.stack != [] && ItemStart(Top(c.stack))
    requires c.input == ItemTokens(it) + rest && rest != [] && EndOfItem(rest[0].sym) && Step(it, c.asm).None?
    ensures Stops(tb, c)
  {
    assert ItemFacts(tb, Top(c.stack), ShapeOf(it)) && ItemActs(tb, it, c.asm);
    AtShape(it, c, rest);
    ShapeStops(tb, ShapeOf(it), c, rest, ArgumentValue(tb, ArgumentOf(it), c.asm).value);
  }

  lemma {:induction false} TailStops(tb: Parser, items: Items, rest: seq<Token>, s: State)
    requires GrammarFacts(tb) && GroupedLine(items) && rest != [] && Run(items, s).None?
    ensures Stops(tb, Config(IN_RUN, TailTokens(items) + rest, s))
    decreases |items|
  {
    var more := TailTokens(items[1..]) + rest;
    var c := Config(IN_RUN, TailTokens(items) + rest, s);
    TailStartsWith(items, rest);
    if Step(items[0], s).None? {
      var d := Config(IN_RUN + [Entry(63, Empty)], ItemTokens(items[0]) + more, s);
      ShiftStep(tb, c, Mark(COMMA), 63);
      assert c.input[1..] == d.input;
      ItemStops(tb, items[0], d, more);
      StopsBehind(tb, c, d);
    } else {
      var next := Step(items[0], s).value;
      ParseNext(tb, items[0], more, s, next);
      TailStops(tb, items[1..], rest, next);
      StopsBehind(tb, c, Config(IN_RUN, more, next));
    }
  }

  lemma {:induction false} LineStops(tb: Parser, items: Items, rest: seq<Token>, s: State)
    requires GrammarFacts(tb) && GroupedLine(items) && rest != [] && Run(items, s).None?
    ensures Stops(tb, Config(LINE_START, LineTokens(items) + rest, s))
  {
    var more := TailTokens(items[1..]) + rest;
    var c := Config(LINE_START, LineTokens(items) + rest, s);
    LineStartsWith(items, rest);
    if Step(items[0], s).None? {
      ItemStops(tb, items[0], c, more);
    } else {
      var next := Step(items[0], s).value;
      ParseFirst(tb, items[0], more, s, next);
      TailStops(tb, items[1..], rest, next);
      StopsBehind(tb, c, Config(IN_RUN, more, next));
    }
  }

  lemma {:induction false} LinesStop(tb: Parser, lines: seq<Items>, rest: seq<Token>, s: State)
    requires GrammarFacts(tb) && GroupedLines(lines) && rest != [] && Run(Flatten(lines), s).None?
    ensures Stops(tb, Config(LINE_START, LinesTokens(lines) + rest, s))
    decreases |lines|
  {
    RunConcat(lines[0], Flatten(lines[1..]), s);
    var c := Config(LINE_START, LinesTokens(lines) + rest, s);
    var more := LinesTokens(lines[1..]) + rest;
    if Run(lines[0], s).None? {
      Together(LineTokens(lines[0]), LinesTokens(lines[1..]), rest);
      LineStops(tb, lines[0], more, s);
    } else {
      var next := Run(lines[0], s).value;
      ParseOneLine(tb, lines, rest, s, next);
      LinesStop(tb, lines[1..], rest, next);
      StopsBehind(tb, c, Config(LINE_START, more, next));
    }
  }

  /** On the text of a program with an item that cannot be performed the driver stops at such an item. */
  lemma {:induction false} ProgramStops(lines: seq<Items>, s: State)
    requires GroupedLines(lines) && Run(Flatten(lines), s).None?
    ensures Stops(LALR, Initial(ProgramTokens(lines), s))
  {
    GrammarHolds();
    OpenProgram(LALR, ProgramTokens(lines), s);
    LinesStop(LALR, lines, [Mark(END)], s);
    StopsBehind(LALR, Initial(ProgramTokens(lines), s), Config(LINE_START, ProgramTokens(lines), s));
  }

  // ---------- The verdict ----------

  /** The tokens of a whole file: its end, and no other, stands at the end. */
  predicate Whole(tokens: seq<Token>) {
    && tokens != [] && tokens[|tokens| - 1] == Mark(END)
    && forall k :: 0 <= k < |tokens| - 1 ==> tokens[k].sym != END
  }

  ghost predicate IsText(tokens: seq<Token>) {
    exists lines :: GroupedLines(lines) && tokens == ProgramTokens(lines)
  }

  /** On the text of a program the driver stops in the accepting configuration or at an item. */
  lemma {:induction false} TextEnds(lines: seq<Items>, s: State, d: Config, n: nat)
    requires GroupedLines(lines) && Leads(LALR, Initial(ProgramTokens(lines), s), d, n) && !Advance(LALR, d).Next?
    ensures Run(Flatten(lines), s).Some? ==> d == Final(Run(Flatten(lines), s).value)
    ensures Run(Flatten(lines), s).None? ==> ItemFails(LALR, d)
  {
    var c := Initial(ProgramTokens(lines), s);
    if Run(Flatten(lines), s).Some? {
      var t := Run(Flatten(lines), s).value;
      SourceParses(lines, s, t);
      var m := StepsTo(LALR, c, Final(t));
      OneEnd(LALR, c, d, Final(t), n, m);
    } else {
      ProgramStops(lines, s);
      var e :| Reaches(LALR, c, e) && ItemFails(LALR, e);
      var m := StepsTo(LALR, c, e);
      OneEnd(LALR, c, d, e, n, m);
    }
  }

  lemma {:induction false} LeadsReach(tb: Parser, c: Config, d: Config, n: nat)
    requires Leads(tb, c, d, n)
    ensures Reaches(tb, c, d)
    decreases n
  {
    if n > 0 {
      LeadsReach(tb, Advance(tb, c).config, d, n - 1);
    }
  }

  lemma {:induction false} NothingBehindEnd(tokens: seq<Token>, lines: seq<Items>, rest: seq<Token>)
    requires Whole(tokens) && tokens == ProgramTokens(lines) + rest
    ensures rest == [] && tokens == ProgramTokens(lines)
  {
    assert tokens[|LinesTokens(lines)|] == Mark(END);
  }

  /** Every file is either accepted, and then it is the text of a program and its items have been performed; or refused
      for its syntax, and then it is not; or it has an item that cannot be performed. */
  lemma {:induction false} Verdict(tokens: seq<Token>, s: State, d: Config, n: nat)
    requires Scanning(tokens) && Whole(tokens)
    requires Leads(LALR, Initial(tokens, s), d, n) && !Advance(LALR, d).Next?
    ensures Top(d.stack) == FINAL <==> IsProgram(tokens, s, d.asm) && d == Final(d.asm)
    ensures SyntaxError(LALR, d) ==> !IsText(tokens)
    ensures Top(d.stack) == FINAL || SyntaxError(LALR, d) || ItemFails(LALR, d)
  {
    ThreeEnds(LALR, d);
    if Top(d.stack) == FINAL {
      LeadsReach(LALR, Initial(tokens, s), d, n);
      var lines := AcceptedIsProgram(tokens, s, d);
      NothingBehindEnd(tokens, lines, d.input);
      TextEnds(lines, s, d, n);
    }
    if SyntaxError(LALR, d) && IsText(tokens) {
      var lines :| GroupedLines(lines) && tokens == ProgramTokens(lines);
      TextEnds(lines, s, d, n);
    }
  }

  // ---------- The driver under way ----------

  /** No item that the driver comes to fails. */
  ghost predicate Harmless(tb: Parser, tokens: seq<Token>, s: State) {
    forall d :: Reaches(tb, Initial(tokens, s), d) ==> !ItemFails(tb, d)
  }

  /** The driver, started in state s, has got as far as c, whose stack p labels. */
  ghost predicate Underway(tb: Parser, p: Pile, tokens: seq<Token>, c: Config, s: State) {
    && Inv(tb, p, tokens, c, s) && Reaches(tb, Initial(tokens, s), c)
    && (c.input == [] ==> Top(c.stack) == FINAL)
  }

  lemma {:induction false} SetOut(tb: Parser, tokens: seq<Token>, s: State)
    requires tokens != []
    ensures Underway(tb, Bottom, tokens, Initial(tokens, s), s)
  {
    InitialInv(tb, tokens, s);
  }

  lemma {:induction false} ReachesNext(tb: Parser, c: Config, d: Config)
    requires Reaches(tb, c, d) && Advance(tb, d).Next?
    ensures Reaches(tb, c, Advance(tb, d).config)
  {
    forall S: iset<Config> | Closed(tb, S) && c in S ensures Advance(tb, d).config in S {
      assert d in S;
    }
  }

  /** The end is shifted to the accepting state only. */
  lemma {:induction false} EndAccepts(q: int, next: int)
    requires Edge(q, END, next)
    ensures next == FINAL
  {
  }

  lemma {:induction false} LastToken(text: seq<Token>, input: seq<Token>, tokens: seq<Token>)
    requires Whole(tokens) && text + input == tokens && input != [] && input[1..] == []
    ensures input[0].sym == END
  {
    assert input == [input[0]];
    assert tokens[|tokens| - 1] == input[0];
  }

  lemma {:induction false} ShiftedEnd(tb: Parser, p: Pile, tokens: seq<Token>, c: Config, s: State, q: int)
    requires ShiftsAreEdges(tb) && Scanning(tokens) && Whole(tokens) && Inv(tb, p, tokens, c, s)
    requires c.input != [] && tb.decide(Top(c.stack), c.input[0].sym) == Shift(q) && c.input[1..] == []
    ensures q == FINAL
  {
    NextScanned(tb, p, tokens, c, s);
    LastToken(TextIn(p), c.input, tokens);
    EndAccepts(StateOf(p), q);
  }

  /** One step further. */
  lemma {:induction false} GoesOn(tb: Parser, p: Pile, tokens: seq<Token>, c: Config, s: State) returns (after: Pile)
    requires Machine(tb) && Scanning(tokens) && Whole(tokens) && Underway(tb, p, tokens, c, s) && Advance(tb, c).Next?
    ensures Underway(tb, after, tokens, Advance(tb, c).config, s) && Progress(after, Advance(tb, c).config, p, c)
  {
    after := StepInv(tb, p, tokens, c, s);
    ReachesNext(tb, Initial(tokens, s), c);
    if Advance(tb, c).config.input == [] {
      LastStep(tb, p, tokens, c, s);
    }
  }

  lemma {:induction false} LastStep(tb: Parser, p: Pile, tokens: seq<Token>, c: Config, s: State)
    requires ShiftsAreEdges(tb) && Scanning(tokens) && Whole(tokens) && Inv(tb, p, tokens, c, s)
    requires Advance(tb, c).Next? && c.input != [] && Advance(tb, c).config.input == []
    ensures Top(Advance(tb, c).config.stack) == FINAL
  {
    if tb.decide(Top(c.stack), c.input[0].sym).Shift? {
      ShiftedEnd(tb, p, tokens, c, s, tb.decide(Top(c.stack), c.input[0].sym).state);
    }
  }

  /** From here no reduction fails, and the input does not run out. */
  predicate Smooth(tb: Parser, c: Config) {
    !ItemFails(tb, c) && (c.input == [] ==> Top(c.stack) == FINAL)
  }

  /** A set of configurations that the driver does not leave. */
  ghost predicate Smoothly(tb: Parser, K: iset<(Pile, Config)>) {
    AllProceed(tb, K) && forall p, c :: (p, c) in K ==> Smooth(tb, c)
  }

  /** Where the driver shifts inside K. */
  lemma {:induction false} ShiftsSmoothly(tb: Parser, K: iset<(Pile, Config)>, p: Pile, c: Config, q: int) returns (after: Pile)
    requires Smoothly(tb, K) && (p, c) in K && Top(c.stack) != FINAL && c.input != []
    requires tb.decide(Top(c.stack), c.input[0].sym) == Shift(q)
    ensures (after, Config(c.stack + [Entry(q, c.input[0].value)], c.input[1..], c.asm)) in K
  {
    ShiftNext(tb, c, q);
    after := Proceed(tb, K, p, c);
  }

  lemma {:induction false} ReductionGoes(tb: Parser, c: Config, r: int)
    requires ReduceBy(tb, r, c) != Reject
    ensures ReduceBy(tb, r, c).Next? && 1 <= |c.stack| - tb.length(r) <= |c.stack|
    ensures tb.act(r, Values(c.stack[|c.stack| - tb.length(r)..]), c.asm).Some?
  {
  }

  lemma {:induction false} AdvanceReduces(tb: Parser, c: Config, r: int)
    requires Top(c.stack) != FINAL && c.input != [] && tb.decide(Top(c.stack), c.input[0].sym) == Reduce(r)
    ensures Advance(tb, c) == ReduceBy(tb, r, c)
  {
  }

  /** Where the driver reduces inside K: the reduction goes through. */
  lemma {:induction false} ReducesSmoothly(tb: Parser, K: iset<(Pile, Config)>, p: Pile, c: Config, r: int)
    returns (after: Pile, d: Config)
    requires Smoothly(tb, K) && (p, c) in K && Top(c.stack) != FINAL && c.input != []
    requires tb.decide(Top(c.stack), c.input[0].sym) == Reduce(r)
    ensures (after, d) in K && Nearer(after, p) && ReduceBy(tb, r, c) == Next(d)
    ensures 1 <= |c.stack| - tb.length(r) <= |c.stack|
    ensures tb.act(r, Values(c.stack[|c.stack| - tb.length(r)..]), c.asm).Some?
  {
    AdvanceReduces(tb, c, r);
    assert Smooth(tb, c);
    ReductionGoes(tb, c, r);
    d := Advance(tb, c).config;
    after := Proceed(tb, K, p, c);
  }

  lemma {:induction false} RunsSmoothly(tb: Parser, tokens: seq<Token>, s: State) returns (K: iset<(Pile, Config)>)
    requires Machine(tb) && Scanning(tokens) && Whole(tokens) && Harmless(tb, tokens, s)
    ensures Smoothly(tb, K) && (Bottom, Initial(tokens, s)) in K
    ensures forall p, c :: (p, c) in K ==> Reaches(tb, Initial(tokens, s), c)
  {
    K := iset p, c | Underway(tb, p, tokens, c, s) :: (p, c);
    forall p, c | (p, c) in K && Advance(tb, c).Next? ensures Proceeds(tb, K, p, c) {
      var after := GoesOn(tb, p, tokens, c, s);
      assert (after, Advance(tb, c).config) in K;
    }
    SetOut(tb, tokens, s);
  }

  lemma {:induction false} OneAssembly(tokens: seq<Token>, counted: State, end: State)
    requires IsProgram(tokens, FRESH, counted) && IsProgram(tokens, Rewind(counted), end)
    ensures forall lines :: GroupedLines(lines) && tokens == ProgramTokens(lines) ==> Assemble(Flatten(lines)) == Some(end)
  {
    var first :| GroupedLines(first) && tokens == ProgramTokens(first) && Run(Flatten(first), FRESH) == Some(counted);
    var second :| GroupedLines(second) && tokens == ProgramTokens(second) && Run(Flatten(second), Rewind(counted)) == Some(end);
    LrReading.OneProgram(first, second);
    forall lines | GroupedLines(lines) && tokens == ProgramTokens(lines) ensures Assemble(Flatten(lines)) == Some(end) {
      LrReading.OneProgram(first, lines);
    }
  }

  /** On the text of a program nothing fails if and only if all its items can be performed, one after the other. */
  lemma {:induction false} HarmlessExactly(lines: seq<Items>, s: State)
    requires GroupedLines(lines)
    ensures Harmless(LALR, ProgramTokens(lines), s) <==> Run(Flatten(lines), s).Some?
  {
    var c := Initial(ProgramTokens(lines), s);
    if Run(Flatten(lines), s).None? {
      ProgramStops(lines, s);
    } else {
      forall d | Reaches(LALR, c, d) ensures !ItemFails(LALR, d) {
        var n := StepsTo(LALR, c, d);
        if ItemFails(LALR, d) {
          TextEnds(lines, s, d, n);
        }
      }
    }
  }

  /** However the driver stops, it has performed a run of items. */
  lemma {:induction false} ItemsPerformed(tokens: seq<Token>, s: State, d: Config) returns (done: Items)
    requires Scanning(tokens) && Reaches(LALR, Initial(tokens, s), d)
    ensures Run(done, s) == Some(d.asm)
  {
    MachineHolds();
    InitialInv(LALR, tokens, s);
    ReachedKept(LALR, tokens, s, Initial(tokens, s), d);
    var p :| Inv(LALR, p, tokens, d, s);
    done := ItemsIn(p);
  }

  /** What the first pass writes, however far it gets. */
  lemma {:induction false} FirstPassSilent(done: Items)
    requires Run(done, FRESH).Some?
    ensures Run(done, FRESH).value.out == [] && Run(done, FRESH).value.pass == 0
  {
    OutputIsListing(done, FRESH);
  }
}

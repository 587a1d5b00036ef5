/** The automaton behind the tables: which symbol leads from which state to which, and where each state reduces. */
module LrAutomaton {
  import opened LrTables
  import opened LrDriver
  import opened LrExpressions
  import opened LrFacts

  // ---------- Transitions ----------

  /** States with a whole integer expression on top, but behind no operator. */
  predicate IntEnd(q: int) {
    q == 23 || 29 <= q <= 32 || q == 44 || q == 45 || q == 60 || q == 71 || 93 <= q <= 101
  }

  predicate FpEnd(q: int) {
    q == 24 || q == 61 || q == 102 || q == 103
  }

  /** The transitions, by the state they lead to. */
  predicate Edge(q: int, sym: int, next: int) {
    if next < 24 then Edge0(q, sym, next)
    else if next < 49 then Edge1(q, sym, next)
    else if next < 73 then Edge2(q, sym, next)
    else Edge3(q, sym, next)
  }

  predicate Edge0(q: int, sym: int, next: int) {
    match next
    case 1 => sym == INPUT && q == 0
    case 2 => sym == END && q == 1
    case 3 => sym == INTNUM && Start(Ints, q)
    case 4 => sym == FPNUM && Start(Floats, q)
    case 16 => sym == MINUS && Start(Floats, q)
    case 17 => sym == STAR && ItemStart(q)
    case 18 => sym == OPEN && ItemStart(q)
    case 19 => sym == NEW_LINE && q == 1
    case 20 => sym == LINE && q == 1
    case 21 => sym == RUN && q == 1
    case 22 => sym == ITEM && q == 1
    case 23 => sym == INTEXP && ItemStart(q)
    case _ => 5 <= next <= 15 && sym == next && ItemStart(q)
  }

  predicate Edge1(q: int, sym: int, next: int) {
    match next
    case 24 => sym == FPEXP && ItemStart(q)
    case 25 => sym == EQUALS && q == 6
    case 26 => sym == COLON && q == 6
    case 27 => sym == IDENTIFIER && Start(Ints, q) && !ItemStart(q)
    case 28 => sym == OPEN && Start(Ints, q) && !ItemStart(q) && !MixedOpen(q)
    case 29 => sym == INTEXP && q == 7
    case 30 => sym == INTEXP && q == 8
    case 31 => sym == INTEXP && q == 11
    case 32 => sym == INTEXP && q == 12
    case 43 => sym == TYPE_NT && q == 13
    case 44 => sym == INTEXP && q == 14
    case 45 => sym == INTEXP && q == 15
    case 46 => sym == OPEN && Start(Floats, q) && !ItemStart(q) && !MixedOpen(q)
    case 47 => sym == FPEXP && q == 16
    case 48 => sym == IDENTIFIER && q == 17
    case _ => 33 <= next <= 42 && sym == next - 17 && q == 13
  }

  predicate Edge2(q: int, sym: int, next: int) {
    match next
    case 59 => sym == OPEN && MixedOpen(q)
    case 60 => sym == INTEXP && Opens(Ints, q)
    case 61 => sym == FPEXP && Opens(Floats, q)
    case 62 => sym == NEW_LINE && q == 21
    case 63 => sym == COMMA && q == 21
    case 64 => sym == MINUS && IntEnd(q)
    case 65 => sym == PLUS && IntEnd(q)
    case 66 => sym == BAR && (IntEnd(q) || q == 86 || q == 87)
    case 67 => sym == MINUS && FpEnd(q)
    case 68 => sym == PLUS && FpEnd(q)
    case 69 => sym == STAR && (FpEnd(q) || q == 89 || q == 90)
    case 70 => sym == SLASH && (FpEnd(q) || q == 89 || q == 90)
    case 71 => sym == INTEXP && q == 25
    case 72 => sym == STAR && q == 48
    case _ => 49 <= next <= 58 && sym == next - 33 && q == 18
  }

  predicate Edge3(q: int, sym: int, next: int) {
    if 73 <= next <= 82 then sym == CLOSE && q == next - 24
    else if 86 <= next <= 88 then sym == INTEXP && q == next - 22
    else if 89 <= next <= 92 then sym == FPEXP && q == next - 22
    else if 93 <= next <= 101 then sym == INTEXP && q == next - 21
    else if 102 <= next <= 103 then sym == FPEXP && q == next - 21
    else match next
      case 83 => sym == CLOSE && q == 60
      case 84 => sym == CLOSE && q == 61
      case 85 => sym == ITEM && q == 63
      case _ => false
  }

  predicate Terminal(sym: int) {
    0 <= sym <= 37
  }

  // ---------- Shifts ----------

  /** What the driver shifts, row by row. */
  lemma {:induction false} IntRowShifts(q: int, sym: int)
    requires Pact(q) == 2 && Terminal(sym) && Decide(q, sym).Shift?
    ensures (sym == INTNUM && Decide(q, sym) == Shift(3)) || (sym == IDENTIFIER && Decide(q, sym) == Shift(27))
      || (sym == OPEN && Decide(q, sym) == Shift(28))
  {
  }

  lemma {:induction false} FpRowShifts(q: int, sym: int)
    requires Pact(q) == -3 && Terminal(sym) && Decide(q, sym).Shift?
    ensures (sym == FPNUM && Decide(q, sym) == Shift(4)) || (sym == MINUS && Decide(q, sym) == Shift(16))
      || (sym == OPEN && Decide(q, sym) == Shift(46))
  {
  }

  lemma {:induction false} OuterParenShifts(sym: int)
    requires Terminal(sym) && Decide(18, sym).Shift? && !(U8_NAME <= sym <= U8_NAME + 9)
    ensures (sym == INTNUM && Decide(18, sym) == Shift(3)) || (sym == IDENTIFIER && Decide(18, sym) == Shift(27))
      || (sym == FPNUM && Decide(18, sym) == Shift(4)) || (sym == MINUS && Decide(18, sym) == Shift(16))
      || (sym == OPEN && Decide(18, sym) == Shift(59))
  {
    assert Pact(18) == 112;
  }

  lemma {:induction false} InnerParenShifts(sym: int)
    requires Terminal(sym) && Decide(59, sym).Shift? && !(U8_NAME <= sym <= U8_NAME + 9)
    ensures (sym == INTNUM && Decide(59, sym) == Shift(3)) || (sym == IDENTIFIER && Decide(59, sym) == Shift(27))
      || (sym == FPNUM && Decide(59, sym) == Shift(4)) || (sym == MINUS && Decide(59, sym) == Shift(16))
      || (sym == OPEN && Decide(59, sym) == Shift(59))
  {
    assert Pact(59) == 0;
  }

  lemma {:induction false} TypeRowShifts(q: int, sym: int)
    requires (q == 18 || q == 59 || q == 13) && U8_NAME <= sym <= U8_NAME + 9 && Decide(q, sym).Shift?
    ensures (q == 18 && Decide(q, sym) == Shift(sym + 33)) || (q == 13 && Decide(q, sym) == Shift(sym + 17))
  {
    assert Pact(18) == 112 && Pact(59) == 0 && Pact(13) == 128;
  }

  lemma {:induction false} TypeRowOnly(sym: int)
    requires Terminal(sym) && Decide(13, sym).Shift?
    ensures U8_NAME <= sym <= U8_NAME + 9
  {
    assert Pact(13) == 128;
  }

  lemma {:induction false} IntOpShifts(q: int, sym: int)
    requires Pact(q) == -17 && Terminal(sym) && Decide(q, sym).Shift?
    ensures (sym == MINUS && Decide(q, sym) == Shift(64)) || (sym == PLUS && Decide(q, sym) == Shift(65))
      || (sym == BAR && Decide(q, sym) == Shift(66))
  {
  }

  lemma {:induction false} FpOpShifts(q: int, sym: int)
    requires Pact(q) == 113 && Terminal(sym) && Decide(q, sym).Shift?
    ensures (sym == MINUS && Decide(q, sym) == Shift(67)) || (sym == PLUS && Decide(q, sym) == Shift(68))
      || (sym == STAR && Decide(q, sym) == Shift(69)) || (sym == SLASH && Decide(q, sym) == Shift(70))
  {
  }

  lemma {:induction false} TighterShifts(q: int, sym: int)
    requires (Pact(q) == -16 || Pact(q) == 25) && Terminal(sym) && Decide(q, sym).Shift?
    ensures Pact(q) == -16 ==> sym == BAR && Decide(q, sym) == Shift(66)
    ensures Pact(q) == 25 ==>
      (sym == STAR && Decide(q, sym) == Shift(69)) || (sym == SLASH && Decide(q, sym) == Shift(70))
  {
  }

  lemma {:induction false} IntCloseShifts(sym: int)
    requires Terminal(sym) && Decide(60, sym).Shift?
    ensures (sym == MINUS && Decide(60, sym) == Shift(64)) || (sym == PLUS && Decide(60, sym) == Shift(65))
      || (sym == BAR && Decide(60, sym) == Shift(66)) || (sym == CLOSE && Decide(60, sym) == Shift(83))
  {
    assert Pact(60) == 81;
  }

  lemma {:induction false} FpCloseShifts(sym: int)
    requires Terminal(sym) && Decide(61, sym).Shift?
    ensures (sym == MINUS && Decide(61, sym) == Shift(67)) || (sym == PLUS && Decide(61, sym) == Shift(68))
      || (sym == STAR && Decide(61, sym) == Shift(69)) || (sym == SLASH && Decide(61, sym) == Shift(70))
      || (sym == CLOSE && Decide(61, sym) == Shift(84))
  {
    assert Pact(61) == 23;
  }

  lemma {:induction false} FirstItemShifts(sym: int)
    requires Terminal(sym) && Decide(1, sym).Shift?
    ensures (3 <= sym <= 15 && Decide(1, sym) == Shift(sym)) || (sym == END && Decide(1, sym) == Shift(FINAL))
      || (sym == MINUS && Decide(1, sym) == Shift(16)) || (sym == STAR && Decide(1, sym) == Shift(17))
      || (sym == OPEN && Decide(1, sym) == Shift(18)) || (sym == NEW_LINE && Decide(1, sym) == Shift(19))
  {
    assert Pact(1) == 91;
  }

  lemma {:induction false} NextItemShifts(sym: int)
    requires Terminal(sym) && Decide(63, sym).Shift?
    ensures (3 <= sym <= 15 && Decide(63, sym) == Shift(sym))
      || (sym == MINUS && Decide(63, sym) == Shift(16)) || (sym == STAR && Decide(63, sym) == Shift(17))
      || (sym == OPEN && Decide(63, sym) == Shift(18))
  {
    assert Pact(63) == 33;
  }

  lemma {:induction false} NameShifts(q: int, sym: int)
    requires (q == 6 || q == 17 || q == 48 || q == 21) && Terminal(sym) && Decide(q, sym).Shift?
    ensures q == 6 ==> (sym == EQUALS && Decide(q, sym) == Shift(25)) || (sym == COLON && Decide(q, sym) == Shift(26))
    ensures q == 17 ==> sym == IDENTIFIER && Decide(q, sym) == Shift(48)
    ensures q == 48 ==> sym == STAR && Decide(q, sym) == Shift(72)
    ensures q == 21 ==> (sym == NEW_LINE && Decide(q, sym) == Shift(62)) || (sym == COMMA && Decide(q, sym) == Shift(63))
  {
    assert Pact(6) == -18 && Pact(17) == -4 && Pact(48) == -21 && Pact(21) == -6;
  }

  lemma {:induction false} ClosedTypeShiftsLow(q: int, sym: int)
    requires 49 <= q <= 53 && Terminal(sym) && Decide(q, sym).Shift?
    ensures sym == CLOSE && Decide(q, sym) == Shift(q + 24)
  {
    assert Pact(49) == -20 && Pact(50) == -12 && Pact(51) == -5 && Pact(52) == 24 && Pact(53) == 26;
  }

  lemma {:induction false} ClosedTypeShiftsHigh(q: int, sym: int)
    requires 54 <= q <= 58 && Terminal(sym) && Decide(q, sym).Shift?
    ensures sym == CLOSE && Decide(q, sym) == Shift(q + 24)
  {
    assert Pact(54) == 28 && Pact(55) == 31 && Pact(56) == 38 && Pact(57) == 39 && Pact(58) == 40;
  }

  lemma {:induction false} RowKindsLow(q: int)
    requires 0 <= q < 64 && Pact(q) != -32
    ensures Pact(q) == 2 || Pact(q) == -3 || Pact(q) == -17 || Pact(q) == 113
      || q in {1, 6, 13, 17, 18, 21, 48, 59, 60, 61, 63} || 49 <= q <= 58
    ensures Pact(q) == 2 ==> Start(Ints, q) && !ItemStart(q) && !MixedOpen(q)
    ensures Pact(q) == -3 ==> Start(Floats, q) && !ItemStart(q) && !MixedOpen(q)
    ensures Pact(q) == -17 ==> IntEnd(q)
    ensures Pact(q) == 113 ==> FpEnd(q)
  {
  }

  lemma {:induction false} RowKindsHigh(q: int)
    requires 64 <= q <= 103 && Pact(q) != -32
    ensures Pact(q) == 2 || Pact(q) == -3 || Pact(q) == -17 || Pact(q) == 113 || Pact(q) == -16 || Pact(q) == 25
    ensures Pact(q) == 2 ==> Start(Ints, q) && !ItemStart(q) && !MixedOpen(q)
    ensures Pact(q) == -3 ==> Start(Floats, q) && !ItemStart(q) && !MixedOpen(q)
    ensures Pact(q) == -17 ==> IntEnd(q)
    ensures Pact(q) == 113 ==> FpEnd(q)
    ensures Pact(q) == -16 ==> q == 86 || q == 87
    ensures Pact(q) == 25 ==> q == 89 || q == 90
  {
  }

  lemma {:induction false} RowKinds(q: int)
    requires 0 <= q <= 103 && Pact(q) != -32
    ensures Pact(q) == 2 || Pact(q) == -3 || Pact(q) == -17 || Pact(q) == 113 || Pact(q) == -16 || Pact(q) == 25
      || q in {1, 6, 13, 17, 18, 21, 48, 59, 60, 61, 63} || 49 <= q <= 58
    ensures Pact(q) == 2 ==> Start(Ints, q) && !ItemStart(q) && !MixedOpen(q)
    ensures Pact(q) == -3 ==> Start(Floats, q) && !ItemStart(q) && !MixedOpen(q)
    ensures Pact(q) == -17 ==> IntEnd(q)
    ensures Pact(q) == 113 ==> FpEnd(q)
    ensures Pact(q) == -16 ==> q == 86 || q == 87
    ensures Pact(q) == 25 ==> q == 89 || q == 90
  {
    if q < 64 {
      RowKindsLow(q);
    } else {
      RowKindsHigh(q);
    }
  }

  lemma {:induction false} ShiftNeedsRow(q: int, sym: int)
    requires Decide(q, sym).Shift?
    ensures Pact(q) != -32
  {
  }

  /** Every shift of the tables is a transition of the automaton. */
  lemma {:induction false} ShiftEdge(q: int, sym: int, next: int)
    requires 0 <= q <= 103 && Terminal(sym) && Decide(q, sym) == Shift(next)
    ensures Edge(q, sym, next)
  {
    ShiftNeedsRow(q, sym);
    RowKinds(q);
    if Pact(q) == 2 {
      IntRowShifts(q, sym);
    } else if Pact(q) == -3 {
      FpRowShifts(q, sym);
    } else if Pact(q) == -17 {
      IntOpShifts(q, sym);
    } else if Pact(q) == 113 {
      FpOpShifts(q, sym);
    } else if Pact(q) == -16 || Pact(q) == 25 {
      TighterShifts(q, sym);
    } else if 49 <= q <= 53 {
      ClosedTypeShiftsLow(q, sym);
    } else if 54 <= q <= 58 {
      ClosedTypeShiftsHigh(q, sym);
    } else {
      SpecialEdge(q, sym, next);
    }
  }

  /** The states with a row of their own. */
  lemma {:induction false} SpecialEdge(q: int, sym: int, next: int)
    requires q in {1, 6, 13, 17, 18, 21, 48, 59, 60, 61, 63} && Terminal(sym) && Decide(q, sym) == Shift(next)
    ensures Edge(q, sym, next)
  {
    if q == 1 {
      FirstItemShifts(sym);
    } else if q == 63 {
      NextItemShifts(sym);
    } else if q == 60 {
      IntCloseShifts(sym);
    } else if q == 61 {
      FpCloseShifts(sym);
    } else if q == 13 {
      TypeRowOnly(sym);
      TypeRowShifts(q, sym);
    } else if MixedOpen(q) && U8_NAME <= sym <= U8_NAME + 9 {
      TypeRowShifts(q, sym);
    } else if q == 18 {
      OuterParenShifts(sym);
    } else if q == 59 {
      InnerParenShifts(sym);
    } else {
      NameShifts(q, sym);
    }
  }

  // ---------- Reductions ----------

  lemma {:induction false} EntriesPositive(k: int)
    requires 0 <= k <= 153 && Check(k) >= 0
    ensures Table(k) > 0
  {
    if k < 32 {
      assert Table0(k) > 0;
    } else if k < 64 {
      assert Table1(k) > 0;
    } else if k < 96 {
      assert Table2(k) > 0;
    } else if k < 128 {
      assert Table3(k) > 0;
    }
  }

  /** The tables reduce by default only. */
  lemma {:induction false} ReducesByDefault(q: int, f: int, r: int)
    requires Terminal(f) && Decide(q, f) == Reduce(r)
    ensures r == Defact(q) > 0
  {
    var k := Pact(q) + f;
    if Pact(q) != -32 && 0 <= k <= 153 && Check(k) == f {
      EntriesPositive(k);
    }
  }

  // ---------- Nonterminals ----------

  lemma {:induction false} BehindEdge(sort: Sort, q: int)
    requires Start(sort, q)
    ensures Edge(q, Nonterminal(sort), Goto(q, Nonterminal(sort)))
  {
    if sort == Ints {
      IntGotos(q);
    } else {
      FpGotos(q);
    }
  }

  lemma {:induction false} TypeGoto()
    ensures Goto(13, TYPE_NT) == 43
  {
  }
}

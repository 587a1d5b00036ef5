/** The LALR(1) tables of the generated parser and the decisions they encode. */
module LrTables {

  /** yypact_: where the row of a state starts in the action table; -32 stands for a state that needs no lookahead. */
  function Pact(i: int): int {
    if i < 32 then Pact0(i)
    else if i < 64 then Pact1(i)
    else if i < 96 then Pact2(i)
    else Pact3(i)
  }

  function Pact0(i: int): int {
    match i
    case 1 => 91 case 6 => -18 case 7 => 2 case 8 => 2 case 11 => 2 case 12 => 2 case 13 => 128 case 14 => 2
    case 15 => 2 case 16 => -3 case 17 => -4 case 18 => 112 case 21 => -6 case 23 => -17 case 24 => 113
    case 25 => 2 case 28 => 2 case 29 => -17 case 30 => -17 case 31 => -17
    case _ => -32
  }

  function Pact1(i: int): int {
    match i
    case 32 => -17 case 44 => -17 case 45 => -17 case 46 => -3 case 48 => -21 case 49 => -20 case 50 => -12
    case 51 => -5 case 52 => 24 case 53 => 26 case 54 => 28 case 55 => 31 case 56 => 38 case 57 => 39
    case 58 => 40 case 59 => 0 case 60 => 81 case 61 => 23 case 63 => 33
    case _ => -32
  }

  function Pact2(i: int): int {
    match i
    case 64 => 2 case 65 => 2 case 66 => 2 case 67 => -3 case 68 => -3 case 69 => -3 case 70 => -3
    case 71 => -17 case 72 => 2 case 73 => 2 case 74 => 2 case 75 => 2 case 76 => 2 case 77 => 2 case 78 => 2
    case 79 => 2 case 80 => 2 case 81 => -3 case 82 => -3 case 86 => -16 case 87 => -16 case 89 => 25
    case 90 => 25 case 93 => -17 case 94 => -17 case 95 => -17
    case _ => -32
  }

  function Pact3(i: int): int {
    match i
    case 96 => -17 case 97 => -17 case 98 => -17 case 99 => -17 case 100 => -17 case 101 => -17 case 102 => 113
    case 103 => 113
    case _ => -32
  }

  /** yydefact_: the rule a state reduces by default; 0 is an error. */
  function Defact(i: int): int {
    if i < 32 then Defact0(i)
    else if i < 64 then Defact1(i)
    else if i < 96 then Defact2(i)
    else Defact3(i)
  }

  function Defact0(i: int): int {
    match i
    case 0 => 2 case 2 => 1 case 3 => 43 case 4 => 49 case 5 => 30 case 6 => 48 case 9 => 38 case 10 => 39
    case 19 => 4 case 20 => 3 case 22 => 6 case 23 => 28 case 24 => 29 case 26 => 41 case 27 => 48 case 29 => 31
    case 30 => 32 case 31 => 35
    case _ => 0
  }

  function Defact1(i: int): int {
    match i
    case 32 => 36 case 33 => 8 case 34 => 9 case 35 => 10 case 36 => 11 case 37 => 12 case 38 => 13
    case 39 => 14 case 40 => 15 case 41 => 16 case 42 => 17 case 43 => 37 case 44 => 33 case 45 => 34
    case 47 => 54 case 62 => 5
    case _ => 0
  }

  function Defact2(i: int): int {
    match i
    case 71 => 42 case 83 => 46 case 84 => 55 case 85 => 7 case 86 => 44 case 87 => 45 case 88 => 47
    case 89 => 51 case 90 => 50 case 91 => 52 case 92 => 53 case 93 => 40 case 94 => 18 case 95 => 19
    case _ => 0
  }

  function Defact3(i: int): int {
    match i
    case 96 => 20 case 97 => 21 case 98 => 22 case 99 => 23 case 100 => 24 case 101 => 25 case 102 => 26
    case 103 => 27
    case _ => 0
  }

  /** yypgoto_: where the column of a nonterminal starts in the action table. */
  function Pgoto(i: int): int {
    match i
    case 5 => -31 case 6 => 10 case 7 => -1
    case _ => -32
  }

  /** yydefgoto_: the usual state behind a nonterminal. */
  function Defgoto(i: int): int {
    match i
    case 1 => 1 case 2 => 20 case 3 => 21 case 4 => 43 case 5 => 22 case 6 => 60 case 7 => 61
    case _ => -1
  }

  /** yytable_: a state to shift to, or a rule to reduce by when not positive. */
  function Table(i: int): int {
    if i < 32 then Table0(i)
    else if i < 64 then Table1(i)
    else if i < 96 then Table2(i)
    else if i < 128 then Table3(i)
    else Table4(i)
  }

  function Table0(i: int): int {
    match i
    case 0 => 24 case 1 => 4 case 2 => 48 case 3 => 3 case 4 => 4 case 5 => 3 case 6 => 27 case 7 => 72
    case 8 => 27 case 9 => 64 case 10 => 65 case 11 => 23 case 12 => 73 case 13 => 66 case 14 => 66
    case 15 => 47 case 16 => 25 case 17 => 29 case 18 => 30 case 19 => 26 case 20 => 74 case 21 => 31
    case 22 => 32 case 23 => 16 case 24 => 44 case 25 => 45 case 26 => 16 case 27 => 75 case 28 => 46
    case 29 => 62 case 30 => 63 case 31 => 59
    case _ => 0
  }

  function Table1(i: int): int {
    match i
    case 32 => 85 case 33 => 28 case 35 => 71 case 36 => 3 case 37 => 4 case 38 => 5 case 39 => 6 case 40 => 7
    case 41 => 8 case 42 => 9 case 43 => 10 case 44 => 11 case 45 => 12 case 46 => 13 case 47 => 14
    case 48 => 15 case 49 => 67 case 50 => 68 case 51 => 69 case 52 => 70 case 53 => 69 case 54 => 70
    case 55 => 84 case 56 => 76 case 58 => 77 case 59 => 16 case 60 => 78 case 61 => 17 case 62 => 24
    case 63 => 79
    case _ => 0
  }

  function Table2(i: int): int {
    match i
    case 64 => 18 case 66 => 89 case 67 => 90 case 68 => 91 case 69 => 92 case 70 => 80 case 71 => 81
    case 72 => 82 case 73 => 23 case 74 => 86 case 75 => 87 case 76 => 88 case 80 => 102 case 81 => 103
    case 82 => 93 case 83 => 94 case 84 => 95 case 85 => 96 case 86 => 97 case 87 => 98 case 88 => 99
    case 89 => 100 case 90 => 101 case 91 => 2 case 94 => 3 case 95 => 4
    case _ => 0
  }

  function Table3(i: int): int {
    match i
    case 96 => 5 case 97 => 6 case 98 => 7 case 99 => 8 case 100 => 9 case 101 => 10 case 102 => 11
    case 103 => 12 case 104 => 13 case 105 => 14 case 106 => 15 case 107 => 64 case 108 => 65 case 111 => 66
    case 113 => 83 case 115 => 3 case 116 => 4 case 117 => 16 case 118 => 27 case 119 => 17 case 122 => 18
    case 126 => 19
    case _ => 0
  }

  function Table4(i: int): int {
    match i
    case 128 => 49 case 129 => 50 case 130 => 51 case 131 => 52 case 132 => 53 case 133 => 54 case 134 => 55
    case 135 => 56 case 136 => 57 case 137 => 58 case 138 => 16 case 139 => 67 case 140 => 68 case 141 => 69
    case 142 => 70 case 143 => 59 case 144 => 33 case 145 => 34 case 146 => 35 case 147 => 36 case 148 => 37
    case 149 => 38 case 150 => 39 case 151 => 40 case 152 => 41 case 153 => 42
    case _ => 0
  }

  /** yycheck_: the symbol or state an entry of the action table belongs to. */
  function Check(i: int): int {
    if i < 32 then Check0(i)
    else if i < 64 then Check1(i)
    else if i < 96 then Check2(i)
    else if i < 128 then Check3(i)
    else Check4(i)
  }

  function Check0(i: int): int {
    match i
    case 0 => 1 case 1 => 4 case 2 => 6 case 3 => 3 case 4 => 4 case 5 => 3 case 6 => 6 case 7 => 28 case 8 => 6
    case 9 => 26 case 10 => 27 case 11 => 1 case 12 => 32 case 13 => 30 case 14 => 30 case 15 => 16
    case 16 => 34 case 17 => 7 case 18 => 8 case 19 => 37 case 20 => 32 case 21 => 11 case 22 => 12
    case 23 => 26 case 24 => 14 case 25 => 15 case 26 => 26 case 27 => 32 case 28 => 31 case 29 => 35
    case 30 => 36 case 31 => 31
    case _ => -1
  }

  function Check1(i: int): int {
    match i
    case 32 => 63 case 33 => 31 case 35 => 25 case 36 => 3 case 37 => 4 case 38 => 5 case 39 => 6 case 40 => 7
    case 41 => 8 case 42 => 9 case 43 => 10 case 44 => 11 case 45 => 12 case 46 => 13 case 47 => 14
    case 48 => 15 case 49 => 26 case 50 => 27 case 51 => 28 case 52 => 29 case 53 => 28 case 54 => 29
    case 55 => 32 case 56 => 32 case 58 => 32 case 59 => 26 case 60 => 32 case 61 => 28 case 62 => 63
    case 63 => 32
    case _ => -1
  }

  function Check2(i: int): int {
    match i
    case 64 => 31 case 66 => 67 case 67 => 68 case 68 => 69 case 69 => 70 case 70 => 32 case 71 => 32
    case 72 => 32 case 73 => 63 case 74 => 64 case 75 => 65 case 76 => 66 case 80 => 81 case 81 => 82
    case 82 => 72 case 83 => 73 case 84 => 74 case 85 => 75 case 86 => 76 case 87 => 77 case 88 => 78
    case 89 => 79 case 90 => 80 case 91 => 0 case 94 => 3 case 95 => 4
    case _ => -1
  }

  function Check3(i: int): int {
    match i
    case 96 => 5 case 97 => 6 case 98 => 7 case 99 => 8 case 100 => 9 case 101 => 10 case 102 => 11
    case 103 => 12 case 104 => 13 case 105 => 14 case 106 => 15 case 107 => 26 case 108 => 27 case 111 => 30
    case 113 => 32 case 115 => 3 case 116 => 4 case 117 => 26 case 118 => 6 case 119 => 28 case 122 => 31
    case 126 => 35
    case _ => -1
  }

  function Check4(i: int): int {
    match i
    case 128 => 16 case 129 => 17 case 130 => 18 case 131 => 19 case 132 => 20 case 133 => 21 case 134 => 22
    case 135 => 23 case 136 => 24 case 137 => 25 case 138 => 26 case 139 => 26 case 140 => 27 case 141 => 28
    case 142 => 29 case 143 => 31 case 144 => 16 case 145 => 17 case 146 => 18 case 147 => 19 case 148 => 20
    case 149 => 21 case 150 => 22 case 151 => 23 case 152 => 24 case 153 => 25
    case _ => -1
  }

  /** yyr1_: the nonterminal a rule derives. */
  function Lhs(i: int): int {
    match i
    case 0 => 0 case 1 => 38 case 2 => 39 case 3 => 39 case 4 => 40 case 5 => 40 case 6 => 41 case 7 => 41
    case 8 => 42 case 9 => 42 case 10 => 42 case 11 => 42 case 12 => 42 case 13 => 42 case 14 => 42
    case 15 => 42 case 16 => 42 case 17 => 42 case 43 => 44 case 44 => 44 case 45 => 44 case 46 => 44
    case 47 => 44 case 48 => 44 case 49 => 45 case 50 => 45 case 51 => 45 case 52 => 45 case 53 => 45
    case 54 => 45 case 55 => 45
    case _ => 43
  }

  /** yyr2_: the number of symbols on the right of a rule. */
  function Length(i: int): int {
    match i
    case 0 => 0 case 1 => 2 case 2 => 0 case 3 => 2 case 5 => 2 case 7 => 3 case 18 => 4 case 19 => 4
    case 20 => 4 case 21 => 4 case 22 => 4 case 23 => 4 case 24 => 4 case 25 => 4 case 26 => 4 case 27 => 4
    case 31 => 2 case 32 => 2 case 33 => 2 case 34 => 2 case 35 => 2 case 36 => 2 case 37 => 2 case 40 => 4
    case 41 => 2 case 42 => 3 case 44 => 3 case 45 => 3 case 46 => 3 case 47 => 3 case 50 => 3 case 51 => 3
    case 52 => 3 case 53 => 3 case 54 => 2 case 55 => 3
    case _ => 1
  }

  datatype Decision = Shift(state: int) | Reduce(rule: int) | Error

  function ByDefault(q: int): Decision {
    if Defact(q) <= 0 then Error else Reduce(Defact(q))
  }

  /** What the driver does in state q with the given lookahead symbol. */
  function Decide(q: int, sym: int): Decision {
    var k := Pact(q) + sym;
    if Pact(q) == -32 || k < 0 || k > 153 || Check(k) != sym then ByDefault(q)
    else if Table(k) > 0 then Shift(Table(k))
    else if Table(k) == -1 then Error
    else Reduce(-Table(k))
  }

  /** The state behind a nonterminal pushed on state q. */
  function Goto(q: int, nonterminal: int): int {
    var k := Pgoto(nonterminal - 38) + q;
    if 0 <= k <= 153 && Check(k) == q then Table(k) else Defgoto(nonterminal - 38)
  }
}

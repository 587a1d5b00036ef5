/** Texts are unambiguous: grouped expressions, items and programs with the same tokens are the same. */
module LrReading {
  import opened Assembler
  import opened Layout
  import opened LrDriver
  import opened LrExpressions
  import opened LrProgram

  // ---------- Expressions ----------

  /** The text of t is where the text of u begins, and t stands for it: t is u, or is at the left end of u, or breaks off
      inside the right operand of u. */
  predicate Begins(t: Tree, u: Tree)
    decreases u
  {
    t == u
    || (u.Infix? && (Begins(t, u.left) || (t.Infix? && t.left == u.left && t.op == u.op && Begins(t.right, u.right))))
  }

  /** Where t breaks off, u goes on with an operator, and that is no looser than u. */
  lemma {:induction false} GoesOn(sort: Sort, t: Tree, u: Tree) returns (op: int)
    requires WellSorted(sort, u) && Grouped(u) && Begins(t, u) && t != u
    ensures IsOp(sort, op) && u.Infix? && OpLevel(op) >= Level(u)
    ensures TreeTokens(t) + [Mark(op)] <= TreeTokens(u)
    decreases u
  {
    if t == u.left {
      op := u.op;
    } else if Begins(t, u.left) {
      op := GoesOn(sort, t, u.left);
    } else {
      op := GoesOn(sort, t.right, u.right);
      RightPrefix(t, u, op);
    }
  }

  lemma {:induction false} RightPrefix(t: Tree, u: Tree, op: int)
    requires t.Infix? && u.Infix? && t.left == u.left && t.op == u.op
    requires TreeTokens(t.right) + [Mark(op)] <= TreeTokens(u.right)
    ensures TreeTokens(t) + [Mark(op)] <= TreeTokens(u)
  {
    var front := TreeTokens(t.left) + [Mark(t.op)];
    assert TreeTokens(t) + [Mark(op)] == front + (TreeTokens(t.right) + [Mark(op)]);
    assert TreeTokens(u) == front + TreeTokens(u.right);
  }

  /** One token list, beginning with the texts of both trees. */
  predicate Both(a: Tree, b: Tree, x: seq<Token>, y: seq<Token>) {
    TreeTokens(a) + x == TreeTokens(b) + y
  }

  /** The token behind the text of a tree. */
  lemma {:induction false} Behind(t: Tree, op: int, u: Tree, x: seq<Token>, y: seq<Token>, w: seq<Token>)
    requires TreeTokens(t) + [Mark(op)] <= TreeTokens(u) && w == TreeTokens(u) + x == TreeTokens(t) + y && y != []
    ensures y[0] == Mark(op)
  {
    assert w[|TreeTokens(t)|] == (TreeTokens(t) + [Mark(op)])[|TreeTokens(t)|];
  }

  lemma {:induction false} SameLeft(a: Tree, b: Tree, x: seq<Token>, y: seq<Token>)
    requires a.Infix? && b.Infix? && a.left == b.left && Both(a, b, x, y)
    ensures a.op == b.op && Both(a.right, b.right, x, y)
  {
    InfixTokens(a, x);
    InfixTokens(b, y);
    SameRest(TreeTokens(a.left), BehindLeft(a, x), BehindLeft(b, y));
    assert BehindLeft(a, x)[0] == BehindLeft(b, y)[0];
    SameRest([Mark(a.op)], TreeTokens(a.right) + x, TreeTokens(b.right) + y);
  }

  lemma {:induction false} SameRest(front: seq<Token>, x: seq<Token>, y: seq<Token>)
    requires front + x == front + y
    ensures x == y
  {
    assert x == (front + x)[|front|..];
    assert y == (front + y)[|front|..];
  }

  lemma {:induction false} Shorter(sort: Sort, t: Tree, u: Tree)
    requires WellSorted(sort, u) && Grouped(u) && Begins(t, u)
    ensures t == u || |TreeTokens(t)| < |TreeTokens(u)|
  {
    if t != u {
      var op := GoesOn(sort, t, u);
    }
  }

  /** a cannot go on behind the left operand of b with an operator tighter than its own: b has its own operator there. */
  lemma {:induction false} NoOvertake(sort: Sort, a: Tree, b: Tree, x: seq<Token>, y: seq<Token>)
    requires WellSorted(sort, a) && WellSorted(sort, b) && Grouped(a) && Grouped(b) && a.Infix? && b.Infix?
    requires Both(a, b, x, y) && Begins(a.left, b.left) && a.left != b.left && Begins(b.left, a)
    ensures b.left == a
  {
    if b.left != a {
      Shorter(sort, a.left, b.left);
      if Begins(b.left, a.left) {
        Shorter(sort, b.left, a.left);
      } else {
        var op := GoesOn(sort, b.left.right, a.right);
        RightPrefix(b.left, a, op);
        InfixTokens(b, y);
        Behind(b.left, op, a, x, BehindLeft(b, y), TreeTokens(a) + x);
      }
    }
  }

  lemma {:induction false} InnerBoth(a: Tree, b: Tree, x: seq<Token>, y: seq<Token>)
    requires Both(a, b, x, y)
    ensures a.Nested? && b.Nested? ==> Both(a.inner, b.inner, [Mark(CLOSE)] + x, [Mark(CLOSE)] + y)
    ensures a.Minus? && b.Minus? ==> Both(a.inner, b.inner, x, y)
  {
    if a.Nested? && b.Nested? {
      assert TreeTokens(a) + x == [Mark(OPEN)] + (TreeTokens(a.inner) + ([Mark(CLOSE)] + x));
      assert TreeTokens(b) + y == [Mark(OPEN)] + (TreeTokens(b.inner) + ([Mark(CLOSE)] + y));
      SameRest([Mark(OPEN)], TreeTokens(a.inner) + ([Mark(CLOSE)] + x), TreeTokens(b.inner) + ([Mark(CLOSE)] + y));
    } else if a.Minus? && b.Minus? {
      assert TreeTokens(a) + x == [Mark(MINUS)] + (TreeTokens(a.inner) + x);
      assert TreeTokens(b) + y == [Mark(MINUS)] + (TreeTokens(b.inner) + y);
      SameRest([Mark(MINUS)], TreeTokens(a.inner) + x, TreeTokens(b.inner) + y);
    }
  }

  /** The first token tells leaves, parentheses and minuses apart. */
  lemma {:induction false} SameKind(sort: Sort, a: Tree, b: Tree, x: seq<Token>, y: seq<Token>)
    requires WellSorted(sort, a) && WellSorted(sort, b) && !a.Infix? && !b.Infix? && Both(a, b, x, y)
    ensures (a.Leaf? && a == b) || (a.Nested? && b.Nested?) || (a.Minus? && b.Minus?)
  {
    assert (TreeTokens(a) + x)[0] == TreeTokens(a)[0] && (TreeTokens(b) + y)[0] == TreeTokens(b)[0];
  }

  /** Trees behind which a closing parenthesis stands do not go on. */
  lemma {:induction false} Closed(sort: Sort, a: Tree, b: Tree, x: seq<Token>, y: seq<Token>)
    requires WellSorted(sort, b) && Grouped(b) && Begins(a, b) && Both(a, b, x, y)
    requires x != [] && !IsOp(sort, x[0].sym)
    ensures a == b && x == y
  {
    if a != b {
      var op := GoesOn(sort, a, b);
      Behind(a, op, b, y, x, TreeTokens(b) + y);
    } else {
      SameRest(TreeTokens(a), x, y);
    }
  }

  /** Of two trees whose texts begin one token list, one begins the other. */
  lemma {:induction false} Prefixes(sort: Sort, a: Tree, b: Tree, x: seq<Token>, y: seq<Token>)
    requires WellSorted(sort, a) && WellSorted(sort, b) && Grouped(a) && Grouped(b) && Both(a, b, x, y)
    ensures Begins(a, b) || Begins(b, a)
    decreases a, b
  {
    if a.Infix? {
      InfixTokens(a, x);
    }
    if b.Infix? {
      InfixTokens(b, y);
    }
    if !a.Infix? && !b.Infix? {
      SameKind(sort, a, b, x, y);
      InnerBoth(a, b, x, y);
      if a.Nested? {
        Prefixes(sort, a.inner, b.inner, [Mark(CLOSE)] + x, [Mark(CLOSE)] + y);
        if Begins(a.inner, b.inner) {
          Closed(sort, a.inner, b.inner, [Mark(CLOSE)] + x, [Mark(CLOSE)] + y);
        } else {
          Closed(sort, b.inner, a.inner, [Mark(CLOSE)] + y, [Mark(CLOSE)] + x);
        }
      } else if a.Minus? {
        Prefixes(sort, a.inner, b.inner, x, y);
      }
    } else if !a.Infix? {
      Prefixes(sort, a, b.left, x, BehindLeft(b, y));
    } else if !b.Infix? {
      Prefixes(sort, a.left, b, BehindLeft(a, x), y);
    } else {
      Prefixes(sort, a.left, b.left, BehindLeft(a, x), BehindLeft(b, y));
      if a.left == b.left {
        SameLeft(a, b, x, y);
        Prefixes(sort, a.right, b.right, x, y);
      } else if Begins(a.left, b.left) {
        Prefixes(sort, a, b.left, x, BehindLeft(b, y));
        if Begins(b.left, a) {
          NoOvertake(sort, a, b, x, y);
        }
      } else {
        Prefixes(sort, a.left, b, BehindLeft(a, x), y);
        if Begins(a.left, b) {
          NoOvertake(sort, b, a, y, x);
        }
      }
    }
  }

  /** A text has one grouped tree, whatever follows that is no operator. */
  lemma {:induction false} OneTree(sort: Sort, a: Tree, b: Tree, x: seq<Token>, y: seq<Token>)
    requires WellSorted(sort, a) && WellSorted(sort, b) && Grouped(a) && Grouped(b) && Both(a, b, x, y)
    requires x != [] && y != [] && !IsOp(sort, x[0].sym) && !IsOp(sort, y[0].sym)
    ensures a == b && x == y
  {
    Prefixes(sort, a, b, x, y);
    if Begins(a, b) {
      Closed(sort, a, b, x, y);
    } else {
      Closed(sort, b, a, y, x);
    }
  }

  lemma {:induction false} IntTreeOne(a: Expr, b: Expr)
    requires IntTree(a) == IntTree(b)
    ensures a == b
  {
    match a
    case Num(_) | Sym(_) =>
    case Paren(i) => IntTreeOne(i, b.inner);
    case _ =>
      IntTreeOne(a.left, b.left);
      IntTreeOne(a.right, b.right);
  }

  lemma {:induction false} FpTreeOne(a: FpExpr, b: FpExpr)
    requires FpTree(a) == FpTree(b)
    ensures a == b
  {
    match a
    case FpNum(_) =>
    case FpNeg(i) => FpTreeOne(i, b.inner);
    case FpParen(i) => FpTreeOne(i, b.inner);
    case _ =>
      FpTreeOne(a.left, b.left);
      FpTreeOne(a.right, b.right);
  }

  /** Grouped expressions with the same text are the same. */
  lemma {:induction false} OneReading(a: Expr, b: Expr)
    requires Grouped(IntTree(a)) && Grouped(IntTree(b)) && TreeTokens(IntTree(a)) == TreeTokens(IntTree(b))
    ensures a == b
  {
    var rest := [Mark(NEW_LINE)];
    OneTree(Ints, IntTree(a), IntTree(b), rest, rest);
    IntTreeOne(a, b);
  }

  lemma {:induction false} OneFpReading(a: FpExpr, b: FpExpr)
    requires Grouped(FpTree(a)) && Grouped(FpTree(b)) && TreeTokens(FpTree(a)) == TreeTokens(FpTree(b))
    ensures a == b
  {
    var rest := [Mark(NEW_LINE)];
    OneTree(Floats, FpTree(a), FpTree(b), rest, rest);
    FpTreeOne(a, b);
  }

  // ---------- Items ----------

  /** Whether the first token behind opening parentheses begins a floating-point expression. */
  predicate FpFirst(w: seq<Token>) {
    w != [] && (w[0].sym == FPNUM || w[0].sym == MINUS || (w[0].sym == OPEN && FpFirst(w[1..])))
  }

  /** Symbols an expression begins with. */
  predicate Begin(sort: Sort, sym: int) {
    IsLeaf(sort, sym) || sym == OPEN || (sort == Floats && sym == MINUS)
  }

  /** What the first tokens of an expression look like, with x behind it. */
  predicate LooksLike(sort: Sort, w: seq<Token>) {
    && |w| >= 2 && Begin(sort, w[0].sym)
    && (w[0].sym == OPEN ==> Begin(sort, w[1].sym))
    && (w[0].sym == IDENTIFIER ==> Follow(sort, w[1].sym))
    && (FpFirst(w) <==> sort == Floats)
  }

  lemma {:induction false} TreeLooks(sort: Sort, t: Tree, x: seq<Token>)
    requires WellSorted(sort, t) && x != [] && Follow(sort, x[0].sym)
    ensures LooksLike(sort, TreeTokens(t) + x)
    decreases t
  {
    match t
    case Leaf(token) =>
      assert TreeTokens(t) + x == [token] + x;
    case Infix(l, op, r) =>
      InfixTokens(t, x);
      TreeLooks(sort, l, BehindLeft(t, x));
    case Minus(i) =>
      assert |TreeTokens(t) + x| >= 2;
    case Nested(i) =>
      TreeLooks(sort, i, [Mark(CLOSE)] + x);
      NestedLooks(sort, t, x);
  }

  lemma {:induction false} NestedLooks(sort: Sort, t: Tree, x: seq<Token>)
    requires t.Nested? && LooksLike(sort, TreeTokens(t.inner) + ([Mark(CLOSE)] + x))
    ensures LooksLike(sort, TreeTokens(t) + x)
  {
    var w := TreeTokens(t) + x;
    assert w == [Mark(OPEN)] + (TreeTokens(t.inner) + ([Mark(CLOSE)] + x));
    assert w[1..] == TreeTokens(t.inner) + ([Mark(CLOSE)] + x);
  }

  datatype Form = CastForm | FpCastForm | StarForm | LabelForm | AssignForm | KeywordForm(sym: int) | FpForm | IntForm

  /** The kind of an item, seen from its first two tokens or its first one behind parentheses. */
  function FormOf(w: seq<Token>): Form
    requires |w| >= 2
  {
    var first, second := w[0].sym, w[1].sym;
    if first == OPEN && U8_NAME <= second < U8_NAME + 8 then CastForm
    else if first == OPEN && U8_NAME + 8 <= second <= U8_NAME + 9 then FpCastForm
    else if first == STAR then StarForm
    else if first == IDENTIFIER && second == COLON then LabelForm
    else if first == IDENTIFIER && second == EQUALS then AssignForm
    else if 5 <= first <= 15 && first != IDENTIFIER then KeywordForm(first)
    else if FpFirst(w) then FpForm
    else IntForm
  }

  function ItemForm(it: SourceItem): Form {
    match it
    case Typed(_, _) => CastForm
    case TypedFp(_, _) => FpCastForm
    case Default(_) => IntForm
    case DefaultFp(_) => FpForm
    case Pass0(_, _) => StarForm
    case Label(_) => LabelForm
    case Assign(_, _) => AssignForm
    case _ => KeywordForm(Head(it)[0].sym)
  }

  lemma {:induction false} FormRight(it: SourceItem, x: seq<Token>)
    requires GroupedItem(it) && x != [] && EndOfItem(x[0].sym)
    ensures |ItemTokens(it) + x| >= 2 && FormOf(ItemTokens(it) + x) == ItemForm(it)
  {
    var w := ItemTokens(it) + x;
    if it.Default? {
      TreeLooks(Ints, IntTree(it.arg), x);
      assert w == TreeTokens(IntTree(it.arg)) + x;
    } else if it.DefaultFp? {
      TreeLooks(Floats, FpTree(it.fp), x);
      assert w == TreeTokens(FpTree(it.fp)) + x;
    } else {
      HeadForm(it, x);
    }
  }

  lemma {:induction false} HeadForm(it: SourceItem, x: seq<Token>)
    requires GroupedItem(it) && x != [] && EndOfItem(x[0].sym) && !it.Default? && !it.DefaultFp?
    ensures |ItemTokens(it) + x| >= 2 && FormOf(ItemTokens(it) + x) == ItemForm(it)
  {
    var w := ItemTokens(it) + x;
    ItemSplits(it, x);
    assert w[0] == Head(it)[0] && (|Head(it)| > 1 ==> w[1] == Head(it)[1]);
  }

  /** Items of one form have heads of one length, and arguments of one kind. */
  lemma {:induction false} SameForm(it: SourceItem, jt: SourceItem)
    requires ItemForm(it) == ItemForm(jt)
    ensures |Head(it)| == |Head(jt)|
    ensures var a, b := ArgumentOf(it), ArgumentOf(jt);
      && (a.NoArgument? <==> b.NoArgument?) && (a.TypeArgument? <==> b.TypeArgument?)
      && (a.ExprArgument? ==> b.ExprArgument? && a.sort == b.sort)
  {
  }

  /** An item is made of its form, its head and its argument. */
  lemma {:induction false} SameItem(it: SourceItem, jt: SourceItem)
    requires ItemForm(it) == ItemForm(jt) && Head(it) == Head(jt) && ArgumentOf(it) == ArgumentOf(jt)
    ensures it == jt
  {
    if ArgumentOf(it).ExprArgument? {
      if it.TypedFp? || it.DefaultFp? {
        FpTreeOne(it.fp, jt.fp);
      } else {
        IntTreeOne(it.arg, jt.arg);
      }
    }
    if it.Typed? || it.TypedFp? {
      assert Head(it)[1] == Head(jt)[1];
    } else if Head(it) != [] {
      assert Head(it)[0] == Head(jt)[0];
      if it.Pass0? {
        assert Head(it)[1] == Head(jt)[1];
      }
    }
  }

  lemma {:induction false} SameArgument(a: Argument, b: Argument, x: seq<Token>, y: seq<Token>)
    requires GroupedArgument(a) && GroupedArgument(b) && ArgumentTokens(a) + x == ArgumentTokens(b) + y
    requires (a.NoArgument? <==> b.NoArgument?) && (a.TypeArgument? <==> b.TypeArgument?)
    requires a.ExprArgument? ==> b.ExprArgument? && a.sort == b.sort
    requires x != [] && y != [] && EndOfItem(x[0].sym) && EndOfItem(y[0].sym)
    ensures a == b && x == y
  {
    match a
    case NoArgument =>
      SameRest([], x, y);
    case ExprArgument(sort, t) =>
      OneTree(sort, t, b.tree, x, y);
    case TypeArgument(t) =>
      assert ([TypeToken(t)] + x)[0] == ([TypeToken(b.ty)] + y)[0];
      SameRest([TypeToken(t)], x, y);
  }

  lemma {:induction false} ItemSplits(it: SourceItem, x: seq<Token>)
    ensures ItemTokens(it) + x == Head(it) + (ArgumentTokens(ArgumentOf(it)) + x)
  {
  }

  lemma {:induction false} SameParts(a: seq<Token>, b: seq<Token>, x: seq<Token>, y: seq<Token>)
    requires |a| == |b| && a + x == b + y
    ensures a == b && x == y
  {
    assert a == (a + x)[..|a|] && b == (b + y)[..|b|];
    SameRest(a, x, y);
  }

  lemma {:induction false} OneItem(it: SourceItem, jt: SourceItem, x: seq<Token>, y: seq<Token>)
    requires GroupedItem(it) && GroupedItem(jt) && ItemTokens(it) + x == ItemTokens(jt) + y
    requires x != [] && y != [] && EndOfItem(x[0].sym) && EndOfItem(y[0].sym)
    ensures it == jt && x == y
  {
    FormRight(it, x);
    FormRight(jt, y);
    SameForm(it, jt);
    ItemSplits(it, x);
    ItemSplits(jt, y);
    SameParts(Head(it), Head(jt), ArgumentTokens(ArgumentOf(it)) + x, ArgumentTokens(ArgumentOf(jt)) + y);
    SameArgument(ArgumentOf(it), ArgumentOf(jt), x, y);
    SameItem(it, jt);
  }

  // ---------- Programs ----------

  lemma {:induction false} TailKind(items: Items, others: Items, x: seq<Token>, y: seq<Token>)
    requires TailTokens(items) + x == TailTokens(others) + y
    ensures items == [] <==> others == []
  {
    assert (TailTokens(items) + x)[0] == TailTokens(items)[0] && (TailTokens(others) + y)[0] == TailTokens(others)[0];
  }

  /** The first items of two tails, each with what follows it. */
  lemma {:induction false} TailFirst(items: Items, others: Items, x: seq<Token>, y: seq<Token>)
    requires items != [] && others != [] && TailTokens(items) + x == TailTokens(others) + y
    ensures ItemTokens(items[0]) + (TailTokens(items[1..]) + x) == ItemTokens(others[0]) + (TailTokens(others[1..]) + y)
  {
    TailStartsWith(items, x);
    TailStartsWith(others, y);
    SameRest([Mark(COMMA)], ItemTokens(items[0]) + (TailTokens(items[1..]) + x),
      ItemTokens(others[0]) + (TailTokens(others[1..]) + y));
  }

  lemma {:induction false} OneTail(items: Items, others: Items, x: seq<Token>, y: seq<Token>)
    requires GroupedLine(items) && GroupedLine(others) && TailTokens(items) + x == TailTokens(others) + y
    ensures items == others && x == y
    decreases |items|
  {
    TailKind(items, others, x, y);
    if items == [] {
      SameRest([Mark(NEW_LINE)], x, y);
    } else {
      TailFirst(items, others, x, y);
      OneItem(items[0], others[0], TailTokens(items[1..]) + x, TailTokens(others[1..]) + y);
      OneTail(items[1..], others[1..], x, y);
      SameCons(items, others);
    }
  }

  lemma {:induction false} SameCons<T>(s: seq<T>, t: seq<T>)
    requires s != [] && t != [] && s[0] == t[0] && s[1..] == t[1..]
    ensures s == t
  {
    assert s == [s[0]] + s[1..] && t == [t[0]] + t[1..];
  }

  /** No item begins with a new line, a comma or the end. */
  lemma {:induction false} ItemBegins(it: SourceItem, x: seq<Token>)
    requires GroupedItem(it) && x != [] && EndOfItem(x[0].sym)
    ensures ItemTokens(it) + x != [] && var sym := (ItemTokens(it) + x)[0].sym; sym != NEW_LINE && sym != END
  {
    FormRight(it, x);
    if it.Default? {
      TreeLooks(Ints, IntTree(it.arg), x);
      assert ItemTokens(it) == TreeTokens(IntTree(it.arg));
    } else if it.DefaultFp? {
      TreeLooks(Floats, FpTree(it.fp), x);
      assert ItemTokens(it) == TreeTokens(FpTree(it.fp));
    }
  }

  lemma {:induction false} LineBegins(items: Items, x: seq<Token>)
    requires GroupedLine(items)
    ensures (LineTokens(items) + x)[0].sym != END
    ensures (LineTokens(items) + x)[0].sym == NEW_LINE <==> items == []
  {
    if items != [] {
      LineStartsWith(items, x);
      ItemBegins(items[0], TailTokens(items[1..]) + x);
    }
  }

  lemma {:induction false} OneLine(items: Items, others: Items, x: seq<Token>, y: seq<Token>)
    requires GroupedLine(items) && GroupedLine(others) && LineTokens(items) + x == LineTokens(others) + y
    ensures items == others && x == y
  {
    LineBegins(items, x);
    LineBegins(others, y);
    if items == [] {
      SameRest([Mark(NEW_LINE)], x, y);
    } else {
      LineStartsWith(items, x);
      LineStartsWith(others, y);
      OneItem(items[0], others[0], TailTokens(items[1..]) + x, TailTokens(others[1..]) + y);
      OneTail(items[1..], others[1..], x, y);
      SameCons(items, others);
    }
  }

  lemma {:induction false} ProgramStartsWith(lines: seq<Items>)
    requires lines != []
    ensures ProgramTokens(lines) == LineTokens(lines[0]) + ProgramTokens(lines[1..])
  {
  }

  /** Programs with the same text are the same, line by line and item by item. */
  lemma {:induction false} OneProgram(lines: seq<Items>, others: seq<Items>)
    requires GroupedLines(lines) && GroupedLines(others) && ProgramTokens(lines) == ProgramTokens(others)
    ensures lines == others
    decreases |lines|
  {
    if lines != [] {
      ProgramStartsWith(lines);
      LineBegins(lines[0], ProgramTokens(lines[1..]));
    }
    if others != [] {
      ProgramStartsWith(others);
      LineBegins(others[0], ProgramTokens(others[1..]));
    }
    if lines != [] && others != [] {
      OneLine(lines[0], others[0], ProgramTokens(lines[1..]), ProgramTokens(others[1..]));
      OneProgram(lines[1..], others[1..]);
      SameCons(lines, others);
    }
  }
}

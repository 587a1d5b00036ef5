/** Integer expressions: wrapping to 64 bits at every operator is wrapping the exact value once. */
module Expressions {
  import opened Bits
  import opened Assembler

  /** The value of an expression in unbounded integers. */
  function Exact(e: Expr, s: State): int {
    match e
    case Num(v) => v
    case Sym(n) => Lookup(n, s)
    case Add(l, r) => Exact(l, s) + Exact(r, s)
    case Sub(l, r) => Exact(l, s) - Exact(r, s)
    case BitOr(l, r) => Or(Exact(l, s), Exact(r, s))
    case Paren(i) => Exact(i, s)
  }

  /** Literals and symbols are 64-bit numbers. */
  predicate Leaves64(e: Expr, s: State) {
    match e
    case Num(v) => Fits(v, 63)
    case Sym(n) => Fits(Lookup(n, s), 63)
    case Paren(i) => Leaves64(i, s)
    case _ => Leaves64(e.left, s) && Leaves64(e.right, s)
  }

  predicate Congruent(x: int, y: int) {
    (x - y) % TWO_64 == 0
  }

  lemma Multiple(x: int, y: int) returns (q: int)
    requires Congruent(x, y)
    ensures x == y + q * TWO_64
  {
    q := (x - y) / TWO_64;
  }

  lemma MultipleApart(x: int, y: int, q: int)
    requires x == y + q * TWO_64
    ensures Congruent(x, y) && x % TWO_64 == y % TWO_64
  {
    DivModUnique(x - y, TWO_64, q, 0);
    DivModUnique(x, TWO_64, q + y / TWO_64, y % TWO_64);
  }

  lemma SumsCongruent(a: int, b: int, x: int, y: int)
    requires Congruent(a, x) && Congruent(b, y)
    ensures Congruent(Wrap64(a + b), x + y) && Congruent(Wrap64(a - b), x - y)
  {
    var p := Multiple(a, x);
    var q := Multiple(b, y);
    var u := Multiple(Wrap64(a + b), a + b);
    var v := Multiple(Wrap64(a - b), a - b);
    MultipleApart(Wrap64(a + b), x + y, u + p + q);
    MultipleApart(Wrap64(a - b), x - y, v + p - q);
  }

  lemma SameRemainder(x: int, y: int, m: int)
    requires m == TWO_64
    ensures Congruent(x, y) <==> x % m == y % m
  {
  }

  lemma OrsCongruent(a: int, b: int, x: int, y: int)
    requires Congruent(a, x) && Congruent(b, y)
    ensures Congruent(Or(a, b), Or(x, y))
  {
    WordSizes();
    SameRemainder(a, x, Pow2(64));
    SameRemainder(b, y, Pow2(64));
    OrLow(a, b, x, y, 64);
    SameRemainder(Or(a, b), Or(x, y), Pow2(64));
  }

  /** Every value is a 64-bit number, and differs from the exact one by a multiple of 2^64. */
  lemma {:induction false} EvalCongruent(e: Expr, s: State)
    requires Leaves64(e, s)
    ensures Fits(Eval(e, s), 63) && Congruent(Eval(e, s), Exact(e, s))
  {
    SignedWord();
    match e
    case Num(_) | Sym(_) =>
    case Paren(i) =>
      EvalCongruent(i, s);
    case BitOr(l, r) =>
      EvalCongruent(l, s);
      EvalCongruent(r, s);
      OrFits(Eval(l, s), Eval(r, s), 63);
      OrsCongruent(Eval(l, s), Eval(r, s), Exact(l, s), Exact(r, s));
    case Add(l, r) =>
      EvalCongruent(l, s);
      EvalCongruent(r, s);
      SumsCongruent(Eval(l, s), Eval(r, s), Exact(l, s), Exact(r, s));
    case Sub(l, r) =>
      EvalCongruent(l, s);
      EvalCongruent(r, s);
      SumsCongruent(Eval(l, s), Eval(r, s), Exact(l, s), Exact(r, s));
  }

  lemma SignedWord()
    ensures Pow2(63) == TWO_63
  {
    WordSizes();
  }

  /** An expression whose leaves are 64-bit numbers has the value that its exact one wraps to. */
  lemma EvalWrapsOnce(e: Expr, s: State)
    requires Leaves64(e, s)
    ensures Eval(e, s) == Wrap64(Exact(e, s))
  {
    SignedWord();
    EvalCongruent(e, s);
    OneWord(Eval(e, s), Wrap64(Exact(e, s)), Exact(e, s));
  }

  lemma OneWord(v: int, w: int, x: int)
    requires -TWO_63 <= v < TWO_63 && -TWO_63 <= w < TWO_63 && Congruent(v, x) && (w - x) % TWO_64 == 0
    ensures v == w
  {
    var p := Multiple(v, x);
    var q := Multiple(w, x);
  }
}

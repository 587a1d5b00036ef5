/** Two's-complement integers of unbounded width.
    A negative number has infinitely many leading one bits, so that the C++ operators
    `|`, `&` and `~` on any signed or zero-extended operand are the functions below. */
module Bits {

  function Pow2(k: nat): (p: int)
    ensures p >= 1
  {
    if k == 0 then 1 else 2 * Pow2(k - 1)
  }

  /** Bit number k of x. */
  function Bit(x: int, k: nat): bool
    decreases k
  {
    if k == 0 then x % 2 == 1 else Bit(x / 2, k - 1)
  }

  function Magnitude(x: int): nat {
    if x < 0 then -x else x
  }

  /** The operator `~`. */
  function Not(x: int): int {
    -x - 1
  }

  /** The operator `|`. */
  function Or(x: int, y: int): int
    decreases Magnitude(x) + Magnitude(y)
  {
    if -1 <= x <= 0 && -1 <= y <= 0 then
      if x == -1 || y == -1 then -1 else 0
    else
      2 * Or(x / 2, y / 2) + (if x % 2 == 1 || y % 2 == 1 then 1 else 0)
  }

  /** The operator `&`. */
  function And(x: int, y: int): int
    decreases Magnitude(x) + Magnitude(y)
  {
    if -1 <= x <= 0 && -1 <= y <= 0 then
      if x == -1 && y == -1 then -1 else 0
    else
      2 * And(x / 2, y / 2) + (if x % 2 == 1 && y % 2 == 1 then 1 else 0)
  }

  /** The operator `^`. */
  function Xor(x: int, y: int): int
    decreases Magnitude(x) + Magnitude(y)
  {
    if -1 <= x <= 0 && -1 <= y <= 0 then
      if x == y then 0 else -1
    else
      2 * Xor(x / 2, y / 2) + (if x % 2 == y % 2 then 0 else 1)
  }

  lemma {:induction false} NotBit(x: int, k: nat)
    ensures Bit(Not(x), k) == !Bit(x, k)
    decreases k
  {
    if k > 0 {
      assert Not(x) / 2 == Not(x / 2);
      NotBit(x / 2, k - 1);
    }
  }

  /** An operator works on the bottom bit and on the others separately. */
  lemma OrHalf(x: int, y: int)
    ensures Or(x, y) / 2 == Or(x / 2, y / 2)
    ensures Or(x, y) % 2 == 1 <==> x % 2 == 1 || y % 2 == 1
  {
  }

  lemma AndHalf(x: int, y: int)
    ensures And(x, y) / 2 == And(x / 2, y / 2)
    ensures And(x, y) % 2 == 1 <==> x % 2 == 1 && y % 2 == 1
  {
  }

  lemma XorHalf(x: int, y: int)
    ensures Xor(x, y) / 2 == Xor(x / 2, y / 2)
    ensures Xor(x, y) % 2 == if x % 2 == y % 2 then 0 else 1
  {
  }

  /** Bit k of a number is bit k - 1 of its half. */
  lemma BitHalf(x: int, k: nat)
    requires k > 0
    ensures Bit(x, k) == Bit(x / 2, k - 1)
  {
  }

  lemma {:induction false} OrBit(x: int, y: int, k: nat)
    ensures Bit(Or(x, y), k) == (Bit(x, k) || Bit(y, k))
    decreases k
  {
    OrHalf(x, y);
    if k > 0 {
      BitHalf(Or(x, y), k);
      OrBit(x / 2, y / 2, k - 1);
    }
  }

  lemma {:induction false} AndBit(x: int, y: int, k: nat)
    ensures Bit(And(x, y), k) == (Bit(x, k) && Bit(y, k))
    decreases k
  {
    AndHalf(x, y);
    if k > 0 {
      BitHalf(And(x, y), k);
      AndBit(x / 2, y / 2, k - 1);
    }
  }

  lemma {:induction false} XorBit(x: int, y: int, k: nat)
    ensures Bit(Xor(x, y), k) == (Bit(x, k) != Bit(y, k))
    decreases k
  {
    XorHalf(x, y);
    if k > 0 {
      BitHalf(Xor(x, y), k);
      XorBit(x / 2, y / 2, k - 1);
    }
  }

  /** x fits a signed integer of k + 1 bits. */
  predicate Fits(x: int, k: nat) {
    -Pow2(k) <= x < Pow2(k)
  }

  /** A signed operand width is closed under `|`, so no 64-bit result is ever cut. */
  lemma {:induction false} OrFits(x: int, y: int, k: nat)
    requires Fits(x, k) && Fits(y, k)
    ensures Fits(Or(x, y), k)
    decreases k
  {
    if k > 0 {
      OrFits(x / 2, y / 2, k - 1);
    }
  }

  /** Equal low bits of the operands give equal low bits of the result. */
  lemma {:induction false} OrLow(x: int, y: int, v: int, w: int, k: nat)
    requires x % Pow2(k) == v % Pow2(k) && y % Pow2(k) == w % Pow2(k)
    ensures Or(x, y) % Pow2(k) == Or(v, w) % Pow2(k)
    decreases k
  {
    if k > 0 {
      var m := Pow2(k - 1);
      HalfModOf(x, m, Pow2(k));
      HalfModOf(y, m, Pow2(k));
      HalfModOf(v, m, Pow2(k));
      HalfModOf(w, m, Pow2(k));
      OrLow(x / 2, y / 2, v / 2, w / 2, k - 1);
      OrHalf(x, y);
      OrHalf(v, w);
      HalfModOf(Or(x, y), m, Pow2(k));
      HalfModOf(Or(v, w), m, Pow2(k));
    }
  }

  const TWO_63: int := 0x8000_0000_0000_0000
  const TWO_64: int := 0x1_0000_0000_0000_0000

  /** The int64_t that holds x: its low 64 bits read as a signed number. */
  function Wrap64(x: int): (w: int)
    ensures -TWO_63 <= w < TWO_63
    ensures (w - x) % TWO_64 == 0
  {
    (x + TWO_63) % TWO_64 - TWO_63
  }

  // ---------- Arithmetic ----------

  lemma {:induction false} MulMonotone(a: int, b: int, m: int)
    requires a <= b && m >= 0
    ensures a * m <= b * m
  {
  }

  lemma {:induction false} DivModUnique(v: int, m: int, q: int, r: int)
    requires 0 <= r < m && v == q * m + r
    ensures v % m == r && v / m == q
  {
    var d := v / m - q;
    assert (v / m) * m + v % m == v;
    assert d * m == r - v % m by {
      assert d * m == (v / m) * m - q * m;
    }
    if d >= 1 {
      MulMonotone(1, d, m);
    } else if d <= -1 {
      MulMonotone(d, -1, m);
    }
  }

  lemma HalfMod(x: int, m: int)
    requires m > 0
    ensures x % (2 * m) == x % 2 + 2 * ((x / 2) % m)
  {
    var q, r := (x / 2) / m, (x / 2) % m;
    assert x == 2 * (x / 2) + x % 2;
    assert x / 2 == q * m + r;
    assert x == q * (2 * m) + (2 * r + x % 2) by {
      assert 2 * (q * m) == q * (2 * m);
    }
    DivModUnique(x, 2 * m, q, 2 * r + x % 2);
  }

  lemma HalfModOf(x: int, m: int, p: int)
    requires m > 0 && p == 2 * m
    ensures x % p == x % 2 + 2 * (x / 2 % m)
  {
    HalfMod(x, m);
  }

  lemma DivOne(x: int, m: int)
    requires m == 1
    ensures x / m == x && x % m == 0
  {
  }

  lemma {:induction false} Pow2Grows(j: nat, k: nat)
    requires j <= k
    ensures Pow2(j) <= Pow2(k)
    decreases k
  {
    if j < k {
      Pow2Grows(j, k - 1);
    }
  }

  lemma {:induction false} Pow2Sum(j: nat, k: nat)
    ensures Pow2(j + k) == Pow2(j) * Pow2(k)
    decreases k
  {
    if k > 0 {
      Pow2Sum(j, k - 1);
      assert Pow2(j) * (2 * Pow2(k - 1)) == 2 * (Pow2(j) * Pow2(k - 1));
    }
  }

  /** The word sizes, as powers of two. */
  lemma WordSizes()
    ensures Pow2(8) == 0x100 && Pow2(32) == 0x1_0000_0000 && Pow2(64) == TWO_64
  {
    assert Pow2(4) == 16;
    Pow2Sum(4, 4);
    Pow2Sum(8, 8);
    Pow2Sum(16, 16);
    Pow2Sum(32, 32);
  }
}

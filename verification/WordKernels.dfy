/** Powers of two and alignment masks on machine words. */
module WordKernels {
  import opened Bits
  import opened Assembler

  // ---------- Powers of two ----------

  predicate IsPow2(n: bv32) {
    n & (n - 1) == 0
  }

  /** The k-th power of two, as a word; it wraps to zero for k of 32 and more. */
  function Power(k: nat): bv32 {
    if k == 0 then 1 else Power(k - 1) << 1
  }

  lemma DoubledPower(p: bv32)
    requires IsPow2(p)
    ensures IsPow2(p << 1)
  {
  }

  lemma {:induction false} PowerIsPow2(k: nat)
    ensures IsPow2(Power(k))
  {
    if k > 0 {
      PowerIsPow2(k - 1);
      DoubledPower(Power(k - 1));
    }
  }

  /** A power of two that has no bit below p is p, or has no bit below 2p. */
  lemma NoBitBelow(n: bv32, p: bv32)
    requires IsPow2(n) && IsPow2(p) && n != p && n & (p - 1) == 0
    ensures n & ((p << 1) - 1) == 0
  {
  }

  lemma NoneLeft(n: bv32)
    requires n & (0x8000_0000 - 1) == 0 && n != 0
    ensures n == 0x8000_0000
  {
  }

  /** p is the k-th power, and n has no bit below it. */
  lemma {:induction false} FindPower(n: bv32, k: nat, p: bv32) returns (j: nat)
    requires k < 32 && p == Power(k)
    requires n != 0 && IsPow2(n) && n & (p - 1) == 0
    ensures j < 32 && n == Power(j)
    decreases 32 - k
  {
    j := k;
    if n != p {
      if k == 31 {
        TopPower();
        NoneLeft(n);
      } else {
        PowerIsPow2(k);
        NoBitBelow(n, p);
        j := FindPower(n, k + 1, p << 1);
      }
    }
  }

  lemma TopPower()
    ensures Power(31) == 0x8000_0000
  {
    assert Power(4) == 0x10;
    assert Power(8) == 0x100;
    assert Power(12) == 0x1000;
    assert Power(16) == 0x1_0000;
    assert Power(20) == 0x10_0000;
    assert Power(24) == 0x100_0000;
    assert Power(28) == 0x1000_0000;
  }

  lemma StartPower(n: bv32)
    ensures n & (Power(0) - 1) == 0
  {
  }

  lemma SomePower(n: bv32) returns (k: nat)
    requires n != 0 && IsPow2(n)
    ensures k < 32 && n == Power(k)
  {
    StartPower(n);
    k := FindPower(n, 0, Power(0));
  }

  /** The test accepts the powers of two and, besides them, zero. */
  lemma IsPow2Exactly(n: bv32)
    ensures IsPow2(n) <==> n == 0 || exists k: nat :: k < 32 && n == Power(k)
  {
    if n == 0 {
    } else if IsPow2(n) {
      var k := SomePower(n);
    } else {
      forall k: nat | k < 32 ensures n != Power(k) {
        PowerIsPow2(k);
      }
    }
  }

  /** All the bits at and below the highest bit of x. */
  function Smear(x: bv32): bv32 {
    var a := x | (x >> 16);
    var b := a | (a >> 8);
    var c := b | (b >> 4);
    var d := c | (c >> 2);
    d | (d >> 1)
  }

  /** s has every bit at and below the highest bit of x, and no other. */
  predicate Fills(x: bv32, s: bv32) {
    && s & (s + 1) == 0 && x <= s
    && (x != 0 ==> (s >> 1) < x)
    && (x == 0 ==> s == 0)
  }

  /** Shifting by 16, 8, 4, 2 and 1, in this order, fills every bit below the highest one and none above it. */
  lemma SmearFills(x: bv32)
    ensures Fills(x, Smear(x))
  {
  }

  /** What the word operations give: a power of two that reaches n while its half does not, or zero. */
  predicate Rounds(n: bv32, r: bv32) {
    if 1 <= n <= 0x8000_0000 then IsPow2(r) && r != 0 && n <= r && (r >> 1) < n else r == 0
  }

  lemma AfterSmear(n: bv32, s: bv32)
    requires Fills(n - 1, s)
    ensures Rounds(n, s + 1)
  {
  }

  /** No smaller power of two reaches n. */
  lemma LeastOfThem(n: bv32, r: bv32, p: bv32)
    requires IsPow2(r) && n <= r && (r >> 1) < n
    requires IsPow2(p) && n <= p
    ensures r <= p
  {
  }

  /** r is the least power of two that is at least n. */
  ghost predicate LeastPower(n: bv32, r: bv32) {
    && (exists k: nat :: k < 32 && r == Power(k))
    && n <= r
    && (forall j: nat :: n <= Power(j) ==> r <= Power(j))
  }

  lemma RoundedIsLeast(n: bv32, r: bv32)
    requires IsPow2(r) && r != 0 && n <= r && (r >> 1) < n
    ensures LeastPower(n, r)
  {
    var k := SomePower(r);
    forall j: nat | n <= Power(j) ensures r <= Power(j) {
      PowerIsPow2(j);
      LeastOfThem(n, r, Power(j));
    }
  }

  lemma RoundsToLeast(n: bv32, r: bv32)
    requires Rounds(n, r)
    ensures 1 <= n <= 0x8000_0000 ==> LeastPower(n, r)
    ensures n == 0 || n > 0x8000_0000 ==> r == 0
  {
    if 1 <= n <= 0x8000_0000 {
      RoundedIsLeast(n, r);
    }
  }

  lemma SmearedIsLeast(n: bv32, s: bv32)
    requires s == Smear(n - 1)
    ensures 1 <= n <= 0x8000_0000 ==> LeastPower(n, s + 1)
    ensures n == 0 || n > 0x8000_0000 ==> s + 1 == 0
  {
    SmearFills(n - 1);
    AfterSmear(n, s);
    RoundsToLeast(n, s + 1);
  }

  /** For n from 1 to 2^31 the least power of two that is at least n; otherwise the result wraps to zero. */
  method NextPow2(n: bv32) returns (r: bv32)
    ensures 1 <= n <= 0x8000_0000 ==> LeastPower(n, r)
    ensures n == 0 || n > 0x8000_0000 ==> r == 0
  {
    var i := n - 1;
    i := i | (i >> 16);
    i := i | (i >> 8);
    i := i | (i >> 4);
    i := i | (i >> 2);
    i := i | (i >> 1);
    r := i + 1;
    SmearedIsLeast(n, i);
  }

  // ---------- Alignment ----------

  /** alignTo when the mask `~(align - 1)` is as wide as k, or is sign-extended to that width. */
  function AlignTo(k: int, align: int): int {
    And(k + align - 1, Not(align - 1))
  }

  /** alignTo when align has an unsigned type of `bits` bits, at least as wide as int, and k has a wider one:
      the mask is zero-extended. */
  function AlignToNarrow(k: int, align: int, bits: nat): int {
    And(k + align - 1, Not(align - 1) % Pow2(bits))
  }

  lemma {:induction false} AndZero(x: int)
    ensures And(x, 0) == 0
    decreases Magnitude(x)
  {
    if x != 0 && x != -1 {
      AndZero(x / 2);
    }
  }

  lemma {:induction false} AndOnes(x: int)
    ensures And(x, -1) == x
    decreases Magnitude(x)
  {
    if x != 0 && x != -1 {
      AndOnes(x / 2);
    }
  }

  /** A mask with a zero bottom bit acts on the upper bits only. */
  lemma AndDouble(x: int, mask: int, h: int)
    requires mask == 2 * h
    ensures And(x, mask) == 2 * And(x / 2, h)
  {
    AndHalf(x, mask);
  }

  lemma AndDoubled(x: int, mask: int, h: int, half: int, all: int)
    requires mask == 2 * h && And(x / 2, h) == half && all == 2 * half
    ensures And(x, mask) == all
  {
    AndDouble(x, mask, h);
  }

  /** Masking with ~(2^j - 1) clears the low j bits. */
  lemma {:induction false} AndHigh(x: int, j: nat)
    ensures And(x, -Pow2(j)) == x - x % Pow2(j)
    decreases j
  {
    if j == 0 {
      AndOnes(x);
    } else {
      AndHigh(x / 2, j - 1);
      AndHighStep(x, Pow2(j - 1), Pow2(j));
    }
  }

  lemma AndHighStep(x: int, m: int, p: int)
    requires m > 0 && p == 2 * m && And(x / 2, -m) == x / 2 - x / 2 % m
    ensures And(x, -p) == x - x % p
  {
    AndDouble(x, -p, -m);
    HalfModOf(x, m, p);
  }

  /** A mask with a one at the bottom keeps the bottom bit. */
  lemma AndOdd(x: int, mask: int, h: int)
    requires mask == 2 * h + 1
    ensures And(x, mask) == 2 * And(x / 2, h) + x % 2
  {
    AndHalf(x, mask);
    assert mask / 2 == h && mask % 2 == 1;
  }

  /** Masking with 2^j - 1 keeps the low j bits. */
  lemma {:induction false} AndLow(x: int, j: nat)
    ensures And(x, Pow2(j) - 1) == x % Pow2(j)
    decreases j
  {
    if j == 0 {
      AndZero(x);
    } else {
      AndLow(x / 2, j - 1);
      AndLowStep(x, Pow2(j - 1), Pow2(j));
    }
  }

  lemma AndLowStep(x: int, m: int, p: int)
    requires m > 0 && p == 2 * m && And(x / 2, m - 1) == x / 2 % m
    ensures And(x, p - 1) == x % p
  {
    AndOdd(x, p - 1, m - 1);
    HalfModOf(x, m, p);
  }

  /** A mask of bits j .. w-1. */
  lemma {:induction false} AndBand(x: int, j: nat, w: nat)
    requires j <= w
    ensures And(x, Pow2(w) - Pow2(j)) == x % Pow2(w) - x % Pow2(j)
    decreases j
  {
    if j == 0 {
      AndLow(x, w);
    } else {
      AndBand(x / 2, j - 1, w - 1);
      HalfModsApart(x, Pow2(j - 1), Pow2(j), Pow2(w - 1), Pow2(w));
      AndDoubled(x, Pow2(w) - Pow2(j), Pow2(w - 1) - Pow2(j - 1), x / 2 % Pow2(w - 1) - x / 2 % Pow2(j - 1),
        x % Pow2(w) - x % Pow2(j));
    }
  }

  lemma HalfModsApart(x: int, m: int, p: int, v: int, w: int)
    requires m > 0 && p == 2 * m && v > 0 && w == 2 * v
    ensures x % w - x % p == 2 * (x / 2 % v - x / 2 % m)
  {
    HalfModOf(x, m, p);
    HalfModOf(x, v, w);
  }

  /** Adding align - 1 and clearing the low bits reaches the same multiple as padding. */
  lemma RoundUp(k: nat, b: int)
    requires b > 0
    ensures (k + b - 1) - (k + b - 1) % b == k + Pad(k, b)
  {
    var q, r := k / b, k % b;
    assert k == q * b + r;
    if r == 0 {
      assert k + b - 1 == q * b + (b - 1);
      DivModUnique(k + b - 1, b, q, b - 1);
    } else {
      assert k + b - 1 == (q + 1) * b + (r - 1) by {
        assert (q + 1) * b == q * b + b;
      }
      DivModUnique(k + b - 1, b, q + 1, r - 1);
    }
  }

  /** The two alignments of the code base agree on every power-of-two boundary: the mask form gives the offset that the
      assembler's padding reaches. */
  lemma AlignmentsAgree(k: nat, j: nat)
    ensures AlignTo(k, Pow2(j)) == k + Pad(k, Pow2(j))
  {
    AndHigh(k + Pow2(j) - 1, j);
    RoundUp(k, Pow2(j));
  }

  /** With a narrower unsigned boundary the high bits of k are lost: the result is the right one exactly when k is no
      more than the last multiple of the boundary that fits the boundary's type. */
  lemma NarrowAlignmentExactly(k: nat, j: nat, bits: nat)
    requires j < bits
    ensures AlignToNarrow(k, Pow2(j), bits) == k + Pad(k, Pow2(j)) <==> k <= Pow2(bits) - Pow2(j)
  {
    var x := k + Pow2(j) - 1;
    NarrowMask(x, j, bits);
    assert AlignToNarrow(k, Pow2(j), bits) == x % Pow2(bits) - x % Pow2(j);
    RoundUp(k, Pow2(j));
    CutExactly(x, Pow2(bits));
  }

  /** The zero-extended mask has the bits j .. bits - 1. */
  lemma NarrowMask(x: int, j: nat, bits: nat)
    requires j < bits
    ensures And(x, Not(Pow2(j) - 1) % Pow2(bits)) == x % Pow2(bits) - x % Pow2(j)
  {
    Pow2Grows(j, bits);
    DivModUnique(-Pow2(j), Pow2(bits), -1, Pow2(bits) - Pow2(j));
    AndBand(x, j, bits);
  }

  lemma CutExactly(x: int, m: int)
    requires x >= 0 && m > 0
    ensures x % m == x <==> x < m
  {
    if x < m {
      DivModUnique(x, m, 0, x);
    }
  }

  /** So the result is right exactly when the right one fits the boundary's type. */
  lemma NarrowFitsExactly(k: nat, j: nat, bits: nat)
    requires j < bits
    ensures k + Pad(k, Pow2(j)) < Pow2(bits) <==> k <= Pow2(bits) - Pow2(j)
  {
    Pow2Sum(bits - j, j);
    FitsBelow(k, Pow2(j), Pow2(bits - j), Pow2(bits));
  }

  lemma FitsBelow(k: nat, b: int, q: int, m: int)
    requires b > 0 && m == q * b
    ensures k + Pad(k, b) < m <==> k <= m - b
  {
    RoundUp(k, b);
    FloorReaches(k + b - 1, b, q);
  }

  /** An offset just above 2^32, aligned to a 32-bit 4, comes back as 4. */
  lemma NarrowAlignmentFails()
    ensures AlignToNarrow(0x1_0000_0001, 4, 32) == 4
    ensures 0x1_0000_0001 + Pad(0x1_0000_0001, 4) == 0x1_0000_0004
  {
    WordSizes();
    assert Pow2(2) == 4;
    NarrowMask(0x1_0000_0001 + 3, 2, 32);
  }

  /** A number is below a multiple of b exactly when it is so rounded down to a multiple of b. */
  lemma FloorReaches(x: int, b: int, q: int)
    requires b > 0
    ensures x - x % b < q * b <==> x < q * b
  {
    var f := x / b;
    assert x == f * b + x % b;
    assert (f + 1) * b == f * b + b;
    if f < q {
      MulMonotone(f + 1, q, b);
    } else {
      MulMonotone(q, f, b);
    }
  }
}

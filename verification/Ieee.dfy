/** Binary floating-point numbers, exactly: rounding to nearest with ties to even, the operations on doubles, the
    narrowing to float, and the interchange formats (IEEE 754-2008, sections 3.4, 4.3.1, 5.4 and 6). */
module Ieee {
  import opened Bits

  /** Exponents count from 2^-1074, the least positive double. A format has significands of `precision` bits and
      exponents from `least` to `most`. */
  datatype Format = Format(precision: nat, least: nat, most: nat)

  const SINGLE := Format(24, 925, 1178)
  const DOUBLE := Format(53, 0, 2045)

  /** The number 1 is 2^ONE units of 2^-1074. */
  const ONE := 1074

  datatype Fp = Finite(negative: bool, significand: nat, exponent: nat) | Infinite(negative: bool) | Nan(negative: bool)

  const ZERO := Finite(false, 0, 0)

  /** What an invalid operation gives: on x86-64 the sign is set. */
  const INVALID := Nan(true)

  predicate Proper(f: Format) {
    f.precision >= 2 && f.most > f.least
  }

  /** A datum of the format: subnormal numbers have the least exponent, the others a full significand. */
  predicate Encoded(x: Fp, f: Format)
    requires Proper(f)
  {
    x.Finite? ==>
      && x.significand < Pow2(f.precision) && f.least <= x.exponent <= f.most
      && (x.significand < Pow2(f.precision - 1) ==> x.exponent == f.least)
  }

  /** The magnitude of a number, in units of 2^-1074. */
  function Units(x: Fp): nat
    requires x.Finite?
  {
    x.significand * Pow2(x.exponent)
  }

  function Amount(x: Fp): int
    requires x.Finite?
  {
    if x.negative then -(Units(x) as int) else Units(x)
  }

  // ---------- Division ----------

  /** The integer part of p / d. */
  function Floor(p: nat, d: nat): nat
    requires d > 0
    decreases p
  {
    if p < d then 0 else 1 + Floor(p - d, d)
  }

  lemma {:induction false} FloorSpec(p: nat, d: nat)
    requires d > 0
    ensures Floor(p, d) * d <= p < Floor(p, d) * d + d
    decreases p
  {
    if p >= d {
      FloorSpec(p - d, d);
      assert Floor(p, d) * d == Floor(p - d, d) * d + d;
    }
  }

  lemma FloorBelow(p: nat, d: nat, w: nat)
    requires d > 0
    ensures Floor(p, d) < w <==> p < w * d
  {
    var n := Floor(p, d);
    FloorSpec(p, d);
    assert (n + 1) * d == n * d + d;
    if n < w {
      MulMonotone(n + 1, w, d);
    } else {
      MulMonotone(w, n, d);
    }
  }

  lemma FloorUnique(p: nat, d: nat, n: nat)
    requires d > 0 && n * d <= p < n * d + d
    ensures Floor(p, d) == n
  {
    assert (n + 1) * d == n * d + d;
    FloorBelow(p, d, n);
    FloorBelow(p, d, n + 1);
  }

  /** p / d to the nearest integer, a tie to the even one. */
  function NearestEven(p: nat, d: nat): nat
    requires d > 0
  {
    var n := Floor(p, d);
    var r := p - n * d;
    if 2 * r < d || (2 * r == d && n % 2 == 0) then n else n + 1
  }

  lemma StepsApart(m: nat, n: nat, d: nat)
    requires m < n
    ensures m * d + d <= n * d
  {
    MulMonotone(m + 1, n, d);
    assert (m + 1) * d == m * d + d;
  }

  /** A multiple of d is the given one, the next, or at least one step farther away. */
  lemma MultiplesApart(n: nat, m: nat, d: nat)
    ensures m < n ==> m * d + d <= n * d
    ensures m == n + 1 ==> m * d == n * d + d
    ensures m > n + 1 ==> m * d >= n * d + 2 * d
  {
    assert (n + 1) * d == n * d + d;
    if m < n {
      StepsApart(m, n, d);
    } else if m > n + 1 {
      StepsApart(n + 1, m, d);
    }
  }

  /** Of the multiples of d the nearer neighbour of p, at e, is nearer than any other, at b. */
  lemma Nearer(p: int, d: int, a: int, e: int, b: int)
    requires a <= p < a + d && ((e == a && 2 * (p - a) <= d) || (e == a + d && 2 * (p - a) >= d))
    requires b + d <= a || b == a || b == a + d || b >= a + 2 * d
    ensures Magnitude(p - e) <= Magnitude(p - b)
    ensures Magnitude(p - e) == Magnitude(p - b) && b != e ==> 2 * (p - a) == d
  {
  }

  /** The result is a nearest multiple, and on a tie the even one. */
  lemma NearestEvenNear(p: nat, d: nat, m: nat)
    requires d > 0
    ensures var n := NearestEven(p, d);
      && Magnitude(p - n * d) <= Magnitude(p - m * d)
      && (Magnitude(p - n * d) == Magnitude(p - m * d) && m != n ==> n % 2 == 0)
  {
    var n, e := Floor(p, d), NearestEven(p, d);
    FloorSpec(p, d);
    MultiplesApart(n, e, d);
    MultiplesApart(n, m, d);
    MultiplesApart(e, m, d);
    Nearer(p, d, n * d, e * d, m * d);
  }

  lemma NearestEvenExact(n: nat, d: nat, p: nat)
    requires d > 0 && p == n * d
    ensures NearestEven(p, d) == n
  {
    FloorUnique(p, d, n);
  }

  // ---------- Exponents ----------

  function BitLength(x: nat): nat {
    if x == 0 then 0 else 1 + BitLength(x / 2)
  }

  lemma {:induction false} BitLengthBounds(x: nat)
    ensures x < Pow2(BitLength(x))
    ensures x > 0 ==> BitLength(x) > 0 && Pow2(BitLength(x) - 1) <= x
  {
    if x > 0 {
      BitLengthBounds(x / 2);
    }
  }

  /** The least exponent, not below that of the format, at which x has no more than `precision` bits. */
  function Exponent(x: nat, f: Format): nat {
    if BitLength(x) <= f.least + f.precision then f.least else BitLength(x) - f.precision
  }

  lemma ExponentFits(x: nat, f: Format)
    requires Proper(f)
    ensures Exponent(x, f) >= f.least
    ensures x < Pow2(Exponent(x, f) + f.precision)
    ensures Exponent(x, f) > f.least ==> x >= Pow2(Exponent(x, f) + f.precision - 1)
  {
    BitLengthBounds(x);
    if BitLength(x) <= f.least + f.precision {
      Pow2Grows(BitLength(x), f.least + f.precision);
    }
  }

  lemma ExponentLeast(x: nat, f: Format, k: nat)
    requires Proper(f) && k >= f.least && x < Pow2(k + f.precision)
    ensures Exponent(x, f) <= k
  {
    BitLengthBounds(x);
    if BitLength(x) > k + f.precision {
      Pow2Grows(k + f.precision, BitLength(x) - 1);
    }
  }

  lemma ExponentMost(x: nat, f: Format, k: nat)
    requires Proper(f) && x >= Pow2(k + f.precision - 1)
    ensures Exponent(x, f) >= k
  {
    ExponentFits(x, f);
    if Exponent(x, f) < k {
      Pow2Grows(Exponent(x, f) + f.precision, k + f.precision - 1);
    }
  }

  // ---------- Rounding ----------

  /** The number n * 2^k, n being at most 2^precision: a full one moves to the next exponent, and what is beyond the last
      one is infinite. */
  function Normal(negative: bool, n: nat, k: nat, f: Format): Fp
    requires Proper(f)
  {
    var full := n >= Pow2(f.precision);
    if k > f.most || (full && k == f.most) then Infinite(negative)
    else if full then Finite(negative, Pow2(f.precision - 1), k + 1)
    else Finite(negative, n, k)
  }

  /** p / q units, rounded to the format. */
  function Rounded(negative: bool, p: nat, q: nat, f: Format): Fp
    requires Proper(f) && q > 0
  {
    var k := Exponent(Floor(p, q), f);
    Normal(negative, NearestEven(p, q * Pow2(k)), k, f)
  }

  /** w steps of g, compared with p / q. */
  lemma StepsBelow(p: nat, q: nat, g: nat, w: nat, d: nat)
    requires q > 0 && d > 0 && d == q * g
    ensures Floor(p, q) < w * g <==> Floor(p, d) < w
  {
    FloorBelow(p, q, w * g);
    assert w * g * q == w * (q * g);
    FloorBelow(p, d, w);
  }

  /** The bounds of a significand before normalisation. */
  lemma SignificandBounds(p: nat, q: nat, g: nat, h: nat, w: nat)
    requires q > 0 && g > 0 && Floor(p, q) < w * g
    ensures NearestEven(p, q * g) <= w
    ensures Floor(p, q) >= h * g ==> NearestEven(p, q * g) >= h
  {
    var d := q * g;
    MulMonotone(1, q, g);
    StepsBelow(p, q, g, w, d);
    StepsBelow(p, q, g, h, d);
  }

  /** Where p / q is rounded: the exponent, and the bounds of the significand. */
  lemma RoundedAt(p: nat, q: nat, f: Format) returns (k: nat, n: nat)
    requires Proper(f) && q > 0
    ensures k == Exponent(Floor(p, q), f) >= f.least && n == NearestEven(p, q * Pow2(k)) <= Pow2(f.precision)
    ensures k > f.least ==> n >= Pow2(f.precision - 1)
  {
    k := Exponent(Floor(p, q), f);
    n := NearestEven(p, q * Pow2(k));
    ExponentFits(Floor(p, q), f);
    Pow2Sum(f.precision, k);
    Pow2Sum(f.precision - 1, k);
    SignificandBounds(p, q, Pow2(k), Pow2(f.precision - 1), Pow2(f.precision));
  }

  lemma RoundedEncoded(r: Fp, negative: bool, p: nat, q: nat, f: Format)
    requires Proper(f) && q > 0 && r == Rounded(negative, p, q, f)
    ensures Encoded(r, f)
  {
    var k, n := RoundedAt(p, q, f);
  }

  /** The units of a finite result. */
  lemma NormalUnits(negative: bool, n: nat, k: nat, f: Format)
    requires Proper(f) && n <= Pow2(f.precision) && Normal(negative, n, k, f).Finite?
    ensures Units(Normal(negative, n, k, f)) == n * Pow2(k)
  {
    if n == Pow2(f.precision) {
      Pow2Sum(f.precision - 1, k + 1);
      Pow2Sum(f.precision, k);
    }
  }

  lemma Regroup(n: nat, g: nat, q: nat, d: nat)
    requires d == q * g
    ensures n * g * q == n * d
  {
    assert n * g * q == n * (q * g);
  }

  /** The multiples of g, compared with p / q. */
  lemma StepsNear(p: nat, q: nat, g: nat, m: nat)
    requires q > 0 && g > 0
    ensures Magnitude(p - NearestEven(p, q * g) * g * q) <= Magnitude(p - m * g * q)
  {
    var d := q * g;
    MulMonotone(1, q, g);
    Regroup(NearestEven(p, d), g, q, d);
    Regroup(m, g, q, d);
    NearestEvenNear(p, d, m);
  }

  lemma UnitsBelow(z: Fp, f: Format, k: nat)
    requires Proper(f) && z.Finite? && Encoded(z, f) && z.exponent < k
    ensures Units(z) <= Pow2(f.precision - 1) * Pow2(k)
  {
    MulMonotone(z.significand, Pow2(f.precision), Pow2(z.exponent));
    Pow2Sum(f.precision, z.exponent);
    Pow2Grows(f.precision + z.exponent, f.precision - 1 + k);
    Pow2Sum(f.precision - 1, k);
  }

  lemma UnitsAbove(z: Fp, k: nat) returns (m: nat)
    requires z.Finite? && z.exponent >= k
    ensures Units(z) == m * Pow2(k)
  {
    m := z.significand * Pow2(z.exponent - k);
    Pow2Sum(z.exponent - k, k);
    assert z.significand * (Pow2(z.exponent - k) * Pow2(k)) == m * Pow2(k);
  }

  /** No number of the format is nearer to p / q than a finite result. */
  lemma RoundedNearest(r: Fp, negative: bool, p: nat, q: nat, f: Format, z: Fp)
    requires Proper(f) && q > 0 && r == Rounded(negative, p, q, f) && r.Finite?
    requires z.Finite? && Encoded(z, f)
    ensures r.negative == negative && Magnitude(p - Units(r) * q) <= Magnitude(p - Units(z) * q)
  {
    var k, n := RoundedAt(p, q, f);
    NormalUnits(negative, n, k, f);
    if z.exponent >= k {
      var m := UnitsAbove(z, k);
      StepsNear(p, q, Pow2(k), m);
    } else {
      ExponentFits(Floor(p, q), f);
      UnitsBelow(z, f, k);
      TopIsNearer(p, q, Pow2(k), Pow2(f.precision - 1), Units(z), f.precision, k);
    }
  }

  lemma TopIsNearer(p: nat, q: nat, g: nat, h: nat, y: nat, precision: nat, k: nat)
    requires q > 0 && precision > 0 && g == Pow2(k) && h == Pow2(precision - 1)
    requires Floor(p, q) >= Pow2(k + precision - 1) && y <= h * g
    ensures Magnitude(p - NearestEven(p, q * g) * g * q) <= Magnitude(p - y * q)
  {
    Pow2Sum(precision - 1, k);
    StepsNear(p, q, g, h);
    FloorBelow(p, q, h * g);
    MulMonotone(y, h * g, q);
  }

  /** A number of the format is not changed. */
  lemma RoundedExact(x: Fp, f: Format)
    requires Proper(f) && x.Finite? && Encoded(x, f)
    ensures Rounded(x.negative, Units(x), 1, f) == x
  {
    var n, k, u := x.significand, x.exponent, Units(x);
    FloorUnique(u, 1, u);
    ExponentOf(n, k, f, u);
    assert 1 * Pow2(k) == Pow2(k);
    NearestEvenExact(n, Pow2(k), u);
  }

  lemma ExponentOf(n: nat, k: nat, f: Format, u: nat)
    requires Proper(f) && n < Pow2(f.precision) && k >= f.least && u == n * Pow2(k)
    requires n < Pow2(f.precision - 1) ==> k == f.least
    ensures Exponent(u, f) == k
  {
    StepsApart(n, Pow2(f.precision), Pow2(k));
    Pow2Sum(f.precision, k);
    ExponentLeast(u, f, k);
    if k > f.least {
      MulMonotone(Pow2(f.precision - 1), n, Pow2(k));
      Pow2Sum(f.precision - 1, k);
      ExponentMost(u, f, k);
    } else {
      ExponentFits(u, f);
    }
  }

  // ---------- Operations on doubles ----------

  function Negate(x: Fp): Fp {
    match x
    case Finite(s, n, k) => Finite(!s, n, k)
    case Infinite(s) => Infinite(!s)
    case Nan(s) => Nan(!s)
  }

  function Add(x: Fp, y: Fp): Fp {
    if x.Nan? || (x.Infinite? && y.Finite?) then x
    else if y.Nan? || (x.Finite? && y.Infinite?) then y
    else if x.Infinite? then (if x == y then x else INVALID)
    else Sum(x, y)
  }

  function Sum(x: Fp, y: Fp): Fp
    requires x.Finite? && y.Finite?
  {
    var sum := Amount(x) + Amount(y);
    if sum == 0 then Finite(x.negative && y.negative, 0, 0) else Rounded(sum < 0, Magnitude(sum), 1, DOUBLE)
  }

  function Sub(x: Fp, y: Fp): Fp {
    if y.Nan? then Add(x, y) else Add(x, Negate(y))
  }

  /** a / b * 2^shift units as a fraction. */
  function Dividend(a: nat, shift: int): nat {
    if shift >= 0 then a * Pow2(shift) else a
  }

  function Divisor(b: nat, shift: int): nat {
    if shift >= 0 then b else b * Pow2(-shift)
  }

  lemma DivisorPositive(b: nat, shift: int)
    requires b > 0
    ensures Divisor(b, shift) > 0
  {
    if shift < 0 {
      MulMonotone(1, b, Pow2(-shift));
    }
  }

  function Scaled(negative: bool, a: nat, b: nat, shift: int): Fp
    requires b > 0
  {
    DivisorPositive(b, shift);
    Rounded(negative, Dividend(a, shift), Divisor(b, shift), DOUBLE)
  }

  function Product(x: Fp, y: Fp): Fp
    requires x.Finite? && y.Finite?
  {
    Scaled(x.negative != y.negative, x.significand * y.significand, 1, x.exponent + y.exponent - ONE)
  }

  function Quotient(x: Fp, y: Fp): Fp
    requires x.Finite? && y.Finite? && y.significand > 0
  {
    Scaled(x.negative != y.negative, x.significand, y.significand, x.exponent - y.exponent + ONE)
  }

  function Mul(x: Fp, y: Fp): Fp {
    var negative := x.negative != y.negative;
    if x.Nan? then x
    else if y.Nan? then y
    else if x.Finite? && y.Finite? then Product(x, y)
    else if (x.Finite? && x.significand == 0) || (y.Finite? && y.significand == 0) then INVALID
    else Infinite(negative)
  }

  function Div(x: Fp, y: Fp): Fp {
    var negative := x.negative != y.negative;
    if x.Nan? then x
    else if y.Nan? then y
    else if x.Infinite? then (if y.Infinite? then INVALID else Infinite(negative))
    else if y.Infinite? then Finite(negative, 0, 0)
    else if y.significand == 0 then (if x.significand == 0 then INVALID else Infinite(negative))
    else Quotient(x, y)
  }

  /** The conversion of a double to a float. */
  function Narrow(x: Fp): Fp {
    if x.Finite? then Rounded(x.negative, Units(x), 1, SINGLE) else x
  }

  lemma ZeroEncoded(negative: bool)
    ensures Encoded(Finite(negative, 0, 0), DOUBLE)
  {
  }

  lemma SumEncoded(x: Fp, y: Fp)
    requires x.Finite? && y.Finite?
    ensures Encoded(Sum(x, y), DOUBLE)
  {
    var sum := Amount(x) + Amount(y);
    if sum == 0 {
      ZeroEncoded(x.negative && y.negative);
    } else {
      RoundedEncoded(Sum(x, y), sum < 0, Magnitude(sum), 1, DOUBLE);
    }
  }

  lemma ScaledEncoded(r: Fp, negative: bool, a: nat, b: nat, shift: int)
    requires b > 0 && r == Scaled(negative, a, b, shift)
    ensures Encoded(r, DOUBLE)
  {
    DivisorPositive(b, shift);
    RoundedEncoded(r, negative, Dividend(a, shift), Divisor(b, shift), DOUBLE);
  }

  lemma ProductEncoded(x: Fp, y: Fp)
    requires x.Finite? && y.Finite?
    ensures Encoded(Product(x, y), DOUBLE)
  {
    ScaledEncoded(Product(x, y), x.negative != y.negative, x.significand * y.significand, 1,
      x.exponent + y.exponent - ONE);
  }

  lemma QuotientEncoded(x: Fp, y: Fp)
    requires x.Finite? && y.Finite? && y.significand > 0
    ensures Encoded(Quotient(x, y), DOUBLE)
  {
    ScaledEncoded(Quotient(x, y), x.negative != y.negative, x.significand, y.significand,
      x.exponent - y.exponent + ONE);
  }

  lemma AddEncoded(x: Fp, y: Fp)
    requires Encoded(x, DOUBLE) && Encoded(y, DOUBLE)
    ensures Encoded(Add(x, y), DOUBLE)
  {
    if x.Finite? && y.Finite? {
      SumEncoded(x, y);
    }
  }

  lemma SubEncoded(x: Fp, y: Fp)
    requires Encoded(x, DOUBLE) && Encoded(y, DOUBLE)
    ensures Encoded(Sub(x, y), DOUBLE)
  {
    AddEncoded(x, y);
    AddEncoded(x, Negate(y));
  }

  lemma MulEncoded(x: Fp, y: Fp)
    ensures Encoded(Mul(x, y), DOUBLE)
  {
    if x.Finite? && y.Finite? {
      ProductEncoded(x, y);
    }
  }

  lemma DivEncoded(x: Fp, y: Fp)
    ensures Encoded(Div(x, y), DOUBLE)
  {
    ZeroEncoded(x.negative != y.negative);
    if x.Finite? && y.Finite? && y.significand > 0 {
      QuotientEncoded(x, y);
    }
  }

  lemma NarrowEncoded(x: Fp)
    ensures Encoded(Narrow(x), SINGLE)
  {
    if x.Finite? {
      RoundedEncoded(Narrow(x), x.negative, Units(x), 1, SINGLE);
    }
  }

  // ---------- Every finite result is the nearest number ----------

  /** No double z is nearer to the sum than the result. */
  lemma SumNearest(x: Fp, y: Fp, z: Fp)
    requires x.Finite? && y.Finite? && Sum(x, y).Finite? && z.Finite? && Encoded(z, DOUBLE)
    ensures Magnitude(Amount(x) + Amount(y) - Amount(Sum(x, y))) <= Magnitude(Amount(x) + Amount(y) - Amount(z))
  {
    if Amount(x) + Amount(y) == 0 {
      assert Units(Sum(x, y)) == 0;
    } else {
      RoundedSumNearest(Amount(x) + Amount(y), Sum(x, y), z);
    }
  }

  lemma RoundedSumNearest(sum: int, r: Fp, z: Fp)
    requires r == Rounded(sum < 0, Magnitude(sum), 1, DOUBLE) && r.Finite? && z.Finite? && Encoded(z, DOUBLE)
    ensures Magnitude(sum - Amount(r)) <= Magnitude(sum - Amount(z))
  {
    ZeroEncoded(false);
    RoundedNearest(r, sum < 0, Magnitude(sum), 1, DOUBLE, ZERO);
    RoundedNearest(r, sum < 0, Magnitude(sum), 1, DOUBLE, z);
    SignedNearest(sum, r, z);
  }

  /** With signs: what is on the other side of zero is farther than zero itself. */
  lemma SignedNearest(sum: int, r: Fp, z: Fp)
    requires r.Finite? && z.Finite? && r.negative == (sum < 0)
    requires Magnitude(Magnitude(sum) - Units(r) * 1) <= Magnitude(Magnitude(sum) - Units(ZERO) * 1)
    requires Magnitude(Magnitude(sum) - Units(r) * 1) <= Magnitude(Magnitude(sum) - Units(z) * 1)
    ensures Magnitude(sum - Amount(r)) <= Magnitude(sum - Amount(z))
  {
    assert Units(ZERO) == 0;
  }

  /** p / q units is the exact product. */
  lemma ProductNearest(x: Fp, y: Fp, z: Fp)
    requires x.Finite? && y.Finite? && Product(x, y).Finite? && z.Finite? && Encoded(z, DOUBLE)
    ensures Product(x, y).negative == (x.negative != y.negative)
    ensures var shift := x.exponent + y.exponent - ONE;
      var p, q := Dividend(x.significand * y.significand, shift), Divisor(1, shift);
      Magnitude(p - Units(Product(x, y)) * q) <= Magnitude(p - Units(z) * q)
  {
    var shift := x.exponent + y.exponent - ONE;
    DivisorPositive(1, shift);
    RoundedNearest(Product(x, y), x.negative != y.negative, Dividend(x.significand * y.significand, shift), Divisor(1, shift),
      DOUBLE, z);
  }

  /** p / q units is the exact quotient. */
  lemma QuotientNearest(x: Fp, y: Fp, z: Fp)
    requires x.Finite? && y.Finite? && y.significand > 0 && Quotient(x, y).Finite? && z.Finite? && Encoded(z, DOUBLE)
    ensures Quotient(x, y).negative == (x.negative != y.negative)
    ensures var shift := x.exponent - y.exponent + ONE;
      var p, q := Dividend(x.significand, shift), Divisor(y.significand, shift);
      Magnitude(p - Units(Quotient(x, y)) * q) <= Magnitude(p - Units(z) * q)
  {
    var shift := x.exponent - y.exponent + ONE;
    DivisorPositive(y.significand, shift);
    RoundedNearest(Quotient(x, y), x.negative != y.negative, Dividend(x.significand, shift), Divisor(y.significand, shift),
      DOUBLE, z);
  }

  /** The opposite number, infinity or NaN. */
  lemma NegateOpposite(x: Fp)
    ensures Negate(x).negative != x.negative
    ensures x.Finite? ==> Negate(x).Finite? && Amount(Negate(x)) == -Amount(x)
    ensures (x.Infinite? ==> Negate(x).Infinite?) && (x.Nan? ==> Negate(x).Nan?)
    ensures Negate(Negate(x)) == x
  {
  }

  lemma AddNearest(x: Fp, y: Fp, z: Fp)
    requires x.Finite? && y.Finite? && Add(x, y).Finite? && z.Finite? && Encoded(z, DOUBLE)
    ensures Magnitude(Amount(x) + Amount(y) - Amount(Add(x, y))) <= Magnitude(Amount(x) + Amount(y) - Amount(z))
  {
    SumNearest(x, y, z);
  }

  /** No double is nearer to the difference than the result. */
  lemma SubNearest(x: Fp, y: Fp, z: Fp)
    requires x.Finite? && y.Finite? && Sub(x, y).Finite? && z.Finite? && Encoded(z, DOUBLE)
    ensures Magnitude(Amount(x) - Amount(y) - Amount(Sub(x, y))) <= Magnitude(Amount(x) - Amount(y) - Amount(z))
  {
    NegateOpposite(y);
    AddNearest(x, Negate(y), z);
  }

  lemma Grouping(a: int, b: int, c: int)
    ensures a * b * c == a * (b * c)
  {
  }

  lemma FourFactors(a: int, u: int, b: int, v: int)
    ensures a * u * (b * v) == a * b * (u * v)
  {
    Grouping(a, u, b * v);
    Grouping(u, b, v);
    Grouping(b, u, v);
    Grouping(a, b, u * v);
  }

  lemma ShiftedProduct(a: nat, i: nat, b: nat, j: nat)
    ensures a * Pow2(i) * (b * Pow2(j)) == a * b * Pow2(i + j)
  {
    Pow2Sum(i, j);
    FourFactors(a, Pow2(i), b, Pow2(j));
  }

  /** Both sides of a comparison of distances, in smaller units. */
  lemma ScaledDistance(p: int, u: int, w: int, c: nat)
    requires Magnitude(p - u) <= Magnitude(p - w)
    ensures Magnitude(p * c - u * c) <= Magnitude(p * c - w * c)
  {
    assert p * c - u * c == (p - u) * c && p * c - w * c == (p - w) * c;
    MagnitudeTimes(p - u, c);
    MagnitudeTimes(p - w, c);
    MulMonotone(Magnitude(p - u), Magnitude(p - w), c);
  }

  lemma MagnitudeTimes(d: int, c: nat)
    ensures Magnitude(d * c) == Magnitude(d) * c
  {
    if d < 0 {
      assert -d * c == -(d * c);
      MulMonotone(d, 0, c);
    } else {
      MulMonotone(0, d, c);
    }
  }

  /** Dividend and divisor of a scaled fraction, brought to the units of the operands. */
  lemma DividendIn(a: nat, shift: int, i: nat, j: nat)
    requires i == j + shift
    ensures Dividend(a, shift) * Pow2(if shift >= 0 then j else i) == a * Pow2(i)
  {
    if shift >= 0 {
      Pow2Sum(shift, j);
      Grouping(a, Pow2(shift), Pow2(j));
    }
  }

  lemma DivisorIn(b: nat, shift: int, i: nat, j: nat)
    requires i == j + shift
    ensures Divisor(b, shift) * Pow2(if shift >= 0 then j else i) == b * Pow2(j)
  {
    if shift < 0 {
      Pow2Sum(-shift, i);
      Grouping(b, Pow2(-shift), Pow2(i));
    }
  }

  lemma SameFraction(p: int, q: int, c: nat, a: int, b: int, u: int, w: int)
    requires p * c == a && q * c == b && Magnitude(p - u * q) <= Magnitude(p - w * q)
    ensures Magnitude(a - u * b) <= Magnitude(a - w * b)
  {
    ScaledDistance(p, u * q, w * q, c);
    Grouping(u, q, c);
    Grouping(w, q, c);
  }

  /** A fraction a * 2^i / (b * 2^j), and a number nearest to it. */
  lemma FractionNearest(a: nat, b: nat, i: nat, j: nat, n: int, d: int, u: nat, w: nat)
    requires n == a * Pow2(i) && d == b * Pow2(j)
    requires var p, q := Dividend(a, i - j), Divisor(b, i - j); Magnitude(p - u * q) <= Magnitude(p - w * q)
    ensures Magnitude(n - u * d) <= Magnitude(n - w * d)
  {
    DividendIn(a, i - j, i, j);
    DivisorIn(b, i - j, i, j);
    SameFraction(Dividend(a, i - j), Divisor(b, i - j), Pow2(if i >= j then j else i), n, d, u, w);
  }

  /** u is nearest to the product of x and y, as a fraction. */
  predicate NearProduct(x: Fp, y: Fp, u: nat, w: nat, shift: int)
    requires x.Finite? && y.Finite?
  {
    var p, q := Dividend(x.significand * y.significand, shift), Divisor(1, shift);
    Magnitude(p - u * q) <= Magnitude(p - w * q)
  }

  predicate NearQuotient(x: Fp, y: Fp, u: nat, w: nat, shift: int)
    requires x.Finite? && y.Finite?
  {
    var p, q := Dividend(x.significand, shift), Divisor(y.significand, shift);
    Magnitude(p - u * q) <= Magnitude(p - w * q)
  }

  lemma MulIsNear(x: Fp, y: Fp, z: Fp)
    requires x.Finite? && y.Finite? && Mul(x, y).Finite? && z.Finite? && Encoded(z, DOUBLE)
    ensures Mul(x, y).negative == (x.negative != y.negative)
    ensures NearProduct(x, y, Units(Mul(x, y)), Units(z), x.exponent + y.exponent - ONE)
  {
    ProductNearest(x, y, z);
  }

  lemma DivIsNear(x: Fp, y: Fp, z: Fp)
    requires x.Finite? && y.Finite? && y.significand > 0 && Div(x, y).Finite? && z.Finite? && Encoded(z, DOUBLE)
    ensures Div(x, y).negative == (x.negative != y.negative)
    ensures NearQuotient(x, y, Units(Div(x, y)), Units(z), x.exponent - y.exponent + ONE)
  {
    QuotientNearest(x, y, z);
  }

  lemma ProductNear(x: Fp, y: Fp, u: nat, w: nat, k: nat, one: nat)
    requires x.Finite? && y.Finite? && one == Pow2(k) && NearProduct(x, y, u, w, x.exponent + y.exponent - k)
    ensures Magnitude(Units(x) * Units(y) - u * one) <= Magnitude(Units(x) * Units(y) - w * one)
  {
    var a := x.significand * y.significand;
    var n := ProductUnits(x, y, a);
    FractionNearest(a, 1, x.exponent + y.exponent, k, n, one, u, w);
  }

  lemma QuotientNear(x: Fp, y: Fp, u: nat, w: nat, k: nat, one: nat)
    requires x.Finite? && y.Finite? && one == Pow2(k) && NearQuotient(x, y, u, w, x.exponent - y.exponent + k)
    ensures Magnitude(Units(x) * one - u * Units(y)) <= Magnitude(Units(x) * one - w * Units(y))
  {
    var n := RaisedUnits(x, k, one);
    FractionNearest(x.significand, y.significand, x.exponent + k, y.exponent, n, Units(y), u, w);
  }

  lemma ProductUnits(x: Fp, y: Fp, a: nat) returns (n: nat)
    requires x.Finite? && y.Finite? && a == x.significand * y.significand
    ensures n == Units(x) * Units(y) == a * Pow2(x.exponent + y.exponent)
  {
    ShiftedProduct(x.significand, x.exponent, y.significand, y.exponent);
    n := Units(x) * Units(y);
  }

  lemma RaisedUnits(x: Fp, k: nat, one: nat) returns (n: nat)
    requires x.Finite? && one == Pow2(k)
    ensures n == Units(x) * one == x.significand * Pow2(x.exponent + k)
  {
    ShiftedProduct(x.significand, x.exponent, 1, k);
    n := Units(x) * one;
  }

  /** No double is nearer to the product than the result, which has the sign of the product, zero included; `one` is the
      number 1, in which the product is measured. */
  lemma MulNearest(x: Fp, y: Fp, z: Fp, k: nat, one: nat)
    requires x.Finite? && y.Finite? && Mul(x, y).Finite? && z.Finite? && Encoded(z, DOUBLE) && k == ONE && one == Pow2(k)
    ensures Mul(x, y).negative == (x.negative != y.negative)
    ensures Magnitude(Units(x) * Units(y) - Units(Mul(x, y)) * one) <= Magnitude(Units(x) * Units(y) - Units(z) * one)
  {
    MulIsNear(x, y, z);
    ProductNear(x, y, Units(Mul(x, y)), Units(z), k, one);
  }

  /** No double is nearer to the quotient than the result, which has the sign of the quotient, zero included. */
  lemma DivNearest(x: Fp, y: Fp, z: Fp, k: nat, one: nat)
    requires x.Finite? && y.Finite? && y.significand > 0 && Div(x, y).Finite? && z.Finite? && Encoded(z, DOUBLE)
    requires k == ONE && one == Pow2(k)
    ensures Div(x, y).negative == (x.negative != y.negative)
    ensures Magnitude(Units(x) * one - Units(Div(x, y)) * Units(y)) <= Magnitude(Units(x) * one - Units(z) * Units(y))
  {
    DivIsNear(x, y, z);
    QuotientNear(x, y, Units(Div(x, y)), Units(z), k, one);
  }

  // ---------- Infinities, NaNs and zeros ----------

  predicate IsZero(x: Fp) {
    x.Finite? && x.significand == 0
  }

  /** A NaN operand is the result, the left one first. Opposite infinities have no sum, and the result is the NaN with
      its sign set; else an infinity is the sum. A sum that is exactly zero is negative if both operands are. */
  lemma AddSpecial(x: Fp, y: Fp)
    ensures x.Nan? ==> Add(x, y) == x
    ensures !x.Nan? && y.Nan? ==> Add(x, y) == y
    ensures x.Infinite? && y.Infinite? && x.negative != y.negative ==> Add(x, y) == Nan(true)
    ensures x.Infinite? && (y.Finite? || y == x) ==> Add(x, y) == x
    ensures x.Finite? && y.Infinite? ==> Add(x, y) == y
    ensures x.Finite? && y.Finite? && Amount(x) + Amount(y) == 0 ==>
      IsZero(Add(x, y)) && Add(x, y).negative == (x.negative && y.negative)
    ensures x.Finite? && y.Finite? ==> !Add(x, y).Nan?
  {
  }

  lemma SubSpecial(x: Fp, y: Fp)
    ensures x.Nan? ==> Sub(x, y) == x
    ensures !x.Nan? && y.Nan? ==> Sub(x, y) == y
    ensures x.Infinite? && y == x ==> Sub(x, y) == Nan(true)
    ensures x.Infinite? && (y.Finite? || (y.Infinite? && y != x)) ==> Sub(x, y) == x
    ensures x.Finite? && y.Infinite? ==> Sub(x, y) == Infinite(!y.negative)
    ensures x.Finite? && y.Finite? && Amount(x) == Amount(y) ==>
      IsZero(Sub(x, y)) && Sub(x, y).negative == (x.negative && !y.negative)
    ensures x.Finite? && y.Finite? ==> !Sub(x, y).Nan?
  {
  }

  lemma MulSpecial(x: Fp, y: Fp)
    ensures x.Nan? ==> Mul(x, y) == x
    ensures !x.Nan? && y.Nan? ==> Mul(x, y) == y
    ensures (x.Infinite? && IsZero(y)) || (IsZero(x) && y.Infinite?) ==> Mul(x, y) == Nan(true)
    ensures !x.Nan? && !y.Nan? && !IsZero(x) && !IsZero(y) && (x.Infinite? || y.Infinite?) ==>
      Mul(x, y) == Infinite(x.negative != y.negative)
    ensures x.Finite? && y.Finite? ==> !Mul(x, y).Nan?
  {
  }

  lemma DivSpecial(x: Fp, y: Fp)
    ensures x.Nan? ==> Div(x, y) == x
    ensures !x.Nan? && y.Nan? ==> Div(x, y) == y
    ensures (x.Infinite? && y.Infinite?) || (IsZero(x) && IsZero(y)) ==> Div(x, y) == Nan(true)
    ensures (x.Infinite? && y.Finite?) || (x.Finite? && !IsZero(x) && IsZero(y)) ==>
      Div(x, y) == Infinite(x.negative != y.negative)
    ensures x.Finite? && y.Infinite? ==> IsZero(Div(x, y)) && Div(x, y).negative == (x.negative != y.negative)
    ensures x.Finite? && y.Finite? && !IsZero(y) ==> !Div(x, y).Nan?
  {
  }

  /** No float z is nearer to a number than the one it is narrowed to. */
  lemma NarrowNearest(x: Fp, z: Fp)
    requires x.Finite? && Narrow(x).Finite? && z.Finite? && Encoded(z, SINGLE)
    ensures Narrow(x).negative == x.negative
    ensures Magnitude(Units(x) - Units(Narrow(x))) <= Magnitude(Units(x) - Units(z))
  {
    RoundedNearest(Narrow(x), x.negative, Units(x), 1, SINGLE, z);
  }

  /** The sign stays, whatever becomes of the number. */
  lemma NarrowSign(x: Fp)
    ensures Narrow(x).negative == x.negative
    ensures !x.Finite? ==> Narrow(x) == x
  {
    if x.Finite? {
      var k, n := RoundedAt(Units(x), 1, SINGLE);
    }
  }

  /** Floats are not changed by narrowing. */
  lemma NarrowTwice(x: Fp)
    ensures Narrow(Narrow(x)) == Narrow(x)
  {
    NarrowEncoded(x);
    if Narrow(x).Finite? {
      RoundedExact(Narrow(x), SINGLE);
    }
  }

  // ---------- From double to float ----------

  /** Both operands of a rounding can be divided by a common factor. */
  lemma NearestEvenCancels(p: nat, d: nat, c: nat, pc: nat, dc: nat)
    requires d > 0 && c > 0 && pc == p * c && dc == d * c && dc > 0
    ensures NearestEven(pc, dc) == NearestEven(p, d)
  {
    var n := Floor(p, d);
    FloorSpec(p, d);
    var r := p - n * d;
    Regroup(n, d, c, dc);
    assert p * c == n * d * c + r * c by {
      assert (n * d + r) * c == n * d * c + r * c;
    }
    ComparesCancelled(r, d, c);
    FloorUnique(pc, dc, n);
  }

  lemma ComparesCancelled(r: nat, d: nat, c: nat)
    requires c > 0 && r < d
    ensures 0 <= r * c < d * c
    ensures 2 * r < d <==> 2 * (r * c) < d * c
    ensures 2 * r == d <==> 2 * (r * c) == d * c
  {
    StepsApart(r, d, c);
    MulMonotone(0, r, c);
    assert 2 * r * c == 2 * (r * c);
    if 2 * r < d {
      StepsApart(2 * r, d, c);
    } else if 2 * r > d {
      StepsApart(d, 2 * r, c);
    }
  }

  /** n, divided by two halves, reaches 2 * w from a half below it on. */
  lemma OverflowAtTop(n: nat, half: nat, w: nat)
    requires half > 0 && w > 0 && n < 2 * half * (2 * w)
    ensures NearestEven(n, 2 * half) >= 2 * w <==> n >= 2 * half * (2 * w) - half
  {
    var d := 2 * half;
    var q := Floor(n, d);
    FloorSpec(n, d);
    assert 2 * half * (2 * w) == (2 * w) * d && (2 * w - 1) * d == (2 * w) * d - d;
    FloorBelow(n, d, 2 * w);
    if q < 2 * w - 1 {
      StepsApart(q, 2 * w - 1, d);
    }
  }

  /** The number n * 2^e, whose exponent in the format is k. */
  lemma RoundedFrom(negative: bool, n: nat, e: nat, f: Format, k: nat)
    requires Proper(f) && k == Exponent(n * Pow2(e), f) && k >= e
    ensures Rounded(negative, n * Pow2(e), 1, f) == Normal(negative, NearestEven(n, Pow2(k - e)), k, f)
  {
    var u := n * Pow2(e);
    FloorUnique(u, 1, u);
    Pow2Sum(k - e, e);
    NearestEvenCancels(n, Pow2(k - e), Pow2(e), u, 1 * Pow2(k));
  }

  /** In the last exponent: `drop` bits are lost, and rounding up to the next power of two overflows. */
  lemma OverflowsInLast(negative: bool, n: nat, f: Format, drop: nat)
    requires Proper(f) && 0 < drop < f.most && Pow2(f.precision + drop - 1) <= n < Pow2(f.precision + drop)
    ensures Rounded(negative, n * Pow2(f.most - drop), 1, f).Infinite?
      <==> n >= Pow2(f.precision + drop) - Pow2(drop - 1)
  {
    var e := f.most - drop;
    UnitsBounds(n, f.precision + drop, e, f, f.most, n * Pow2(e));
    RoundedFrom(negative, n, e, f, f.most);
    Pow2Sum(drop, f.precision);
    OverflowAtTop(n, Pow2(drop - 1), Pow2(f.precision - 1));
  }

  /** The exponent of a number u of up to `size` bits, shifted by e. */
  lemma UnitsBounds(n: nat, size: nat, e: nat, f: Format, k: nat, u: nat)
    requires Proper(f) && k >= f.least && size > 0 && size + e == f.precision + k
    requires n < Pow2(size) && u == n * Pow2(e)
    ensures Exponent(u, f) <= k
    ensures n >= Pow2(size - 1) ==> Exponent(u, f) == k
  {
    StepsApart(n, Pow2(size), Pow2(e));
    Pow2Sum(size, e);
    ExponentLeast(u, f, k);
    if n >= Pow2(size - 1) {
      MulMonotone(Pow2(size - 1), n, Pow2(e));
      Pow2Sum(size - 1, e);
      ExponentMost(u, f, k);
    }
  }

  /** A number with `drop` more bits than the format overflows from half a step below the end on. */
  lemma Overflows(x: Fp, f: Format, drop: nat)
    requires Proper(f) && 0 < drop < f.most && x.Finite? && x.significand < Pow2(f.precision + drop)
    requires x.exponent > 0 ==> x.significand >= Pow2(f.precision + drop - 1)
    ensures Rounded(x.negative, Units(x), 1, f).Infinite? <==>
      (x.exponent > f.most - drop
        || (x.exponent == f.most - drop && x.significand >= Pow2(f.precision + drop) - Pow2(drop - 1)))
  {
    var n, e := x.significand, x.exponent;
    var k := RoundedExponent(Units(x), f);
    if e == f.most - drop {
      OverflowsInLast(x.negative, n, f, drop);
    } else if e > f.most - drop {
      UnitsBounds(n, f.precision + drop, e, f, e + drop, Units(x));
    } else {
      var last := if e + drop >= f.least then e + drop else f.least;
      Pow2Grows(f.precision + drop, f.precision + (last - e));
      UnitsBounds(n, f.precision + (last - e), e, f, last, Units(x));
    }
  }

  lemma RoundedExponent(u: nat, f: Format) returns (k: nat)
    requires Proper(f)
    ensures k == Exponent(u, f)
    ensures forall negative :: k > f.most ==> Rounded(negative, u, 1, f).Infinite?
    ensures forall negative :: k < f.most ==> Rounded(negative, u, 1, f).Finite?
  {
    k := Exponent(u, f);
    FloorUnique(u, 1, u);
  }

  /** A double becomes an infinite float from 2^128 - 2^103 on. */
  lemma NarrowOverflows(x: Fp)
    requires x.Finite? && Encoded(x, DOUBLE)
    ensures Narrow(x).Infinite? <==>
      (x.exponent > 1149 || (x.exponent == 1149 && x.significand >= 0x1F_FFFF_F000_0000))
  {
    SignificandSizes();
    Overflows(x, SINGLE, 29);
  }

  // ---------- Overflow and ties of the operations ----------

  /** Where the exponent is not the last one, it decides. */
  lemma ExponentDecides(u: nat, f: Format, g: nat, limit: nat, k: nat)
    requires Proper(f) && f.most > 0 && g == Pow2(f.most - 1) && k == Exponent(u, f)
    requires Pow2(f.precision) * g <= limit <= Pow2(f.precision) * (2 * g)
    ensures (k > f.most ==> u >= limit) && (k < f.most ==> u < limit)
    ensures k == f.most ==> u < Pow2(f.precision) * (2 * g)
  {
    ExponentFits(u, f);
    Pow2Sum(f.precision, f.most);
    Pow2Sum(f.precision, f.most - 1);
    if k > f.most {
      Pow2Grows(f.most + f.precision, k + f.precision - 1);
    } else if k < f.most {
      Pow2Grows(k + f.precision, f.most - 1 + f.precision);
    }
  }

  /** A result is infinite exactly from half a step above the largest number on. */
  lemma RoundedOverflows(r: Fp, negative: bool, p: nat, q: nat, f: Format, limit: nat)
    requires Proper(f) && f.most > 0 && q > 0 && r == Rounded(negative, p, q, f)
    requires limit == (2 * Pow2(f.precision) - 1) * Pow2(f.most - 1)
    ensures r.negative == negative && !r.Nan? && (r.Infinite? <==> p >= limit * q)
  {
    var w, g := Pow2(f.precision), Pow2(f.most - 1);
    LimitSteps(w, g, limit);
    ExponentDecides(Floor(p, q), f, g, limit, Exponent(Floor(p, q), f));
    FloorBelow(p, q, limit);
    if Exponent(Floor(p, q), f) == f.most {
      FloorBelow(p, q, w * (2 * g));
      LastOverflows(p, q, g, w, limit);
    }
  }

  lemma LimitSteps(w: nat, g: nat, limit: nat)
    requires w > 0 && limit == (2 * w - 1) * g
    ensures w * (2 * g) == 2 * (w * g) && limit == 2 * (w * g) - g && w * g <= limit
  {
    MulMonotone(1, w, g);
    assert (2 * w - 1) * g == 2 * (w * g) - g;
  }

  lemma LastOverflows(p: nat, q: nat, g: nat, w: nat, limit: nat)
    requires q > 0 && g > 0 && w > 0 && w % 2 == 0 && p < w * (2 * g) * q && limit == 2 * (w * g) - g
    ensures NearestEven(p, q * (2 * g)) >= w <==> p >= limit * q
  {
    var half := q * g;
    MulMonotone(1, q, g);
    assert q * (2 * g) == 2 * half;
    assert w * (2 * g) * q == 2 * half * w;
    assert limit * q == 2 * half * w - half;
    OverflowAtTop(p, half, w / 2);
  }

  /** For doubles 2^1024 - 2^970, half a step above the largest number. */
  predicate DoubleLimit(limit: nat, f: Format) {
    f == DOUBLE && limit == (2 * Pow2(f.precision) - 1) * Pow2(f.most - 1)
  }

  lemma DoubleOverflows(r: Fp, negative: bool, p: nat, q: nat, f: Format, limit: nat)
    requires q > 0 && r == Rounded(negative, p, q, DOUBLE) && DoubleLimit(limit, f)
    ensures r.negative == negative && !r.Nan? && (r.Infinite? <==> p >= limit * q)
  {
    RoundedOverflows(r, negative, p, q, f, limit);
  }

  /** A sum overflows exactly if its magnitude reaches the limit, and has the sign of the exact one. */
  lemma AddOverflows(x: Fp, y: Fp, f: Format, limit: nat)
    requires x.Finite? && y.Finite? && DoubleLimit(limit, f)
    ensures Add(x, y).Infinite? <==> Magnitude(Amount(x) + Amount(y)) >= limit
    ensures Amount(x) + Amount(y) != 0 ==> Add(x, y).negative == (Amount(x) + Amount(y) < 0)
  {
    var sum := Amount(x) + Amount(y);
    LimitSteps(Pow2(f.precision), Pow2(f.most - 1), limit);
    MulMonotone(1, Pow2(f.precision), Pow2(f.most - 1));
    if sum != 0 {
      DoubleOverflows(Add(x, y), sum < 0, Magnitude(sum), 1, f, limit);
    }
  }

  lemma SubOverflows(x: Fp, y: Fp, f: Format, limit: nat)
    requires x.Finite? && y.Finite? && DoubleLimit(limit, f)
    ensures Sub(x, y).Infinite? <==> Magnitude(Amount(x) - Amount(y)) >= limit
    ensures Amount(x) - Amount(y) != 0 ==> Sub(x, y).negative == (Amount(x) - Amount(y) < 0)
  {
    NegateOpposite(y);
    AddOverflows(x, Negate(y), f, limit);
  }

  /** Both sides of a comparison, in smaller units. */
  lemma CancelledBound(p: nat, q: nat, c: nat, n: nat, d: nat, limit: nat)
    requires c > 0 && p * c == n && q * c == d
    ensures p >= limit * q <==> n >= limit * d
  {
    Grouping(limit, q, c);
    if p >= limit * q {
      MulMonotone(limit * q, p, c);
    } else {
      StepsApart(p, limit * q, c);
    }
  }

  lemma FractionBound(a: nat, b: nat, i: nat, j: nat, n: nat, d: nat, limit: nat)
    requires n == a * Pow2(i) && d == b * Pow2(j)
    ensures Dividend(a, i - j) >= limit * Divisor(b, i - j) <==> n >= limit * d
  {
    DividendIn(a, i - j, i, j);
    DivisorIn(b, i - j, i, j);
    CancelledBound(Dividend(a, i - j), Divisor(b, i - j), Pow2(if i >= j then j else i), n, d, limit);
  }

  lemma ScaledOverflows(r: Fp, negative: bool, a: nat, b: nat, shift: int, f: Format, limit: nat)
    requires b > 0 && r == Scaled(negative, a, b, shift) && DoubleLimit(limit, f)
    ensures r.negative == negative && !r.Nan? && (r.Infinite? <==> Dividend(a, shift) >= limit * Divisor(b, shift))
  {
    DivisorPositive(b, shift);
    DoubleOverflows(r, negative, Dividend(a, shift), Divisor(b, shift), f, limit);
  }

  lemma MulLimit(x: Fp, y: Fp, f: Format, limit: nat)
    requires x.Finite? && y.Finite? && DoubleLimit(limit, f)
    ensures var shift := x.exponent + y.exponent - ONE;
      Mul(x, y).Infinite? <==> Dividend(x.significand * y.significand, shift) >= limit * Divisor(1, shift)
    ensures Mul(x, y).negative == (x.negative != y.negative)
  {
    ScaledOverflows(Mul(x, y), x.negative != y.negative, x.significand * y.significand, 1, x.exponent + y.exponent - ONE, f,
      limit);
  }

  lemma DivLimit(x: Fp, y: Fp, f: Format, limit: nat)
    requires x.Finite? && y.Finite? && y.significand > 0 && DoubleLimit(limit, f)
    ensures var shift := x.exponent - y.exponent + ONE;
      Div(x, y).Infinite? <==> Dividend(x.significand, shift) >= limit * Divisor(y.significand, shift)
    ensures Div(x, y).negative == (x.negative != y.negative)
  {
    ScaledOverflows(Div(x, y), x.negative != y.negative, x.significand, y.significand, x.exponent - y.exponent + ONE, f, limit);
  }

  lemma ProductBound(x: Fp, y: Fp, i: nat, one: nat, limit: nat)
    requires x.Finite? && y.Finite? && one == Pow2(i)
    ensures var shift := x.exponent + y.exponent - i;
      Dividend(x.significand * y.significand, shift) >= limit * Divisor(1, shift) <==> Units(x) * Units(y) >= limit * one
  {
    var n := ProductUnits(x, y, x.significand * y.significand);
    FractionBound(x.significand * y.significand, 1, x.exponent + y.exponent, i, n, one, limit);
  }

  lemma QuotientBound(x: Fp, y: Fp, i: nat, one: nat, limit: nat)
    requires x.Finite? && y.Finite? && one == Pow2(i)
    ensures var shift := x.exponent - y.exponent + i;
      Dividend(x.significand, shift) >= limit * Divisor(y.significand, shift) <==> Units(x) * one >= limit * Units(y)
  {
    var n := RaisedUnits(x, i, one);
    FractionBound(x.significand, y.significand, x.exponent + i, y.exponent, n, Units(y), limit);
  }

  /** A product overflows exactly if its magnitude, measured in `one`, reaches the limit. */
  lemma MulOverflows(x: Fp, y: Fp, i: nat, one: nat, f: Format, limit: nat)
    requires x.Finite? && y.Finite? && i == ONE && one == Pow2(i) && DoubleLimit(limit, f)
    ensures Mul(x, y).Infinite? <==> Units(x) * Units(y) >= limit * one
    ensures Mul(x, y).negative == (x.negative != y.negative)
  {
    MulLimit(x, y, f, limit);
    ProductBound(x, y, i, one, limit);
  }

  lemma DivOverflows(x: Fp, y: Fp, i: nat, one: nat, f: Format, limit: nat)
    requires x.Finite? && y.Finite? && y.significand > 0 && i == ONE && one == Pow2(i) && DoubleLimit(limit, f)
    ensures Div(x, y).Infinite? <==> Units(x) * one >= limit * Units(y)
    ensures Div(x, y).negative == (x.negative != y.negative)
  {
    DivLimit(x, y, f, limit);
    QuotientBound(x, y, i, one, limit);
  }

  lemma StepsTie(p: nat, q: nat, g: nat, m: nat, n: nat)
    requires q > 0 && g > 0 && n == NearestEven(p, q * g) && m != n
    requires Magnitude(p - n * g * q) == Magnitude(p - m * g * q)
    ensures n % 2 == 0
  {
    MulMonotone(1, q, g);
    Regroup(n, g, q, q * g);
    Regroup(m, g, q, q * g);
    NearestEvenNear(p, q * g, m);
  }

  /** What is below the numbers with the exponent of p / q is farther away than the least of them. */
  lemma BelowIsFarther(p: nat, q: nat, g: nat, h: nat, y: nat, n: nat)
    requires q > 0 && g > 0 && n == NearestEven(p, q * g) && Floor(p, q) >= h * g && y < h * g
    ensures Magnitude(p - n * g * q) < Magnitude(p - y * q)
  {
    StepsNear(p, q, g, h);
    FloorBelow(p, q, h * g);
    StepsApart(y, h * g, q);
  }

  /** If another number of the format is as near as the result, the result has an even significand. */
  lemma RoundedTies(r: Fp, negative: bool, p: nat, q: nat, f: Format, z: Fp)
    requires Proper(f) && q > 0 && r == Rounded(negative, p, q, f) && r.Finite?
    requires z.Finite? && Encoded(z, f) && Units(z) != Units(r)
    requires Magnitude(p - Units(r) * q) == Magnitude(p - Units(z) * q)
    ensures r.significand % 2 == 0
  {
    var k, n := RoundedAt(p, q, f);
    NormalUnits(negative, n, k, f);
    NormalEven(negative, n, k, f);
    if z.exponent >= k {
      var m := UnitsAbove(z, k);
      StepsTie(p, q, Pow2(k), m, n);
    } else {
      var h := Pow2(f.precision - 1);
      ExponentFits(Floor(p, q), f);
      UnitsBelow(z, f, k);
      Pow2Sum(f.precision - 1, k);
      if Units(z) < h * Pow2(k) {
        BelowIsFarther(p, q, Pow2(k), h, Units(z), n);
        assert false;
      } else {
        StepsTie(p, q, Pow2(k), h, n);
      }
    }
  }

  lemma NormalEven(negative: bool, n: nat, k: nat, f: Format)
    requires Proper(f) && n <= Pow2(f.precision) && Normal(negative, n, k, f).Finite?
    ensures n % 2 == 0 ==> Normal(negative, n, k, f).significand % 2 == 0
  {
    assert Pow2(f.precision - 1) == 2 * Pow2(f.precision - 2);
  }

  lemma SignedTie(sum: int, r: Fp, z: Fp)
    requires r.Finite? && z.Finite? && r.negative == (sum < 0) && Amount(z) != Amount(r)
    requires Magnitude(Magnitude(sum) - Units(r) * 1) <= Magnitude(Magnitude(sum) - Units(ZERO) * 1)
    requires Magnitude(sum - Amount(r)) == Magnitude(sum - Amount(z))
    ensures Units(z) != Units(r) && Magnitude(Magnitude(sum) - Units(r) * 1) == Magnitude(Magnitude(sum) - Units(z) * 1)
  {
    assert Units(ZERO) == 0;
  }

  lemma RoundedSumTie(sum: int, r: Fp, z: Fp)
    requires r == Rounded(sum < 0, Magnitude(sum), 1, DOUBLE) && r.Finite? && z.Finite? && Encoded(z, DOUBLE)
    requires Amount(z) != Amount(r) && Magnitude(sum - Amount(r)) == Magnitude(sum - Amount(z))
    ensures r.significand % 2 == 0
  {
    ZeroEncoded(false);
    RoundedNearest(r, sum < 0, Magnitude(sum), 1, DOUBLE, ZERO);
    SignedTie(sum, r, z);
    RoundedTies(r, sum < 0, Magnitude(sum), 1, DOUBLE, z);
  }

  /** If another double is as near to the sum as the result, the result has an even significand. */
  lemma AddTies(x: Fp, y: Fp, z: Fp)
    requires x.Finite? && y.Finite? && Add(x, y).Finite? && z.Finite? && Encoded(z, DOUBLE) && Amount(z) != Amount(Add(x, y))
    requires Magnitude(Amount(x) + Amount(y) - Amount(Add(x, y))) == Magnitude(Amount(x) + Amount(y) - Amount(z))
    ensures Add(x, y).significand % 2 == 0
  {
    if Amount(x) + Amount(y) != 0 {
      RoundedSumTie(Amount(x) + Amount(y), Add(x, y), z);
    }
  }

  lemma SubTies(x: Fp, y: Fp, z: Fp)
    requires x.Finite? && y.Finite? && Sub(x, y).Finite? && z.Finite? && Encoded(z, DOUBLE) && Amount(z) != Amount(Sub(x, y))
    requires Magnitude(Amount(x) - Amount(y) - Amount(Sub(x, y))) == Magnitude(Amount(x) - Amount(y) - Amount(z))
    ensures Sub(x, y).significand % 2 == 0
  {
    NegateOpposite(y);
    AddTies(x, Negate(y), z);
  }

  /** u and w are different, and equally near to p / q. */
  predicate Tie(p: int, q: int, u: int, w: int) {
    u != w && Magnitude(p - u * q) == Magnitude(p - w * q)
  }

  lemma ScaledTies(r: Fp, negative: bool, a: nat, b: nat, shift: int, z: Fp)
    requires b > 0 && r == Scaled(negative, a, b, shift) && r.Finite? && z.Finite? && Encoded(z, DOUBLE)
    requires Tie(Dividend(a, shift), Divisor(b, shift), Units(r), Units(z))
    ensures r.significand % 2 == 0
  {
    DivisorPositive(b, shift);
    RoundedTies(r, negative, Dividend(a, shift), Divisor(b, shift), DOUBLE, z);
  }

  lemma MulScaled(x: Fp, y: Fp, a: nat, b: nat, shift: int)
    requires x.Finite? && y.Finite? && a == x.significand * y.significand && b == 1 && shift == x.exponent + y.exponent - ONE
    ensures Mul(x, y) == Scaled(x.negative != y.negative, a, b, shift)
  {
  }

  /** The same for products: a / b * 2^shift units is the exact one. */
  lemma MulTies(x: Fp, y: Fp, z: Fp, a: nat, b: nat, shift: int)
    requires x.Finite? && y.Finite? && a == x.significand * y.significand && b == 1 && shift == x.exponent + y.exponent - ONE
    requires Mul(x, y).Finite? && z.Finite? && Encoded(z, DOUBLE)
    requires Tie(Dividend(a, shift), Divisor(b, shift), Units(Mul(x, y)), Units(z))
    ensures Mul(x, y).significand % 2 == 0
  {
    MulScaled(x, y, a, b, shift);
    ScaledTies(Mul(x, y), x.negative != y.negative, a, b, shift, z);
  }

  lemma DivTies(x: Fp, y: Fp, z: Fp, shift: int)
    requires x.Finite? && y.Finite? && y.significand > 0 && shift == x.exponent - y.exponent + ONE
    requires Div(x, y).Finite? && z.Finite? && Encoded(z, DOUBLE)
    requires Tie(Dividend(x.significand, shift), Divisor(y.significand, shift), Units(Div(x, y)), Units(z))
    ensures Div(x, y).significand % 2 == 0
  {
    ScaledTies(Div(x, y), x.negative != y.negative, x.significand, y.significand, shift, z);
  }

  lemma SignificandSizes()
    ensures Pow2(24) == 0x100_0000 && Pow2(28) == 0x1000_0000 && Pow2(53) == 0x20_0000_0000_0000
    ensures Pow2(23) == 0x80_0000 && Pow2(52) == 0x10_0000_0000_0000
  {
    assert Pow2(4) == 16 && Pow2(5) == 32;
    WordSizes();
    Pow2Sum(8, 8);
    Pow2Sum(16, 8);
    Pow2Sum(24, 4);
    Pow2Sum(24, 24);
    Pow2Sum(48, 5);
    Pow2Sum(48, 4);
    Pow2Sum(16, 4);
    Pow2Sum(20, 3);
  }

  // ---------- The largest numbers ----------

  function Largest(negative: bool, f: Format): Fp {
    Finite(negative, Pow2(f.precision) - 1, f.most)
  }

  /** A little below the last of w steps of g. */
  lemma BelowTop(w: nat, g: nat, d: nat, u: nat)
    requires w >= 4 && d > 0 && 4 * d <= g && u + d == (w - 1) * g
    ensures NearestEven(u, 1 * g) == w - 1 && 2 * u >= w * g && u < w * g
  {
    assert (w - 1) * g == w * g - g && (w - 2) * g == w * g - 2 * g;
    MulMonotone(4, w, g);
    FloorUnique(u, g, w - 2);
  }

  lemma LessThanLargest(negative: bool, f: Format, d: nat, u: nat)
    requires Proper(f) && d > 0 && 4 * d <= Pow2(f.most) && u + d == (Pow2(f.precision) - 1) * Pow2(f.most)
    ensures Rounded(negative, u, 1, f) == Largest(negative, f)
  {
    var w, g := Pow2(f.precision), Pow2(f.most);
    Pow2Grows(2, f.precision);
    BelowTop(w, g, d, u);
    Pow2Sum(f.precision, f.most);
    ExponentLeast(u, f, f.most);
    ExponentMost(u, f, f.most);
    FloorUnique(u, 1, u);
  }

  /** Subtracting 1 from the largest float, in floats, or from the largest double changes nothing. */
  lemma LargestLessOne(negative: bool, f: Format, u: nat)
    requires Proper(f) && f.most >= ONE + 2 && u + Pow2(ONE) == Units(Largest(negative, f))
    ensures Rounded(negative, u, 1, f) == Largest(negative, f)
  {
    Pow2Grows(ONE, f.most - 2);
    LessThanLargest(negative, f, Pow2(ONE), u);
  }

  // ---------- Interchange formats ----------

  /** The biased exponent of infinities and NaNs: all ones. */
  function TopExponent(f: Format): int {
    f.most - f.least + 2
  }

  /** Biased exponent and fraction of a datum. */
  function Unsigned(x: Fp, f: Format): int
    requires Proper(f)
  {
    match x
    case Finite(_, n, k) => (k - f.least) * Pow2(f.precision - 1) + n
    case Infinite(_) => TopExponent(f) * Pow2(f.precision - 1)
    case Nan(_) => TopExponent(f) * Pow2(f.precision - 1) + Pow2(f.precision - 2)
  }

  /** Sign, biased exponent and fraction of a datum, as one word. */
  function Image(x: Fp, f: Format): int
    requires Proper(f)
  {
    if x.negative then (TopExponent(f) + 1) * Pow2(f.precision - 1) + Unsigned(x, f) else Unsigned(x, f)
  }

  function FromFields(negative: bool, e: nat, t: nat, f: Format): Fp
    requires Proper(f)
  {
    if e >= TopExponent(f) then (if t == 0 then Infinite(negative) else Nan(negative))
    else if e == 0 then Finite(negative, t, f.least)
    else Finite(negative, Pow2(f.precision - 1) + t, f.least + e - 1)
  }

  /** The datum a word stands for. */
  function Read(bits: nat, f: Format): Fp
    requires Proper(f)
  {
    var m, top := Pow2(f.precision - 1), TopExponent(f);
    FloorSpec(bits, m);
    var high, t := Floor(bits, m), bits - Floor(bits, m) * m;
    if high > top then FromFields(true, high - top - 1, t, f) else FromFields(false, high, t, f)
  }

  lemma ReadBack(bits: int, high: nat, t: nat, m: nat, f: Format)
    requires Proper(f) && m == Pow2(f.precision - 1) && t < m && bits == high * m + t
    ensures bits >= 0
    ensures high <= TopExponent(f) ==> Read(bits, f) == FromFields(false, high, t, f)
    ensures high > TopExponent(f) ==> Read(bits, f) == FromFields(true, high - TopExponent(f) - 1, t, f)
  {
    MulMonotone(0, high, m);
    FloorUnique(bits, m, high);
  }

  lemma FiniteFields(x: Fp, f: Format) returns (e: nat, t: nat)
    requires Proper(f) && x.Finite? && Encoded(x, f)
    ensures t < Pow2(f.precision - 1) && e < TopExponent(f) && Unsigned(x, f) == e * Pow2(f.precision - 1) + t
    ensures FromFields(x.negative, e, t, f) == x
  {
    var m := Pow2(f.precision - 1);
    if x.significand < m {
      e, t := 0, x.significand;
      assert (x.exponent - f.least) * m == 0;
    } else {
      e, t := x.exponent - f.least + 1, x.significand - m;
      OneMore(x.exponent - f.least, m);
      assert Pow2(f.precision) == 2 * m;
    }
  }

  lemma OneMore(k: int, m: int)
    ensures (k + 1) * m == k * m + m
  {
  }

  lemma UnsignedFields(x: Fp, f: Format) returns (e: nat, t: nat)
    requires Proper(f) && Encoded(x, f)
    ensures t < Pow2(f.precision - 1) && e <= TopExponent(f) && Unsigned(x, f) == e * Pow2(f.precision - 1) + t
    ensures FromFields(x.negative, e, t, f) == x
  {
    if x.Finite? {
      e, t := FiniteFields(x, f);
    } else {
      e, t := TopExponent(f), if x.Nan? then Pow2(f.precision - 2) else 0;
    }
  }

  /** Every datum of a format is read back from its image. */
  lemma ImageReads(x: Fp, f: Format)
    requires Proper(f) && Encoded(x, f)
    ensures Image(x, f) >= 0 && Read(Image(x, f), f) == x
  {
    var m, top := Pow2(f.precision - 1), TopExponent(f);
    var e, t := UnsignedFields(x, f);
    assert (top + 1 + e) * m == (top + 1) * m + e * m;
    ReadBack(Image(x, f), if x.negative then top + 1 + e else e, t, m, f);
  }

  /** An image fits its field. */
  lemma ImageFits(x: Fp, f: Format)
    requires Proper(f) && Encoded(x, f)
    ensures 0 <= Image(x, f) < 2 * ((TopExponent(f) + 1) * Pow2(f.precision - 1))
  {
    var m, top := Pow2(f.precision - 1), TopExponent(f);
    var e, t := UnsignedFields(x, f);
    assert (top + 1) * m == top * m + m;
    MulMonotone(0, e, m);
    MulMonotone(e, top, m);
  }

  // ---------- The interchange formats, bit by bit ----------

  lemma FloorDiv(p: nat, d: nat)
    requires d > 0
    ensures Floor(p, d) == p / d
  {
    FloorSpec(p, d);
    DivModUnique(p, d, Floor(p, d), p - Floor(p, d) * d);
  }

  /** A word is read by its sign, its biased exponent and its fraction. */
  lemma ReadFields(bits: nat, m: nat, top: nat, f: Format)
    requires Proper(f) && m == Pow2(f.precision - 1) && top == TopExponent(f) && bits < 2 * ((top + 1) * m)
    ensures bits / m < 2 * (top + 1)
    ensures Read(bits, f) == FromFields(bits / m > top, bits / m % (top + 1), bits % m, f)
  {
    FloorDiv(bits, m);
    FloorBelow(bits, m, 2 * (top + 1));
    Grouping(2, top + 1, m);
    var high := bits / m;
    assert bits == high * m + bits % m;
    if high > top {
      DivModUnique(high, top + 1, 1, high - top - 1);
    } else {
      DivModUnique(high, top + 1, 0, high);
    }
  }

  /** What 64 bits stand for: bit 63 is the sign, the eleven bits behind it the biased exponent e, the others the
      fraction t; in units of 2^-1074 the magnitude is t for e = 0 and (2^52 + t) * 2^(e - 1) otherwise, and the last
      exponent stands for infinities and NaNs. */
  lemma DoubleMeaning(bits: nat)
    requires bits < TWO_64
    ensures var x, e, t := Read(bits, DOUBLE), bits / 0x10_0000_0000_0000 % 2048, bits % 0x10_0000_0000_0000;
      && (x.negative <==> bits >= TWO_63)
      && (e == 2047 ==> if t == 0 then x.Infinite? else x.Nan?)
      && (e == 0 ==> x.Finite? && Units(x) == t)
      && (0 < e < 2047 ==> x.Finite? && Units(x) == (0x10_0000_0000_0000 + t) * Pow2(e - 1))
  {
    SignificandSizes();
    ReadFields(bits, 0x10_0000_0000_0000, 2047, DOUBLE);
    var e, t := bits / 0x10_0000_0000_0000 % 2048, bits % 0x10_0000_0000_0000;
    assert bits / 0x10_0000_0000_0000 > 2047 <==> bits >= TWO_63;
    assert Pow2(0) == 1;
  }

  /** What 32 bits stand for. */
  lemma SingleMeaning(bits: nat)
    requires bits < 0x1_0000_0000
    ensures var x, e, t := Read(bits, SINGLE), bits / 0x80_0000 % 256, bits % 0x80_0000;
      && (x.negative <==> bits >= 0x8000_0000)
      && (e == 255 ==> if t == 0 then x.Infinite? else x.Nan?)
      && (e == 0 ==> x.Finite? && Units(x) == t * Pow2(925))
      && (0 < e < 255 ==> x.Finite? && Units(x) == (0x80_0000 + t) * Pow2(e + 924))
  {
    SignificandSizes();
    ReadFields(bits, 0x80_0000, 255, SINGLE);
    assert bits / 0x80_0000 > 255 <==> bits >= 0x8000_0000;
  }

  lemma UnitsOfOne(x: Fp, e: nat, t: nat, k: nat)
    requires e == 1023 && t == 0 && k == ONE && x.Finite? && Units(x) == (0x10_0000_0000_0000 + t) * Pow2(e - 1)
    ensures Units(x) == Pow2(k)
  {
    SignificandSizes();
    Pow2Sum(52, e - 1);
  }

  /** The double 1.0 is 2^ONE units. */
  lemma OneUnit(bits: nat, k: nat)
    requires bits / 0x10_0000_0000_0000 == 0x3FF && bits % 0x10_0000_0000_0000 == 0 && k == ONE
    ensures Read(bits, DOUBLE).Finite? && !Read(bits, DOUBLE).negative && Units(Read(bits, DOUBLE)) == Pow2(k)
  {
    DoubleMeaning(bits);
    UnitsOfOne(Read(bits, DOUBLE), bits / 0x10_0000_0000_0000 % 2048, bits % 0x10_0000_0000_0000, k);
  }
}

/** Floating-point fields: what a reader of the file finds in them. */
module FloatFields {
  import opened Bits
  import opened Bytes
  import opened Assembler
  import Ieee

  // ---------- Expressions ----------

  /** Every literal is a double, as the scanner makes them. */
  predicate Literals(e: FpExpr) {
    match e
    case FpNum(v) => Ieee.Encoded(v, Ieee.DOUBLE)
    case FpNeg(i) => Literals(i)
    case FpParen(i) => Literals(i)
    case _ => Literals(e.left) && Literals(e.right)
  }

  /** Then every value is one. */
  lemma {:induction false} EvalEncoded(e: FpExpr)
    requires Literals(e)
    ensures Ieee.Encoded(FpEval(e), Ieee.DOUBLE)
  {
    match e
    case FpNum(_) =>
    case FpNeg(i) =>
      EvalEncoded(i);
    case FpParen(i) =>
      EvalEncoded(i);
    case FpAdd(l, r) =>
      EvalEncoded(l);
      EvalEncoded(r);
      Ieee.AddEncoded(FpEval(l), FpEval(r));
    case FpSub(l, r) =>
      EvalEncoded(l);
      EvalEncoded(r);
      Ieee.SubEncoded(FpEval(l), FpEval(r));
    case FpMul(l, r) =>
      Ieee.MulEncoded(FpEval(l), FpEval(r));
    case FpDiv(l, r) =>
      Ieee.DivEncoded(FpEval(l), FpEval(r));
  }

  /** v is at least as near to x as z is. */
  predicate AtLeastAsNear(x: int, v: int, z: int) {
    Magnitude(x - v) <= Magnitude(x - z)
  }

  /** A prefixed minus turns the number over, and parentheses change nothing. */
  lemma EvalSigns(e: FpExpr)
    requires FpEval(e).Finite?
    ensures FpEval(FpParen(e)) == FpEval(e)
    ensures FpEval(FpNeg(e)).Finite? && Ieee.Amount(FpEval(FpNeg(e))) == -Ieee.Amount(FpEval(e))
    ensures FpEval(FpNeg(e)).negative != FpEval(e).negative
  {
    Ieee.NegateOpposite(FpEval(e));
  }

  /** No double is nearer than the value of `+` or `-` to the sum or the difference of the operands. */
  lemma EvalSumNearest(l: FpExpr, r: FpExpr, z: Ieee.Fp)
    requires FpEval(l).Finite? && FpEval(r).Finite? && z.Finite? && Ieee.Encoded(z, Ieee.DOUBLE)
    ensures var v, a, b := FpEval(FpAdd(l, r)), Ieee.Amount(FpEval(l)), Ieee.Amount(FpEval(r));
      v.Finite? ==> AtLeastAsNear(a + b, Ieee.Amount(v), Ieee.Amount(z))
    ensures var v, a, b := FpEval(FpSub(l, r)), Ieee.Amount(FpEval(l)), Ieee.Amount(FpEval(r));
      v.Finite? ==> AtLeastAsNear(a - b, Ieee.Amount(v), Ieee.Amount(z))
  {
    var x, y := FpEval(l), FpEval(r);
    if Ieee.Add(x, y).Finite? {
      Ieee.AddNearest(x, y, z);
    }
    if Ieee.Sub(x, y).Finite? {
      Ieee.SubNearest(x, y, z);
    }
  }

  /** No double is nearer than the value of `*` to the product, which is measured in `one`, the number 1. */
  lemma EvalProductNearest(l: FpExpr, r: FpExpr, z: Ieee.Fp, k: nat, one: nat)
    requires FpEval(l).Finite? && FpEval(r).Finite? && z.Finite? && Ieee.Encoded(z, Ieee.DOUBLE)
    requires FpEval(FpMul(l, r)).Finite? && k == Ieee.ONE && one == Pow2(k)
    ensures var v, x, y := FpEval(FpMul(l, r)), FpEval(l), FpEval(r);
      && v.negative == (x.negative != y.negative)
      && AtLeastAsNear(Ieee.Units(x) * Ieee.Units(y), Ieee.Units(v) * one, Ieee.Units(z) * one)
  {
    Ieee.MulNearest(FpEval(l), FpEval(r), z, k, one);
  }

  lemma EvalQuotientNearest(l: FpExpr, r: FpExpr, z: Ieee.Fp, k: nat, one: nat)
    requires FpEval(l).Finite? && FpEval(r).Finite? && z.Finite? && Ieee.Encoded(z, Ieee.DOUBLE)
    requires FpEval(r).significand > 0 && FpEval(FpDiv(l, r)).Finite? && k == Ieee.ONE && one == Pow2(k)
    ensures var v, x, y := FpEval(FpDiv(l, r)), FpEval(l), FpEval(r);
      && v.negative == (x.negative != y.negative)
      && AtLeastAsNear(Ieee.Units(x) * one, Ieee.Units(v) * Ieee.Units(y), Ieee.Units(z) * Ieee.Units(y))
  {
    Ieee.DivNearest(FpEval(l), FpEval(r), z, k, one);
  }

  // ---------- Fields ----------

  /** The width of a format in bytes. */
  predicate Wide(f: Ieee.Format, size: nat) {
    (f == Ieee.SINGLE && size == 4) || (f == Ieee.DOUBLE && size == 8)
  }

  lemma SingleRange()
    ensures 2 * ((Ieee.TopExponent(Ieee.SINGLE) + 1) * Pow2(Ieee.SINGLE.precision - 1)) == Range(4)
  {
    Ieee.SignificandSizes();
    Ranges();
  }

  lemma DoubleRange()
    ensures 2 * ((Ieee.TopExponent(Ieee.DOUBLE) + 1) * Pow2(Ieee.DOUBLE.precision - 1)) == Range(8)
  {
    Ieee.SignificandSizes();
    Ranges();
  }

  lemma ImageRange(x: Ieee.Fp, f: Ieee.Format, size: nat)
    requires Wide(f, size) && Ieee.Encoded(x, f)
    ensures 0 <= Ieee.Image(x, f) < Range(size)
  {
    Ieee.ImageFits(x, f);
    if f == Ieee.SINGLE {
      SingleRange();
    } else {
      DoubleRange();
    }
  }

  /** A field is read back as the datum it was made from. */
  lemma DatumReads(x: Ieee.Fp, f: Ieee.Format, size: nat, order: Order)
    requires Wide(f, size) && Ieee.Encoded(x, f)
    ensures Ieee.Read(ReadField(Field(Ieee.Image(x, f), size, order), order), f) == x
  {
    var image := Ieee.Image(x, f);
    ImageRange(x, f, size);
    FieldRoundTrip(image, size, order);
    DivModUnique(image, Range(size), 0, image);
    Ieee.ImageReads(x, f);
  }

  function ReadFloat(bytes: seq<Byte>, order: Order): Ieee.Fp {
    Ieee.Read(ReadField(bytes, order), Ieee.SINGLE)
  }

  function ReadDouble(bytes: seq<Byte>, order: Order): Ieee.Fp {
    Ieee.Read(ReadField(bytes, order), Ieee.DOUBLE)
  }

  /** A float field holds the narrowed double, a double field the double itself, after the replacements. */
  lemma FloatReads(x: Ieee.Fp, m: Modes)
    ensures ReadFloat(FloatField(x, m), m.order) == Ieee.Narrow(Replaced(x, m.allowNan, m.allowInfinity, Ieee.SINGLE))
  {
    var r := Replaced(x, m.allowNan, m.allowInfinity, Ieee.SINGLE);
    Ieee.NarrowEncoded(r);
    DatumReads(Ieee.Narrow(r), Ieee.SINGLE, 4, m.order);
  }

  lemma LargestEncoded(negative: bool, f: Ieee.Format)
    requires Ieee.Proper(f)
    ensures Ieee.Encoded(Ieee.Largest(negative, f), f)
  {
  }

  lemma DoubleReads(x: Ieee.Fp, m: Modes)
    requires Ieee.Encoded(x, Ieee.DOUBLE)
    ensures ReadDouble(DoubleField(x, m), m.order) == Replaced(x, m.allowNan, m.allowInfinity, Ieee.DOUBLE)
  {
    var r := Replaced(x, m.allowNan, m.allowInfinity, Ieee.DOUBLE);
    Ieee.ZeroEncoded(false);
    LargestEncoded(x == Ieee.Infinite(true), Ieee.DOUBLE);
    DatumReads(r, Ieee.DOUBLE, 8, m.order);
  }

  /** A finite double that stays finite is written as a nearest float. */
  lemma FloatNearest(x: Ieee.Fp, m: Modes, z: Ieee.Fp)
    requires x.Finite? && Ieee.Narrow(x).Finite? && z.Finite? && Ieee.Encoded(z, Ieee.SINGLE)
    ensures var r := ReadFloat(FloatField(x, m), m.order);
      && r.Finite? && r.negative == x.negative
      && Magnitude(Ieee.Units(x) - Ieee.Units(r)) <= Magnitude(Ieee.Units(x) - Ieee.Units(z))
  {
    FloatReads(x, m);
    Ieee.NarrowNearest(x, z);
  }

  // ---------- Infinities that are not allowed ----------

  lemma ZeroFloat()
    ensures Ieee.Narrow(Ieee.ZERO) == Ieee.Finite(false, 0, 925)
  {
    var r, zero := Ieee.Narrow(Ieee.ZERO), Ieee.Finite(false, 0, 925);
    ZeroNarrow();
    Ieee.NarrowEncoded(Ieee.ZERO);
    Ieee.NarrowNearest(Ieee.ZERO, zero);
    if r.significand > 0 {
      MulMonotone(1, r.significand, Pow2(r.exponent));
    }
  }

  lemma LargestNumbers(negative: bool)
    ensures Ieee.Largest(negative, Ieee.SINGLE) == Ieee.Finite(negative, 0xFF_FFFF, 1178)
    ensures Ieee.Largest(negative, Ieee.DOUBLE) == Ieee.Finite(negative, 0x1F_FFFF_FFFF_FFFF, 2045)
  {
    Ieee.SignificandSizes();
  }

  lemma ReplacedNotFinite(x: Ieee.Fp, allowNan: bool, allowInfinity: bool, f: Ieee.Format)
    requires !x.Finite?
    ensures Replaced(x, allowNan, allowInfinity, f)
      == if x.Nan? && !allowNan then Ieee.ZERO
         else if allowInfinity then x
         else Ieee.Largest(x == Ieee.Infinite(true), f)
  {
  }

  /** What a float field holds for a NaN or an infinity: itself if infinities are allowed, and otherwise the largest
      number, 2^24 - 1 times 2^104, with the sign of the infinity. A NaN that is allowed is replaced by the largest positive
      number too, because it is not finite either; one that is not allowed is always replaced by zero. */
  lemma NotFiniteFloat(x: Ieee.Fp, m: Modes)
    requires !x.Finite?
    ensures ReadFloat(FloatField(x, m), m.order)
      == if x.Nan? && !m.allowNan then Ieee.Finite(false, 0, 925)
         else if m.allowInfinity then x
         else Ieee.Finite(x == Ieee.Infinite(true), 0xFF_FFFF, 1178)
  {
    FloatReads(x, m);
    ReplacedNotFinite(x, m.allowNan, m.allowInfinity, Ieee.SINGLE);
    ZeroFloat();
    LargestNarrow(x == Ieee.Infinite(true));
    LargestNumbers(x == Ieee.Infinite(true));
  }

  lemma NotFiniteDouble(x: Ieee.Fp, m: Modes)
    requires !x.Finite?
    ensures ReadDouble(DoubleField(x, m), m.order)
      == if x.Nan? && !m.allowNan then Ieee.Finite(false, 0, 0)
         else if m.allowInfinity then x
         else Ieee.Finite(x == Ieee.Infinite(true), 0x1F_FFFF_FFFF_FFFF, 2045)
  {
    DoubleReads(x, m);
    ReplacedNotFinite(x, m.allowNan, m.allowInfinity, Ieee.DOUBLE);
    LargestNumbers(x == Ieee.Infinite(true));
  }

  /** A finite double is read back, whatever is allowed. */
  lemma FiniteDouble(x: Ieee.Fp, m: Modes)
    requires x.Finite? && Ieee.Encoded(x, Ieee.DOUBLE)
    ensures ReadDouble(DoubleField(x, m), m.order) == x
  {
    DoubleReads(x, m);
  }

  /** The largest float survives narrowing. */
  lemma LargestNarrow(negative: bool)
    ensures Ieee.Narrow(Ieee.Largest(negative, Ieee.SINGLE)) == Ieee.Largest(negative, Ieee.SINGLE)
  {
    LargestEncoded(negative, Ieee.SINGLE);
    Ieee.RoundedExact(Ieee.Largest(negative, Ieee.SINGLE), Ieee.SINGLE);
  }

  /** With infinities not allowed, a float item holds one all the same exactly when its value is finite but at least
      2^128 - 2^103: the test comes before the narrowing. */
  lemma ForbiddenInfinityExactly(x: Ieee.Fp, m: Modes)
    requires Ieee.Encoded(x, Ieee.DOUBLE) && !m.allowInfinity
    ensures ReadFloat(FloatField(x, m), m.order).Infinite? <==>
      (x.Finite? && (x.exponent > 1149 || (x.exponent == 1149 && x.significand >= 0x1F_FFFF_F000_0000)))
  {
    FloatReads(x, m);
    if x.Finite? {
      Ieee.NarrowOverflows(x);
    } else if x.Nan? && !m.allowNan {
      ZeroNarrow();
    } else {
      LargestNarrow(x == Ieee.Infinite(true));
    }
  }

  lemma ZeroNarrow()
    ensures Ieee.Narrow(Ieee.ZERO).Finite?
  {
    Ieee.ZeroEncoded(false);
    Ieee.NarrowOverflows(Ieee.ZERO);
  }

  /** Without a type the narrowing comes first, and no infinity gets through. */
  lemma DefaultNeverInfinite(x: Ieee.Fp, m: Modes)
    requires !m.allowInfinity && m.ty != Double
    ensures !ReadFloat(DefaultFpField(x, m), m.order).Infinite?
  {
    var y := Ieee.Narrow(x);
    FloatReads(y, m);
    if y.Finite? {
      Ieee.NarrowTwice(x);
    } else if y.Nan? && !m.allowNan {
      ZeroNarrow();
    } else {
      LargestNarrow(y == Ieee.Infinite(true));
    }
  }

  lemma NarrowedFirst(x: Ieee.Fp, allowNan: bool, allowInfinity: bool)
    requires allowInfinity || !(x.Finite? && Ieee.Narrow(x).Infinite?)
    ensures Ieee.Narrow(Replaced(Ieee.Narrow(x), allowNan, allowInfinity, Ieee.SINGLE))
      == Ieee.Narrow(Replaced(x, allowNan, allowInfinity, Ieee.SINGLE))
  {
    if x.Finite? {
      Ieee.NarrowTwice(x);
    } else {
      assert Ieee.Narrow(x) == x;
    }
  }

  /** So the item `(float) x` and the item `x` are written alike unless infinities are forbidden and x, being finite, is
      too large for a float. */
  lemma FloatItemsAgreeExactly(x: Ieee.Fp, m: Modes)
    requires m.ty != Double
    ensures FloatField(x, m) == DefaultFpField(x, m) <==> m.allowInfinity || !(x.Finite? && Ieee.Narrow(x).Infinite?)
  {
    if m.allowInfinity || !(x.Finite? && Ieee.Narrow(x).Infinite?) {
      NarrowedFirst(x, m.allowNan, m.allowInfinity);
    } else {
      FloatReads(x, m);
      DefaultNeverInfinite(x, m);
      assert ReadFloat(FloatField(x, m), m.order).Infinite?;
    }
  }
}

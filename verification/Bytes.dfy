/** Fixed-width integer fields as byte sequences, in either byte order. */
module Bytes {
  import opened Bits

  type Byte = b: int | 0 <= b < 256

  datatype Order = LittleEndian | BigEndian

  /** Number of values a field of `size` bytes can hold. */
  function Range(size: nat): (r: int)
    ensures r >= 1
  {
    if size == 0 then 1 else 256 * Range(size - 1)
  }

  /** The object representation, on a little-endian machine, of v converted to an unsigned type of `size` bytes. */
  function Native(v: int, size: nat): (bytes: seq<Byte>)
    ensures |bytes| == size
    decreases size
  {
    if size == 0 then [] else [v % 256] + Native(v / 256, size - 1)
  }

  function FromNative(bytes: seq<Byte>): (v: int)
    ensures 0 <= v < Range(|bytes|)
  {
    if bytes == [] then 0 else bytes[0] + 256 * FromNative(bytes[1..])
  }

  function Reverse(bytes: seq<Byte>): (r: seq<Byte>)
    ensures |r| == |bytes|
    ensures forall k :: 0 <= k < |bytes| ==> r[k] == bytes[|bytes| - 1 - k]
  {
    if bytes == [] then [] else Reverse(bytes[1..]) + [bytes[0]]
  }

  /** A native representation laid out in the chosen byte order. */
  function Ordered(native: seq<Byte>, order: Order): (r: seq<Byte>)
    ensures |r| == |native|
  {
    if order == LittleEndian then native else Reverse(native)
  }

  function Field(v: int, size: nat, order: Order): (r: seq<Byte>)
    ensures |r| == size
  {
    Ordered(Native(v, size), order)
  }

  /** The number whose digits to base 256 are the bytes, the first one the most significant. */
  function FromBigEndian(bytes: seq<Byte>): (v: int)
    ensures 0 <= v < Range(|bytes|)
  {
    if bytes == [] then 0 else 256 * FromBigEndian(bytes[..|bytes| - 1]) + bytes[|bytes| - 1]
  }

  /** What a reader that knows the byte order gets out of a field. */
  function ReadField(bytes: seq<Byte>, order: Order): (v: int)
    ensures 0 <= v < Range(|bytes|)
  {
    match order
    case LittleEndian => FromNative(bytes)
    case BigEndian => FromBigEndian(bytes)
  }

  /** The two's-complement reading of a field. */
  function ReadSigned(bytes: seq<Byte>, order: Order): int {
    var v := ReadField(bytes, order);
    if 2 * v < Range(|bytes|) then v else v - Range(|bytes|)
  }

  /** Digits read from the other end. */
  lemma {:induction false} FromReversed(bytes: seq<Byte>)
    ensures FromBigEndian(Reverse(bytes)) == FromNative(bytes)
  {
    if bytes != [] {
      var reversed := Reverse(bytes);
      assert reversed[..|bytes| - 1] == Reverse(bytes[1..]);
      FromReversed(bytes[1..]);
    }
  }

  lemma {:induction false} ModStep(v: int, m: int)
    requires m >= 1
    ensures v % (256 * m) == v % 256 + 256 * ((v / 256) % m)
  {
    var q, r := v / 256, v % 256;
    var a, b := q / m, q % m;
    assert v == 256 * (a * m + b) + r;
    assert v == a * (256 * m) + (256 * b + r) by {
      assert 256 * (a * m) == a * (256 * m);
    }
    assert 0 <= 256 * b + r < 256 * m;
    DivModUnique(v, 256 * m, a, 256 * b + r);
  }

  lemma {:induction false} NativeRoundTrip(v: int, size: nat)
    ensures FromNative(Native(v, size)) == v % Range(size)
    decreases size
  {
    if size > 0 {
      var bytes := Native(v, size);
      assert bytes[1..] == Native(v / 256, size - 1);
      NativeRoundTrip(v / 256, size - 1);
      ModStep(v, Range(size - 1));
    }
  }

  /** A field only depends on its value modulo its range: the masking and the narrowing casts lose nothing more. */
  lemma {:induction false} NativeCongruent(v: int, w: int, size: nat)
    requires v % Range(size) == w % Range(size)
    ensures Native(v, size) == Native(w, size)
    decreases size
  {
    if size > 0 {
      ModStep(v, Range(size - 1));
      ModStep(w, Range(size - 1));
      NativeCongruent(v / 256, w / 256, size - 1);
    }
  }

  /** Reading a field back gives the argument modulo 2^(8 * size), whatever the byte order. */
  lemma FieldRoundTrip(v: int, size: nat, order: Order)
    ensures ReadField(Field(v, size, order), order) == v % Range(size)
  {
    NativeRoundTrip(v, size);
    FromReversed(Native(v, size));
  }

  /** The signed reading recovers every argument in signed range. */
  lemma SignedRoundTrip(v: int, size: nat, order: Order)
    requires -Range(size) <= 2 * v < Range(size)
    ensures ReadSigned(Field(v, size, order), order) == v
  {
    FieldRoundTrip(v, size, order);
    if v >= 0 {
      DivModUnique(v, Range(size), 0, v);
    } else {
      DivModUnique(v, Range(size), -1, v + Range(size));
    }
  }

  /** Two arguments give the same field exactly when they agree modulo 2^(8 * size). */
  lemma FieldInjective(v: int, w: int, size: nat, order: Order)
    ensures Field(v, size, order) == Field(w, size, order) <==> v % Range(size) == w % Range(size)
  {
    FieldRoundTrip(v, size, order);
    FieldRoundTrip(w, size, order);
    if v % Range(size) == w % Range(size) {
      NativeCongruent(v, w, size);
    }
  }

  lemma DivTwice(v: int, m: int)
    requires m >= 1
    ensures v / 256 / m == v / (256 * m)
  {
    var q, r := v / 256, v % 256;
    var a, b := q / m, q % m;
    assert v == a * (256 * m) + (256 * b + r) by {
      assert q == a * m + b;
      assert 256 * (a * m) == a * (256 * m);
    }
    DivModUnique(v, 256 * m, a, 256 * b + r);
  }

  /** Byte k of the object representation is the digit of weight 256^k. */
  lemma {:induction false} NativeDigit(v: int, size: nat, k: nat)
    requires k < size
    ensures Native(v, size)[k] == v / Range(k) % 256
    decreases k
  {
    if k > 0 {
      NativeDigit(v / 256, size - 1, k - 1);
      DivTwice(v, Range(k - 1));
    }
  }

  /** The digit of weight 256^k stands at place k of a little-endian field, and at place k from the end of a
      big-endian one. */
  lemma FieldDigit(v: int, size: nat, k: nat)
    requires k < size
    ensures Field(v, size, LittleEndian)[k] == v / Range(k) % 256
    ensures Field(v, size, BigEndian)[size - 1 - k] == v / Range(k) % 256
  {
    NativeDigit(v, size, k);
  }

  /** The big-endian field is the little-endian field read backwards, byte by byte, and begins with the most significant
      one. */
  lemma BigEndianReverses(v: int, size: nat, k: nat)
    requires k < size
    ensures Field(v, size, BigEndian)[k] == Field(v, size, LittleEndian)[size - 1 - k] == v / Range(size - 1 - k) % 256
  {
    FieldDigit(v, size, size - 1 - k);
    assert Field(v, size, BigEndian) == Reverse(Native(v, size));
  }

  /** The widths of the integer types, as the source writes their masks. */
  lemma Ranges()
    ensures Range(1) == 0x100 && Range(2) == 0x1_0000
    ensures Range(4) == 0x1_0000_0000 && Range(8) == TWO_64
  {
    assert Range(3) == 256 * Range(2);
    assert Range(4) == 256 * Range(3);
    assert Range(5) == 256 * Range(4);
    assert Range(6) == 256 * Range(5);
    assert Range(7) == 256 * Range(6);
    assert Range(8) == 256 * Range(7);
  }

  function Zeros(n: nat): (z: seq<Byte>)
    ensures |z| == n
    ensures forall k :: 0 <= k < n ==> z[k] == 0
  {
    if n == 0 then [] else Zeros(n - 1) + [0]
  }
}

/** The compile-time string hash: a recursive FNV-1a on 64-bit intermediates and signed characters. */
module QuickHash {
  import opened Bits
  import opened Bytes

  const TWO_32: int := 0x1_0000_0000
  const BASIS: int := 2166136261
  const PRIME: int := 16777619

  /** The inverse of the prime modulo 2^32. */
  const INVERSE: int := 899433627

  /** A plain `char`, on a platform where it is signed. */
  function Signed(c: Byte): int {
    if c < 128 then c else c - 256
  }

  /** The hash of a string that is not empty (the empty one would read the byte before it): 64-bit unsigned operands, and
      the result of each call cut to 32 bits. */
  function Hash(s: seq<Byte>): (h: int)
    requires s != []
    ensures 0 <= h < TWO_32
  {
    var before := if |s| > 1 then Hash(s[..|s| - 1]) else BASIS;
    (Xor(before, Signed(s[|s| - 1]) % TWO_64) * PRIME) % TWO_64 % TWO_32
  }

  // ---------- One step on 32 bits ----------

  function Step(h: int, c: Byte): (r: int)
    ensures 0 <= r < TWO_32
  {
    (Xor(h, Signed(c)) * PRIME) % TWO_32
  }

  /** Equal low bits of the operands give equal low bits of the result. */
  lemma {:induction false} XorLow(x: int, y: int, z: int, k: nat)
    requires y % Pow2(k) == z % Pow2(k)
    ensures Xor(x, y) % Pow2(k) == Xor(x, z) % Pow2(k)
    decreases k
  {
    if k > 0 {
      var m := Pow2(k - 1);
      HalfMod(y, m);
      HalfMod(z, m);
      XorLow(x / 2, y / 2, z / 2, k - 1);
      XorHalf(x, y);
      XorHalf(x, z);
      HalfMod(Xor(x, y), m);
      HalfMod(Xor(x, z), m);
    }
  }

  lemma {:induction false} XorTwice(x: int, y: int)
    ensures Xor(Xor(x, y), y) == x
    decreases Magnitude(x) + Magnitude(y)
  {
    if !(-1 <= x <= 0 && -1 <= y <= 0) {
      XorHalf(x, y);
      XorTwice(x / 2, y / 2);
      XorHalf(Xor(x, y), y);
    }
  }

  lemma {:induction false} XorSymmetric(x: int, y: int)
    ensures Xor(x, y) == Xor(y, x)
    decreases Magnitude(x) + Magnitude(y)
  {
    if !(-1 <= x <= 0 && -1 <= y <= 0) {
      XorSymmetric(x / 2, y / 2);
    }
  }

  // ---------- 64-bit intermediates ----------

  lemma ModOfMod(x: int, m: int, d: int)
    requires m > 0 && d > 0
    ensures x % (m * d) % m == x % m
  {
    var q, r := x / (m * d), x % (m * d);
    assert x == q * (m * d) + r;
    assert r == (r / m) * m + r % m;
    assert x == (q * d + r / m) * m + r % m by {
      assert (q * d + r / m) * m == q * (m * d) + (r / m) * m;
    }
    DivModUnique(x, m, q * d + r / m, r % m);
  }

  lemma ProductLow(x: int, y: int, p: int, m: int)
    requires m > 0 && x % m == y % m
    ensures (x * p) % m == (y * p) % m
  {
    var d := x / m - y / m;
    assert x - y == d * m;
    assert x * p == (y * p / m + d * p) * m + (y * p) % m by {
      assert x * p == y * p + (d * p) * m;
      assert y * p == (y * p / m) * m + (y * p) % m;
    }
    DivModUnique(x * p, m, y * p / m + d * p, (y * p) % m);
  }

  /** The upper halves of the 64-bit operands never reach a result: the hash is a fold of 32-bit steps. */
  lemma HashStep(s: seq<Byte>)
    requires s != []
    ensures Hash(s) == Step(if |s| > 1 then Hash(s[..|s| - 1]) else BASIS, s[|s| - 1])
  {
    var before := if |s| > 1 then Hash(s[..|s| - 1]) else BASIS;
    var c := Signed(s[|s| - 1]);
    WordSizes();
    assert TWO_64 == TWO_32 * TWO_32;
    ModOfMod(c, TWO_32, TWO_32);
    XorLow(before, c % TWO_64, c, 32);
    ModOfMod(Xor(before, c % TWO_64) * PRIME, TWO_32, TWO_32);
    ProductLow(Xor(before, c % TWO_64), Xor(before, c), PRIME, TWO_32);
  }

  function Fold(h: int, s: seq<Byte>): int
    decreases |s|
  {
    if s == [] then h else Fold(Step(h, s[0]), s[1..])
  }

  lemma {:induction false} FoldAppend(h: int, s: seq<Byte>, c: Byte)
    ensures Fold(h, s + [c]) == Step(Fold(h, s), c)
    decreases |s|
  {
    if s == [] {
      assert (s + [c])[1..] == [];
    } else {
      assert (s + [c])[1..] == s[1..] + [c];
      FoldAppend(Step(h, s[0]), s[1..], c);
    }
  }

  lemma {:induction false} FoldConcat(h: int, a: seq<Byte>, b: seq<Byte>)
    ensures Fold(h, a + b) == Fold(Fold(h, a), b)
    decreases |a|
  {
    if a == [] {
      assert a + b == b;
    } else {
      assert (a + b)[1..] == a[1..] + b;
      FoldConcat(Step(h, a[0]), a[1..], b);
    }
  }

  /** The recursion from the end is a fold from the front. */
  lemma {:induction false} HashIsFold(s: seq<Byte>)
    requires s != []
    ensures Hash(s) == Fold(BASIS, s)
    decreases |s|
  {
    var front, c := s[..|s| - 1], s[|s| - 1];
    HashStep(s);
    FoldAppend(BASIS, front, c);
    assert front + [c] == s;
    if |s| > 1 {
      HashIsFold(front);
    } else {
      assert front == [];
    }
  }

  // ---------- Injectivity ----------

  /** The prime has an inverse modulo 2^32, so multiplying by it loses nothing. */
  lemma PrimeInjective(x: int, y: int)
    requires (x * PRIME) % TWO_32 == (y * PRIME) % TWO_32
    ensures x % TWO_32 == y % TWO_32
  {
    ProductLow(x * PRIME, y * PRIME, INVERSE, TWO_32);
    TimesOne(x);
    TimesOne(y);
  }

  lemma TimesOne(x: int)
    ensures (x * PRIME * INVERSE) % TWO_32 == x % TWO_32
  {
    var t := (PRIME * INVERSE - 1) / TWO_32;
    assert PRIME * INVERSE == 1 + TWO_32 * t;
    assert x * PRIME * INVERSE == (x / TWO_32 + x * t) * TWO_32 + x % TWO_32;
    DivModUnique(x * PRIME * INVERSE, TWO_32, x / TWO_32 + x * t, x % TWO_32);
  }

  lemma Small(x: int)
    requires 0 <= x < TWO_32
    ensures x % TWO_32 == x
  {
    DivModUnique(x, TWO_32, 0, x);
  }

  /** A step is injective in the running hash. */
  lemma StepInjective(h: int, g: int, c: Byte)
    requires 0 <= h < TWO_32 && 0 <= g < TWO_32 && Step(h, c) == Step(g, c)
    ensures h == g
  {
    PrimeInjective(Xor(h, Signed(c)), Xor(g, Signed(c)));
    WordSizes();
    XorBack(h, Signed(c), Xor(g, Signed(c)), 32);
    XorTwice(g, Signed(c));
    Small(h);
    Small(g);
  }

  /** If x ^ c and y have the same low bits, so have x and y ^ c. */
  lemma XorBack(x: int, c: int, y: int, k: nat)
    requires Xor(x, c) % Pow2(k) == y % Pow2(k)
    ensures x % Pow2(k) == Xor(y, c) % Pow2(k)
  {
    XorTwice(x, c);
    XorSymmetric(Xor(x, c), c);
    XorSymmetric(y, c);
    XorLow(c, Xor(x, c), y, k);
  }

  /** And in the character, although that is sign-extended first. */
  lemma StepSeparates(h: int, c: Byte, d: Byte)
    requires c != d
    ensures Step(h, c) != Step(h, d)
  {
    if Step(h, c) == Step(h, d) {
      var x, y := Signed(c), Signed(d);
      PrimeInjective(Xor(h, x), Xor(h, y));
      WordSizes();
      XorSymmetric(h, x);
      XorSymmetric(h, y);
      XorBack(x, h, Xor(h, y), 32);
      XorSymmetric(Xor(h, y), h);
      XorTwice(y, h);
      SignedLow(c, d);
      assert false;
    }
  }

  lemma SignedLow(c: Byte, d: Byte)
    ensures Signed(c) % TWO_32 == Signed(d) % TWO_32 <==> c == d
  {
  }

  lemma {:induction false} FoldInjective(h: int, g: int, s: seq<Byte>)
    requires 0 <= h < TWO_32 && 0 <= g < TWO_32
    ensures Fold(h, s) == Fold(g, s) <==> h == g
    decreases |s|
  {
    if s != [] {
      FoldInjective(Step(h, s[0]), Step(g, s[0]), s[1..]);
      if Step(h, s[0]) == Step(g, s[0]) {
        StepInjective(h, g, s[0]);
      }
    }
  }

  /** A common suffix neither creates nor hides a collision. */
  lemma SuffixKeepsCollisions(a: seq<Byte>, b: seq<Byte>, s: seq<Byte>)
    requires a != [] && b != []
    ensures Hash(a + s) == Hash(b + s) <==> Hash(a) == Hash(b)
  {
    HashIsFold(a + s);
    HashIsFold(b + s);
    HashIsFold(a);
    HashIsFold(b);
    FoldConcat(BASIS, a, s);
    FoldConcat(BASIS, b, s);
    FoldInjective(Hash(a), Hash(b), s);
  }

  /** A fold taken apart at character k. */
  lemma FoldAt(h: int, s: seq<Byte>, k: nat)
    requires k < |s|
    ensures Fold(h, s) == Fold(Step(Fold(h, s[..k]), s[k]), s[k + 1..])
  {
    assert s == s[..k] + s[k..];
    FoldConcat(h, s[..k], s[k..]);
    assert s[k..][1..] == s[k + 1..];
  }

  /** Strings of equal length that differ in exactly one character hash differently. */
  lemma SingleDifference(s: seq<Byte>, k: nat, c: Byte)
    requires k < |s| && s[k] != c
    ensures Hash(s) != Hash(s[k := c])
  {
    var t := s[k := c];
    HashIsFold(s);
    HashIsFold(t);
    FoldAt(BASIS, s, k);
    FoldAt(BASIS, t, k);
    assert t[..k] == s[..k] && t[k + 1..] == s[k + 1..];
    var h := Fold(BASIS, s[..k]);
    StepSeparates(h, s[k], c);
    FoldInjective(Step(h, s[k]), Step(h, c), s[k + 1..]);
  }

  // ---------- FNV-1a ----------

  /** The step of 32-bit FNV-1a, on octets. */
  function FnvStep(h: int, c: Byte): (r: int)
    ensures 0 <= r < TWO_32
  {
    (Xor(h, c) * PRIME) % TWO_32
  }

  function Fnv(h: int, s: seq<Byte>): int
    decreases |s|
  {
    if s == [] then h else Fnv(FnvStep(h, s[0]), s[1..])
  }

  predicate Ascii(s: seq<Byte>) {
    forall k :: 0 <= k < |s| ==> s[k] < 128
  }

  /** The two steps agree on ASCII characters and on no others. */
  lemma StepsAgreeExactly(h: int, c: Byte)
    ensures Step(h, c) == FnvStep(h, c) <==> c < 128
  {
    if c >= 128 && Step(h, c) == FnvStep(h, c) {
      PrimeInjective(Xor(h, c - 256), Xor(h, c));
      WordSizes();
      XorSymmetric(h, c - 256);
      XorBack(c - 256, h, Xor(h, c), 32);
      XorSymmetric(Xor(h, c), h);
      XorSymmetric(h, c);
      XorTwice(c, h);
      assert false;
    }
  }

  lemma {:induction false} AsciiFold(h: int, s: seq<Byte>)
    requires Ascii(s)
    ensures Fold(h, s) == Fnv(h, s)
    decreases |s|
  {
    if s != [] {
      StepsAgreeExactly(h, s[0]);
      AsciiFold(Step(h, s[0]), s[1..]);
    }
  }

  /** On ASCII strings the hash is FNV-1a. */
  lemma AsciiIsFnv(s: seq<Byte>)
    requires s != [] && Ascii(s)
    ensures Hash(s) == Fnv(BASIS, s)
  {
    HashIsFold(s);
    AsciiFold(BASIS, s);
  }

  lemma LetterXor(h: int, c: Byte)
    requires h % 256 == 0xC5 && c == 'a' as int
    ensures Xor(h, c) == h - 0xC5 + 0xA4
  {
    OctetXor(h, c);
    LowXor(h % 256, c);
  }

  lemma LetterStep(h: int, c: Byte, p: int)
    requires h % 256 == 0xC5 && c == 'a' as int && p == (h - 0xC5 + 0xA4) * PRIME
    ensures Step(h, c) == p % TWO_32
  {
    LetterXor(h, c);
  }

  lemma LetterHash(s: seq<Byte>, h: int, p: int)
    requires |s| == 1 && s[0] == 'a' as int && h == BASIS && h % 256 == 0xC5 && p == (h - 0xC5 + 0xA4) * PRIME
    ensures Hash(s) == p % TWO_32
  {
    HashStep(s);
    LetterStep(h, s[0], p);
  }

  lemma LowXor(x: int, y: int)
    requires x == 0xC5 && y == 0x61
    ensures Xor(x, y) == 0xA4
  {
    XorHalf(x, y);
    XorHalf(x / 2, y / 2);
    XorHalf(x / 4, y / 4);
    XorHalf(x / 8, y / 8);
    XorHalf(x / 16, y / 16);
    XorHalf(x / 32, y / 32);
    XorHalf(x / 64, y / 64);
    XorHalf(x / 128, y / 128);
  }

  /** The values published for 32-bit FNV-1a: of no character, and of the letter a. */
  lemma PublishedValues(s: seq<Byte>)
    ensures s == [] ==> Fnv(BASIS, s) == 0x811C_9DC5
    ensures |s| == 1 && s[0] == 'a' as int ==> Hash(s) == 0xE40C_292C
  {
    var p := 0x811C_9DA4 * PRIME;
    assert p % TWO_32 == 0xE40C_292C;
    if |s| == 1 && s[0] == 'a' as int {
      LetterHash(s, BASIS, p);
    }
  }

  lemma {:induction false} FnvConcat(h: int, a: seq<Byte>, b: seq<Byte>)
    ensures Fnv(h, a + b) == Fnv(Fnv(h, a), b)
    decreases |a|
  {
    if a == [] {
      assert a + b == b;
    } else {
      assert (a + b)[1..] == a[1..] + b;
      FnvConcat(FnvStep(h, a[0]), a[1..], b);
    }
  }

  /** One character outside ASCII, and only one, always makes the hash differ from FNV-1a. */
  lemma OneHighCharacterDiffers(front: seq<Byte>, c: Byte, back: seq<Byte>)
    requires Ascii(front) && c >= 128 && Ascii(back)
    ensures Hash(front + [c] + back) != Fnv(BASIS, front + [c] + back)
  {
    HashIsFold(front + [c] + back);
    FoldConcat(BASIS, front + [c], back);
    FoldAppend(BASIS, front, c);
    FnvConcat(BASIS, front + [c], back);
    FnvConcat(BASIS, front, [c]);
    AsciiFold(BASIS, front);
    var h := Fold(BASIS, front);
    FnvOne(h, c);
    StepsAgreeExactly(h, c);
    AsciiFold(FnvStep(h, c), back);
    FoldInjective(Step(h, c), FnvStep(h, c), back);
  }

  // ---------- Two adjacent characters outside ASCII ----------

  lemma {:induction false} XorRange(x: int, y: int, k: nat)
    requires 0 <= x < Pow2(k) && 0 <= y < Pow2(k)
    ensures 0 <= Xor(x, y) < Pow2(k)
    decreases k
  {
    if k > 0 {
      XorHalf(x, y);
      XorRange(x / 2, y / 2, k - 1);
    }
  }

  lemma HalfSplit(x: int, m: int)
    requires m > 0
    ensures x / (2 * m) == x / 2 / m
    ensures x % (2 * m) / 2 == x / 2 % m && x % (2 * m) % 2 == x % 2
  {
    HalfMod(x, m);
    var q, r := x / 2 / m, x / 2 % m;
    assert x == q * (2 * m) + (2 * r + x % 2) by {
      assert x / 2 == q * m + r;
      assert 2 * (q * m) == q * (2 * m);
    }
    DivModUnique(x, 2 * m, q, 2 * r + x % 2);
  }

  /** The upper and the lower parts of the operands do not meet. */
  lemma {:induction false} XorUpper(x: int, y: int, k: nat)
    ensures Xor(x, y) / Pow2(k) == Xor(x / Pow2(k), y / Pow2(k))
    decreases k
  {
    if k > 0 {
      XorUpper(x / 2, y / 2, k - 1);
      XorUpperStep(x, y, Pow2(k - 1), Pow2(k));
    } else {
      DivOne(x, Pow2(k));
      DivOne(y, Pow2(k));
      DivOne(Xor(x, y), Pow2(k));
    }
  }

  lemma XorUpperStep(x: int, y: int, m: int, p: int)
    requires m > 0 && p == 2 * m && Xor(x / 2, y / 2) / m == Xor(x / 2 / m, y / 2 / m)
    ensures Xor(x, y) / p == Xor(x / p, y / p)
  {
    XorHalf(x, y);
    HalfSplit(x, m);
    HalfSplit(y, m);
    HalfSplit(Xor(x, y), m);
  }

  lemma {:induction false} XorLower(x: int, y: int, k: nat)
    ensures Xor(x, y) % Pow2(k) == Xor(x % Pow2(k), y % Pow2(k))
    decreases k
  {
    if k > 0 {
      XorLower(x / 2, y / 2, k - 1);
      XorLowerStep(x, y, Pow2(k - 1), Pow2(k));
    } else {
      DivOne(x, Pow2(k));
      DivOne(y, Pow2(k));
      DivOne(Xor(x, y), Pow2(k));
    }
  }

  lemma XorLowerStep(x: int, y: int, m: int, p: int)
    requires m > 0 && p == 2 * m && Xor(x / 2, y / 2) % m == Xor(x / 2 % m, y / 2 % m)
    ensures Xor(x, y) % p == Xor(x % p, y % p)
  {
    XorHalf(x, y);
    HalfSplit(x, m);
    HalfSplit(y, m);
    HalfSplit(Xor(x, y), m);
    XorHalf(x % p, y % p);
  }

  /** w is 0 or -1: no bit or every bit is flipped. */
  lemma {:induction false} XorOnes(x: int, w: int)
    requires -1 <= w <= 0
    ensures Xor(x, w) == if w == 0 then x else -x - 1
    decreases Magnitude(x)
  {
    if !(-1 <= x <= 0) {
      XorOnes(x / 2, w / 2);
    }
  }

  lemma BytePower()
    ensures Pow2(8) == 256
  {
    WordSizes();
  }

  /** Byte-wise: the upper bits and the low byte of the result. */
  lemma ByteXor(h: int, y: int)
    ensures Xor(h, y) == 256 * Xor(h / 256, y / 256) + Xor(h % 256, y % 256)
  {
    BytePower();
    XorUpper(h, y, 8);
    XorLower(h, y, 8);
    assert Xor(h, y) == 256 * (Xor(h, y) / 256) + Xor(h, y) % 256;
  }

  lemma OctetXor(h: int, c: Byte)
    ensures Xor(h, c) == 256 * (h / 256) + Xor(h % 256, c)
  {
    ByteXor(h, c);
    XorOnes(h / 256, c / 256);
  }

  lemma SignedXor(h: int, c: Byte)
    requires c >= 128
    ensures Xor(h, Signed(c)) == 256 * (-(h / 256) - 1) + Xor(h % 256, c)
  {
    var w := Signed(c);
    assert w / 256 == -1 && w % 256 == c;
    ByteXor(h, w);
    XorOnes(h / 256, w / 256);
  }

  lemma LowByteRange(l: int, c: Byte)
    requires 0 <= l < 256
    ensures 0 <= Xor(l, c) < 256
  {
    BytePower();
    XorRange(l, c, 8);
  }

  /** What the running hash is combined with: the octet, or the octet with all higher bits flipped. */
  lemma HighXor(h: int, c: Byte)
    requires c >= 128
    ensures Xor(h, c) == 256 * (h / 256) + Xor(h % 256, c)
    ensures Xor(h, Signed(c)) == 256 * (-(h / 256) - 1) + Xor(h % 256, c)
    ensures 0 <= Xor(h % 256, c) < 256
  {
    OctetXor(h, c);
    SignedXor(h, c);
    LowByteRange(h % 256, c);
  }

  /** The carry of the low byte into the upper 24 bits of the product. */
  lemma LowCarry(l: int)
    requires 0 <= l < 256
    ensures (l * PRIME / 256) % 0x80_0000 == 201 <==> l == 128
  {
    var f := l * PRIME / 256;
    assert f == l * 65536 + l * 403 / 256;
    if l < 128 {
      assert f < 0x80_0000;
    } else {
      assert f - 0x80_0000 == (l - 128) * 65536 + l * 403 / 256;
    }
  }

  /** The low byte and the upper part of a product cut to 32 bits. */
  lemma CutProduct(u: int, l: int)
    ensures var a := ((256 * u + l) * PRIME) % TWO_32;
      && a % 256 == l * PRIME % 256
      && a / 256 == u * PRIME + l * PRIME / 256 - 0x100_0000 * ((256 * u + l) * PRIME / TWO_32)
  {
    var x := (256 * u + l) * PRIME;
    var a, i := x % TWO_32, x / TWO_32;
    assert x == 256 * (u * PRIME + l * PRIME / 256) + l * PRIME % 256;
    assert a == 256 * (u * PRIME + l * PRIME / 256 - 0x100_0000 * i) + l * PRIME % 256;
    DivModUnique(a, 256, u * PRIME + l * PRIME / 256 - 0x100_0000 * i, l * PRIME % 256);
  }

  /** The two running hashes after the first character: same low byte, and upper parts that are each other's complement
      exactly when the low byte before the multiplication was 128. */
  lemma PairCore(u: int, l: int, a: int, b: int)
    requires 0 <= l < 256
    requires a == ((256 * (-u - 1) + l) * PRIME) % TWO_32 && b == ((256 * u + l) * PRIME) % TWO_32
    ensures a % 256 == b % 256
    ensures (a / 256 + b / 256 + 1) % 0x100_0000 == 0 <==> l == 128
  {
    var f := l * PRIME / 256;
    var i, j := (256 * (-u - 1) + l) * PRIME / TWO_32, (256 * u + l) * PRIME / TWO_32;
    CutProduct(-u - 1, l);
    CutProduct(u, l);
    assert (-u - 1) * PRIME + u * PRIME == -PRIME;
    ModShift(2 * (f - 201), i + j + 1);
    LowCarry(l);
    EvenPart(f);
  }

  lemma EvenPart(f: int)
    ensures (2 * (f - 201)) % 0x100_0000 == 0 <==> f % 0x80_0000 == 201
  {
  }

  lemma ModShift(x: int, k: int)
    ensures (x - 0x100_0000 * k) % 0x100_0000 == x % 0x100_0000
  {
    DivModUnique(x - 0x100_0000 * k, 0x100_0000, x / 0x100_0000 - k, x % 0x100_0000);
  }

  /** Equality of the second products, in terms of the upper parts. */
  lemma UpperParts(p: int, q: int, t: int)
    ensures (256 * (-p - 1) + t) % TWO_32 == (256 * q + t) % TWO_32 <==> (p + q + 1) % 0x100_0000 == 0
  {
    var x, y := 256 * (-p - 1) + t, 256 * q + t;
    assert y - x == 256 * (p + q + 1);
    if x % TWO_32 == y % TWO_32 {
      var d := y / TWO_32 - x / TWO_32;
      assert 256 * (p + q + 1) == d * TWO_32;
      DivModUnique(p + q + 1, 0x100_0000, d, 0);
    }
    if (p + q + 1) % 0x100_0000 == 0 {
      var e := (p + q + 1) / 0x100_0000;
      assert y == x + e * TWO_32;
      DivModUnique(y, TWO_32, x / TWO_32 + e, x % TWO_32);
    }
  }

  /** Two adjacent characters outside ASCII: the two errors cancel exactly when the low byte of the hash, combined with
      the first of them, is 128. */
  lemma PairCancelsExactly(h: int, c: Byte, d: Byte)
    requires c >= 128 && d >= 128
    ensures Step(Step(h, c), d) == FnvStep(FnvStep(h, c), d) <==> Xor(h, c) % 256 == 128
  {
    var u, l := h / 256, Xor(h % 256, c);
    var a, b := Step(h, c), FnvStep(h, c);
    FirstStep(h, c, u, l);
    PairCore(u, l, a, b);
    SecondStep(a, b, d);
  }

  lemma FirstStep(h: int, c: Byte, u: int, l: int)
    requires c >= 128 && u == h / 256 && l == Xor(h % 256, c)
    ensures Step(h, c) == ((256 * (-u - 1) + l) * PRIME) % TWO_32
    ensures FnvStep(h, c) == ((256 * u + l) * PRIME) % TWO_32
    ensures 0 <= l < 256 && Xor(h, c) % 256 == l
  {
    HighXor(h, c);
    DivModUnique(Xor(h, c), 256, u, l);
  }

  lemma SecondStep(a: int, b: int, d: Byte)
    requires d >= 128 && a % 256 == b % 256
    ensures Step(a, d) == FnvStep(b, d) <==> (a / 256 + b / 256 + 1) % 0x100_0000 == 0
  {
    var x, y := Xor(a, Signed(d)), Xor(b, d);
    HighXor(a, d);
    HighXor(b, d);
    UpperParts(a / 256, b / 256, Xor(a % 256, d));
    SameProduct(x, y);
  }

  lemma SameProduct(x: int, y: int)
    ensures (x * PRIME) % TWO_32 == (y * PRIME) % TWO_32 <==> x % TWO_32 == y % TWO_32
  {
    if (x * PRIME) % TWO_32 == (y * PRIME) % TWO_32 {
      PrimeInjective(x, y);
    }
    if x % TWO_32 == y % TWO_32 {
      ProductLow(x, y, PRIME, TWO_32);
    }
  }

  /** So an ASCII string is not the only one whose hash is FNV-1a. */
  lemma TwoHighCharactersExactly(front: seq<Byte>, c: Byte, d: Byte, back: seq<Byte>)
    requires Ascii(front) && c >= 128 && d >= 128 && Ascii(back)
    ensures var s := front + [c, d] + back;
      Hash(s) == Fnv(BASIS, s) <==> Xor(Fnv(BASIS, front), c) % 256 == 128
  {
    var s, h := front + [c, d] + back, Fold(BASIS, front);
    HashIsFold(s);
    FoldConcat(BASIS, front + [c, d], back);
    FoldConcat(BASIS, front, [c, d]);
    FnvConcat(BASIS, front + [c, d], back);
    FnvConcat(BASIS, front, [c, d]);
    AsciiFold(BASIS, front);
    PairFolds(h, c, d);
    PairCancelsExactly(h, c, d);
    AsciiFold(FnvStep(FnvStep(h, c), d), back);
    FoldInjective(Step(Step(h, c), d), FnvStep(FnvStep(h, c), d), back);
  }

  lemma FnvOne(h: int, c: Byte)
    ensures Fnv(h, [c]) == FnvStep(h, c)
  {
    assert [c][1..] == [];
  }

  lemma PairFolds(h: int, c: Byte, d: Byte)
    ensures Fold(h, [c, d]) == Step(Step(h, c), d)
    ensures Fnv(h, [c, d]) == FnvStep(FnvStep(h, c), d)
  {
    assert [c, d] == [c] + [d] && [c] == [] + [c];
    FoldAppend(h, [c], d);
    FoldAppend(h, [], c);
    FnvConcat(h, [c], [d]);
    FnvOne(h, c);
    FnvOne(FnvStep(h, c), d);
  }

  lemma {:induction false} XorSelf(x: int)
    ensures Xor(x, x) == 0
    decreases Magnitude(x)
  {
    if !(-1 <= x <= 0) {
      XorSelf(x / 2);
    }
  }

  lemma XorTop(z: int, w: int)
    requires -1 < z < 1 && 0 < w < 2
    ensures Xor(z, w) == 1
  {
  }

  lemma TopFlipped(l: int, m: int)
    requires 0 <= l < 128 && m == Pow2(7)
    ensures Xor(l, l + m) == m
  {
    assert m == 128;
    XorUpper(l, l + m, 7);
    XorLower(l, l + m, 7);
    XorTop(l / m, (l + m) / m);
    XorSelf(l);
    assert Xor(l, l + m) == m * (Xor(l, l + m) / m) + Xor(l, l + m) % m;
  }

  /** The octet that flips the top bit of a low byte below 128 leaves just that bit. */
  lemma TopBitOnly(h: int, l: int)
    requires h % 256 == l < 128
    ensures Xor(h, l + 128) % 256 == 128
  {
    var m: Byte := l + 128;
    OctetXor(h, m);
    LowByteRange(l, m);
    TopFlipped(l, Pow2(7));
    assert Pow2(7) == 128;
    assert Xor(l, m) == 128;
    DivModUnique(Xor(h, m), 256, h / 256, 128);
  }

  /** Every ASCII string whose hash has a low byte below 128 extends to one that is not ASCII and still hashes as FNV-1a. */
  lemma CancellingPair(front: seq<Byte>, d: Byte)
    requires Ascii(front) && Fnv(BASIS, front) % 256 < 128 && d >= 128
    ensures var s := front + [Fnv(BASIS, front) % 256 + 128, d];
      !Ascii(s) && Hash(s) == Fnv(BASIS, s)
  {
    var c: Byte := Fnv(BASIS, front) % 256 + 128;
    TopBitOnly(Fnv(BASIS, front), c - 128);
    TwoHighCharactersExactly(front, c, d, []);
    var s := front + [c, d];
    assert s + [] == s;
    assert s[|front|] == c;
  }
}

/** The finished file, item by item: which bytes stand where. */
module Files {
  import opened Bits
  import opened Bytes
  import Ieee
  import opened Strings
  import opened Assembler
  import opened Layout
  import opened TwoPass
  import opened ModesAndFixups
  import opened FloatFields
  import opened Settings
  import opened Wrappers

  // ---------- What an item writes ----------

  /** The number of values of a type. */
  function Values(t: Type): int {
    match t
    case U8 | S8 => 0x100
    case U16 | S16 => 0x1_0000
    case U32 | S32 | Float => 0x1_0000_0000
    case U64 | S64 | Double => TWO_64
  }

  /** The digits of v to base 256, the least significant first or last. */
  ghost predicate Digits(bytes: seq<Byte>, v: int, order: Order) {
    && (order == LittleEndian ==> forall k :: 0 <= k < |bytes| ==> bytes[k] == v / Range(k) % 256)
    && (order == BigEndian ==> forall k :: 0 <= k < |bytes| ==> bytes[|bytes| - 1 - k] == v / Range(k) % 256)
  }

  predicate AllZero(bytes: seq<Byte>) {
    forall k :: 0 <= k < |bytes| ==> bytes[k] == 0
  }

  /** Zeros from `start` to the least multiple of the boundary. */
  predicate Padding(bytes: seq<Byte>, start: nat, boundary: int)
    requires boundary != 0
  {
    AllZero(bytes) && (start + |bytes|) % boundary == 0 && (bytes == [] || |bytes| < boundary)
  }

  /** What an item in state `here`, met at place `start` of the file, writes there. */
  ghost predicate Written(it: SourceItem, here: State, start: nat, bytes: seq<Byte>) {
    var m := here.modes;
    match it
    case Typed(t, e) => Range(|bytes|) == Values(t) && Digits(bytes, Eval(e, here), m.order)
    case Default(e) => Range(|bytes|) == Values(m.ty) && Digits(bytes, Eval(e, here), m.order)
    case TypedFp(t, f) => WrittenFp(t, FpEval(f), m, bytes)
    case DefaultFp(f) =>
      if m.ty == Double then WrittenFp(Double, FpEval(f), m, bytes) else WrittenFp(Float, Ieee.Narrow(FpEval(f)), m, bytes)
    case Text(token) => Contents(token) == Some(bytes)
    case Align(e) => Eval(e, here) != 0 && Padding(bytes, start, Eval(e, here))
    case Blank(e) => |bytes| == Eval(e, here) && AllZero(bytes)
    case Fixup(e) => WrittenFixup(Eval(e, here), m, start, bytes)
    case _ => bytes == []
  }

  /** A reader finds the number, narrowed if its type is float, after the replacements. */
  ghost predicate WrittenFp(t: FpType, x: Fp, m: Modes, bytes: seq<Byte>) {
    if t == Float then
      |bytes| == 4 && ReadFloat(bytes, m.order) == Ieee.Narrow(Replaced(x, m.allowNan, m.allowInfinity, Ieee.SINGLE))
    else
      && |bytes| == 8
      && (Ieee.Encoded(x, Ieee.DOUBLE) ==> ReadDouble(bytes, m.order) == Replaced(x, m.allowNan, m.allowInfinity, Ieee.DOUBLE))
  }

  /** Padding to the address length, and then the digits: of four bytes for 32-bit addresses, of eight for all others. */
  ghost predicate WrittenFixup(v: int, m: Modes, start: nat, bytes: seq<Byte>) {
    var w := if m.addressLen == 32 then 4 else 8;
    && m.addressLen >= 8 && |bytes| >= w
    && Padding(bytes[..|bytes| - w], start, m.addressLen / 8) && Digits(bytes[|bytes| - w..], v, m.order)
  }

  // ---------- Item by item ----------

  lemma FieldDigits(v: int, size: nat, order: Order)
    ensures Digits(Field(v, size, order), v, order)
  {
    forall k | 0 <= k < size
      ensures Field(v, size, LittleEndian)[k] == v / Range(k) % 256
      ensures Field(v, size, BigEndian)[size - 1 - k] == v / Range(k) % 256
    {
      FieldDigit(v, size, k);
    }
  }

  lemma WidthValues(t: Type)
    ensures Range(Width(t)) == Values(t)
  {
    Ranges();
  }

  lemma IntegerWritten(v: int, t: Type, order: Order)
    ensures var bytes := Field(v, Width(t), order); Range(|bytes|) == Values(t) && Digits(bytes, v, order)
  {
    WidthValues(t);
    FieldDigits(v, Width(t), order);
  }

  lemma FpWritten(t: FpType, x: Fp, m: Modes)
    ensures WrittenFp(t, x, m, TypedFpField(t, x, m))
  {
    if t == Float {
      FloatReads(x, m);
    } else if Ieee.Encoded(x, Ieee.DOUBLE) {
      DoubleReads(x, m);
    }
  }

  lemma PaddingWritten(start: nat, boundary: int)
    requires Alignable(start, boundary)
    ensures Padding(Zeros(Pad(start, boundary)), start, boundary)
  {
    if boundary > 0 {
      AlignLeast(start, boundary);
    }
  }

  lemma FixupWritten(v: int, m: Modes, start: nat)
    requires m.addressLen >= 8
    ensures WrittenFixup(v, m, start, Zeros(Pad(start, m.addressLen / 8)) + Field(v, FixupWidth(m.addressLen), m.order))
  {
    var pad, field := Zeros(Pad(start, m.addressLen / 8)), Field(v, FixupWidth(m.addressLen), m.order);
    PaddingWritten(start, m.addressLen / 8);
    FieldDigits(v, FixupWidth(m.addressLen), m.order);
    assert (pad + field)[..|pad|] == pad && (pad + field)[|pad|..] == field;
  }

  lemma EmittedIsWritten(it: SourceItem, here: State)
    requires Emitted(it, here).Some?
    ensures Written(it, here, here.offset, Emitted(it, here).value)
  {
    match it
    case Typed(t, e) => IntegerWritten(Eval(e, here), t, here.modes.order);
    case Default(e) => IntegerWritten(Eval(e, here), here.modes.ty, here.modes.order);
    case TypedFp(t, f) => FpWritten(t, FpEval(f), here.modes);
    case DefaultFp(f) =>
      FpWritten(Double, FpEval(f), here.modes);
      FpWritten(Float, Ieee.Narrow(FpEval(f)), here.modes);
    case Align(e) => PaddingWritten(here.offset, Eval(e, here));
    case Fixup(e) => FixupWritten(Eval(e, here), here.modes, here.offset);
    case _ =>
  }

  /** The state in which the second pass meets item i. */
  function Meets(items: Items, i: nat): State
    requires Assemble(items).Some? && i <= |items|
  {
    At(items, i, SecondStart(items))
  }

  /** Where in the file item i begins. */
  function Place(items: Items, i: nat): nat
    requires Assemble(items).Some? && i <= |items|
  {
    |Meets(items, i).out|
  }

  /** The part of the file that item i writes. */
  function Part(items: Items, i: nat): seq<Byte>
    requires Assemble(items).Some? && i < |items|
    requires Place(items, i) <= Place(items, i + 1) <= |Assemble(items).value.out|
  {
    Assemble(items).value.out[Place(items, i)..Place(items, i + 1)]
  }

  lemma Appended(before: seq<Byte>, bytes: seq<Byte>, file: seq<Byte>)
    requires before + bytes <= file
    ensures file[|before|..|before| + |bytes|] == bytes
  {
    assert file[..|before| + |bytes|] == before + bytes;
  }

  /** The parts of the items follow one another without a gap, from the beginning of the file to its end. */
  lemma PartsFollow(items: Items, i: nat)
    requires Assemble(items).Some? && i < |items|
    ensures Place(items, 0) == 0 && Place(items, |items|) == |Assemble(items).value.out|
    ensures Place(items, i) <= Place(items, i + 1) <= |Assemble(items).value.out|
  {
    OutputIsListing(items, FRESH);
    AtStart(items, SecondStart(items));
    AtEnd(items, SecondStart(items));
    StepAppends(items, i);
  }

  /** Item i appends what it emits, and the offset it does so at is its place in the file. */
  lemma StepAppends(items: Items, i: nat)
    requires Assemble(items).Some? && i < |items|
    ensures Emitted(items[i], Meets(items, i)).Some? && Meets(items, i).offset == Place(items, i)
    ensures Meets(items, i + 1).out == Meets(items, i).out + Emitted(items[i], Meets(items, i)).value
    ensures Meets(items, i + 1).out <= Assemble(items).value.out
  {
    OutputIsListing(items, FRESH);
    OutputGrows(items, i, SecondStart(items));
    OutputGrows(items, i + 1, SecondStart(items));
    AtNext(items, i, SecondStart(items));
    StepEmits(items[i], Meets(items, i));
  }

  lemma PartIs(items: Items, i: nat, bytes: seq<Byte>)
    requires Assemble(items).Some? && i < |items|
    requires Place(items, i) <= Place(items, i + 1) <= |Assemble(items).value.out|
    requires Meets(items, i + 1).out == Meets(items, i).out + bytes && Meets(items, i + 1).out <= Assemble(items).value.out
    ensures Part(items, i) == bytes
  {
    Appended(Meets(items, i).out, bytes, Assemble(items).value.out);
  }

  lemma PartEmitted(items: Items, i: nat)
    requires Assemble(items).Some? && i < |items|
    ensures Place(items, i) <= Place(items, i + 1) <= |Assemble(items).value.out|
    ensures Emitted(items[i], Meets(items, i)) == Some(Part(items, i)) && Meets(items, i).offset == Place(items, i)
  {
    PartsFollow(items, i);
    StepAppends(items, i);
    PartIs(items, i, Emitted(items[i], Meets(items, i)).value);
  }

  /** Each item's part of the finished file is what an item of its kind must write, in the modes and with the symbols that
      the second pass meets it with. */
  lemma PartWritten(items: Items, i: nat)
    requires Assemble(items).Some? && i < |items|
    ensures Place(items, i) <= Place(items, i + 1) <= |Assemble(items).value.out|
    ensures Written(items[i], Meets(items, i), Place(items, i), Part(items, i))
  {
    PartEmitted(items, i);
    EmittedIsWritten(items[i], Meets(items, i));
  }

  /** What the source does not abort, or go on for ever, on. */
  predicate Performable(it: SourceItem, s: State) {
    match it
    case Default(_) => s.modes.ty != Float && s.modes.ty != Double
    case Text(token) => Readable(CString(token))
    case Align(e) => Eval(e, s) > 0 || (Eval(e, s) < 0 && s.offset % -Eval(e, s) == 0)
    case Blank(e) => Eval(e, s) >= 0
    case Fixup(_) => s.modes.addressLen >= 8
    case _ => true
  }

  /** An item fails exactly where the source fails an assert, divides by zero or counts past zero. */
  lemma DefinedExactly(it: SourceItem, s: State)
    ensures Step(it, s).Some? <==> Performable(it, s)
  {
    StepEmits(it, s);
    EmittedExactly(it, s);
  }

  lemma EmittedExactly(it: SourceItem, s: State)
    ensures Emitted(it, s).Some? <==> Performable(it, s)
  {
    match it
    case Text(token) => TextExactly(token);
    case Align(e) => AlignExactly(s.offset, Eval(e, s));
    case _ =>
  }

  lemma TextExactly(token: seq<Byte>)
    ensures Contents(token).Some? <==> Readable(CString(token))
  {
    ContentsDefined(token);
  }

  lemma AlignExactly(k: nat, b: int)
    ensures Alignable(k, b) <==> b > 0 || (b < 0 && k % -b == 0)
  {
    if b < 0 {
      Opposite(k, -b);
    }
  }

  /** Quotes at both ends, and an even number of backslashes before the second. */
  predicate Readable(s: seq<Byte>) {
    |s| >= 2 && s[0] == '\"' as int && s[|s| - 1] == '\"' as int && TrailingBackslashes(s[1..|s| - 1]) % 2 == 0
  }

  lemma Opposite(k: nat, b: int)
    requires b > 0
    ensures k % -b == k % b
  {
  }

  // ---------- Texts that leave the modes alone ----------

  /** Without an item that sets the byte order every integer field begins with its least significant byte. */
  lemma LittleEndianFile(items: Items, i: nat)
    requires Assemble(items).Some? && i < |items| && (items[i].Typed? || items[i].Default?)
    requires forall k :: 0 <= k < |items| ==> !items[k].SetOrder?
    ensures Place(items, i) <= Place(items, i + 1) <= |Assemble(items).value.out|
    ensures forall k :: 0 <= k < |Part(items, i)| ==>
      Part(items, i)[k] == Eval(items[i].arg, Meets(items, i)) / Range(k) % 256
  {
    PartWritten(items, i);
    NeverSet(items, i, ByteOrder);
  }

  /** Without one that sets the default type an integer without a type takes four bytes. */
  lemma FourByteFile(items: Items, i: nat)
    requires Assemble(items).Some? && i < |items| && items[i].Default?
    requires forall k :: 0 <= k < |items| ==> !items[k].SetType?
    ensures Place(items, i) + 4 == Place(items, i + 1)
  {
    IntegerSize(items, i);
    NeverSet(items, i, DefaultType);
  }

  lemma IntegerSize(items: Items, i: nat)
    requires Assemble(items).Some? && i < |items| && items[i].Default?
    ensures Place(items, i + 1) == Place(items, i) + Width(Meets(items, i).modes.ty)
  {
    StepAppends(items, i);
  }

  /** Eight bytes behind zeros, at the least multiple of eight. */
  ghost predicate LongFixup(file: seq<Byte>, start: nat, end: nat, v: int, order: Order) {
    && start + 8 <= end <= |file| && (end - 8) % 8 == 0 && end - 8 < start + 8
    && AllZero(file[start..end - 8]) && Digits(file[end - 8..end], v, order)
  }

  lemma FixupIsLong(v: int, m: Modes, file: seq<Byte>, start: nat, end: nat)
    requires start <= end <= |file| && m.addressLen == 64 && WrittenFixup(v, m, start, file[start..end])
    ensures LongFixup(file, start, end, v, m.order)
  {
    var part := file[start..end];
    assert part[..|part| - 8] == file[start..end - 8] && part[|part| - 8..] == file[end - 8..end];
  }

  lemma FixupPart(items: Items, i: nat, e: Expr)
    requires Assemble(items).Some? && i < |items| && items[i] == Fixup(e)
    ensures Place(items, i) <= Place(items, i + 1) <= |Assemble(items).value.out|
    ensures WrittenFixup(Eval(e, Meets(items, i)), Meets(items, i).modes, Place(items, i), Part(items, i))
  {
    PartWritten(items, i);
  }

  lemma AddressKept(items: Items, i: nat)
    requires Assemble(items).Some? && i < |items| && forall k :: 0 <= k < |items| ==> !items[k].AddressLen?
    ensures Meets(items, i).modes.addressLen == 64
  {
    NeverSet(items, i, AddressLength);
  }

  /** Without one that sets the address length a fixup is eight bytes behind zeros, at the least multiple of eight. */
  lemma EightByteFixups(items: Items, i: nat, e: Expr)
    requires Assemble(items).Some? && i < |items| && items[i] == Fixup(e)
    requires forall k :: 0 <= k < |items| ==> !items[k].AddressLen?
    ensures LongFixup(Assemble(items).value.out, Place(items, i), Place(items, i + 1), Eval(e, Meets(items, i)),
      Meets(items, i).modes.order)
  {
    FixupPart(items, i, e);
    AddressKept(items, i);
    FixupIsLong(Eval(e, Meets(items, i)), Meets(items, i).modes, Assemble(items).value.out, Place(items, i),
      Place(items, i + 1));
  }

  lemma DoublePart(items: Items, i: nat, f: FpExpr)
    requires Assemble(items).Some? && i < |items| && items[i] == TypedFp(Double, f)
    ensures Place(items, i) <= Place(items, i + 1) <= |Assemble(items).value.out|
    ensures WrittenFp(Double, FpEval(f), Meets(items, i).modes, Part(items, i))
  {
    PartWritten(items, i);
  }

  lemma FlagsKept(items: Items, i: nat)
    requires Assemble(items).Some? && i < |items|
    requires forall k :: 0 <= k < |items| ==> !items[k].AllowNan? && !items[k].AllowInfinity?
    ensures Meets(items, i).modes.allowNan && Meets(items, i).modes.allowInfinity
  {
    NeverSet(items, i, NanMode);
    NeverSet(items, i, InfinityMode);
  }

  lemma NothingReplaced(x: Fp, m: Modes, bytes: seq<Byte>)
    requires m.allowNan && m.allowInfinity && Ieee.Encoded(x, Ieee.DOUBLE) && WrittenFp(Double, x, m, bytes)
    ensures |bytes| == 8 && ReadDouble(bytes, m.order) == x
  {
  }

  lemma DoubleReadsBack(items: Items, i: nat, f: FpExpr)
    requires Assemble(items).Some? && i < |items| && items[i] == TypedFp(Double, f) && Literals(f)
    requires Meets(items, i).modes.allowNan && Meets(items, i).modes.allowInfinity
    ensures Place(items, i) + 8 == Place(items, i + 1) <= |Assemble(items).value.out|
    ensures ReadDouble(Part(items, i), Meets(items, i).modes.order) == FpEval(f)
  {
    DoublePart(items, i, f);
    EvalEncoded(f);
    NothingReplaced(FpEval(f), Meets(items, i).modes, Part(items, i));
  }

  /** Without one that forbids NaN or infinities a double is read back as it was evaluated. */
  lemma DoublesKept(items: Items, i: nat, f: FpExpr)
    requires Assemble(items).Some? && i < |items| && items[i] == TypedFp(Double, f) && Literals(f)
    requires forall k :: 0 <= k < |items| ==> !items[k].AllowNan? && !items[k].AllowInfinity?
    ensures Place(items, i) + 8 == Place(items, i + 1) <= |Assemble(items).value.out|
    ensures ReadDouble(Part(items, i), Meets(items, i).modes.order) == FpEval(f)
  {
    FlagsKept(items, i);
    DoubleReadsBack(items, i, f);
  }
}

/** The assembler object of the source: its fields, its callbacks, the parser loop that calls them, and the two passes. */
module BinifyObject {
  import opened Bits
  import opened Bytes
  import Ieee
  import opened Strings
  import opened Assembler
  import opened LrDriver
  import opened LrProgram
  import opened LrSoundness
  import opened LrAcceptance
  import opened LrOutcomes
  import opened Wrappers

  // ---------- Facts about fields that the callbacks need ----------

  /** Masking and narrowing before the bytes are laid out changes no byte. */
  lemma MaskedNative(v: int, size: nat)
    ensures Native(v % Range(size), size) == Native(v, size)
  {
    ModSmall(v, Range(size));
    NativeCongruent(v % Range(size), v, size);
  }

  lemma ModSmall(v: int, m: int)
    requires m > 0
    ensures (v % m) % m == v % m
  {
    DivModUnique(v % m, m, 0, v % m);
  }

  lemma OneByte(v: int, order: Order)
    ensures Field(v, 1, order) == [v % 0x100]
  {
    assert Native(v, 1) == [v % 256] + Native(v / 256, 0);
    assert Reverse([v % 256]) == Reverse([]) + [v % 256] by {
      assert [v % 256][1..] == [];
    }
  }

  lemma EmitNothing(s: State)
    ensures Emit(s, []) == s
  {
    assert s.out + [] == s.out;
  }

  lemma EmitTwice(s: State, a: seq<Byte>, b: seq<Byte>)
    ensures Emit(Emit(s, a), b) == Emit(s, a + b)
  {
    assert s.out + a + b == s.out + (a + b);
  }

  lemma EmitNext(s: State, p: seq<Byte>, i: nat)
    requires i < |p|
    ensures Emit(Emit(s, p[..i]), [p[i]]) == Emit(s, p[..i + 1])
  {
    EmitTwice(s, p[..i], [p[i]]);
    assert p[..i] + [p[i]] == p[..i + 1];
  }

  lemma FpPerformed(s: State, t: FpType, x: Fp)
    ensures Perform(TypedFp(t, x), s) == Some(Emit(s, TypedFpField(t, x, s.modes)))
  {
  }

  /** An item without a type is one with the default type, or a float. */
  lemma DefaultPerformed(s: State, x: Fp)
    ensures Perform(DefaultFp(x), s)
      == if s.modes.ty == Type.Double then Perform(TypedFp(Type.Double, x), s)
         else Perform(TypedFp(Type.Float, Ieee.Narrow(x)), s)
  {
  }

  /** The parser calls the actions of the source. */
  ghost predicate SourceActions(tb: Parser) {
    forall r, vals, s {:trigger Act(r, vals, s)} :: tb.act(r, vals, s) == Act(r, vals, s)
  }

  /** The bytes read so far and those of the rest make up the whole. */
  predicate Reads(rest: seq<Byte>, done: seq<Byte>, all: seq<Byte>) {
    Unescape(rest).Some? && done + Unescape(rest).value == all
  }

  lemma ReadsOn(rest: seq<Byte>, done: seq<Byte>, all: seq<Byte>)
    requires Reads(rest, done, all) && rest != []
    ensures rest[0] != BACKSLASH ==> Reads(rest[1..], done + [rest[0]], all)
    ensures rest[0] == BACKSLASH ==> |rest| >= 2 && Reads(rest[2..], done + [Escaped(rest[1])], all)
  {
    if rest[0] != BACKSLASH {
      var more := Unescape(rest[1..]).value;
      assert done + ([rest[0]] + more) == done + [rest[0]] + more;
    } else {
      var more := Unescape(rest[2..]).value;
      assert done + ([Escaped(rest[1])] + more) == done + [Escaped(rest[1])] + more;
    }
  }

  class Binify {
    var out: seq<Byte>
    var offset: nat
    var pass: nat
    var symbolTable: map<string, int>
    var defaultType: Type
    var byteOrder: Order
    var allowNan: bool
    var allowInfinity: bool
    var addressLen: nat

    /** The state of the pure assembler that the fields stand for. */
    function Abs(): State
      reads this
    {
      State(pass, offset, symbolTable, Modes(defaultType, byteOrder, allowNan, allowInfinity, addressLen), out)
    }

    constructor ()
      ensures Abs() == FRESH
      ensures defaultType == Type.U32 && byteOrder == LittleEndian && allowNan && allowInfinity && addressLen == 64
      ensures pass == 0 && offset == 0 && out == [] && symbolTable == map[]
    {
      out, offset, pass, symbolTable := [], 0, 0, map[];
      defaultType, byteOrder, allowNan, allowInfinity, addressLen := Type.U32, LittleEndian, true, true, 64;
    }

    // ---------- Symbols ----------

    method SetSymbol(name: string, i: int)
      modifies this`symbolTable
      ensures Some(Abs()) == Perform(Assign(name, i), old(Abs()))
    {
      EmitNothing(Abs());
      symbolTable := symbolTable[name := i];
    }

    method SetPass0Symbol(name: string, i: int)
      modifies this`symbolTable
      ensures Some(Abs()) == Perform(Pass0(name, i), old(Abs()))
      ensures symbolTable == if pass == 0 then old(symbolTable)[name := i] else old(symbolTable)
    {
      EmitNothing(Abs());
      if pass == 0 {
        SetSymbol(name, i);
      }
    }

    method SetSymbolToOffset(name: string)
      modifies this`symbolTable
      ensures Some(Abs()) == Perform(Label(name), old(Abs()))
    {
      EmitNothing(Abs());
      if pass == 0 {
        SetPass0Symbol(name, offset);
      }
    }

    method LookupSymbol(name: string) returns (i: int)
      ensures i == Lookup(name, Abs())
    {
      if name !in symbolTable {
        if pass == 0 {
          return 1;
        }
        return 0;
      }
      return symbolTable[name];
    }

    // ---------- Bytes ----------

    method ByteOut(b: Byte)
      modifies this`offset, this`out
      ensures Abs() == Emit(old(Abs()), [b])
    {
      offset := offset + 1;
      if pass == 1 {
        out := out + [b];
      }
    }

    method ValueOut(p: seq<Byte>)
      modifies this`offset, this`out
      ensures Abs() == Emit(old(Abs()), Ordered(p, old(byteOrder)))
      ensures Abs() == Emit(old(Abs()), if byteOrder == LittleEndian then p else Reverse(p))
    {
      if byteOrder == LittleEndian {
        for i := 0 to |p|
          invariant Abs() == Emit(old(Abs()), p[..i])
        {
          ByteOut(p[i]);
          EmitNext(old(Abs()), p, i);
        }
        assert p[..|p|] == p;
      } else {
        for i := |p| downto 0
          invariant Abs() == Emit(old(Abs()), Reverse(p)[..|p| - i])
        {
          ByteOut(p[i]);
          EmitNext(old(Abs()), Reverse(p), |p| - i - 1);
        }
        assert Reverse(p)[..|p|] == Reverse(p);
      }
    }

    /** The loop of Align and Blank. */
    method ZerosOut(count: nat)
      modifies this`offset, this`out
      ensures Abs() == Emit(old(Abs()), Zeros(count))
    {
      EmitNothing(Abs());
      var left := count;
      while left > 0
        invariant 0 <= left <= count
        invariant Abs() == Emit(old(Abs()), Zeros(count - left))
      {
        ghost var done := count - left;
        left := left - 1;
        ByteOut(0);
        EmitTwice(old(Abs()), Zeros(done), [0]);
        assert Zeros(done) + [0] == Zeros(done + 1);
      }
    }

    /** A boundary that is zero, or negative and not met already, has no end in the source. */
    method Align(boundary: int)
      requires Alignable(offset, boundary)
      modifies this`offset, this`out
      ensures Some(Abs()) == Perform(Item.Align(boundary), old(Abs()))
    {
      var pad := boundary - offset % boundary;
      if pad == boundary {
        pad := 0;
      }
      ZerosOut(pad);
    }

    method Blank(count: int)
      requires count >= 0
      modifies this`offset, this`out
      ensures Some(Abs()) == Perform(Item.Blank(count), old(Abs()))
    {
      ZerosOut(count);
    }

    method String(token: seq<Byte>)
      requires Contents(token).Some?
      modifies this`offset, this`out
      ensures Some(Abs()) == Perform(Text(token), old(Abs()))
    {
      var str := CString(token);
      var len := |str|;
      var i := 1;
      ghost var done: seq<Byte> := [];
      ghost var all := Unescape(str[1..len - 1]).value;
      while i < len - 1
        invariant 1 <= i <= len - 1
        invariant Abs() == Emit(old(Abs()), done)
        invariant Reads(str[i..len - 1], done, all)
      {
        ghost var rest := str[i..len - 1];
        ReadsOn(rest, done, all);
        var c := str[i];
        i := i + 1;
        if c == BACKSLASH {
          var letter := str[i];
          i := i + 1;
          if letter == DIGIT_ZERO { c := NUL; }
          else if letter == LETTER_N { c := NEWLINE; }
          else if letter == LETTER_T { c := TAB; }
          else if letter == LETTER_R { c := RETURN; }
          else if letter == QUOTE { c := QUOTE; }
          assert rest[2..] == str[i..len - 1];
        } else {
          assert rest[1..] == str[i..len - 1];
        }
        ByteOut(c);
        EmitTwice(old(Abs()), done, [c]);
        done := done + [c];
      }
      assert done == all;
    }

    // ---------- Integers ----------

    method U8(i: int)
      modifies this`offset, this`out
      ensures Some(Abs()) == Perform(Typed(Type.U8, i), old(Abs()))
    {
      OneByte(i, byteOrder);
      ByteOut(i % 0x100);
    }

    method U16(i: int)
      modifies this`offset, this`out
      ensures Some(Abs()) == Perform(Typed(Type.U16, i), old(Abs()))
    {
      Ranges();
      MaskedNative(i, 2);
      ValueOut(Native(i % 0x1_0000, 2));
    }

    method U32(i: int)
      modifies this`offset, this`out
      ensures Some(Abs()) == Perform(Typed(Type.U32, i), old(Abs()))
    {
      Ranges();
      MaskedNative(i, 4);
      ValueOut(Native(i % 0x1_0000_0000, 4));
    }

    method U64(i: int)
      modifies this`offset, this`out
      ensures Some(Abs()) == Perform(Typed(Type.U64, i), old(Abs()))
    {
      Ranges();
      MaskedNative(i, 8);
      ValueOut(Native(i % TWO_64, 8));
    }

    method S8(i: int)
      modifies this`offset, this`out
      ensures Some(Abs()) == Perform(Typed(Type.S8, i), old(Abs()))
    {
      OneByte(i, byteOrder);
      ByteOut(i % 0x100);
    }

    method S16(i: int)
      modifies this`offset, this`out
      ensures Some(Abs()) == Perform(Typed(Type.S16, i), old(Abs()))
    {
      ValueOut(Native(i, 2));
    }

    method S32(i: int)
      modifies this`offset, this`out
      ensures Some(Abs()) == Perform(Typed(Type.S32, i), old(Abs()))
    {
      ValueOut(Native(i, 4));
    }

    method S64(i: int)
      modifies this`offset, this`out
      ensures Some(Abs()) == Perform(Typed(Type.S64, i), old(Abs()))
    {
      ValueOut(Native(i, 8));
    }

    method IntDefault(i: int)
      requires defaultType != Type.Float && defaultType != Type.Double
      modifies this`offset, this`out
      ensures Some(Abs()) == Perform(Default(i), old(Abs()))
    {
      match defaultType
      case U8 => U8(i);
      case U16 => U16(i);
      case U32 => U32(i);
      case U64 => U64(i);
      case S8 => S8(i);
      case S16 => S16(i);
      case S32 => S32(i);
      case S64 => S64(i);
      case _ => assert false;
    }

    // ---------- Floating point ----------

    /** The replacement of NaN and infinities that Float and Double start with: afterwards there is none that is not
        allowed, and what was allowed is untouched. */
    method Sanitised(d: Fp, f: Ieee.Format) returns (r: Fp)
      ensures r == Replaced(d, allowNan, allowInfinity, f)
      ensures !allowNan ==> !r.Nan?
      ensures !allowInfinity ==> r.Finite?
      ensures d.Finite? || (allowNan && allowInfinity) ==> r == d
    {
      r := d;
      if !allowNan && r.Nan? {
        r := Ieee.ZERO;
      }
      if !allowInfinity && !r.Finite? {
        if r == Ieee.Infinite(true) {
          r := Ieee.Largest(true, f);
        } else {
          r := Ieee.Largest(false, f);
        }
      }
    }

    method Float(d: Fp)
      modifies this`offset, this`out
      ensures Some(Abs()) == Perform(TypedFp(Type.Float, d), old(Abs()))
    {
      FpPerformed(Abs(), Type.Float, d);
      var r := Sanitised(d, Ieee.SINGLE);
      ValueOut(Native(Ieee.Image(Ieee.Narrow(r), Ieee.SINGLE), 4));
    }

    method Double(d: Fp)
      modifies this`offset, this`out
      ensures Some(Abs()) == Perform(TypedFp(Type.Double, d), old(Abs()))
    {
      FpPerformed(Abs(), Type.Double, d);
      var r := Sanitised(d, Ieee.DOUBLE);
      ValueOut(Native(Ieee.Image(r, Ieee.DOUBLE), 8));
    }

    method FloatDefault(f: Fp)
      modifies this`offset, this`out
      ensures Some(Abs()) == Perform(DefaultFp(f), old(Abs()))
    {
      DefaultPerformed(Abs(), f);
      if defaultType == Type.Double {
        Double(f);
      } else {
        Float(Ieee.Narrow(f));
      }
    }

    // ---------- Modes ----------

    method SetDefaultType(ty: Type)
      modifies this`defaultType
      ensures Some(Abs()) == Perform(SetType(ty), old(Abs()))
    {
      EmitNothing(Abs());
      defaultType := ty;
    }

    method SetByteOrder(order: Order)
      modifies this`byteOrder
      ensures Some(Abs()) == Perform(SetOrder(order), old(Abs()))
    {
      EmitNothing(Abs());
      byteOrder := order;
    }

    method AllowNan(yesno: int)
      modifies this`allowNan
      ensures Some(Abs()) == Perform(Item.AllowNan(yesno), old(Abs()))
    {
      EmitNothing(Abs());
      allowNan := yesno != 0;
    }

    method AllowInfinity(yesno: int)
      modifies this`allowInfinity
      ensures Some(Abs()) == Perform(Item.AllowInfinity(yesno), old(Abs()))
    {
      EmitNothing(Abs());
      allowInfinity := yesno != 0;
    }

    method SetAddressLen(bits: int)
      modifies this`addressLen
      ensures Some(Abs()) == Perform(AddressLen(bits), old(Abs()))
    {
      EmitNothing(Abs());
      if bits % 8 != 0 {
        return;
      }
      if bits < 0 {
        return;
      }
      addressLen := bits;
    }

    method Fixup(i: int)
      requires addressLen >= 8
      modifies this`offset, this`out
      ensures Some(Abs()) == Perform(Item.Fixup(i), old(Abs()))
    {
      ghost var pad := Zeros(Pad(offset, addressLen / 8));
      Align(addressLen / 8);
      EmitTwice(old(Abs()), pad, Field(i, FixupWidth(addressLen), byteOrder));
      if addressLen == 32 {
        U32(i);
      } else {
        U64(i);
      }
    }

    // ---------- The parser loop ----------

    /** One semantic action: the value of the new stack entry, and the callback. */
    method Reduce(r: int, vals: seq<Value>) returns (v: Value)
      requires Act(r, vals, Abs()).Some?
      modifies this
      ensures Act(r, vals, old(Abs())) == Some((v, Abs()))
    {
      v := Empty;
      if 8 <= r <= 17 {
        v := Kind(TypeOf(r - 8));
      } else if 18 <= r <= 25 {
        ReduceTyped(r, vals);
      } else if 26 <= r <= 42 {
        ReduceItem(r, vals);
      } else if r == 43 || r == 49 {
        v := vals[0];
      } else if r == 44 {
        v := Number(Wrap64(vals[0].i - vals[2].i));
      } else if r == 45 {
        v := Number(Wrap64(vals[0].i + vals[2].i));
      } else if r == 46 || r == 55 {
        v := vals[1];
      } else if r == 47 {
        v := Number(Or(vals[0].i, vals[2].i));
      } else if r == 48 {
        var i := LookupSymbol(vals[0].name);
        v := Number(i);
      } else if 50 <= r <= 53 {
        v := Real(FpOperation(r, vals[0].fp, vals[2].fp));
      } else if r == 54 {
        v := Real(Ieee.Negate(vals[1].fp));
      }
    }

    method ReduceTyped(r: int, vals: seq<Value>)
      requires 18 <= r <= 25 && ItemAction(r, vals).Some?
      requires Perform(ItemAction(r, vals).value.command, Abs()).Some?
      modifies this
      ensures Some(Abs()) == Perform(ItemAction(r, vals).value.command, old(Abs()))
    {
      match r
      case 18 => U8(vals[3].i);
      case 19 => U16(vals[3].i);
      case 20 => U32(vals[3].i);
      case 21 => U64(vals[3].i);
      case 22 => S8(vals[3].i);
      case 23 => S16(vals[3].i);
      case 24 => S32(vals[3].i);
      case _ => S64(vals[3].i);
    }

    method ReduceItem(r: int, vals: seq<Value>)
      requires 26 <= r <= 42 && ItemAction(r, vals).Some?
      requires Perform(ItemAction(r, vals).value.command, Abs()).Some?
      modifies this
      ensures Some(Abs()) == Perform(ItemAction(r, vals).value.command, old(Abs()))
    {
      match r
      case 26 => Float(vals[3].fp);
      case 27 => Double(vals[3].fp);
      case 28 => IntDefault(vals[0].i);
      case 29 => FloatDefault(vals[0].fp);
      case 30 => String(vals[0].bytes);
      case 31 => Align(vals[1].i);
      case 32 => Blank(vals[1].i);
      case 33 => AllowNan(vals[1].i);
      case 34 => AllowInfinity(vals[1].i);
      case 35 => SetAddressLen(vals[1].i);
      case 36 => Fixup(vals[1].i);
      case 37 => SetDefaultType(vals[1].ty);
      case 38 => SetByteOrder(LittleEndian);
      case 39 => SetByteOrder(BigEndian);
      case 40 => SetPass0Symbol(vals[1].name, vals[3].i);
      case 41 => SetSymbolToOffset(vals[0].name);
      case _ => SetSymbol(vals[0].name, vals[2].i);
    }

    method ReduceVia(tb: Parser, r: int, vals: seq<Value>) returns (v: Value)
      requires SourceActions(tb) && tb.act(r, vals, Abs()).Some?
      modifies this
      ensures tb.act(r, vals, old(Abs())) == Some((v, Abs()))
    {
      assert tb.act(r, vals, Abs()) == Act(r, vals, Abs());
      v := Reduce(r, vals);
    }

    /** The reduction of the driver: pop the right-hand side, act, push the nonterminal. */
    method ReduceTop(tb: Parser, stack: seq<Entry>, r: int, ghost input: seq<Token>) returns (after: seq<Entry>)
      requires SourceActions(tb) && 1 <= |stack| - tb.length(r) <= |stack|
      requires tb.act(r, Values(stack[|stack| - tb.length(r)..]), Abs()).Some?
      modifies this
      ensures ReduceBy(tb, r, Config(stack, input, old(Abs()))) == Next(Config(after, input, Abs()))
    {
      var keep := |stack| - tb.length(r);
      var base, vals := stack[..keep], Values(stack[keep..]);
      var v := ReduceVia(tb, r, vals);
      after := base + [Entry(tb.goto(Top(base), tb.lhs(r)), v)];
    }

    /** The driver's loop: it stops on every file, accepting it or at a syntax error. */
    method Drive(tb: Parser, tokens: seq<Token>, ghost K: iset<(Pile, Config)>)
      returns (accepted: bool, ghost p: Pile, ghost last: Config)
      requires SourceActions(tb) && Smoothly(tb, K) && (Bottom, Initial(tokens, Abs())) in K
      modifies this
      ensures (p, last) in K && last.asm == Abs()
      ensures if accepted then Top(last.stack) == FINAL else SyntaxError(tb, last)
    {
      var stack, pos := [Entry(0, Empty)], 0;
      p, last := Bottom, Initial(tokens, Abs());
      assert tokens[0..] == tokens;
      while Top(stack) != FINAL
        invariant pos <= |tokens| && last == Config(stack, tokens[pos..], Abs())
        invariant (p, last) in K
        decreases |tokens| - pos, if p.Bottom? then 1 else 0, Depth(p), if p.On? then Rank(p.part) else 0
      {
        assert Smooth(tb, last);
        match tb.decide(Top(stack), tokens[pos].sym) {
          case Error =>
            accepted := false;
            return;
          case Shift(q) =>
            p := ShiftsSmoothly(tb, K, p, last, q);
            assert tokens[pos..][1..] == tokens[pos + 1..];
            stack, pos := stack + [Entry(q, tokens[pos].value)], pos + 1;
          case Reduce(r) =>
            ghost var d;
            p, d := ReducesSmoothly(tb, K, p, last, r);
            stack := ReduceTop(tb, stack, r, tokens[pos..]);
        }
        last := Config(stack, tokens[pos..], Abs());
      }
      accepted := true;
    }

    /** One pass of the source's parser over a file none of whose items fails. */
    method ParsePass(tokens: seq<Token>) returns (accepted: bool)
      requires Scanning(tokens) && Whole(tokens) && Harmless(LALR, tokens, Abs())
      modifies this
      ensures accepted <==> IsText(tokens)
      ensures accepted ==> IsProgram(tokens, old(Abs()), Abs())
      ensures exists done :: Run(done, old(Abs())) == Some(Abs())
    {
      MachineHolds();
      ghost var start := Abs();
      ghost var K := RunsSmoothly(LALR, tokens, start);
      ghost var p, last;
      accepted, p, last := Drive(LALR, tokens, K);
      ghost var n := StepsTo(LALR, Initial(tokens, start), last);
      Verdict(tokens, start, last, n);
      ghost var done := ItemsPerformed(tokens, start, last);
    }

    /** Both passes over the same file, by a fresh object. A syntax error ends the first pass, and is not reported. */
    method Parse(tokens: seq<Token>) returns (okay: bool)
      requires Abs() == FRESH && Scanning(tokens) && Whole(tokens)
      requires Harmless(LALR, tokens, FRESH)
      requires forall counted :: IsProgram(tokens, FRESH, counted) ==> Harmless(LALR, tokens, Rewind(counted))
      modifies this
      ensures okay
      ensures forall lines :: GroupedLines(lines) && tokens == ProgramTokens(lines) ==>
        Some(Abs()) == Assemble(Flatten(lines))
      ensures !IsText(tokens) ==> pass == 0 && out == []
    {
      symbolTable := map[];
      var accepted := ParsePass(tokens);
      if !accepted {
        ghost var done :| Run(done, FRESH) == Some(Abs());
        FirstPassSilent(done);
        return true;
      }
      ghost var counted := Abs();
      offset := 0;
      pass := 1;
      accepted := ParsePass(tokens);
      OneAssembly(tokens, counted, Abs());
      return true;
    }
  }
}

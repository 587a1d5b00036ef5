/** Alignment, fixups and the sticky modes. */
module ModesAndFixups {
  import opened Bits
  import opened Bytes
  import opened Strings
  import opened Assembler
  import opened Layout
  import opened TwoPass
  import opened Wrappers

  // ---------- Exact layout agreement ----------

  /** The two evaluated forms of one item move the same offset by the same amount. */
  predicate SizeAlike(c: Command, m: Modes, d: Command, n: Modes, offset: nat) {
    match (c, d)
    case (Default(_), Default(_)) => Width(m.ty) == Width(n.ty)
    case (DefaultFp(_), DefaultFp(_)) => m.ty == Double <==> n.ty == Double
    case (Align(a), Align(b)) =>
      Alignable(offset, a) && Alignable(offset, b) && Pad(offset, a) == Pad(offset, b)
    case (Blank(a), Blank(b)) => a == b
    case (Fixup(_), Fixup(_)) =>
      && m.addressLen >= 8 && n.addressLen >= 8
      && Pad(offset, m.addressLen / 8) + FixupWidth(m.addressLen) == Pad(offset, n.addressLen / 8) + FixupWidth(n.addressLen)
    case _ => true
  }

  predicate SizesAlike(items: Items, s: State, t: State)
    decreases |items|
  {
    items != [] ==>
      var a, b := Step(items[0], s), Step(items[0], t);
      SizeAlike(Resolve(items[0], s), s.modes, Resolve(items[0], t), t.modes, s.offset)
      && (a.Some? && b.Some? ==> SizesAlike(items[1..], a.value, b.value))
  }

  predicate SameOffsets(items: Items, s: State, t: State)
    requires Run(items, s).Some? && Run(items, t).Some?
  {
    forall j :: 0 <= j <= |items| ==> SameAt(items, j, s, t)
  }

  lemma AtTail(items: Items, j: nat, s: State)
    requires 0 < j <= |items| && Run(items, s).Some?
    ensures At(items, j, s) == At(items[1..], j - 1, Step(items[0], s).value)
  {
    assert items[..j][1..] == items[1..][..j - 1];
  }

  lemma SizeStep(it: SourceItem, s: State, t: State)
    requires Step(it, s).Some? && Step(it, t).Some? && s.offset == t.offset
    ensures Step(it, s).value.offset == Step(it, t).value.offset
      <==> SizeAlike(Resolve(it, s), s.modes, Resolve(it, t), t.modes, s.offset)
  {
    StepEmits(it, s);
    StepEmits(it, t);
    SizeOf(it, s, t);
  }

  lemma SizeOf(it: SourceItem, s: State, t: State)
    requires Emitted(it, s).Some? && Emitted(it, t).Some? && s.offset == t.offset
    ensures |Emitted(it, s).value| == |Emitted(it, t).value|
      <==> SizeAlike(Resolve(it, s), s.modes, Resolve(it, t), t.modes, s.offset)
  {
    EmittedSize(it, s);
    EmittedSize(it, t);
    SizesCompared(it, s, t);
  }

  /** The divisor of the padding in front of an item exists. */
  predicate Paddable(it: SourceItem, s: State) {
    && (it.Align? ==> Alignable(s.offset, Eval(it.arg, s)))
    && (it.Fixup? ==> s.modes.addressLen >= 8)
  }

  /** The number of bytes of an item, if it has an encoding. */
  function Size(it: SourceItem, s: State): int
    requires Paddable(it, s)
  {
    match it
    case Typed(t, _) => Width(t)
    case TypedFp(t, _) => Width(t)
    case Default(_) => Width(s.modes.ty)
    case DefaultFp(_) => if s.modes.ty == Double then 8 else 4
    case Text(token) => if Contents(token).Some? then |Contents(token).value| else 0
    case Align(e) => Pad(s.offset, Eval(e, s))
    case Blank(e) => Eval(e, s)
    case Fixup(_) => Pad(s.offset, s.modes.addressLen / 8) + FixupWidth(s.modes.addressLen)
    case _ => 0
  }

  lemma EmittedSize(it: SourceItem, s: State)
    requires Emitted(it, s).Some?
    ensures Paddable(it, s) && |Emitted(it, s).value| == Size(it, s)
  {
  }

  lemma SizesCompared(it: SourceItem, s: State, t: State)
    requires Paddable(it, s) && Paddable(it, t) && s.offset == t.offset
    ensures Size(it, s) == Size(it, t) <==> SizeAlike(Resolve(it, s), s.modes, Resolve(it, t), t.modes, s.offset)
  {
  }

  /** The two runs are at the same offset at item j. */
  predicate SameAt(items: Items, j: nat, s: State, t: State)
    requires j <= |items| && Run(items, s).Some? && Run(items, t).Some?
  {
    At(items, j, s).offset == At(items, j, t).offset
  }

  lemma SameAtTail(items: Items, j: nat, s: State, t: State)
    requires 0 < j <= |items| && Run(items, s).Some? && Run(items, t).Some?
    ensures SameAt(items, j, s, t) <==> SameAt(items[1..], j - 1, Step(items[0], s).value, Step(items[0], t).value)
  {
    AtTail(items, j, s);
    AtTail(items, j, t);
  }

  lemma SameAtStart(items: Items, s: State, t: State)
    requires Run(items, s).Some? && Run(items, t).Some?
    ensures SameAt(items, 0, s, t) <==> s.offset == t.offset
  {
    assert items[..0] == [];
  }

  /** Runs that agree throughout agree after the first item and from there on. */
  lemma SameOffsetsTail(items: Items, s: State, t: State)
    requires items != [] && Run(items, s).Some? && Run(items, t).Some? && SameOffsets(items, s, t)
    ensures SameOffsets(items[1..], Step(items[0], s).value, Step(items[0], t).value)
  {
    var a, b := Step(items[0], s).value, Step(items[0], t).value;
    forall j | 0 <= j <= |items[1..]| ensures SameAt(items[1..], j, a, b) {
      assert SameAt(items, j + 1, s, t);
      SameAtTail(items, j + 1, s, t);
    }
  }

  lemma SameOffsetsCons(items: Items, s: State, t: State)
    requires items != [] && Run(items, s).Some? && Run(items, t).Some? && s.offset == t.offset
    requires SameOffsets(items[1..], Step(items[0], s).value, Step(items[0], t).value)
    ensures SameOffsets(items, s, t)
  {
    var a, b := Step(items[0], s).value, Step(items[0], t).value;
    forall j | 0 <= j <= |items| ensures SameAt(items, j, s, t) {
      if j > 0 {
        assert SameAt(items[1..], j - 1, a, b);
        SameAtTail(items, j, s, t);
      } else {
        SameAtStart(items, s, t);
      }
    }
  }

  /** Two complete runs keep equal offsets throughout exactly when every item has the same size in both. */
  lemma {:induction false} LayoutExact(items: Items, s: State, t: State)
    requires Run(items, s).Some? && Run(items, t).Some? && s.offset == t.offset
    ensures SameOffsets(items, s, t) <==> SizesAlike(items, s, t)
    decreases |items|
  {
    if items != [] {
      var a, b := Step(items[0], s).value, Step(items[0], t).value;
      SizeStep(items[0], s, t);
      if SameOffsets(items, s, t) {
        SameOffsetsTail(items, s, t);
      }
      if SameOffsets(items[1..], a, b) {
        SameOffsetsCons(items, s, t);
      }
      if a.offset == b.offset {
        LayoutExact(items[1..], a, b);
      } else {
        SameAtStart(items[1..], a, b);
      }
    }
  }

  // ---------- Modes ----------

  /** The arguments that set the address length evaluate alike in the two runs. */
  predicate AddressesAlike(items: Items, s: State, t: State)
    decreases |items|
  {
    items != [] ==>
      var a, b := Step(items[0], s), Step(items[0], t);
      (items[0].AddressLen? ==> Eval(items[0].arg, s) == Eval(items[0].arg, t))
      && (a.Some? && b.Some? ==> AddressesAlike(items[1..], a.value, b.value))
  }

  /** Mode by mode: the same in both, or unchanged in both. */
  predicate Converged(m: Modes, n: Modes, m0: Modes, n0: Modes) {
    && (m.ty == n.ty || (m.ty == m0.ty && n.ty == n0.ty))
    && (m.order == n.order || (m.order == m0.order && n.order == n0.order))
    && (m.addressLen == n.addressLen || (m.addressLen == m0.addressLen && n.addressLen == n0.addressLen))
  }

  lemma ConvergeStep(it: SourceItem, s: State, t: State)
    requires Step(it, s).Some? && Step(it, t).Some?
    requires it.AddressLen? ==> Eval(it.arg, s) == Eval(it.arg, t)
    ensures Converged(Step(it, s).value.modes, Step(it, t).value.modes, s.modes, t.modes)
  {
    StepModes(it, s);
    StepModes(it, t);
  }

  /** Each mode ends where the items put it, or, in both runs, where it started. */
  lemma {:induction false} ModesConverge(items: Items, s: State, t: State)
    requires Run(items, s).Some? && Run(items, t).Some? && AddressesAlike(items, s, t)
    ensures Converged(Run(items, s).value.modes, Run(items, t).value.modes, s.modes, t.modes)
    decreases |items|
  {
    if items != [] {
      ConvergeStep(items[0], s, t);
      ModesConverge(items[1..], Step(items[0], s).value, Step(items[0], t).value);
    }
  }

  predicate SameStickyModes(m: Modes, n: Modes) {
    m.ty == n.ty && m.order == n.order && m.addressLen == n.addressLen
  }

  /** Running the items again from the modes they ended with ends in the same modes. */
  lemma ModesIdempotent(items: Items, s: State, t: State)
    requires Run(items, s).Some? && Run(items, t).Some? && AddressesAlike(items, s, t)
    requires SameStickyModes(t.modes, Run(items, s).value.modes)
    ensures SameStickyModes(Run(items, t).value.modes, Run(items, s).value.modes)
  {
    ModesConverge(items, s, t);
  }

  /** The second pass ends in the modes it began with, so a third one with alike arguments lays out as the second did. */
  lemma ThirdPassSameLayout(items: Items, j: nat)
    requires Assemble(items).Some? && j <= |items|
    requires AddressesAlike(items, FRESH, SecondStart(items))
    requires Alike(items, SecondStart(items), Rewind(Assemble(items).value))
    ensures SameStickyModes(Assemble(items).value.modes, SecondStart(items).modes)
    ensures SameOffset(Run(items[..j], SecondStart(items)), Run(items[..j], Rewind(Assemble(items).value)))
  {
    ModesIdempotent(items, FRESH, SecondStart(items));
    SameLayout(items, SecondStart(items), Rewind(Assemble(items).value), j);
  }

  // ---------- Further passes ----------

  lemma {:induction false} AlikeAddresses(items: Items, s: State, t: State)
    requires Alike(items, s, t)
    ensures AddressesAlike(items, s, t)
    decreases |items|
  {
    if items != [] && Step(items[0], s).Some? && Step(items[0], t).Some? {
      AlikeAddresses(items[1..], Step(items[0], s).value, Step(items[0], t).value);
    }
  }

  /** Two later passes, in lock step: labels and `*name*` items bind nothing any more. */
  lemma LearnLater(it: SourceItem, s: State, t: State, once: set<string>, known: set<string>)
    requires s.pass == 1 && t.pass == 1 && Step(it, s).Some? && Step(it, t).Some?
    requires Agree(known, s, t) && Agree(once, s, t) && (it.Assign? ==> it.name !in once)
    ensures Agree(Learn(it, once, known), Step(it, s).value, Step(it, t).value)
    ensures Agree(once, Step(it, s).value, Step(it, t).value)
  {
    StepSymbols(it, s);
    StepSymbols(it, t);
    if it.Assign? && Names(it.arg) <= known {
      EvalAgree(it.arg, s, t);
    }
  }

  lemma {:induction false} SettledLater(items: Items, s: State, t: State, once: set<string>, known: set<string>)
    requires s.pass == 1 && t.pass == 1 && Settled(items, once, known) && AtMostOnce(items, once)
    requires Agree(known, s, t) && Agree(once, s, t)
    ensures Alike(items, s, t)
    decreases |items|
  {
    if items != [] {
      var it := items[0];
      KnownAlike(it, s, t, known);
      if Step(it, s).Some? && Step(it, t).Some? {
        assert it.Assign? ==> Binds(items[0], it.name);
        LearnLater(it, s, t, once, known);
        AtMostOnceTail(items, once);
        StepSymbols(it, s);
        StepSymbols(it, t);
        SettledLater(items[1..], Step(it, s).value, Step(it, t).value, once, Learn(it, once, known));
      }
    }
  }

  /** A later pass keeps what the first one recorded for the names bound once. */
  lemma OnceKept(items: Items, s: State, once: set<string>)
    requires s.pass == 1 && Run(items, s).Some? && AtMostOnce(items, once) && Agree(once, s, s)
    ensures Agree(once, s, Run(items, s).value)
  {
    forall n | n in once ensures n in Run(items, s).value.symbols && Run(items, s).value.symbols[n] == s.symbols[n] {
      EntryKept(items, s, n);
    }
  }

  /** A state in which the second pass might as well have started, as far as the layout goes. */
  predicate LikeSecond(items: Items, once: set<string>, t: State)
    requires Assemble(items).Some?
  {
    && t.pass == 1 && t.offset == 0 && SameStickyModes(t.modes, SecondStart(items).modes)
    && Agree(once, SecondStart(items), t)
  }

  lemma SecondLikeSecond(items: Items, once: set<string>)
    requires Assemble(items).Some? && TextSettled(items, once)
    ensures LikeSecond(items, once, SecondStart(items))
    ensures SameStickyModes(Assemble(items).value.modes, SecondStart(items).modes)
  {
    OnceRecorded(items, once);
    SettledIsAlike(items, once);
    AlikeAddresses(items, FRESH, SecondStart(items));
    ModesIdempotent(items, FRESH, SecondStart(items));
  }

  /** A pass from such a state lays out as the second one did and leaves such a state behind. */
  lemma PassLikeSecond(items: Items, once: set<string>, t: State)
    requires Assemble(items).Some? && TextSettled(items, once) && LikeSecond(items, once, t)
    ensures Run(items, t).Some? && SameOffsets(items, SecondStart(items), t)
    ensures LikeSecond(items, once, Rewind(Run(items, t).value))
  {
    var start := SecondStart(items);
    OnceRecorded(items, once);
    SecondLikeSecond(items, once);
    SettledLater(items, start, t, once, {});
    SameLayoutThroughout(items, start, t);
    AlikeAddresses(items, start, t);
    ModesConverge(items, start, t);
    OnceKept(items, t, once);
  }

  lemma SameLayoutThroughout(items: Items, s: State, t: State)
    requires LikeLayout(items, s, t) && Run(items, s).Some?
    ensures Run(items, t).Some? && SameOffsets(items, s, t)
  {
    SameLayout(items, s, t, |items|);
    assert items[..|items|] == items;
    forall j | 0 <= j <= |items| ensures SameAt(items, j, s, t) {
      SameLayout(items, s, t, j);
    }
  }

  /** The state after the first pass and k more. */
  function Passes(items: Items, k: nat): Option<State> {
    if k == 0 then Run(items, FRESH) else
    match Passes(items, k - 1)
    case None => None
    case Some(s) => Run(items, Rewind(s))
  }

  lemma PassesNext(items: Items, k: nat)
    requires Passes(items, k).Some?
    ensures Passes(items, k + 1) == Run(items, Rewind(Passes(items, k).value))
  {
  }

  lemma FirstPass(items: Items)
    requires Assemble(items).Some?
    ensures Passes(items, 0).Some? && Rewind(Passes(items, 0).value) == SecondStart(items)
  {
  }

  /** The pass after the first k + 1 might as well be the second. */
  predicate StartsLikeSecond(items: Items, once: set<string>, k: nat)
    requires Assemble(items).Some?
  {
    Passes(items, k).Some? && LikeSecond(items, once, Rewind(Passes(items, k).value))
  }

  lemma StartsLikeSecondNext(items: Items, once: set<string>, k: nat)
    requires Assemble(items).Some? && TextSettled(items, once) && StartsLikeSecond(items, once, k)
    ensures StartsLikeSecond(items, once, k + 1)
  {
    PassLikeSecond(items, once, Rewind(Passes(items, k).value));
    PassesNext(items, k);
  }

  lemma FirstStartsLikeSecond(items: Items, once: set<string>)
    requires Assemble(items).Some? && TextSettled(items, once)
    ensures StartsLikeSecond(items, once, 0)
  {
    FirstPass(items);
    SecondLikeSecond(items, once);
  }

  lemma AllStartLikeSecond(items: Items, once: set<string>, k: nat)
    requires Assemble(items).Some? && TextSettled(items, once)
    ensures StartsLikeSecond(items, once, k)
  {
    var K := iset i: nat | StartsLikeSecond(items, once, i);
    FirstStartsLikeSecond(items, once);
    forall i: nat | i in K ensures i + 1 in K {
      StartsLikeSecondNext(items, once, i);
    }
    Reached(K, 0, k);
  }

  /** However many more passes follow the first, each starts in the modes the second started in, ends in them, and lays
      out every item where the second did. */
  lemma FurtherPasses(items: Items, once: set<string>, k: nat)
    requires Assemble(items).Some? && TextSettled(items, once)
    ensures Passes(items, k).Some? && Passes(items, k + 1).Some?
    ensures var t := Rewind(Passes(items, k).value);
      SameStickyModes(t.modes, SecondStart(items).modes) && SameOffsets(items, SecondStart(items), t)
    ensures SameStickyModes(Passes(items, k + 1).value.modes, SecondStart(items).modes)
  {
    AllStartLikeSecond(items, once, k);
    AllStartLikeSecond(items, once, k + 1);
    PassLikeSecond(items, once, Rewind(Passes(items, k).value));
  }

  // ---------- Alignment ----------

  lemma PadReaches(k: nat, b: int)
    requires b > 0
    ensures (k + Pad(k, b)) % b == 0 && Pad(k, b) < b
  {
    var q := if k % b == 0 then k / b else k / b + 1;
    assert k == (k / b) * b + k % b;
    assert k + Pad(k, b) == q * b;
    DivModUnique(k + Pad(k, b), b, q, 0);
  }

  /** Padding reaches the least multiple of the boundary that is not before the offset. */
  lemma AlignLeast(k: nat, b: int)
    requires b > 0
    ensures (k + Pad(k, b)) % b == 0 && Pad(k, b) < b
    ensures forall m :: k <= m && m % b == 0 ==> k + Pad(k, b) <= m
  {
    var r := k + Pad(k, b);
    PadReaches(k, b);
    forall m | k <= m && m % b == 0 ensures r <= m {
      assert m == (m / b) * b;
      if m < r {
        assert r - b < m < r by {
          assert k % b != 0;
        }
        assert (r / b - 1) * b < (m / b) * b < (r / b) * b;
        NoneBetween(r / b, m / b, b);
        assert false;
      }
    }
  }

  lemma NoneBetween(q: int, p: int, b: int)
    requires b > 0
    ensures !((q - 1) * b < p * b < q * b)
  {
    assert p >= q ==> p * b >= q * b;
    assert p <= q - 1 ==> p * b <= (q - 1) * b;
  }

  /** The loop of the source counts a number of zeros down to zero, computed from the remainder r, which has the sign of the
      offset: it ends exactly for the boundaries of the model, after as many zeros as the model pads with. */
  lemma AlignLoop(k: nat, b: int, q: int, r: nat)
    requires b != 0 && k == q * b + r && r < Magnitude(b)
    ensures var pad := if b - r == b then 0 else b - r;
      (Alignable(k, b) <==> pad >= 0) && (Alignable(k, b) ==> Pad(k, b) == pad)
  {
    RemainderUnique(k, b, q, r);
  }

  lemma RemainderUnique(k: nat, b: int, q: int, r: nat)
    requires b != 0 && k == q * b + r && r < Magnitude(b)
    ensures k % b == r
  {
    if b > 0 {
      DivModUnique(k, b, q, r);
    } else {
      assert q * b == -q * -b;
      DivModUnique(k, -b, -q, r);
      assert k % b == k % -b;
    }
  }

  /** A multiple of a multiple. */
  lemma MultipleOf(r: int, d: int, e: int)
    requires d > 0 && e > 0 && r % d == 0 && d % e == 0
    ensures r % e == 0
  {
    assert r == (r / d) * d && d == (d / e) * e;
    assert r == ((r / d) * (d / e)) * e;
    DivModUnique(r, e, (r / d) * (d / e), 0);
  }

  // ---------- Fixups ----------

  /** Every reachable address length is a whole, non-negative number of bytes. */
  lemma {:induction false} AddressLenWhole(items: Items, s: State)
    requires Run(items, s).Some? && s.modes.addressLen % 8 == 0
    ensures Run(items, s).value.modes.addressLen % 8 == 0
  {
    if items != [] {
      AddressLenWhole(items[1..], Step(items[0], s).value);
    }
  }

  lemma WholeFixupAligned(addressLen: nat, k: nat)
    requires addressLen == 32 || (addressLen % 64 == 0 && addressLen > 0)
    ensures (k + Pad(k, addressLen / 8)) % FixupWidth(addressLen) == 0
  {
    PadReaches(k, addressLen / 8);
    if addressLen != 32 {
      assert addressLen / 8 == 8 * (addressLen / 64);
      MultipleOf(k + Pad(k, addressLen / 8), addressLen / 8, 8);
    }
  }

  lemma OddFixupMisaligned(addressLen: nat)
    requires addressLen % 8 == 0 && addressLen >= 8 && addressLen != 32 && addressLen % 64 != 0
    ensures var m := addressLen / 8; (m + Pad(m, m)) % FixupWidth(addressLen) != 0
  {
    var m := addressLen / 8;
    DivModUnique(m, m, 1, 0);
    assert Pad(m, m) == 0;
  }

  /** The fields of an address length start at multiples of their own width, at whatever offset the fixup is met,
      exactly when the length is 32 or a multiple of 64. */
  lemma FixupAlignedExactly(addressLen: nat)
    requires addressLen % 8 == 0 && addressLen >= 8
    ensures (forall k: nat :: (k + Pad(k, addressLen / 8)) % FixupWidth(addressLen) == 0)
      <==> addressLen == 32 || addressLen % 64 == 0
  {
    if addressLen == 32 || addressLen % 64 == 0 {
      forall k: nat ensures (k + Pad(k, addressLen / 8)) % FixupWidth(addressLen) == 0 {
        WholeFixupAligned(addressLen, k);
      }
    } else {
      OddFixupMisaligned(addressLen);
    }
  }

  lemma FixupWrites(e: Expr, s: State)
    requires s.pass == 1 && s.modes.addressLen >= 8
    ensures Step(Fixup(e), s).Some?
    ensures Step(Fixup(e), s).value.out == s.out + Zeros(Pad(s.offset, s.modes.addressLen / 8))
      + Field(Eval(e, s), FixupWidth(s.modes.addressLen), s.modes.order)
  {
    var pad := Zeros(Pad(s.offset, s.modes.addressLen / 8));
    var field := Field(Eval(e, s), FixupWidth(s.modes.addressLen), s.modes.order);
    assert Emitted(Fixup(e), s) == Some(pad + field);
    StepEmits(Fixup(e), s);
    Assoc(s.out, pad, field);
  }

  /** Where the pieces of a prefix of a file are. */
  lemma Spliced(before: seq<Byte>, pad: seq<Byte>, field: seq<Byte>, file: seq<Byte>)
    requires before + pad + field <= file
    ensures file[|before| + |pad|..|before| + |pad| + |field|] == field
    ensures forall k :: |before| <= k < |before| + |pad| ==> file[k] == pad[k - |before|]
  {
    var front := before + pad + field;
    assert front == file[..|front|];
    forall k | 0 <= k < |field| ensures file[|before| + |pad| + k] == field[k] {
      assert front[|before| + |pad| + k] == field[k];
    }
    forall k | |before| <= k < |before| + |pad| ensures file[k] == pad[k - |before|] {
      assert front[k] == pad[k - |before|];
    }
  }

  /** The padding and the field of a fixup, in order, directly behind what was written before it. */
  lemma FixupInFile(items: Items, i: nat, e: Expr, w: nat)
    requires Assemble(items).Some? && i < |items| && items[i] == Fixup(e)
    requires (w == 4 || w == 8) && At(items, i, SecondStart(items)).modes.addressLen == 8 * w
    ensures var here := At(items, i, SecondStart(items));
      here.out + Zeros(Pad(|here.out|, w)) + Field(Eval(e, here), w, here.modes.order) <= Assemble(items).value.out
  {
    var start := SecondStart(items);
    var here := At(items, i, start);
    OutputIsListing(items, FRESH);
    OutputGrows(items, i, start);
    OutputGrows(items, i + 1, start);
    AtNext(items, i, start);
    FixupWrites(e, here);
    assert here.modes.addressLen / 8 == w && FixupWidth(here.modes.addressLen) == w;
  }

  /** A field of w bytes holding v stands at p in the file, with zeros from `start` up to it. */
  predicate HoldsFixup(file: seq<Byte>, start: nat, p: nat, w: nat, order: Order, v: int) {
    && p + w <= |file|
    && (forall k :: start <= k < p ==> file[k] == 0)
    && ReadField(file[p..p + w], order) == v % Range(w)
  }

  lemma ReadBack(bytes: seq<Byte>, v: int, w: nat, order: Order)
    requires bytes == Field(v, w, order)
    ensures ReadField(bytes, order) == v % Range(w)
  {
    FieldRoundTrip(v, w, order);
  }

  /** n zeros and then a field, behind what was written before. */
  lemma ReadFixup(before: seq<Byte>, n: nat, w: nat, order: Order, v: int, file: seq<Byte>)
    requires before + Zeros(n) + Field(v, w, order) <= file
    ensures HoldsFixup(file, |before|, |before| + n, w, order, v)
  {
    Spliced(before, Zeros(n), Field(v, w, order), file);
    ReadBack(file[|before| + n..|before| + n + w], v, w, order);
  }

  /** The field of a fixup of w bytes: at the least multiple of w, w being 4 or 8. */
  ghost predicate PlacedFixup(file: seq<Byte>, start: nat, w: nat, order: Order, v: int)
    requires w > 0
  {
    var p := start + Pad(start, w);
    && p % w == 0
    && (forall m :: start <= m && m % w == 0 ==> p <= m)
    && HoldsFixup(file, start, p, w, order, v)
  }

  lemma PlaceFixup(before: seq<Byte>, w: nat, order: Order, v: int, file: seq<Byte>)
    requires w == 4 || w == 8
    requires before + Zeros(Pad(|before|, w)) + Field(v, w, order) <= file
    ensures PlacedFixup(file, |before|, w, order, v)
  {
    AlignLeast(|before|, w);
    ReadFixup(before, Pad(|before|, w), w, order, v, file);
  }

  /** In the finished file, the field of a fixup met with a 32- or 64-bit address length starts at the least multiple
      of its own width, holds its argument modulo 2^width, and is preceded by zeros only. */
  lemma FixupPlacement(items: Items, i: nat, e: Expr, w: nat)
    requires Assemble(items).Some? && i < |items| && items[i] == Fixup(e)
    requires (w == 4 || w == 8) && At(items, i, SecondStart(items)).modes.addressLen == 8 * w
    ensures var here := At(items, i, SecondStart(items));
      PlacedFixup(Assemble(items).value.out, |here.out|, w, here.modes.order, Eval(e, here))
  {
    var here := At(items, i, SecondStart(items));
    FixupInFile(items, i, e, w);
    PlaceFixup(here.out, w, here.modes.order, Eval(e, here), Assemble(items).value.out);
  }
}

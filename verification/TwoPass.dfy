/** The two-pass contract: what a label means in the second pass, and which modes the second pass starts in. */
module TwoPass {
  import opened Bytes
  import opened Assembler
  import opened Layout
  import opened Wrappers

  // ---------- Symbols ----------

  predicate Binds(it: SourceItem, n: string) {
    match it
    case Label(m) => m == n
    case Pass0(m, _) => m == n
    case Assign(m, _) => m == n
    case _ => false
  }

  /** Items that do not bind n keep its entry; in the second pass only `=` binds. */
  lemma {:induction false} EntryKept(items: Items, s: State, n: string)
    requires Run(items, s).Some?
    requires forall k :: 0 <= k < |items| && Binds(items[k], n) ==> s.pass == 1 && !items[k].Assign?
    ensures n in Run(items, s).value.symbols <==> n in s.symbols
    ensures n in s.symbols ==> Run(items, s).value.symbols[n] == s.symbols[n]
  {
    if items != [] {
      var next := Step(items[0], s).value;
      assert Binds(items[0], n) ==> s.pass == 1 && !items[0].Assign?;
      EntryKept(items[1..], next, n);
    }
  }

  /** Item i is the only one that binds n. */
  predicate BoundOnlyAt(items: Items, i: nat, n: string) {
    i < |items| && Binds(items[i], n) && forall k :: 0 <= k < |items| && k != i ==> !Binds(items[k], n)
  }

  /** The first pass ends with a once-bound label at the offset it met it at. */
  lemma LabelRecorded(items: Items, i: nat, n: string, s: State)
    requires s.pass == 0 && Run(items, s).Some?
    requires BoundOnlyAt(items, i, n) && items[i] == Label(n)
    ensures n in Run(items, s).value.symbols
    ensures Run(items, s).value.symbols[n] == At(items, i, s).offset
  {
    AtNext(items, i, s);
    OutputGrows(items, i, s);
    OutputGrows(items, i + 1, s);
    RunPrefix(items, i + 1, s);
    EntryKept(items[i + 1..], At(items, i + 1, s), n);
  }

  // ---------- Label soundness ----------

  function Counted(items: Items): State
    requires Assemble(items).Some?
  {
    Run(items, FRESH).value
  }

  /** The state the second pass starts in. */
  function SecondStart(items: Items): State
    requires Assemble(items).Some?
  {
    Rewind(Counted(items))
  }

  /** The second pass lays the items out as the first one did: the layout arguments evaluate alike, and the
      default type and address length that leak out of the first pass are the initial ones or set before use. */
  predicate Stable(items: Items)
    requires Assemble(items).Some?
  {
    && Alike(items, FRESH, SecondStart(items))
    && (Counted(items).modes.ty == INITIAL_MODES.ty || !UsesType(items))
    && (Counted(items).modes.addressLen == INITIAL_MODES.addressLen || !UsesAddressLen(items, FRESH))
  }

  /** At every item both passes are at the same offset, and it is the length of the output so far. */
  lemma StableOffsets(items: Items, j: nat)
    requires Assemble(items).Some? && Stable(items) && j <= |items|
    ensures At(items, j, FRESH).offset == At(items, j, SecondStart(items)).offset
    ensures At(items, j, SecondStart(items)).offset == |At(items, j, SecondStart(items)).out|
  {
    SameLayout(items, FRESH, SecondStart(items), j);
    RunPrefix(items, j, FRESH);
    RunPrefix(items, j, SecondStart(items));
    OutputIsListing(items, FRESH);
    OutputGrows(items, j, SecondStart(items));
  }

  /** The first pass counts exactly the bytes the second one writes. */
  lemma CountIsLength(items: Items)
    requires Assemble(items).Some? && Stable(items)
    ensures Counted(items).offset == |Assemble(items).value.out|
  {
    StableOffsets(items, |items|);
    assert items[..|items|] == items;
  }

  /** Without any assumption on the layout: wherever the second pass is (item j), a label means the offset at which
      the first pass met it, so it is right exactly when both passes meet it at the same offset. */
  lemma LabelMeansFirstPass(items: Items, i: nat, n: string, j: nat)
    requires Assemble(items).Some?
    requires BoundOnlyAt(items, i, n) && items[i] == Label(n)
    requires j <= |items|
    ensures Lookup(n, At(items, j, SecondStart(items))) == At(items, i, FRESH).offset
    ensures Lookup(n, At(items, j, SecondStart(items))) == |At(items, i, SecondStart(items)).out|
      <==> At(items, i, FRESH).offset == At(items, i, SecondStart(items)).offset
  {
    var start := SecondStart(items);
    LabelRecorded(items, i, n, FRESH);
    RunPrefix(items, j, start);
    EntryKept(items[..j], start, n);
    OutputIsListing(items, FRESH);
    OutputGrows(items, i, start);
  }

  /** Wherever the second pass is (item j), looking up a label gives the number of bytes written when control
      reaches that label (item i): backward references (i < j) and forward references (j <= i) alike. */
  lemma LabelSoundness(items: Items, i: nat, n: string, j: nat)
    requires Assemble(items).Some? && Stable(items)
    requires BoundOnlyAt(items, i, n) && items[i] == Label(n)
    requires j <= |items|
    ensures Lookup(n, At(items, j, SecondStart(items))) == |At(items, i, SecondStart(items)).out|
  {
    LabelMeansFirstPass(items, i, n, j);
    StableOffsets(items, i);
  }

  /** A run of three items, state by state. */
  lemma Three(a: SourceItem, b: SourceItem, c: SourceItem, s: State, s1: State, s2: State, s3: State)
    requires Step(a, s) == Some(s1) && Step(b, s1) == Some(s2) && Step(c, s2) == Some(s3)
    ensures Run([a, b, c], s) == Some(s3)
    ensures At([a, b, c], 1, s) == s1 && At([a, b, c], 2, s) == s2
  {
    RunOne(a, s);
    RunConcat([a], [b, c], s);
    RunOne(b, s1);
    RunConcat([b], [c], s1);
    RunOne(c, s2);
    assert [a] + [b, c] == [a, b, c] && [b] + [c] == [b, c];
    assert [a, b, c][..1] == [a] && [a, b, c][..2] == [a] + [b];
    RunConcat([a], [b], s);
  }

  /** An item that emits and changes nothing else. */
  lemma PlainStep(it: SourceItem, s: State, bytes: seq<Byte>)
    requires Encode(Resolve(it, s), s.modes, s.offset) == Some(bytes)
    requires ChangeModes(Resolve(it, s), s.modes) == s.modes && Bind(Resolve(it, s), s) == s.symbols
    ensures Step(it, s) == Some(Emit(s, bytes))
  {
  }

  lemma DefaultStep(v: int, s: State)
    requires s.modes.ty == U8 || s.modes.ty == U32
    ensures Step(Default(Num(v)), s) == Some(Emit(s, Field(v, Width(s.modes.ty), s.modes.order)))
  {
    PlainStep(Default(Num(v)), s, Field(v, Width(s.modes.ty), s.modes.order));
  }

  lemma TypedStep(v: int, s: State)
    ensures Step(Typed(U8, Num(v)), s) == Some(Emit(s, Field(v, 1, s.modes.order)))
  {
    PlainStep(Typed(U8, Num(v)), s, Field(v, 1, s.modes.order));
  }

  lemma BlankStep(e: Expr, s: State)
    requires Eval(e, s) >= 0
    ensures Step(Blank(e), s) == Some(Emit(s, Zeros(Eval(e, s))))
  {
    PlainStep(Blank(e), s, Zeros(Eval(e, s)));
  }

  lemma LabelStep(n: string, s: State)
    ensures Step(Label(n), s) == Some(if s.pass == 0 then s.(symbols := s.symbols[n := s.offset]) else s)
  {
    assert s.out + [] == s.out;
  }

  lemma SetTypeStep(t: Type, s: State)
    ensures Step(SetType(t), s) == Some(s.(modes := s.modes.(ty := t)))
  {
    assert s.out + [] == s.out;
  }

  /** The leak is real: a default type set after its first use moves a label by three bytes. */
  lemma LeakedTypeMovesLabel()
    ensures var items := [Default(Num(7)), Label("end"), SetType(U8)];
      && Assemble(items).Some?
      && Lookup("end", At(items, 2, SecondStart(items))) == 4
      && |At(items, 1, SecondStart(items)).out| == 1
  {
    var a, b, c := Default(Num(7)), Label("end"), SetType(U8);
    var s1 := Emit(FRESH, Field(7, 4, LittleEndian));
    var s2 := s1.(symbols := map["end" := 4]);
    var s3 := s2.(modes := s2.modes.(ty := U8));
    DefaultStep(7, FRESH);
    LabelStep("end", s1);
    SetTypeStep(U8, s2);
    Three(a, b, c, FRESH, s1, s2, s3);
    var t := Rewind(s3);
    var t1 := Emit(t, Field(7, 1, LittleEndian));
    DefaultStep(7, t);
    LabelStep("end", t1);
    SetTypeStep(U8, t1);
    Three(a, b, c, t, t1, t1, t1.(modes := t1.modes.(ty := U8)));
  }

  /** So is a forward reference in a layout argument: it counts as 1 in the first pass only. */
  lemma ForwardBlankMovesLabel()
    ensures var items := [Typed(U8, Num(7)), Blank(Sym("end")), Label("end")];
      && Assemble(items).Some?
      && Lookup("end", At(items, 2, SecondStart(items))) == 2
      && |At(items, 2, SecondStart(items)).out| == 3
  {
    var a, b, c := Typed(U8, Num(7)), Blank(Sym("end")), Label("end");
    var s1 := Emit(FRESH, Field(7, 1, LittleEndian));
    var s2 := Emit(s1, Zeros(1));
    var s3 := s2.(symbols := map["end" := 2]);
    TypedStep(7, FRESH);
    BlankStep(Sym("end"), s1);
    LabelStep("end", s2);
    Three(a, b, c, FRESH, s1, s2, s3);
    var t := Rewind(s3);
    var t1 := Emit(t, Field(7, 1, LittleEndian));
    var t2 := Emit(t1, Zeros(2));
    TypedStep(7, t);
    BlankStep(Sym("end"), t1);
    LabelStep("end", t2);
    Three(a, b, c, t, t1, t2, t2);
  }

  // ---------- A check on the text alone ----------

  function Names(e: Expr): set<string> {
    match e
    case Num(_) => {}
    case Sym(n) => {n}
    case Add(l, r) => Names(l) + Names(r)
    case Sub(l, r) => Names(l) + Names(r)
    case BitOr(l, r) => Names(l) + Names(r)
    case Paren(i) => Names(i)
  }

  function BindCount(items: Items, n: string): nat {
    if items == [] then 0 else (if Binds(items[0], n) then 1 else 0) + BindCount(items[1..], n)
  }

  /** Bound by one label or one `*name*` item, and by nothing else. */
  predicate BoundOnce(items: Items, n: string) {
    BindCount(items, n) == 1 && forall k :: 0 <= k < |items| && Binds(items[k], n) ==> !items[k].Assign?
  }

  /** Which names are known to have the same value in both passes after this item. */
  function Learn(it: SourceItem, once: set<string>, known: set<string>): set<string> {
    match it
    case Label(n) => if n in once then known + {n} else known - {n}
    case Pass0(n, _) => if n in once then known + {n} else known - {n}
    case Assign(n, e) => if Names(e) <= known then known + {n} else known - {n}
    case _ => known
  }

  function LayoutNames(it: SourceItem): set<string> {
    match it
    case Align(e) => Names(e)
    case Blank(e) => Names(e)
    case AddressLen(e) => Names(e)
    case _ => {}
  }

  /** Every layout argument mentions only names that are settled by the time it is read. */
  predicate Settled(items: Items, once: set<string>, known: set<string>) {
    items != [] ==>
      LayoutNames(items[0]) <= known && Settled(items[1..], once, Learn(items[0], once, known))
  }

  predicate SameEntries(names: set<string>, a: map<string, int>, b: map<string, int>) {
    forall n :: n in names ==> n in a && n in b && a[n] == b[n]
  }

  predicate Agree(names: set<string>, s: State, t: State) {
    SameEntries(names, s.symbols, t.symbols)
  }

  lemma {:induction false} EvalAgree(e: Expr, s: State, t: State)
    requires Agree(Names(e), s, t)
    ensures Eval(e, s) == Eval(e, t)
  {
    match e
    case Num(_) =>
    case Sym(n) => assert n in Names(e);
    case Paren(i) => EvalAgree(i, s, t);
    case Add(l, r) => EvalAgree(l, s, t); EvalAgree(r, s, t);
    case Sub(l, r) => EvalAgree(l, s, t); EvalAgree(r, s, t);
    case BitOr(l, r) => EvalAgree(l, s, t); EvalAgree(r, s, t);
  }

  lemma {:induction false} CountZero(items: Items, n: string)
    requires BindCount(items, n) == 0
    ensures forall k :: 0 <= k < |items| ==> !Binds(items[k], n)
  {
    if items != [] {
      CountZero(items[1..], n);
      forall k | 0 <= k < |items| ensures !Binds(items[k], n) {
        assert k > 0 ==> items[k] == items[1..][k - 1];
      }
    }
  }

  /** No `=` in these items binds a name in `once`, and at most one other item does. */
  ghost predicate AtMostOnce(items: Items, once: set<string>) {
    forall n :: n in once ==>
      BindCount(items, n) <= 1 && forall k :: 0 <= k < |items| && Binds(items[k], n) ==> !items[k].Assign?
  }

  /** A once-bound name that this item binds already has its final value. */
  lemma BoundIsFinal(items: Items, s: State, n: string)
    requires items != [] && s.pass == 0 && Run(items, s).Some?
    requires Binds(items[0], n) && BindCount(items, n) <= 1
    ensures var next := Step(items[0], s).value;
      n in next.symbols && n in Run(items, s).value.symbols &&
      Run(items, s).value.symbols[n] == next.symbols[n]
  {
    CountZero(items[1..], n);
    EntryKept(items[1..], Step(items[0], s).value, n);
  }

  lemma StepSymbols(it: SourceItem, s: State)
    requires Step(it, s).Some?
    ensures Step(it, s).value.symbols == Bind(Resolve(it, s), s) && Step(it, s).value.pass == s.pass
  {
  }

  /** What the check learns from one item is true of the two symbol tables behind it. */
  lemma LearnEntries(it: SourceItem, s: State, t: State, final: map<string, int>, once: set<string>, known: set<string>)
    requires s.pass == 0 && t.pass == 1 && Agree(known, s, t) && SameEntries(once, final, t.symbols)
    requires it.Label? || it.Pass0? ==> it.name in once ==>
      it.name in final && final[it.name] == Bind(Resolve(it, s), s)[it.name]
    requires it.Assign? ==> it.name !in once && (Names(it.arg) <= known ==> Eval(it.arg, s) == Eval(it.arg, t))
    ensures SameEntries(Learn(it, once, known), Bind(Resolve(it, s), s), Bind(Resolve(it, t), t))
    ensures SameEntries(once, final, Bind(Resolve(it, t), t))
  {
  }

  /** One lock step of the settled check: what is known stays true. */
  lemma LearnSound(items: Items, s: State, t: State, once: set<string>, known: set<string>)
    requires items != [] && s.pass == 0 && t.pass == 1 && Run(items, s).Some? && Step(items[0], t).Some?
    requires AtMostOnce(items, once) && Agree(known, s, t) && Agree(once, Run(items, s).value, t)
    ensures Agree(Learn(items[0], once, known), Step(items[0], s).value, Step(items[0], t).value)
    ensures Agree(once, Run(items, s).value, Step(items[0], t).value)
  {
    var it := items[0];
    StepSymbols(it, s);
    StepSymbols(it, t);
    if (it.Label? || it.Pass0?) && it.name in once {
      assert BindCount(items, it.name) <= 1;
      BoundIsFinal(items, s, it.name);
    }
    if it.Assign? {
      assert Binds(items[0], it.name);
      if Names(it.arg) <= known {
        EvalAgree(it.arg, s, t);
      }
    }
    LearnEntries(it, s, t, Run(items, s).value.symbols, once, known);
  }

  lemma AtMostOnceTail(items: Items, once: set<string>)
    requires items != [] && AtMostOnce(items, once)
    ensures AtMostOnce(items[1..], once)
  {
    forall n | n in once
      ensures BindCount(items[1..], n) <= 1
      ensures forall k :: 0 <= k < |items| - 1 && Binds(items[1..][k], n) ==> !items[1..][k].Assign?
    {
      assert forall k :: 0 <= k < |items| - 1 ==> items[1..][k] == items[k + 1];
    }
  }

  /** An item whose layout argument mentions known names only moves both states alike. */
  lemma KnownAlike(it: SourceItem, s: State, t: State, known: set<string>)
    requires LayoutNames(it) <= known && Agree(known, s, t)
    ensures ArgAlike(it, s, t)
  {
    match it
    case Align(e) => EvalAgree(e, s, t);
    case Blank(e) => EvalAgree(e, s, t);
    case AddressLen(e) => EvalAgree(e, s, t);
    case _ =>
  }

  lemma {:induction false} SettledAlike(items: Items, s: State, t: State, once: set<string>, known: set<string>)
    requires s.pass == 0 && t.pass == 1 && Run(items, s).Some?
    requires Settled(items, once, known) && AtMostOnce(items, once)
    requires Agree(known, s, t) && Agree(once, Run(items, s).value, t)
    ensures Alike(items, s, t)
    decreases |items|
  {
    if items != [] {
      var it := items[0];
      KnownAlike(it, s, t, known);
      if Step(it, t).Some? {
        LearnSound(items, s, t, once, known);
        AtMostOnceTail(items, once);
        StepSymbols(it, s);
        StepSymbols(it, t);
        SettledAlike(items[1..], Step(it, s).value, Step(it, t).value, once, Learn(it, once, known));
      }
    }
  }

  lemma {:induction false} BoundOnceRecorded(items: Items, s: State, n: string)
    requires s.pass == 0 && Run(items, s).Some? && BindCount(items, n) == 1
    ensures n in Run(items, s).value.symbols
  {
    if Binds(items[0], n) {
      BoundIsFinal(items, s, n);
    } else {
      BoundOnceRecorded(items[1..], Step(items[0], s).value, n);
    }
  }

  /** A check on the program text: every layout argument mentions settled names only, given that the names in `once` are
      bound once. */
  ghost predicate TextSettled(items: Items, once: set<string>) {
    (forall n :: n in once ==> BoundOnce(items, n)) && Settled(items, once, {})
  }

  lemma OnceRecorded(items: Items, once: set<string>)
    requires Assemble(items).Some? && TextSettled(items, once)
    ensures AtMostOnce(items, once)
    ensures forall n :: n in once ==> n in Counted(items).symbols
  {
    forall n | n in once ensures n in Counted(items).symbols {
      BoundOnceRecorded(items, FRESH, n);
    }
  }

  /** The static check is enough: settled arguments evaluate alike in both passes. */
  lemma SettledIsAlike(items: Items, once: set<string>)
    requires Assemble(items).Some? && TextSettled(items, once)
    ensures Alike(items, FRESH, SecondStart(items))
  {
    OnceRecorded(items, once);
    SettledAlike(items, FRESH, SecondStart(items), once, {});
  }

  predicate BoundBefore(items: Items, j: nat, n: string)
    requires j <= |items|
  {
    exists i :: 0 <= i < j && Binds(items[i], n)
  }

  /** Every name in a layout argument is one of `once`, and its label or `*name*` item stands before. */
  ghost predicate NamesBefore(items: Items, once: set<string>) {
    forall j, n :: 0 <= j < |items| && n in LayoutNames(items[j]) ==> n in once && BoundBefore(items, j, n)
  }

  lemma {:induction false} SettledFrom(items: Items, j: nat, once: set<string>, known: set<string>)
    requires j <= |items| && NamesBefore(items, once)
    requires forall n, k :: n in once && 0 <= k < |items| && Binds(items[k], n) ==> !items[k].Assign?
    requires forall n, k :: n in once && 0 <= k < j && Binds(items[k], n) ==> n in known
    ensures Settled(items[j..], once, known)
    decreases |items| - j
  {
    if j < |items| {
      SettledFrom(items, j + 1, once, Learn(items[j], once, known));
      assert items[j..][1..] == items[j + 1..];
      forall n | n in LayoutNames(items[j]) ensures n in known {
        assert BoundBefore(items, j, n);
      }
    }
  }

  /** A text that passes the check: layout arguments look back at names bound once, and the default type and the address
      length are never set. */
  lemma LookingBackIsStable(items: Items, once: set<string>)
    requires NamesBefore(items, once) && forall n :: n in once ==> BoundOnce(items, n)
    requires forall k :: 0 <= k < |items| ==> !items[k].SetType? && !items[k].AddressLen?
    ensures TextStable(items, once)
  {
    SettledFrom(items, 0, once, {});
    assert items[0..] == items;
    NoTypeSet(items, INITIAL_MODES.ty);
  }

  lemma {:induction false} NoTypeSet(items: Items, ty: Type)
    requires forall k :: 0 <= k < |items| ==> !items[k].SetType?
    ensures FinalType(items, ty) == ty
  {
    if items != [] {
      NoTypeSet(items[1..], ty);
    }
  }

  /** The default type a run ends with. */
  function FinalType(items: Items, ty: Type): Type {
    if items == [] then ty else FinalType(items[1..], if items[0].SetType? then items[0].newType else ty)
  }

  lemma {:induction false} FinalTypeReached(items: Items, s: State)
    requires Run(items, s).Some?
    ensures Run(items, s).value.modes.ty == FinalType(items, s.modes.ty)
  {
    if items != [] {
      StepModes(items[0], s);
      FinalTypeReached(items[1..], Step(items[0], s).value);
    }
  }

  predicate SetsNoAddressLen(items: Items) {
    forall k :: 0 <= k < |items| ==> !items[k].AddressLen?
  }

  /** No fixup stands before a valid constant address length. */
  predicate SetsAddressLenFirst(items: Items) {
    items != [] ==>
      !items[0].Fixup?
      && ((items[0].AddressLen? && items[0].arg.Num? && ValidAddressLen(items[0].arg.value))
        || SetsAddressLenFirst(items[1..]))
  }

  lemma {:induction false} AddressLenKept(items: Items, s: State)
    requires Run(items, s).Some? && SetsNoAddressLen(items)
    ensures Run(items, s).value.modes.addressLen == s.modes.addressLen
  {
    if items != [] {
      StepModes(items[0], s);
      assert !items[0].AddressLen? && SetsNoAddressLen(items[1..]);
      AddressLenKept(items[1..], Step(items[0], s).value);
    }
  }

  lemma {:induction false} SetFirstUnused(items: Items, s: State)
    requires SetsAddressLenFirst(items)
    ensures !UsesAddressLen(items, s)
    decreases |items|
  {
    if items != [] && !(items[0].AddressLen? && ValidAddressLen(Eval(items[0].arg, s))) && Step(items[0], s).Some? {
      SetFirstUnused(items[1..], Step(items[0], s).value);
    }
  }

  /** A check on the program text that no first-pass state is needed for. */
  ghost predicate TextStable(items: Items, once: set<string>) {
    && TextSettled(items, once)
    && (FinalType(items, INITIAL_MODES.ty) == INITIAL_MODES.ty || !UsesType(items))
    && (SetsNoAddressLen(items) || SetsAddressLenFirst(items))
  }

  lemma TextStableIsStable(items: Items, once: set<string>)
    requires Assemble(items).Some? && TextStable(items, once)
    ensures Stable(items)
  {
    SettledIsAlike(items, once);
    FinalTypeReached(items, FRESH);
    if SetsNoAddressLen(items) {
      AddressLenKept(items, FRESH);
    } else {
      SetFirstUnused(items, FRESH);
    }
  }

  /** Label soundness from the text alone. */
  lemma TextLabelSoundness(items: Items, once: set<string>, i: nat, n: string, j: nat)
    requires Assemble(items).Some? && TextStable(items, once)
    requires BoundOnlyAt(items, i, n) && items[i] == Label(n)
    requires j <= |items|
    ensures Lookup(n, At(items, j, SecondStart(items))) == |At(items, i, SecondStart(items)).out|
  {
    TextStableIsStable(items, once);
    LabelSoundness(items, i, n, j);
  }
}

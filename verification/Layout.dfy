/** What the two passes have in common: runs, listings and layout. */
module Layout {
  import opened Bytes
  import opened Assembler
  import opened Wrappers

  type Items = seq<SourceItem>

  // ---------- Runs ----------

  lemma {:induction false} RunConcat(a: Items, b: Items, s: State)
    ensures Run(a + b, s) == if Run(a, s).Some? then Run(b, Run(a, s).value) else None
  {
    if a == [] {
      assert a + b == b;
    } else {
      assert (a + b)[1..] == a[1..] + b;
      match Step(a[0], s)
      case None =>
      case Some(t) => RunConcat(a[1..], b, t);
    }
  }

  lemma RunPrefix(items: Items, j: nat, s: State)
    requires j <= |items| && Run(items, s).Some?
    ensures Run(items[..j], s).Some?
    ensures Run(items, s) == Run(items[j..], Run(items[..j], s).value)
  {
    assert items == items[..j] + items[j..];
    RunConcat(items[..j], items[j..], s);
  }

  /** The state when control reaches item j. */
  function At(items: Items, j: nat, s: State): State
    requires j <= |items| && Run(items, s).Some?
  {
    RunPrefix(items, j, s);
    Run(items[..j], s).value
  }

  lemma RunOne(it: SourceItem, s: State)
    ensures Run([it], s) == Step(it, s)
  {
    assert [it][1..] == [];
  }

  lemma PrefixNext<T>(s: seq<T>, j: nat)
    requires j < |s|
    ensures s[..j + 1] == s[..j] + [s[j]]
  {
  }

  lemma RunLast(front: Items, it: SourceItem, s: State)
    requires Run(front, s).Some?
    ensures Run(front + [it], s) == Step(it, Run(front, s).value)
  {
    RunConcat(front, [it], s);
    RunOne(it, Run(front, s).value);
  }

  lemma RunNext(items: Items, j: nat, s: State)
    requires j < |items| && Run(items[..j], s).Some?
    ensures Run(items[..j + 1], s) == Step(items[j], Run(items[..j], s).value)
  {
    PrefixNext(items, j);
    RunLast(items[..j], items[j], s);
  }

  lemma AtNext(items: Items, j: nat, s: State)
    requires j < |items| && Run(items, s).Some?
    ensures Step(items[j], At(items, j, s)) == Some(At(items, j + 1, s))
  {
    RunPrefix(items, j, s);
    RunPrefix(items, j + 1, s);
    RunNext(items, j, s);
  }

  // ---------- The output is a listing ----------

  function Concat(fields: seq<seq<Byte>>): seq<Byte> {
    if fields == [] then [] else fields[0] + Concat(fields[1..])
  }

  lemma ConcatCons(first: seq<Byte>, rest: seq<seq<Byte>>)
    ensures Concat([first] + rest) == first + Concat(rest)
  {
    assert ([first] + rest)[1..] == rest;
  }

  /** The bytes an item emits in a state. */
  function Emitted(it: SourceItem, s: State): Option<seq<Byte>> {
    Encode(Resolve(it, s), s.modes, s.offset)
  }

  /** Between s and t exactly these bytes were emitted: counted always, written in the second pass only. */
  predicate Wrote(s: State, t: State, bytes: seq<Byte>) {
    && t.pass == s.pass
    && t.offset == s.offset + |bytes|
    && t.out == if s.pass == 1 then s.out + bytes else s.out
  }

  lemma WroteBoth(s: State, t: State, u: State, a: seq<Byte>, b: seq<Byte>)
    requires Wrote(s, t, a) && Wrote(t, u, b)
    ensures Wrote(s, u, a + b)
  {
  }

  lemma StepEmits(it: SourceItem, s: State)
    ensures Step(it, s).Some? <==> Emitted(it, s).Some?
    ensures Step(it, s).Some? ==> Wrote(s, Step(it, s).value, Emitted(it, s).value)
  {
  }

  /** The bytes of each item in turn, as the encoding function gives them. */
  function Listing(items: Items, s: State): (fields: seq<seq<Byte>>)
    requires Run(items, s).Some?
    ensures |fields| == |items|
  {
    if items == [] then [] else
      StepEmits(items[0], s);
      [Emitted(items[0], s).value] + Listing(items[1..], Step(items[0], s).value)
  }

  /** Pass 1 appends exactly the listing, pass 0 appends nothing, and both count it. */
  lemma {:induction false} OutputIsListing(items: Items, s: State)
    requires Run(items, s).Some?
    ensures Wrote(s, Run(items, s).value, Concat(Listing(items, s)))
  {
    if items != [] {
      var next := Step(items[0], s).value;
      StepEmits(items[0], s);
      OutputIsListing(items[1..], next);
      ConcatCons(Emitted(items[0], s).value, Listing(items[1..], next));
      WroteBoth(s, next, Run(items, s).value, Emitted(items[0], s).value, Concat(Listing(items[1..], next)));
    }
  }

  /** The k-th field of a listing is the encoding of item k in the state that reaches it. */
  lemma {:induction false} ListingAt(items: Items, k: nat, s: State)
    requires k < |items| && Run(items, s).Some?
    ensures Emitted(items[k], At(items, k, s)) == Some(Listing(items, s)[k])
  {
    if k == 0 {
      assert items[..0] == [];
    } else {
      var next := Step(items[0], s).value;
      ListingAt(items[1..], k - 1, next);
      assert items[..k][1..] == items[1..][..k - 1];
    }
  }

  /** What has been written when control reaches item j stays at the front of the final output. */
  lemma OutputGrows(items: Items, j: nat, s: State)
    requires j <= |items| && Run(items, s).Some?
    ensures At(items, j, s).out <= Run(items, s).value.out
    ensures At(items, j, s).pass == s.pass
    ensures s.pass == 1 && s.offset == |s.out| ==> At(items, j, s).offset == |At(items, j, s).out|
  {
    RunPrefix(items, j, s);
    OutputIsListing(items[..j], s);
    OutputIsListing(items[j..], At(items, j, s));
  }

  /** A whole assembly: the file is the listing of the second pass, and the first pass wrote none of it. */
  lemma AssemblyIsListing(items: Items)
    requires Assemble(items).Some?
    ensures var counted := Run(items, FRESH).value;
      && counted.out == []
      && Assemble(items).value.out == Concat(Listing(items, Rewind(counted)))
      && Assemble(items).value.offset == |Assemble(items).value.out|
  {
    OutputIsListing(items, FRESH);
    OutputIsListing(items, Rewind(Run(items, FRESH).value));
  }

  // ---------- Layout does not depend on data ----------

  /** The argument that decides how far this item moves the offset, or a later fixup, is the same in both states. */
  predicate ArgAlike(it: SourceItem, s: State, t: State) {
    match it
    case Align(e) => Eval(e, s) == Eval(e, t)
    case Blank(e) => Eval(e, s) == Eval(e, t)
    case AddressLen(e) => Eval(e, s) == Eval(e, t)
    case _ => true
  }

  /** ArgAlike at every item of the two runs. */
  predicate Alike(items: Items, s: State, t: State)
    decreases |items|
  {
    items != [] ==>
      var a, b := Step(items[0], s), Step(items[0], t);
      ArgAlike(items[0], s, t) && (a.Some? && b.Some? ==> Alike(items[1..], a.value, b.value))
  }

  /** The default type is used before any item sets it. */
  predicate UsesType(items: Items) {
    items != [] && match items[0]
      case Default(_) | DefaultFp(_) => true
      case SetType(_) => false
      case _ => UsesType(items[1..])
  }

  /** A fixup is reached, in the run from s, before any item sets the address length. */
  predicate UsesAddressLen(items: Items, s: State)
    decreases |items|
  {
    items != [] &&
      (items[0].Fixup? ||
        (!(items[0].AddressLen? && ValidAddressLen(Eval(items[0].arg, s)))
        && Step(items[0], s).Some? && UsesAddressLen(items[1..], Step(items[0], s).value)))
  }

  predicate SameLayoutModes(m: Modes, n: Modes) {
    m.ty == n.ty && m.addressLen == n.addressLen
  }

  /** Both runs stop, or both continue at the same offset. */
  predicate SameOffset(a: Option<State>, b: Option<State>) {
    (a.Some? <==> b.Some?) && (a.Some? ==> a.value.offset == b.value.offset)
  }

  /** The two runs are about to go through the same layout: what differs between the states is not used to place bytes. */
  predicate LikeLayout(items: Items, s: State, t: State) {
    && s.offset == t.offset && Alike(items, s, t)
    && (s.modes.ty == t.modes.ty || !UsesType(items))
    && (s.modes.addressLen == t.modes.addressLen || !UsesAddressLen(items, s))
  }

  /** One item moves both states by the same amount. */
  lemma StepSameOffset(it: SourceItem, s: State, t: State)
    requires s.offset == t.offset && ArgAlike(it, s, t)
    requires s.modes.ty == t.modes.ty || !(it.Default? || it.DefaultFp?)
    requires s.modes.addressLen == t.modes.addressLen || !it.Fixup?
    ensures SameOffset(Step(it, s), Step(it, t))
  {
    StepEmits(it, s);
    StepEmits(it, t);
    SameSize(it, s, t);
  }

  lemma SameSize(it: SourceItem, s: State, t: State)
    requires s.offset == t.offset && ArgAlike(it, s, t)
    requires s.modes.ty == t.modes.ty || !(it.Default? || it.DefaultFp?)
    requires s.modes.addressLen == t.modes.addressLen || !it.Fixup?
    ensures Emitted(it, s).Some? <==> Emitted(it, t).Some?
    ensures Emitted(it, s).Some? ==> |Emitted(it, s).value| == |Emitted(it, t).value|
  {
  }

  lemma StepChanges(it: SourceItem, s: State)
    requires Step(it, s).Some?
    ensures Step(it, s).value.modes == ChangeModes(Resolve(it, s), s.modes)
    ensures Step(it, s).value.symbols == Bind(Resolve(it, s), s)
  {
  }

  /** What one item does to the modes that outlive a pass. */
  lemma StepModes(it: SourceItem, s: State)
    requires Step(it, s).Some?
    ensures var m := Step(it, s).value.modes;
      && m.ty == (if it.SetType? then it.newType else s.modes.ty)
      && m.order == (if it.SetOrder? then it.newOrder else s.modes.order)
      && m.addressLen == (if it.AddressLen? && ValidAddressLen(Eval(it.arg, s)) then Eval(it.arg, s) else s.modes.addressLen)
      && m.allowNan == (if it.AllowNan? then Eval(it.arg, s) != 0 else s.modes.allowNan)
      && m.allowInfinity == (if it.AllowInfinity? then Eval(it.arg, s) != 0 else s.modes.allowInfinity)
  {
    StepChanges(it, s);
    ChangedModes(it, s);
  }

  lemma ChangedModes(it: SourceItem, s: State)
    ensures var m := ChangeModes(Resolve(it, s), s.modes);
      && m.ty == (if it.SetType? then it.newType else s.modes.ty)
      && m.order == (if it.SetOrder? then it.newOrder else s.modes.order)
      && m.addressLen == (if it.AddressLen? && ValidAddressLen(Eval(it.arg, s)) then Eval(it.arg, s) else s.modes.addressLen)
      && m.allowNan == (if it.AllowNan? then Eval(it.arg, s) != 0 else s.modes.allowNan)
      && m.allowInfinity == (if it.AllowInfinity? then Eval(it.arg, s) != 0 else s.modes.allowInfinity)
  {
  }

  lemma LikeLayoutStep(items: Items, s: State, t: State)
    requires items != [] && LikeLayout(items, s, t)
    ensures SameOffset(Step(items[0], s), Step(items[0], t))
    ensures Step(items[0], s).Some? ==> var a, b := Step(items[0], s).value, Step(items[0], t).value;
      && LikeLayout(items[1..], a, b)
      && (SameLayoutModes(s.modes, t.modes) ==> SameLayoutModes(a.modes, b.modes))
  {
    StepSameOffset(items[0], s, t);
    if Step(items[0], s).Some? {
      StepModes(items[0], s);
      StepModes(items[0], t);
    }
  }

  /** At point j the two runs agree. */
  predicate AgreeAt(items: Items, j: nat, s: State, t: State)
    requires j <= |items|
  {
    && SameOffset(Run(items[..j], s), Run(items[..j], t))
    && (SameLayoutModes(s.modes, t.modes) && Run(items[..j], s).Some? && Run(items[..j], t).Some? ==>
      SameLayoutModes(Run(items[..j], s).value.modes, Run(items[..j], t).value.modes))
  }

  /** And what lies ahead has the same layout. */
  predicate LikeAt(items: Items, j: nat, s: State, t: State)
    requires j <= |items|
  {
    && AgreeAt(items, j, s, t)
    && (Run(items[..j], s).Some? && Run(items[..j], t).Some? ==>
      LikeLayout(items[j..], Run(items[..j], s).value, Run(items[..j], t).value))
  }

  lemma LikeAtStart(items: Items, s: State, t: State)
    requires LikeLayout(items, s, t)
    ensures LikeAt(items, 0, s, t)
  {
    assert items[..0] == [] && items[0..] == items;
  }

  lemma RunStopped(items: Items, j: nat, s: State)
    requires j < |items| && Run(items[..j], s).None?
    ensures Run(items[..j + 1], s).None?
  {
    PrefixNext(items, j);
    RunConcat(items[..j], [items[j]], s);
  }

  lemma LikeAtNext(items: Items, j: nat, s: State, t: State)
    requires j < |items| && LikeAt(items, j, s, t)
    ensures LikeAt(items, j + 1, s, t)
  {
    if Run(items[..j], s).Some? {
      RunNext(items, j, s);
      RunNext(items, j, t);
      LikeNext(items, j, Run(items[..j], s).value, Run(items[..j], t).value);
    } else {
      RunStopped(items, j, s);
      RunStopped(items, j, t);
    }
  }

  lemma LikeNext(items: Items, j: nat, a: State, b: State)
    requires j < |items| && LikeLayout(items[j..], a, b)
    ensures SameOffset(Step(items[j], a), Step(items[j], b))
    ensures Step(items[j], a).Some? ==> var c, d := Step(items[j], a).value, Step(items[j], b).value;
      && LikeLayout(items[j + 1..], c, d)
      && (SameLayoutModes(a.modes, b.modes) ==> SameLayoutModes(c.modes, d.modes))
  {
    assert items[j..][0] == items[j] && items[j..][1..] == items[j + 1..];
    LikeLayoutStep(items[j..], a, b);
  }

  /** A set that contains `from`, and with every number below n the next one, contains all up to n. */
  lemma {:induction false} Reached(K: iset<nat>, from: nat, n: nat)
    requires from in K && from <= n && forall i :: i in K && from <= i < n ==> i + 1 in K
    ensures n in K
    decreases n
  {
    if from < n {
      Reached(K, from, n - 1);
    }
  }

  /** Layout non-interference, at every point j of the two runs. The passes, the tables, the byte orders,
      the NaN and infinity flags and the outputs may all differ; the default type and the address length may
      differ too while nothing uses them. */
  lemma SameLayout(items: Items, s: State, t: State, j: nat)
    requires j <= |items| && LikeLayout(items, s, t)
    ensures AgreeAt(items, j, s, t)
  {
    var K := iset i: nat | i <= |items| && LikeAt(items, i, s, t);
    LikeAtStart(items, s, t);
    forall i: nat | i in K && i < j ensures i + 1 in K {
      LikeAtNext(items, i, s, t);
    }
    Reached(K, 0, j);
  }
}

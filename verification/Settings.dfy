/** What an item finds: the value of a name and the setting of a mode, by the last item that bound or set it, in either
    pass. */
module Settings {
  import opened Bytes
  import opened Assembler
  import opened Layout
  import opened TwoPass
  import opened Wrappers

  // ---------- Names ----------

  /** In the first pass every binding item binds; later only `=` does. */
  predicate BindsIn(pass: nat, it: SourceItem, n: string) {
    Binds(it, n) && (pass == 0 || it.Assign?)
  }

  /** What a binding item binds its name to: a label the offset, the others the value of their argument. */
  function BoundValue(it: SourceItem, s: State): int
    requires it.Label? || it.Pass0? || it.Assign?
  {
    if it.Label? then s.offset else Eval(it.arg, s)
  }

  /** Item k is the last before item j to bind n. */
  predicate LastBinding(items: Items, k: nat, j: nat, n: string, pass: nat) {
    && k < j <= |items| && BindsIn(pass, items[k], n)
    && forall m :: k < m < j ==> !BindsIn(pass, items[m], n)
  }

  predicate NoBinding(items: Items, j: nat, n: string, pass: nat) {
    j <= |items| && forall m :: 0 <= m < j ==> !BindsIn(pass, items[m], n)
  }

  lemma StepBinds(it: SourceItem, s: State, n: string)
    requires Step(it, s).Some? && BindsIn(s.pass, it, n)
    ensures Entry(n, Step(it, s).value.symbols) == Some(BoundValue(it, s))
  {
    StepChanges(it, s);
    ItemBinds(it, s, n);
  }

  lemma ItemBinds(it: SourceItem, s: State, n: string)
    ensures Entry(n, Bind(Resolve(it, s), s)) == if BindsIn(s.pass, it, n) then Some(BoundValue(it, s)) else Entry(n, s.symbols)
  {
  }

  function Entry(n: string, symbols: map<string, int>): Option<int> {
    if n in symbols then Some(symbols[n]) else None
  }

  lemma StepKeeps(it: SourceItem, s: State, n: string)
    requires Step(it, s).Some? && !BindsIn(s.pass, it, n)
    ensures Entry(n, Step(it, s).value.symbols) == Entry(n, s.symbols)
  {
    StepChanges(it, s);
    ItemBinds(it, s, n);
  }

  lemma EntryBound(items: Items, s: State, k: nat, n: string)
    requires k < |items| && Run(items, s).Some? && BindsIn(s.pass, items[k], n)
    ensures Entry(n, At(items, k + 1, s).symbols) == Some(BoundValue(items[k], At(items, k, s)))
  {
    AtNext(items, k, s);
    OutputGrows(items, k, s);
    StepBinds(items[k], At(items, k, s), n);
  }

  lemma EntrySame(items: Items, s: State, k: nat, n: string)
    requires k < |items| && Run(items, s).Some? && !BindsIn(s.pass, items[k], n)
    ensures Entry(n, At(items, k + 1, s).symbols) == Entry(n, At(items, k, s).symbols)
  {
    AtNext(items, k, s);
    OutputGrows(items, k, s);
    StepKeeps(items[k], At(items, k, s), n);
  }

  lemma {:induction false} EntrySince(items: Items, s: State, k: nat, j: nat, n: string)
    requires Run(items, s).Some? && k <= j <= |items|
    requires forall m :: k <= m < j ==> !BindsIn(s.pass, items[m], n)
    ensures Entry(n, At(items, j, s).symbols) == Entry(n, At(items, k, s).symbols)
    decreases j
  {
    if k < j {
      EntrySince(items, s, k, j - 1, n);
      EntrySame(items, s, j - 1, n);
    }
  }

  lemma EntryAt(items: Items, s: State, k: nat, j: nat, n: string)
    requires Run(items, s).Some? && LastBinding(items, k, j, n, s.pass)
    ensures Entry(n, At(items, j, s).symbols) == Some(BoundValue(items[k], At(items, k, s)))
  {
    EntryBound(items, s, k, n);
    EntrySince(items, s, k + 1, j, n);
  }

  lemma AtStart(items: Items, s: State)
    requires Run(items, s).Some?
    ensures At(items, 0, s) == s
  {
    assert items[..0] == [];
  }

  lemma AtEnd(items: Items, s: State)
    requires Run(items, s).Some?
    ensures At(items, |items|, s) == Run(items, s).value
  {
    assert items[..|items|] == items;
  }

  lemma NoEntryAt(items: Items, s: State, j: nat, n: string)
    requires Run(items, s).Some? && NoBinding(items, j, n, s.pass)
    ensures Entry(n, At(items, j, s).symbols) == Entry(n, s.symbols)
  {
    AtStart(items, s);
    EntrySince(items, s, 0, j, n);
  }

  /** In the first pass a name has the value that the last binding before gave it. */
  lemma FirstPassLookup(items: Items, k: nat, j: nat, n: string)
    requires Run(items, FRESH).Some? && LastBinding(items, k, j, n, 0)
    ensures Lookup(n, At(items, j, FRESH)) == BoundValue(items[k], At(items, k, FRESH))
  {
    EntryAt(items, FRESH, k, j, n);
  }

  /** Before any binding it is 1 there. */
  lemma FirstPassUnbound(items: Items, j: nat, n: string)
    requires Run(items, FRESH).Some? && NoBinding(items, j, n, 0)
    ensures Lookup(n, At(items, j, FRESH)) == 1
  {
    OutputGrows(items, j, FRESH);
    NoEntryAt(items, FRESH, j, n);
  }

  /** In the second pass a name has the value of the last `=` before, if there is one. */
  lemma SecondPassLookup(items: Items, k: nat, j: nat, n: string)
    requires Assemble(items).Some? && LastBinding(items, k, j, n, 1)
    ensures Lookup(n, At(items, j, SecondStart(items))) == Eval(items[k].arg, At(items, k, SecondStart(items)))
  {
    EntryAt(items, SecondStart(items), k, j, n);
  }

  /** Without one it has the value that the last binding of the whole first pass left behind: an offset of the first pass
      for a label, and the value of the argument there for the others. */
  lemma SecondPassCarried(items: Items, k: nat, j: nat, n: string)
    requires Assemble(items).Some? && NoBinding(items, j, n, 1) && LastBinding(items, k, |items|, n, 0)
    ensures Lookup(n, At(items, j, SecondStart(items))) == BoundValue(items[k], At(items, k, FRESH))
  {
    NoEntryAt(items, SecondStart(items), j, n);
    AtEnd(items, FRESH);
    EntryAt(items, FRESH, k, |items|, n);
  }

  /** A name that no item binds is 0 in the second pass. */
  lemma SecondPassUnbound(items: Items, j: nat, n: string)
    requires Assemble(items).Some? && j <= |items| && NoBinding(items, |items|, n, 0)
    ensures Lookup(n, At(items, j, SecondStart(items))) == 0
  {
    NoEntryAt(items, SecondStart(items), j, n);
    AtEnd(items, FRESH);
    NoEntryAt(items, FRESH, |items|, n);
    OutputGrows(items, j, SecondStart(items));
    OutputGrows(items, |items|, FRESH);
  }

  /** A `*name*` item that alone binds its name gives it the value its argument had in the first pass, wherever the second
      pass is. */
  lemma Pass0Value(items: Items, i: nat, n: string, e: Expr, j: nat)
    requires Assemble(items).Some? && BoundOnlyAt(items, i, n) && items[i] == Pass0(n, e) && j <= |items|
    ensures Lookup(n, At(items, j, SecondStart(items))) == Eval(e, At(items, i, FRESH))
  {
    SecondPassCarried(items, i, j, n);
  }

  // ---------- Modes ----------

  datatype Mode = DefaultType | ByteOrder | NanMode | InfinityMode | AddressLength

  datatype Setting = IsType(ty: Type) | IsOrder(order: Order) | IsFlag(flag: bool) | IsLength(bits: int)

  function SettingOf(m: Modes, mode: Mode): Setting {
    match mode
    case DefaultType => IsType(m.ty)
    case ByteOrder => IsOrder(m.order)
    case NanMode => IsFlag(m.allowNan)
    case InfinityMode => IsFlag(m.allowInfinity)
    case AddressLength => IsLength(m.addressLen)
  }

  /** What an item sets a mode to, if it sets it: an address length counts only if it is a whole number of bytes. */
  function Sets(it: SourceItem, s: State, mode: Mode): Option<Setting> {
    if it.SetType? && mode.DefaultType? then Some(IsType(it.newType))
    else if it.SetOrder? && mode.ByteOrder? then Some(IsOrder(it.newOrder))
    else if it.AllowNan? && mode.NanMode? then Some(IsFlag(Eval(it.arg, s) != 0))
    else if it.AllowInfinity? && mode.InfinityMode? then Some(IsFlag(Eval(it.arg, s) != 0))
    else if it.AddressLen? && mode.AddressLength? && Eval(it.arg, s) >= 0 && Eval(it.arg, s) % 8 == 0 then
      Some(IsLength(Eval(it.arg, s)))
    else None
  }

  /** Before any item: 32-bit unsigned integers, little-endian, NaN and infinities allowed, 64-bit addresses. */
  function Initially(mode: Mode): Setting {
    match mode
    case DefaultType => IsType(U32)
    case ByteOrder => IsOrder(LittleEndian)
    case NanMode => IsFlag(true)
    case InfinityMode => IsFlag(true)
    case AddressLength => IsLength(64)
  }

  /** In the run from s, item k is the last before item j to set the mode. */
  predicate LastSetting(items: Items, s: State, k: nat, j: nat, mode: Mode)
    requires Run(items, s).Some?
  {
    && k < j <= |items| && Sets(items[k], At(items, k, s), mode).Some?
    && forall m :: k < m < j ==> Sets(items[m], At(items, m, s), mode).None?
  }

  predicate NoSetting(items: Items, s: State, j: nat, mode: Mode)
    requires Run(items, s).Some?
  {
    j <= |items| && forall m :: 0 <= m < j ==> Sets(items[m], At(items, m, s), mode).None?
  }

  lemma StepSets(it: SourceItem, s: State, mode: Mode)
    requires Step(it, s).Some?
    ensures SettingOf(Step(it, s).value.modes, mode)
      == if Sets(it, s, mode).Some? then Sets(it, s, mode).value else SettingOf(s.modes, mode)
  {
    StepChanges(it, s);
    ItemSets(it, s, mode);
  }

  lemma ItemSets(it: SourceItem, s: State, mode: Mode)
    ensures SettingOf(ChangeModes(Resolve(it, s), s.modes), mode)
      == if Sets(it, s, mode).Some? then Sets(it, s, mode).value else SettingOf(s.modes, mode)
  {
  }

  lemma SettingNext(items: Items, s: State, j: nat, mode: Mode)
    requires 0 < j <= |items| && Run(items, s).Some?
    ensures var found := Sets(items[j - 1], At(items, j - 1, s), mode);
      SettingOf(At(items, j, s).modes, mode) == if found.Some? then found.value else SettingOf(At(items, j - 1, s).modes, mode)
  {
    AtNext(items, j - 1, s);
    StepSets(items[j - 1], At(items, j - 1, s), mode);
  }

  /** A mode has the setting that the last item to set it gave it. */
  lemma SettingAt(items: Items, s: State, k: nat, j: nat, mode: Mode)
    requires Run(items, s).Some? && LastSetting(items, s, k, j, mode)
    ensures Some(SettingOf(At(items, j, s).modes, mode)) == Sets(items[k], At(items, k, s), mode)
  {
    SettingNext(items, s, k + 1, mode);
    SettingSince(items, s, k + 1, j, mode);
  }

  lemma {:induction false} SettingSince(items: Items, s: State, k: nat, j: nat, mode: Mode)
    requires Run(items, s).Some? && k <= j <= |items|
    requires forall m :: k <= m < j ==> Sets(items[m], At(items, m, s), mode).None?
    ensures SettingOf(At(items, j, s).modes, mode) == SettingOf(At(items, k, s).modes, mode)
    decreases j
  {
    if k < j {
      SettingSince(items, s, k, j - 1, mode);
      SettingNext(items, s, j, mode);
    }
  }

  lemma SettingKept(items: Items, s: State, j: nat, mode: Mode)
    requires Run(items, s).Some? && NoSetting(items, s, j, mode)
    ensures SettingOf(At(items, j, s).modes, mode) == SettingOf(s.modes, mode)
  {
    AtStart(items, s);
    SettingSince(items, s, 0, j, mode);
  }

  /** Between the passes nothing is reset: before the first item of the second pass that sets a mode, it has the setting of
      the last item of the first pass that did. */
  lemma SettingLeaks(items: Items, k: nat, j: nat, mode: Mode)
    requires Assemble(items).Some? && NoSetting(items, SecondStart(items), j, mode)
    requires LastSetting(items, FRESH, k, |items|, mode)
    ensures Some(SettingOf(At(items, j, SecondStart(items)).modes, mode)) == Sets(items[k], At(items, k, FRESH), mode)
  {
    SettingKept(items, SecondStart(items), j, mode);
    AtEnd(items, FRESH);
    SettingAt(items, FRESH, k, |items|, mode);
  }

  /** Without such an item in the first pass either, it has its initial setting. */
  lemma SettingInitial(items: Items, j: nat, mode: Mode)
    requires Assemble(items).Some? && NoSetting(items, SecondStart(items), j, mode) && NoSetting(items, FRESH, |items|, mode)
    ensures SettingOf(At(items, j, SecondStart(items)).modes, mode) == Initially(mode)
  {
    SettingKept(items, SecondStart(items), j, mode);
    AtEnd(items, FRESH);
    SettingKept(items, FRESH, |items|, mode);
  }

  /** Items of the kind that sets the mode. */
  predicate Concerns(it: SourceItem, mode: Mode) {
    match mode
    case DefaultType => it.SetType?
    case ByteOrder => it.SetOrder?
    case NanMode => it.AllowNan?
    case InfinityMode => it.AllowInfinity?
    case AddressLength => it.AddressLen?
  }

  /** In a text without such items, the mode has its initial setting throughout both passes. */
  lemma NeverSet(items: Items, j: nat, mode: Mode)
    requires Assemble(items).Some? && j <= |items|
    requires forall k :: 0 <= k < |items| ==> !Concerns(items[k], mode)
    ensures SettingOf(At(items, j, SecondStart(items)).modes, mode) == Initially(mode)
  {
    SettingInitial(items, j, mode);
  }
}

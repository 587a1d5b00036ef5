/** The two growing free lists of the source as objects, each refining the abstract pool. */
module FreeLists {
  import opened Pools
  import opened Wrappers

  /** All ones in the index type: no slot has this index. */
  const INVALID: nat := 0xFFFF_FFFF_FFFF_FFFF

  // ---------- Free indices in a second array ----------

  /** Every stored value is in its slot. */
  ghost predicate Holds<T>(data: seq<T>, pool: Pool<T>) {
    forall i :: i in pool.live && pool.live[i].Some? ==> i < |data| && data[i] == pool.live[i].value
  }

  /** The free stack is the front of the second array; behind it stands the index of no slot. */
  ghost predicate Stacked<T>(data: seq<T>, freelist: seq<nat>, currentFree: nat, pool: Pool<T>) {
    && Pools.Valid(pool) && Holds(data, pool)
    && |data| == |freelist| == pool.size <= INVALID
    && currentFree == |pool.free| <= |freelist|
    && freelist[..currentFree] == pool.free
    && (forall k :: currentFree <= k < |freelist| ==> freelist[k] == INVALID)
  }

  /** While a slot is live the free stack is not full. */
  lemma LiveRoom<T>(p: Pool<T>, i: nat)
    requires Pools.Valid(p) && i in p.live
    ensures |p.free| < p.size
  {
    Conservation(p);
    assert i in p.live.Keys;
  }

  lemma StackTaken<T>(data: seq<T>, freelist: seq<nat>, currentFree: nat, pool: Pool<T>)
    requires Stacked(data, freelist, currentFree, pool) && pool.free != []
    ensures var top := currentFree - 1;
      Stacked(data, freelist[top := INVALID], top, Take(pool, None)) && freelist[top] == pool.free[top]
  {
    var top := currentFree - 1;
    TakeValid(pool, None);
    assert freelist[top] == freelist[..currentFree][top];
    assert freelist[top := INVALID][..top] == freelist[..currentFree][..top];
  }

  lemma StackErased<T>(data: seq<T>, freelist: seq<nat>, currentFree: nat, pool: Pool<T>, index: nat)
    requires Stacked(data, freelist, currentFree, pool) && index in pool.live
    ensures currentFree < |freelist|
    ensures Stacked(data, freelist[currentFree := index], currentFree + 1, Apply(pool, Erase(index), HighestFirst))
  {
    LiveRoom(pool, index);
    EraseValid(pool, index, HighestFirst);
    assert freelist[currentFree := index][..currentFree + 1] == freelist[..currentFree] + [index];
  }

  lemma StackGrown<T>(data: seq<T>, after: seq<T>, freelist: seq<nat>, currentFree: nat, pool: Pool<T>, count: nat)
    requires Pools.Valid(pool) && Holds(data, pool) && |data| == pool.size <= count && data <= after
    requires |after| == |freelist| == count <= INVALID
    requires currentFree == |pool.free| + (count - pool.size) <= count
    requires freelist[..currentFree] == pool.free + NewSlots(HighestFirst, pool.size, count)
    requires forall k :: currentFree <= k < count ==> freelist[k] == INVALID
    ensures Stacked(after, freelist, currentFree, Grown(pool, HighestFirst, count))
  {
    GrownValid(pool, HighestFirst, count);
  }

  class ExplicitFreeList<T> {
    var data: seq<T>
    var freelist: seq<nat>
    var currentFree: nat
    const blank: T
    ghost var pool: Pool<T>

    ghost predicate Valid()
      reads this
    {
      Stacked(data, freelist, currentFree, pool)
    }

    /** The default constructor. `blank` is what a value-initialised element holds. */
    constructor Default(blank: T)
      ensures Valid() && pool == Empty<T>()
    {
      data, freelist, currentFree := [], [], 0;
      this.blank := blank;
      pool := Empty<T>();
    }

    constructor (count: nat, blank: T)
      requires count <= INVALID
      ensures Valid() && pool == Grown(Empty<T>(), HighestFirst, count)
    {
      data := seq(count, _ => blank);
      freelist := seq(count, _ => 0);
      currentFree := count;
      this.blank := blank;
      pool := Empty<T>();
      new;
      var i := 0;
      while i < count
        invariant i <= count && |freelist| == |data| == count
        invariant forall k :: 0 <= k < i ==> freelist[k] == k
        invariant currentFree == count && pool == Empty<T>()
      {
        freelist := freelist[i := i];
        i := i + 1;
      }
      assert freelist[..count] == [] + NewSlots(HighestFirst, 0, count);
      StackGrown([], data, freelist, count, pool, count);
      pool := Grown(pool, HighestFirst, count);
    }

    method Resize(count: nat)
      requires Valid() && |data| < count <= INVALID
      modifies this
      ensures Valid() && pool == Grown(old(pool), HighestFirst, count)
    {
      var oldcount := |data|;
      data := data + seq(count - oldcount, _ => blank);
      freelist := freelist + seq(count - oldcount, _ => 0);
      ghost var free := pool.free;
      var i := oldcount;
      while i < count
        invariant oldcount <= i <= count && |freelist| == |data| == count
        invariant currentFree == |free| + (i - oldcount)
        invariant freelist[..currentFree] == free + NewSlots(HighestFirst, oldcount, i)
        invariant forall k :: currentFree <= k < i ==> freelist[k] == INVALID
        invariant pool == old(pool) && old(data) <= data
      {
        ghost var stacked := freelist[..currentFree];
        freelist := freelist[i := INVALID];
        freelist := freelist[currentFree := i];
        currentFree := currentFree + 1;
        assert freelist[..currentFree] == stacked + [i];
        i := i + 1;
      }
      StackGrown(old(data), data, freelist, currentFree, pool, count);
      pool := Grown(pool, HighestFirst, count);
    }

    method Alloc() returns (index: nat)
      requires Valid() && (pool.free == [] ==> 2 * |data| + 1 <= INVALID)
      modifies this
      ensures Valid() && pool == Apply(old(pool), Op.Alloc, HighestFirst)
      ensures Some(index) == Answer(old(pool), Op.Alloc, HighestFirst)
    {
      if currentFree == 0 {
        Resize(|data| * 2 + 1);
      }
      assert pool == Ready(old(pool), HighestFirst);
      StackTaken(data, freelist, currentFree, pool);
      currentFree := currentFree - 1;
      index := freelist[currentFree];
      freelist := freelist[currentFree := INVALID];
      pool := Take(pool, None);
    }

    method Push(val: T) returns (index: nat)
      requires Valid() && (pool.free == [] ==> 2 * |data| + 1 <= INVALID)
      modifies this
      ensures Valid() && pool == Apply(old(pool), Op.Push(val), HighestFirst)
      ensures Some(index) == Answer(old(pool), Op.Push(val), HighestFirst)
    {
      AllocThenStore(pool, val, HighestFirst);
      index := Alloc();
      Store(index, val);
    }

    method Erase(index: nat)
      requires Valid() && index in pool.live
      modifies this
      ensures Valid() && pool == Apply(old(pool), Op.Erase(index), HighestFirst)
    {
      StackErased(data, freelist, currentFree, pool, index);
      freelist := freelist[currentFree := index];
      currentFree := currentFree + 1;
      pool := Apply(pool, Op.Erase(index), HighestFirst);
    }

    /** `list[index] = val` by the owner of a slot. */
    method Store(index: nat, val: T)
      requires Valid() && index in pool.live
      modifies this
      ensures Valid() && pool == Apply(old(pool), Op.Store(index, val), HighestFirst)
    {
      data := data[index := val];
      pool := pool.(live := pool.live[index := Some(val)]);
    }

    /** What an owner stored is what it reads back. */
    method At(index: nat) returns (val: T)
      requires Valid() && index in pool.live
      ensures pool.live[index].Some? ==> val == pool.live[index].value
    {
      val := data[index];
    }

    method IsEmpty() returns (b: bool)
      requires Valid()
      ensures b <==> pool.live == map[]
    {
      Conservation(pool);
      b := currentFree == |freelist|;
    }
  }

  /** A push is an alloc and a store. */
  lemma AllocThenStore<T>(p: Pool<T>, val: T, order: Order)
    requires Pools.Valid(p)
    ensures var i, q := Answer(p, Op.Push(val), order), Apply(p, Op.Alloc, order);
      && i == Answer(p, Op.Alloc, order) && i.Some? && i.value in q.live
      && Apply(q, Op.Store(i.value, val), order) == Apply(p, Op.Push(val), order)
  {
    AnswerFresh(p, Op.Alloc, order);
    StoreAfterTake(Ready(p, order), val);
  }

  lemma StoreAfterTake<T>(p: Pool<T>, val: T)
    requires p.free != []
    ensures var i := p.free[|p.free| - 1];
      Take(p, None).(live := Take(p, None).live[i := Some(val)]) == Take(p, Some(val))
  {
  }

  // ---------- The free chain inside the value slots ----------

  /** A value at least as wide as an index: its first word, which a link overwrites, and the rest. */
  datatype Slot<R> = Slot(word: nat, rest: R)

  /** The first slot of the chain for a free stack. */
  function HeadOf(free: seq<nat>): nat {
    if free == [] then INVALID else free[|free| - 1]
  }

  /** The top free slot links to the chain of those below it. */
  predicate Chained<R>(data: seq<Slot<R>>, free: seq<nat>) {
    free != [] ==>
      var top, below := free[|free| - 1], free[..|free| - 1];
      top < |data| && data[top].word == HeadOf(below) && Chained(data, below)
  }

  /** Writing to slots that are not free leaves the chain alone. */
  lemma {:induction false} ChainKept<R>(data: seq<Slot<R>>, after: seq<Slot<R>>, free: seq<nat>)
    requires Chained(data, free)
    requires forall i :: i in free ==> KeptAt(data, after, i)
    ensures Chained(after, free)
  {
    if free != [] {
      assert free[|free| - 1] in free;
      forall i | i in free[..|free| - 1] ensures KeptAt(data, after, i) {
        assert i in free;
      }
      ChainKept(data, after, free[..|free| - 1]);
    }
  }

  predicate KeptAt<R>(data: seq<Slot<R>>, after: seq<Slot<R>>, i: nat) {
    i < |data| && i < |after| && after[i].word == data[i].word
  }

  /** New slots, each linked to the next and the last to the old head, extend the chain. */
  lemma {:induction false} ChainGrown<R>(data: seq<Slot<R>>, free: seq<nat>, lo: nat, hi: nat)
    requires Chained(data, free) && lo < hi <= |data|
    requires forall k :: lo <= k < hi - 1 ==> data[k].word == k + 1
    requires data[hi - 1].word == HeadOf(free)
    ensures Chained(data, free + NewSlots(LowestFirst, lo, hi))
    ensures HeadOf(free + NewSlots(LowestFirst, lo, hi)) == lo
    decreases hi - lo
  {
    var rest := free + NewSlots(LowestFirst, lo + 1, hi);
    if lo + 1 < hi {
      ChainGrown(data, free, lo + 1, hi);
    } else {
      assert rest == free;
    }
    var all := free + NewSlots(LowestFirst, lo, hi);
    assert all[..|all| - 1] == rest;
  }

  /** The slots that following the links from `head` visits, `fuel` of them at most. */
  function Walk<R>(data: seq<Slot<R>>, head: nat, fuel: nat): seq<nat>
    decreases fuel
  {
    if fuel == 0 || head >= |data| then [] else [head] + Walk(data, data[head].word, fuel - 1)
  }

  /** Following the links visits the free stack from the top down and stops there by itself. */
  lemma {:induction false} WalkVisits<R>(data: seq<Slot<R>>, free: seq<nat>, fuel: nat)
    requires Chained(data, free) && |data| <= INVALID && fuel >= |free|
    ensures |Walk(data, HeadOf(free), fuel)| == |free|
    ensures forall k :: 0 <= k < |free| ==> Walk(data, HeadOf(free), fuel)[k] == free[|free| - 1 - k]
    decreases |free|
  {
    if free != [] {
      WalkVisits(data, free[..|free| - 1], fuel - 1);
    }
  }

  /** The free stack is the chain from `head`. */
  ghost predicate Linked<R>(data: seq<Slot<R>>, head: nat, count: nat, pool: Pool<Slot<R>>) {
    && Pools.Valid(pool) && Holds(data, pool)
    && |data| == pool.size <= INVALID
    && count == |pool.free| <= |data|
    && head == HeadOf(pool.free)
    && Chained(data, pool.free)
  }

  lemma LinkTaken<R>(data: seq<Slot<R>>, head: nat, count: nat, pool: Pool<Slot<R>>)
    requires Linked(data, head, count, pool) && pool.free != []
    ensures head == pool.free[|pool.free| - 1] && head < |data|
    ensures Linked(data, data[head].word, count - 1, Take(pool, None))
  {
    TakeValid(pool, None);
  }

  lemma LinkErased<R>(data: seq<Slot<R>>, head: nat, count: nat, pool: Pool<Slot<R>>, index: nat)
    requires Linked(data, head, count, pool) && index in pool.live
    ensures index < |data|
    ensures Linked(data[index := data[index].(word := head)], index, count + 1,
      Apply(pool, Erase(index), LowestFirst))
  {
    LiveRoom(pool, index);
    EraseValid(pool, index, LowestFirst);
    ChainKept(data, data[index := data[index].(word := head)], pool.free);
    assert (pool.free + [index])[..|pool.free|] == pool.free;
  }

  lemma LinkStored<R>(data: seq<Slot<R>>, head: nat, count: nat, pool: Pool<Slot<R>>, index: nat, val: Slot<R>)
    requires Linked(data, head, count, pool) && index in pool.live
    ensures index < |data|
    ensures Linked(data[index := val], head, count, Apply(pool, Op.Store(index, val), LowestFirst))
  {
    ChainKept(data, data[index := val], pool.free);
  }

  lemma LinkGrown<R>(data: seq<Slot<R>>, after: seq<Slot<R>>, head: nat, free: nat, pool: Pool<Slot<R>>, count: nat)
    requires Linked(data, head, free, pool) && |data| < count == |after| <= INVALID && data <= after
    requires forall k :: |data| <= k < count - 1 ==> after[k].word == k + 1
    requires after[count - 1].word == head
    ensures Linked(after, |data|, free + (count - |data|), Grown(pool, LowestFirst, count))
  {
    GrownValid(pool, LowestFirst, count);
    ChainKept(data, after, pool.free);
    ChainGrown(after, pool.free, |data|, count);
    Conservation(Grown(pool, LowestFirst, count));
  }

  class IntrusiveFreeList<R> {
    var data: seq<Slot<R>>
    var freeHead: nat
    var freeCount: nat
    const blank: Slot<R>
    ghost var pool: Pool<Slot<R>>

    ghost predicate Valid()
      reads this
    {
      Linked(data, freeHead, freeCount, pool)
    }

    constructor (count: nat, blank: Slot<R>)
      requires 1 <= count <= INVALID
      ensures Valid() && pool == Grown(Empty<Slot<R>>(), LowestFirst, count)
    {
      data := seq(count, _ => blank);
      freeHead, freeCount := 0, count;
      this.blank := blank;
      pool := Grown(Empty<Slot<R>>(), LowestFirst, count);
      new;
      var i := 0;
      while i < count - 1
        invariant i <= count - 1 && |data| == count
        invariant forall k :: 0 <= k < i ==> data[k].word == k + 1
        invariant freeHead == 0 && freeCount == count
        invariant pool == Grown(Empty<Slot<R>>(), LowestFirst, count)
      {
        data := data[i := data[i].(word := i + 1)];
        i := i + 1;
      }
      data := data[count - 1 := data[count - 1].(word := INVALID)];
      LinkGrown([], data, INVALID, 0, Empty<Slot<R>>(), count);
    }

    method Resize(count: nat)
      requires Valid() && |data| < count <= INVALID
      modifies this
      ensures Valid() && pool == Grown(old(pool), LowestFirst, count)
    {
      var oldcount := |data|;
      data := data + seq(count - oldcount, _ => blank);
      var i := oldcount;
      while i < count - 1
        invariant oldcount <= i <= count - 1 && |data| == count
        invariant forall k :: oldcount <= k < i ==> data[k].word == k + 1
        invariant old(data) <= data
        invariant freeHead == old(freeHead) && freeCount == old(freeCount) && pool == old(pool)
      {
        data := data[i := data[i].(word := i + 1)];
        i := i + 1;
      }
      data := data[count - 1 := data[count - 1].(word := freeHead)];
      LinkGrown(old(data), data, freeHead, freeCount, pool, count);
      freeHead := oldcount;
      freeCount := freeCount + (count - oldcount);
      pool := Grown(pool, LowestFirst, count);
    }

    method Alloc() returns (index: nat)
      requires Valid() && (pool.free == [] ==> 2 * |data| + 1 <= INVALID)
      modifies this
      ensures Valid() && pool == Apply(old(pool), Op.Alloc, LowestFirst)
      ensures Some(index) == Answer(old(pool), Op.Alloc, LowestFirst)
    {
      assert freeHead == INVALID <==> pool.free == [] by {
        HeadValid(pool);
      }
      if freeHead == INVALID {
        Resize(|data| * 2 + 1);
      }
      assert pool == Ready(old(pool), LowestFirst);
      LinkTaken(data, freeHead, freeCount, pool);
      index := freeHead;
      freeHead := data[index].word;
      freeCount := freeCount - 1;
      pool := Take(pool, None);
    }

    method Push(val: Slot<R>) returns (index: nat)
      requires Valid() && (pool.free == [] ==> 2 * |data| + 1 <= INVALID)
      modifies this
      ensures Valid() && pool == Apply(old(pool), Op.Push(val), LowestFirst)
      ensures Some(index) == Answer(old(pool), Op.Push(val), LowestFirst)
    {
      AllocThenStore(pool, val, LowestFirst);
      index := Alloc();
      Store(index, val);
    }

    method Erase(index: nat)
      requires Valid() && index in pool.live
      modifies this
      ensures Valid() && pool == Apply(old(pool), Op.Erase(index), LowestFirst)
    {
      LinkErased(data, freeHead, freeCount, pool, index);
      data := data[index := data[index].(word := freeHead)];
      freeHead := index;
      freeCount := freeCount + 1;
      pool := Apply(pool, Op.Erase(index), LowestFirst);
    }

    /** `list[index] = val` by the owner of a slot. */
    method Store(index: nat, val: Slot<R>)
      requires Valid() && index in pool.live
      modifies this
      ensures Valid() && pool == Apply(old(pool), Op.Store(index, val), LowestFirst)
    {
      LinkStored(data, freeHead, freeCount, pool, index, val);
      data := data[index := val];
      pool := Apply(pool, Op.Store(index, val), LowestFirst);
    }

    /** What an owner stored is what it reads back, although links share the array. */
    method At(index: nat) returns (val: Slot<R>)
      requires Valid() && index in pool.live
      ensures pool.live[index].Some? ==> val == pool.live[index].value
    {
      val := data[index];
    }

    method IsEmpty() returns (b: bool)
      requires Valid()
      ensures b <==> pool.live == map[]
    {
      Conservation(pool);
      b := freeCount == |data|;
    }
  }

  /** The head of the chain is no slot exactly when the chain is empty. */
  lemma HeadValid<T>(p: Pool<T>)
    requires Pools.Valid(p) && p.size <= INVALID
    ensures HeadOf(p.free) == INVALID <==> p.free == []
  {
    if p.free != [] {
      assert p.free[|p.free| - 1] in p.free;
    }
  }

  /** The chain from freeHead through data: it ends by itself after exactly freeCount slots, all different; no live slot
      is on it, and every slot of the list is on it or live. */
  lemma ChainPartitions<R>(list: IntrusiveFreeList<R>, fuel: nat)
    requires list.Valid() && fuel >= list.freeCount
    ensures var walk := Walk(list.data, list.freeHead, fuel);
      && |walk| == list.freeCount
      && (forall j, k :: 0 <= j < k < |walk| ==> walk[j] != walk[k])
      && (forall i: nat :: i < |list.data| ==> (i in walk <==> i !in list.pool.live))
      && (forall i :: i in walk ==> i < |list.data|)
  {
    var free, walk := list.pool.free, Walk(list.data, list.freeHead, fuel);
    WalkVisits(list.data, free, fuel);
    forall i: nat | i < |list.data| ensures i in walk <==> i !in list.pool.live {
      if i in free {
        var k :| 0 <= k < |free| && free[k] == i;
        assert walk[|free| - 1 - k] == i;
      }
    }
    forall i | i in walk ensures i < |list.data| {
      var k :| 0 <= k < |walk| && walk[k] == i;
      assert free[|free| - 1 - k] in free;
    }
  }

  method StepExplicit<T>(e: ExplicitFreeList<T>, op: Op<T>) returns (x: Option<nat>)
    requires e.Valid() && Legal(e.pool, op) && !op.Resize?
    requires op.Alloc? || op.Push? ==> e.pool.free != []
    modifies e
    ensures e.Valid() && e.pool == Apply(old(e.pool), op, HighestFirst) && x == Answer(old(e.pool), op, HighestFirst)
  {
    x := None;
    match op {
      case Alloc =>
        var index := e.Alloc();
        x := Some(index);
      case Push(v) =>
        var index := e.Push(v);
        x := Some(index);
      case Store(k, v) => e.Store(k, v);
      case Erase(k) => e.Erase(k);
    }
  }

  method StepIntrusive<R>(l: IntrusiveFreeList<R>, op: Op<Slot<R>>) returns (y: Option<nat>)
    requires l.Valid() && Legal(l.pool, op) && !op.Resize?
    requires op.Alloc? || op.Push? ==> l.pool.free != []
    modifies l
    ensures l.Valid() && l.pool == Apply(old(l.pool), op, LowestFirst) && y == Answer(old(l.pool), op, LowestFirst)
  {
    y := None;
    match op {
      case Alloc =>
        var index := l.Alloc();
        y := Some(index);
      case Push(v) =>
        var index := l.Push(v);
        y := Some(index);
      case Store(k, v) => l.Store(k, v);
      case Erase(k) => l.Erase(k);
    }
  }

  /** One operation on both lists, from equal pools and without growth. */
  method StepBoth<R>(e: ExplicitFreeList<Slot<R>>, l: IntrusiveFreeList<R>, op: Op<Slot<R>>)
    returns (x: Option<nat>, y: Option<nat>)
    requires e.Valid() && l.Valid() && e.pool == l.pool && Legal(e.pool, op) && !op.Resize?
    requires op.Alloc? || op.Push? ==> e.pool.free != []
    modifies e, l
    ensures e.Valid() && l.Valid() && e.pool == l.pool == Apply(old(e.pool), op, HighestFirst)
    ensures x == y == Answer(old(e.pool), op, HighestFirst)
  {
    OrderIrrelevant(e.pool, op, HighestFirst, LowestFirst);
    x := StepExplicit(e, op);
    y := StepIntrusive(l, op);
  }

  /** What is left of a run: from p, the rest leads where the whole run led from `start`, with the answers still due. */
  predicate OnTrack<T(==)>(start: Pool<T>, ops: seq<Op<T>>, p: Pool<T>, rest: seq<Op<T>>, done: seq<Option<nat>>)
    requires LegalRun(start, ops, HighestFirst)
  {
    && LegalRun(p, rest, HighestFirst) && GrowFree(p, rest, HighestFirst)
    && Execute(p, rest, HighestFirst) == Execute(start, ops, HighestFirst)
    && done + Answers(p, rest, HighestFirst) == Answers(start, ops, HighestFirst)
  }

  lemma TrackStep<T>(start: Pool<T>, ops: seq<Op<T>>, p: Pool<T>, rest: seq<Op<T>>, done: seq<Option<nat>>)
    requires LegalRun(start, ops, HighestFirst) && OnTrack(start, ops, p, rest, done) && rest != []
    ensures Legal(p, rest[0]) && !rest[0].Resize? && (rest[0].Alloc? || rest[0].Push? ==> p.free != [])
    ensures OnTrack(start, ops, Apply(p, rest[0], HighestFirst), rest[1..], done + [Answer(p, rest[0], HighestFirst)])
  {
    var answer, due := Answer(p, rest[0], HighestFirst), Answers(Apply(p, rest[0], HighestFirst), rest[1..], HighestFirst);
    assert done + ([answer] + due) == (done + [answer]) + due;
  }

  /** Both lists side by side: from equal pools they answer a run that does not grow identically, and stay equal. */
  method ReplayBoth<R>(e: ExplicitFreeList<Slot<R>>, l: IntrusiveFreeList<R>, ops: seq<Op<Slot<R>>>)
    returns (a: seq<Option<nat>>, b: seq<Option<nat>>)
    requires e.Valid() && l.Valid() && e.pool == l.pool
    requires LegalRun(e.pool, ops, HighestFirst) && GrowFree(e.pool, ops, HighestFirst)
    modifies e, l
    ensures e.Valid() && l.Valid() && e.pool == l.pool == Execute(old(e.pool), ops, HighestFirst)
    ensures a == b == Answers(old(e.pool), ops, HighestFirst)
  {
    a, b := [], [];
    var i := 0;
    ghost var start, p, rest := e.pool, e.pool, ops;
    while i < |ops|
      invariant i <= |ops| && rest == ops[i..]
      invariant e.Valid() && l.Valid() && e.pool == l.pool == p
      invariant a == b && OnTrack(start, ops, p, rest, a)
    {
      TrackStep(start, ops, p, rest, a);
      var x, y := StepBoth(e, l, ops[i]);
      p, rest := Apply(p, rest[0], HighestFirst), rest[1..];
      a, b := a + [x], b + [y];
      i := i + 1;
    }
  }
}

/** One abstract allocator for both growing free lists: a stack of free indices and a map of live slots. */
module Pools {
  import opened Bits
  import opened Wrappers

  /** `free` has its top at the end. A live slot holds None until its owner stores a value in it. */
  datatype Pool<T> = Pool(size: nat, free: seq<nat>, live: map<nat, Option<T>>)

  /** Every index below the size is free, once, or live, and not both. */
  ghost predicate Valid<T>(p: Pool<T>) {
    && (forall i, j :: 0 <= i < j < |p.free| ==> p.free[i] != p.free[j])
    && (forall i :: i in p.free ==> i < p.size && i !in p.live)
    && (forall i :: i in p.live ==> i < p.size)
    && (forall i: nat :: i < p.size ==> i in p.free || i in p.live)
  }

  /** The two lists stack new slots in opposite orders. */
  datatype Order = LowestFirst | HighestFirst

  /** The slots lo..hi, in the order in which they are stacked. */
  function NewSlots(order: Order, lo: nat, hi: nat): (r: seq<nat>)
    requires lo <= hi
    ensures |r| == hi - lo
    ensures forall k :: 0 <= k < hi - lo ==> r[k] == if order == HighestFirst then lo + k else hi - 1 - k
    decreases hi - lo
  {
    if lo == hi then []
    else if order == HighestFirst then NewSlots(order, lo, hi - 1) + [hi - 1]
    else NewSlots(order, lo + 1, hi) + [lo]
  }

  datatype Op<T> =
    | Alloc
    | Push(value: T)
    | Store(index: nat, value: T)
    | Erase(index: nat)
    | Resize(count: nat)

  /** What the callers must respect: no double free, no use of a slot they do not own, growth only. */
  predicate Legal<T>(p: Pool<T>, op: Op<T>) {
    match op
    case Alloc | Push(_) => true
    case Store(i, _) => i in p.live
    case Erase(i) => i in p.live
    case Resize(count) => count > p.size
  }

  function Empty<T>(): Pool<T> {
    Pool(0, [], map[])
  }

  function Grown<T>(p: Pool<T>, order: Order, count: nat): Pool<T>
    requires count >= p.size
  {
    p.(size := count, free := p.free + NewSlots(order, p.size, count))
  }

  /** An exhausted pool grows to twice its size and one. */
  function Ready<T>(p: Pool<T>, order: Order): (r: Pool<T>)
    ensures r.free != []
  {
    if p.free == [] then Grown(p, order, 2 * p.size + 1) else p
  }

  function Take<T>(p: Pool<T>, content: Option<T>): Pool<T>
    requires p.free != []
  {
    var top := |p.free| - 1;
    p.(free := p.free[..top], live := p.live[p.free[top] := content])
  }

  function Answer<T>(p: Pool<T>, op: Op<T>, order: Order): Option<nat> {
    if op.Alloc? || op.Push? then Some(Ready(p, order).free[|Ready(p, order).free| - 1]) else None
  }

  function Apply<T>(p: Pool<T>, op: Op<T>, order: Order): Pool<T>
    requires Legal(p, op)
  {
    match op
    case Alloc => Take(Ready(p, order), None)
    case Push(v) => Take(Ready(p, order), Some(v))
    case Store(i, v) => p.(live := p.live[i := Some(v)])
    case Erase(i) => p.(free := p.free + [i], live := p.live - {i})
    case Resize(count) => Grown(p, order, count)
  }

  // ---------- One operation ----------

  lemma GrownValid<T>(p: Pool<T>, order: Order, count: nat)
    requires Valid(p) && count >= p.size
    ensures Valid(Grown(p, order, count))
  {
    var slots, q := NewSlots(order, p.size, count), Grown(p, order, count);
    forall i: nat | i < count ensures i in q.free || i in q.live {
      if i < p.size {
        assert i in p.free ==> i in q.free;
      } else {
        assert slots[if order == HighestFirst then i - p.size else count - 1 - i] == i;
      }
    }
    forall i | i in q.free ensures i < count && i !in q.live {
      assert i in p.free || i in slots;
    }
    forall i, j | 0 <= i < j < |q.free| ensures q.free[i] != q.free[j] {
      assert i < |p.free| ==> q.free[i] in p.free;
      assert j >= |p.free| ==> q.free[j] == slots[j - |p.free|] >= p.size;
    }
  }

  lemma TakeValid<T>(p: Pool<T>, content: Option<T>)
    requires Valid(p) && p.free != []
    ensures Valid(Take(p, content))
  {
    var top := |p.free| - 1;
    assert p.free[top] in p.free;
    forall i: nat | i < p.size ensures i in p.free[..top] || i in p.live[p.free[top] := content] {
      if i in p.free && i != p.free[top] {
        var k :| 0 <= k < |p.free| && p.free[k] == i;
        assert p.free[..top][k] == i;
      }
    }
    forall i | i in p.free[..top] ensures i in p.free && i != p.free[top] {
      var k :| 0 <= k < top && p.free[..top][k] == i;
      assert p.free[k] == i;
    }
  }

  lemma EraseValid<T>(p: Pool<T>, i: nat, order: Order)
    requires Valid(p) && i in p.live
    ensures Valid(Apply(p, Erase(i), order))
  {
    var q := Apply(p, Erase(i), order);
    assert i !in p.free;
    forall k: nat | k < q.size ensures k in q.free || k in q.live {
      if k == i {
        assert q.free[|p.free|] == i;
      } else if k in p.free {
        assert k in q.free;
      }
    }
    forall j, k | 0 <= j < k < |q.free| ensures q.free[j] != q.free[k] {
      assert q.free[j] in p.free;
    }
  }

  lemma ReadyValid<T>(p: Pool<T>, order: Order)
    requires Valid(p)
    ensures Valid(Ready(p, order))
  {
    GrownValid(p, order, 2 * p.size + 1);
  }

  /** Every legal operation keeps the partition into free and live slots. */
  lemma ApplyValid<T>(p: Pool<T>, op: Op<T>, order: Order)
    requires Valid(p) && Legal(p, op)
    ensures Valid(Apply(p, op, order))
  {
    match op
    case Alloc =>
      ReadyValid(p, order);
      TakeValid(Ready(p, order), None);
    case Push(v) =>
      ReadyValid(p, order);
      TakeValid(Ready(p, order), Some(v));
    case Erase(i) => EraseValid(p, i, order);
    case Store(i, v) =>
    case Resize(count) => GrownValid(p, order, count);
  }

  /** alloc and push hand out a slot that nobody holds, inside the list, and it is then held. */
  lemma AnswerFresh<T>(p: Pool<T>, op: Op<T>, order: Order)
    requires Valid(p) && (op.Alloc? || op.Push?)
    ensures var i := Answer(p, op, order).value;
      && i !in p.live && i < Apply(p, op, order).size
      && Apply(p, op, order).live == p.live[i := if op.Push? then Some(op.value) else None]
  {
    GrownValid(p, order, 2 * p.size + 1);
    var r := Ready(p, order);
    assert r.free[|r.free| - 1] in r.free;
  }

  // ---------- Runs ----------

  /** Every operation is legal where it happens. */
  predicate LegalRun<T>(p: Pool<T>, ops: seq<Op<T>>, order: Order)
    decreases |ops|
  {
    ops != [] ==> Legal(p, ops[0]) && LegalRun(Apply(p, ops[0], order), ops[1..], order)
  }

  function Execute<T>(p: Pool<T>, ops: seq<Op<T>>, order: Order): Pool<T>
    requires LegalRun(p, ops, order)
    decreases |ops|
  {
    if ops == [] then p else Execute(Apply(p, ops[0], order), ops[1..], order)
  }

  function Answers<T>(p: Pool<T>, ops: seq<Op<T>>, order: Order): seq<Option<nat>>
    requires LegalRun(p, ops, order)
    decreases |ops|
  {
    if ops == [] then [] else [Answer(p, ops[0], order)] + Answers(Apply(p, ops[0], order), ops[1..], order)
  }

  lemma {:induction false} ExecuteValid<T>(p: Pool<T>, ops: seq<Op<T>>, order: Order)
    requires Valid(p) && LegalRun(p, ops, order)
    ensures Valid(Execute(p, ops, order))
    decreases |ops|
  {
    if ops != [] {
      ApplyValid(p, ops[0], order);
      ExecuteValid(Apply(p, ops[0], order), ops[1..], order);
    }
  }

  /** A live slot keeps what its owner stored through any run that neither erases it nor stores to it:
      in particular no alloc or push ever hands it out again. */
  lemma {:induction false} LiveKept<T>(p: Pool<T>, ops: seq<Op<T>>, order: Order, i: nat)
    requires Valid(p) && LegalRun(p, ops, order) && i in p.live
    requires forall k :: 0 <= k < |ops| ==> ops[k] != Erase(i) && !(ops[k].Store? && ops[k].index == i)
    ensures var q := Execute(p, ops, order); i in q.live && q.live[i] == p.live[i]
    ensures Some(i) !in Answers(p, ops, order)
    decreases |ops|
  {
    if ops != [] {
      var op := ops[0];
      assert op != Erase(i) && !(op.Store? && op.index == i);
      ApplyValid(p, op, order);
      if op.Alloc? || op.Push? {
        AnswerFresh(p, op, order);
      }
      LiveKept(Apply(p, op, order), ops[1..], order, i);
    }
  }

  /** What an owner stores stays in its slot until it erases the slot or stores to it again. */
  lemma StoredKept<T>(p: Pool<T>, i: nat, v: T, ops: seq<Op<T>>, order: Order)
    requires Valid(p) && i in p.live && LegalRun(Apply(p, Store(i, v), order), ops, order)
    requires forall k :: 0 <= k < |ops| ==> ops[k] != Erase(i) && !(ops[k].Store? && ops[k].index == i)
    ensures var q := Execute(Apply(p, Store(i, v), order), ops, order); i in q.live && q.live[i] == Some(v)
  {
    ApplyValid(p, Store(i, v), order);
    LiveKept(Apply(p, Store(i, v), order), ops, order, i);
  }

  // ---------- LIFO ----------

  function Erases<T>(indices: seq<nat>): (ops: seq<Op<T>>)
    ensures |ops| == |indices|
  {
    if indices == [] then [] else [Erase(indices[0])] + Erases(indices[1..])
  }

  function Allocs<T>(n: nat): (ops: seq<Op<T>>)
    ensures |ops| == n
  {
    if n == 0 then [] else [Alloc] + Allocs(n - 1)
  }

  lemma {:induction false} ErasesStack<T>(p: Pool<T>, indices: seq<nat>, order: Order)
    requires forall k :: 0 <= k < |indices| ==> indices[k] in p.live
    requires forall j, k :: 0 <= j < k < |indices| ==> indices[j] != indices[k]
    ensures LegalRun(p, Erases(indices), order)
    ensures Execute(p, Erases(indices), order).free == p.free + indices
    decreases |indices|
  {
    if indices != [] {
      var next := Apply(p, Erase(indices[0]), order);
      assert forall k :: 1 <= k < |indices| ==> indices[k] in next.live;
      ErasesStack(next, indices[1..], order);
      assert next.free + indices[1..] == p.free + indices;
    }
  }

  lemma AllocsFirst<T>(n: nat)
    requires n > 0
    ensures Allocs<T>(n)[0] == Alloc && Allocs<T>(n)[1..] == Allocs<T>(n - 1)
  {
  }

  /** Allocating from a stack hands out its top slots from the top down. */
  lemma {:induction false} AllocsPop<T>(p: Pool<T>, n: nat, order: Order, k: nat)
    requires n <= |p.free| && k < n
    ensures LegalRun(p, Allocs(n), order)
    ensures |Answers(p, Allocs(n), order)| == n
    ensures Answers(p, Allocs(n), order)[k] == Some(p.free[|p.free| - 1 - k])
    decreases n
  {
    AllocsFirst<T>(n);
    if n > 1 {
      AllocsPop(Apply(p, Alloc, order), n - 1, order, if k > 0 then k - 1 else 0);
    }
  }

  /** n erases and then n allocs return the erased indices in reverse order, in either list. */
  lemma EraseAllocReverses<T>(p: Pool<T>, indices: seq<nat>, order: Order, k: nat)
    requires forall i :: 0 <= i < |indices| ==> indices[i] in p.live
    requires forall i, j :: 0 <= i < j < |indices| ==> indices[i] != indices[j]
    requires k < |indices|
    ensures LegalRun(p, Erases(indices), order)
    ensures var q := Execute(p, Erases(indices), order);
      && LegalRun(q, Allocs(|indices|), order)
      && |Answers(q, Allocs(|indices|), order)| == |indices|
      && Answers(q, Allocs(|indices|), order)[k] == Some(indices[|indices| - 1 - k])
  {
    ErasesStack(p, indices, order);
    AllocsPop(Execute(p, Erases(indices), order), |indices|, order, k);
  }

  /** Growth adds exactly the slots from the old size to the new one, and they are handed out first: upwards if the lowest
      is stacked last, downwards if the highest is. Nothing else changes hands. */
  lemma ResizeHandsOut<T>(p: Pool<T>, count: nat, order: Order, k: nat)
    requires Legal(p, Resize(count)) && k < count - p.size
    ensures var q, n := Apply(p, Resize(count), order), count - p.size;
      && q.size == count && q.live == p.live
      && LegalRun(q, Allocs(n), order) && |Answers(q, Allocs(n), order)| == n
      && Answers(q, Allocs(n), order)[k] == Some(if order == LowestFirst then p.size + k else count - 1 - k)
  {
    var q, n := Apply(p, Resize(count), order), count - p.size;
    AllocsPop(q, n, order, k);
    assert q.free[|q.free| - 1 - k] == NewSlots(order, p.size, count)[n - 1 - k];
  }

  // ---------- The order of new slots shows only when the pool grows ----------

  predicate GrowFree<T>(p: Pool<T>, ops: seq<Op<T>>, order: Order)
    requires LegalRun(p, ops, order)
    decreases |ops|
  {
    ops != [] ==>
      && !ops[0].Resize? && (ops[0].Alloc? || ops[0].Push? ==> p.free != [])
      && GrowFree(Apply(p, ops[0], order), ops[1..], order)
  }

  lemma OrderIrrelevant<T>(p: Pool<T>, op: Op<T>, a: Order, b: Order)
    requires Legal(p, op) && !op.Resize? && (op.Alloc? || op.Push? ==> p.free != [])
    ensures Apply(p, op, a) == Apply(p, op, b) && Answer(p, op, a) == Answer(p, op, b)
  {
  }

  /** From equal pools, both lists answer every run that does not grow identically. */
  lemma {:induction false} SameAnswers<T>(p: Pool<T>, ops: seq<Op<T>>, a: Order, b: Order)
    requires LegalRun(p, ops, a) && GrowFree(p, ops, a)
    ensures LegalRun(p, ops, b)
    ensures Answers(p, ops, a) == Answers(p, ops, b) && Execute(p, ops, a) == Execute(p, ops, b)
    decreases |ops|
  {
    if ops != [] {
      OrderIrrelevant(p, ops[0], a, b);
      SameAnswers(Apply(p, ops[0], a), ops[1..], a, b);
    }
  }

  // ---------- Growth ----------

  /** Live slots, and the most there were at any point of a run. */
  function Peak<T>(p: Pool<T>, ops: seq<Op<T>>, order: Order): (peak: nat)
    requires LegalRun(p, ops, order)
    ensures peak >= |p.live|
    decreases |ops|
  {
    if ops == [] then |p.live| else
      var later := Peak(Apply(p, ops[0], order), ops[1..], order);
      if later > |p.live| then later else |p.live|
  }

  predicate NoResize<T>(ops: seq<Op<T>>) {
    forall k :: 0 <= k < |ops| ==> !ops[k].Resize?
  }

  lemma {:induction false} DistinctCount(s: seq<nat>, S: set<nat>)
    requires forall i, j :: 0 <= i < j < |s| ==> s[i] != s[j]
    requires forall x :: x in S <==> x in s
    ensures |S| == |s|
  {
    if s == [] {
      assert S == {};
    } else {
      var x, rest := s[|s| - 1], s[..|s| - 1];
      forall y ensures y in S - {x} <==> y in rest {
        if y in S - {x} {
          var k :| 0 <= k < |s| && s[k] == y;
          assert rest[k] == y;
        }
      }
      DistinctCount(rest, S - {x});
    }
  }

  lemma RangeCount(n: nat, S: set<nat>)
    requires forall x: nat :: x in S <==> x < n
    ensures |S| == n
  {
    if n == 0 {
      assert S == {};
    } else {
      RangeCount(n - 1, S - {n - 1});
    }
  }

  /** Conservation: free and live slots add up to the size. */
  lemma Conservation<T>(p: Pool<T>)
    requires Valid(p)
    ensures |p.free| + |p.live| == p.size
  {
    var F := set i | i in p.free;
    DistinctCount(p.free, F);
    var L := p.live.Keys;
    assert |p.live| == |L|;
    assert F !! L;
    RangeCount(p.size, F + L);
    assert |F + L| == |F| + |L|;
  }

  /** The capacities that growing from `start` slots goes through, and the peak that forces each. */
  predicate Capacity(start: nat, size: nat, peak: nat, k: nat) {
    size == (start + 1) * Pow2(k) - 1 && (k > 0 ==> peak >= (start + 1) * Pow2(k - 1))
  }

  lemma CapacityDoubles(start: nat, size: nat, peak: nat, k: nat)
    requires Capacity(start, size, peak, k) && peak >= size + 1
    ensures Capacity(start, 2 * size + 1, peak, k + 1)
  {
    var p := Pow2(k);
    assert (start + 1) * (2 * p) == 2 * ((start + 1) * p);
  }

  lemma GrowthStep<T>(p: Pool<T>, op: Op<T>, order: Order, start: nat, k: nat, peak: nat) returns (j: nat)
    requires Valid(p) && Legal(p, op) && !op.Resize?
    requires Capacity(start, p.size, peak, k) && peak >= |Apply(p, op, order).live|
    ensures Capacity(start, Apply(p, op, order).size, peak, j)
  {
    j := k;
    if (op.Alloc? || op.Push?) && p.free == [] {
      Conservation(p);
      var q := Apply(p, op, order);
      AnswerFresh(p, op, order);
      assert |q.live| == p.size + 1;
      CapacityDoubles(start, p.size, peak, k);
      j := k + 1;
    }
  }

  lemma {:induction false} GrowthFrom<T>(p: Pool<T>, ops: seq<Op<T>>, order: Order, start: nat, k: nat, peak: nat)
    returns (j: nat)
    requires Valid(p) && LegalRun(p, ops, order) && NoResize(ops)
    requires Capacity(start, p.size, peak, k) && peak >= Peak(p, ops, order)
    ensures Capacity(start, Execute(p, ops, order).size, peak, j)
    decreases |ops|
  {
    if ops == [] {
      j := k;
    } else {
      assert !ops[0].Resize? && NoResize(ops[1..]);
      ApplyValid(p, ops[0], order);
      j := GrowthStep(p, ops[0], order, start, k, peak);
      j := GrowthFrom(Apply(p, ops[0], order), ops[1..], order, start, j, peak);
    }
  }

  lemma {:induction false} PeakFits<T>(p: Pool<T>, ops: seq<Op<T>>, order: Order)
    requires Valid(p) && LegalRun(p, ops, order)
    ensures Peak(p, ops, order) <= Execute(p, ops, order).size
    ensures Execute(p, ops, order).size >= p.size
    decreases |ops|
  {
    Conservation(p);
    if ops != [] {
      ApplyValid(p, ops[0], order);
      PeakFits(Apply(p, ops[0], order), ops[1..], order);
    }
  }

  lemma CapacityBound(start: nat, size: nat, peak: nat, k: nat)
    requires Capacity(start, size, peak, k)
    ensures size == start || size <= 2 * peak - 1
  {
    if k > 0 {
      var p := Pow2(k - 1);
      assert (start + 1) * (2 * p) == 2 * ((start + 1) * p);
    } else {
      assert Pow2(k) == 1;
    }
  }

  /** Growth bound: from any list, a counted one included, after any run of allocs, pushes, stores and valid erases the
      capacity, plus one, is that of the start, plus one, doubled as often as the peak asks for; so a list that grew at
      all has at most 2 * peak - 1 slots. */
  lemma GrowthBoundFrom<T>(p: Pool<T>, ops: seq<Op<T>>, order: Order)
    requires Valid(p) && LegalRun(p, ops, order) && NoResize(ops)
    ensures var peak, size := Peak(p, ops, order), Execute(p, ops, order).size;
      && peak <= size
      && (exists k :: Capacity(p.size, size, peak, k))
      && (size == p.size || size <= 2 * peak - 1)
  {
    var peak := Peak(p, ops, order);
    assert Pow2(0) == 1;
    var k := GrowthFrom(p, ops, order, p.size, 0, peak);
    CapacityBound(p.size, Execute(p, ops, order).size, peak, k);
    PeakFits(p, ops, order);
  }

  /** From an empty list: 2^k - 1 slots for the least k that fits the peak; so once anything was live at most
      2 * peak - 1. */
  lemma GrowthBound<T>(ops: seq<Op<T>>, order: Order)
    requires LegalRun(Empty<T>(), ops, order) && NoResize(ops)
    ensures var peak, size := Peak(Empty<T>(), ops, order), Execute(Empty<T>(), ops, order).size;
      && peak <= size
      && (exists k :: Capacity(0, size, peak, k))
      && (peak >= 1 ==> size <= 2 * peak - 1)
      && (peak == 0 ==> size == 0)
  {
    GrowthBoundFrom(Empty<T>(), ops, order);
  }
}

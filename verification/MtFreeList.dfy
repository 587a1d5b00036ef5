/** The shared free list: threads interleaving atomic queue operations and plain writes to their own slots. */
module MtFreeList {
  import opened Wrappers

  /** What a thread holds: the slot and value of a push between its pop and its write, and the slots it owns, each with
      the value last stored there by the thread, if any. */
  datatype Thread<T> = Thread(pending: Option<(nat, T)>, owned: map<nat, Option<T>>)

  datatype Shared<T> = Shared(queue: seq<nat>, data: seq<T>, threads: seq<Thread<T>>)

  /** The atomic steps. A push is two of them. */
  datatype Action<T> =
    | PushPop(t: nat, value: T)
    | PushWrite(t: nat)
    | Alloc(t: nat)
    | Store(t: nat, index: nat, value: T)
    | Erase(t: nat, index: nat)

  function Iota(n: nat): (s: seq<nat>)
    ensures |s| == n && forall k :: 0 <= k < n ==> s[k] == k
  {
    if n == 0 then [] else Iota(n - 1) + [n - 1]
  }

  /** The constructor: every index is queued, nobody holds anything. */
  function Initial<T>(data: seq<T>, threads: nat): Shared<T> {
    Shared(Iota(|data|), data, seq(threads, _ => Thread(None, map[])))
  }

  /** A thread runs its own operations one after the other, pops only what is queued, and stores to and erases only
      slots it owns. */
  predicate Enabled<T>(a: Action<T>, s: Shared<T>) {
    && a.t < |s.threads|
    && var th := s.threads[a.t];
    match a
    case PushPop(_, _) => th.pending.None? && s.queue != []
    case PushWrite(_) => th.pending.Some? && th.pending.value.0 < |s.data|
    case Alloc(_) => th.pending.None? && s.queue != []
    case Store(_, i, _) => th.pending.None? && i in th.owned && i < |s.data|
    case Erase(_, i) => th.pending.None? && i in th.owned
  }

  function Act<T>(a: Action<T>, th: Thread<T>, queue: seq<nat>): Thread<T>
    requires (a.PushPop? || a.Alloc?) ==> queue != []
    requires a.PushWrite? ==> th.pending.Some?
  {
    match a
    case PushPop(_, v) => th.(pending := Some((queue[0], v)))
    case PushWrite(_) => Thread(None, th.owned[th.pending.value.0 := Some(th.pending.value.1)])
    case Alloc(_) => th.(owned := th.owned[queue[0] := None])
    case Store(_, i, v) => th.(owned := th.owned[i := Some(v)])
    case Erase(_, i) => th.(owned := th.owned - {i})
  }

  function Next<T>(a: Action<T>, s: Shared<T>): Shared<T>
    requires Enabled(a, s)
  {
    var th := s.threads[a.t];
    Shared(
      match a {
        case PushPop(_, _) => s.queue[1..]
        case Alloc(_) => s.queue[1..]
        case Erase(_, i) => s.queue + [i]
        case _ => s.queue
      },
      match a {
        case PushWrite(_) => s.data[th.pending.value.0 := th.pending.value.1]
        case Store(_, i, v) => s.data[i := v]
        case _ => s.data
      },
      s.threads[a.t := Act(a, th, s.queue)])
  }

  // ---------- First in, first out ----------

  /** The index a step takes from the queue, if any. */
  function Popped1<T>(a: Action<T>, s: Shared<T>): seq<nat>
    requires Enabled(a, s)
  {
    if a.PushPop? || a.Alloc? then [s.queue[0]] else []
  }

  /** The index a step gives back, if any. */
  function Erased1<T>(a: Action<T>): seq<nat> {
    if a.Erase? then [a.index] else []
  }

  /** What is popped is at the front of the queue, and what is erased goes to its end. */
  lemma StepQueues<T>(a: Action<T>, s: Shared<T>)
    requires Enabled(a, s)
    ensures Popped1(a, s) <= s.queue && Next(a, s).queue == s.queue[|Popped1(a, s)|..] + Erased1(a)
  {
    if !a.Erase? {
      assert s.queue[|Popped1(a, s)|..] + [] == s.queue[|Popped1(a, s)|..];
    }
  }

  /** The thread that pops holds the front of the queue from then on. */
  lemma PopperHolds<T>(a: Action<T>, s: Shared<T>)
    requires Enabled(a, s)
    ensures a.Alloc? ==> Next(a, s).threads[a.t].owned == s.threads[a.t].owned[s.queue[0] := None]
    ensures a.PushPop? ==> Next(a, s).threads[a.t].pending == Some((s.queue[0], a.value))
  {
  }

  /** The indices popped in a trace, in order. */
  function Popped<T>(trace: seq<Action<T>>, s: Shared<T>): seq<nat>
    requires Interleaving(trace, s)
    decreases |trace|
  {
    if trace == [] then [] else Popped1(trace[0], s) + Popped(trace[1..], Next(trace[0], s))
  }

  function Erased<T>(trace: seq<Action<T>>): seq<nat> {
    if trace == [] then [] else Erased1(trace[0]) + Erased(trace[1..])
  }

  lemma Requeued(pop: seq<nat>, queue: seq<nat>, back: seq<nat>, pops: seq<nat>, last: seq<nat>, backs: seq<nat>)
    requires pop <= queue && pops + last == queue[|pop|..] + back + backs
    ensures pop + pops + last == queue + (back + backs)
  {
    assert queue == pop + queue[|pop|..];
    assert pop + pops + last == pop + (pops + last);
    assert pop + (queue[|pop|..] + back + backs) == pop + queue[|pop|..] + (back + backs);
  }

  lemma {:induction false} QueueOrder<T>(trace: seq<Action<T>>, s: Shared<T>)
    requires Interleaving(trace, s)
    ensures Popped(trace, s) + After(trace, s).queue == s.queue + Erased(trace)
    decreases |trace|
  {
    if trace == [] {
      assert [] + s.queue == s.queue + [];
    } else {
      var n := Next(trace[0], s);
      StepQueues(trace[0], s);
      QueueOrder(trace[1..], n);
      Requeued(Popped1(trace[0], s), s.queue, Erased1(trace[0]), Popped(trace[1..], n), After(trace, s).queue,
        Erased(trace[1..]));
    }
  }

  /** First in, first out, over every interleaving: the indices popped so far, in order, and then the queue are all the
      indices from the lowest, and then the indices erased so far, in order. */
  lemma FirstInFirstOut<T>(data: seq<T>, threads: nat, trace: seq<Action<T>>)
    requires Interleaving(trace, Initial(data, threads))
    ensures var s := Initial(data, threads);
      Popped(trace, s) + After(trace, s).queue == Iota(|data|) + Erased(trace)
  {
    QueueOrder(trace, Initial(data, threads));
  }

  /** So the k-th index ever handed out is k, or the erased one that is due. */
  lemma HandedOut<T>(data: seq<T>, threads: nat, trace: seq<Action<T>>, k: nat)
    requires Interleaving(trace, Initial(data, threads)) && k < |Popped(trace, Initial(data, threads))|
    ensures var p := Popped(trace, Initial(data, threads));
      && |p| <= |data| + |Erased(trace)|
      && p[k] == if k < |data| then k else Erased(trace)[k - |data|]
  {
    var s := Initial(data, threads);
    FirstInFirstOut(data, threads, trace);
    FrontOf(Popped(trace, s), After(trace, s).queue, Iota(|data|), Erased(trace), k);
  }

  lemma FrontOf(p: seq<nat>, rest: seq<nat>, first: seq<nat>, later: seq<nat>, k: nat)
    requires p + rest == first + later && k < |p|
    ensures |p| <= |first| + |later| && p[k] == if k < |first| then first[k] else later[k - |first|]
  {
    assert p[k] == (p + rest)[k] == (first + later)[k];
    assert |p + rest| == |first + later|;
  }

  // ---------- Conservation ----------

  function HeldBy<T>(th: Thread<T>): multiset<nat> {
    multiset(th.owned.Keys) + (if th.pending.Some? then multiset{th.pending.value.0} else multiset{})
  }

  function Held<T>(threads: seq<Thread<T>>): multiset<nat> {
    if threads == [] then multiset{} else HeldBy(threads[0]) + Held(threads[1..])
  }

  /** Queued and held indices are together exactly the indices of the list, each once. */
  predicate Conserved<T>(s: Shared<T>) {
    multiset(s.queue) + Held(s.threads) == multiset(Iota(|s.data|))
  }

  lemma LastCount(s: seq<nat>, last: nat, i: nat)
    ensures multiset(s + [last])[i] == multiset(s)[i] + if i == last then 1 else 0
  {
    assert multiset(s + [last]) == multiset(s) + multiset{last};
  }

  lemma {:induction false} IotaCount(n: nat, i: nat)
    ensures multiset(Iota(n))[i] == if i < n then 1 else 0
  {
    if n == 0 {
      assert Iota(0) == [];
    } else {
      LastCount(Iota(n - 1), n - 1, i);
      IotaCount(n - 1, i);
    }
  }

  lemma BothGrow(first: multiset<nat>, a: multiset<nat>, b: multiset<nat>, c: multiset<nat>, d: multiset<nat>)
    requires a + b == c + d
    ensures first + a + b == first + c + d
  {
    assert first + a + b == first + (a + b) && first + c + d == first + (c + d);
  }

  lemma {:induction false} HeldUpdate<T>(threads: seq<Thread<T>>, t: nat, th: Thread<T>)
    requires t < |threads|
    ensures Held(threads[t := th]) + HeldBy(threads[t]) == Held(threads) + HeldBy(th)
    decreases |threads|
  {
    if t == 0 {
      HeldFirst(threads, th);
    } else {
      HeldUpdate(threads[1..], t - 1, th);
      HeldBehind(threads, t, th);
    }
  }

  lemma HeldFirst<T>(threads: seq<Thread<T>>, th: Thread<T>)
    requires threads != []
    ensures Held(threads[0 := th]) + HeldBy(threads[0]) == Held(threads) + HeldBy(th)
  {
    assert threads[0 := th][1..] == threads[1..];
    Swapped(HeldBy(th), Held(threads[1..]), HeldBy(threads[0]));
  }

  lemma Swapped(a: multiset<nat>, b: multiset<nat>, c: multiset<nat>)
    ensures a + b + c == c + b + a
  {
  }

  lemma HeldBehind<T>(threads: seq<Thread<T>>, t: nat, th: Thread<T>)
    requires 0 < t < |threads|
    requires Held(threads[1..][t - 1 := th]) + HeldBy(threads[1..][t - 1]) == Held(threads[1..]) + HeldBy(th)
    ensures Held(threads[t := th]) + HeldBy(threads[t]) == Held(threads) + HeldBy(th)
  {
    var after := threads[t := th];
    assert after[1..] == threads[1..][t - 1 := th] && after[0] == threads[0];
    BothGrow(HeldBy(threads[0]), Held(after[1..]), HeldBy(threads[t]), Held(threads[1..]), HeldBy(th));
  }

  /** How often each thread holds index i. */
  function Counts<T>(threads: seq<Thread<T>>, i: nat): (counts: seq<nat>)
    ensures |counts| == |threads|
    ensures forall t :: 0 <= t < |threads| ==> counts[t] == HeldBy(threads[t])[i]
  {
    if threads == [] then [] else [HeldBy(threads[0])[i]] + Counts(threads[1..], i)
  }

  function Sum(counts: seq<nat>): nat {
    if counts == [] then 0 else counts[0] + Sum(counts[1..])
  }

  lemma {:induction false} HeldIsSum<T>(threads: seq<Thread<T>>, i: nat)
    ensures Held(threads)[i] == Sum(Counts(threads, i))
  {
    if threads != [] {
      HeldIsSum(threads[1..], i);
      assert Counts(threads, i)[1..] == Counts(threads[1..], i);
    }
  }

  lemma {:induction false} SumAtLeast(counts: seq<nat>, t: nat)
    requires t < |counts|
    ensures Sum(counts) >= counts[t]
    decreases |counts|
  {
    if t > 0 {
      SumAtLeast(counts[1..], t - 1);
    }
  }

  lemma {:induction false} SumAtLeastTwo(counts: seq<nat>, t: nat, u: nat)
    requires t < u < |counts|
    ensures Sum(counts) >= counts[t] + counts[u]
    decreases |counts|
  {
    if t > 0 {
      SumAtLeastTwo(counts[1..], t - 1, u - 1);
    } else {
      SumAtLeast(counts[1..], u - 1);
    }
  }

  lemma HeldAtLeast<T>(threads: seq<Thread<T>>, t: nat, i: nat)
    requires t < |threads|
    ensures Held(threads)[i] >= HeldBy(threads[t])[i]
  {
    HeldIsSum(threads, i);
    SumAtLeast(Counts(threads, i), t);
  }

  lemma HeldAtLeastTwo<T>(threads: seq<Thread<T>>, t: nat, u: nat, i: nat)
    requires t < u < |threads|
    ensures Held(threads)[i] >= HeldBy(threads[t])[i] + HeldBy(threads[u])[i]
  {
    HeldIsSum(threads, i);
    SumAtLeastTwo(Counts(threads, i), t, u);
  }

  /** No index is held twice, nor held while it is queued. */
  lemma HeldAtMostOnce<T>(s: Shared<T>, t: nat)
    requires Conserved(s) && t < |s.threads|
    ensures forall i: nat :: HeldBy(s.threads[t])[i] + multiset(s.queue)[i] <= 1
    ensures forall i: nat :: i in HeldBy(s.threads[t]) ==> i < |s.data|
  {
    forall i: nat
      ensures HeldBy(s.threads[t])[i] + multiset(s.queue)[i] <= 1
      ensures i in HeldBy(s.threads[t]) ==> i < |s.data|
    {
      HeldAtLeast(s.threads, t, i);
      IotaCount(|s.data|, i);
      assert (multiset(s.queue) + Held(s.threads))[i] == multiset(Iota(|s.data|))[i];
    }
  }

  /** Two threads never hold the same index. */
  lemma HeldApart<T>(s: Shared<T>, t: nat, u: nat, i: nat)
    requires Conserved(s) && t < |s.threads| && u < |s.threads| && t != u
    requires i in HeldBy(s.threads[t])
    ensures i !in HeldBy(s.threads[u])
  {
    HeldAtLeastTwo(s.threads, if t < u then t else u, if t < u then u else t, i);
    IotaCount(|s.data|, i);
    assert (multiset(s.queue) + Held(s.threads))[i] == multiset(Iota(|s.data|))[i];
  }

  lemma PopCount(queue: seq<nat>)
    requires queue != []
    ensures multiset(queue) == multiset{queue[0]} + multiset(queue[1..])
  {
    assert queue == [queue[0]] + queue[1..];
  }

  lemma KeyAdded<V>(m: map<nat, V>, k: nat, v: V)
    requires k !in m
    ensures multiset(m[k := v].Keys) == multiset(m.Keys) + multiset{k}
  {
    assert m[k := v].Keys == m.Keys + {k};
  }

  lemma KeyDropped<V>(m: map<nat, V>, k: nat)
    requires k in m
    ensures multiset((m - {k}).Keys) + multiset{k} == multiset(m.Keys)
  {
    assert (m - {k}).Keys == m.Keys - {k};
  }

  /** An owned index is not pending in its own thread, and is not queued; a pending one is not owned. */
  lemma OwnedOnce<T>(s: Shared<T>, t: nat, i: nat)
    requires Conserved(s) && t < |s.threads|
    ensures i in s.threads[t].owned ==>
      i < |s.data| && i !in s.queue && (s.threads[t].pending.Some? ==> s.threads[t].pending.value.0 != i)
  {
    HeldAtMostOnce(s, t);
    if i in s.threads[t].owned {
      assert multiset(s.threads[t].owned.Keys)[i] == 1;
      assert HeldBy(s.threads[t])[i] + multiset(s.queue)[i] <= 1;
      assert i in s.queue ==> multiset(s.queue)[i] >= 1;
    }
  }

  /** The share of the thread that takes step a trades indices with the queue: their sum stays. */
  predicate Trades<T>(a: Action<T>, s: Shared<T>)
    requires Enabled(a, s)
  {
    var n := Next(a, s);
    multiset(n.queue) + HeldBy(n.threads[a.t]) == multiset(s.queue) + HeldBy(s.threads[a.t])
  }

  lemma PopTrades<T>(a: Action<T>, s: Shared<T>)
    requires Enabled(a, s) && Conserved(s) && a.PushPop?
    ensures Trades(a, s)
  {
    PopCount(s.queue);
  }

  lemma WriteTrades<T>(a: Action<T>, s: Shared<T>)
    requires Enabled(a, s) && Conserved(s) && a.PushWrite?
    ensures Trades(a, s)
  {
    var th := s.threads[a.t];
    OwnedOnce(s, a.t, th.pending.value.0);
    KeyAdded(th.owned, th.pending.value.0, Some(th.pending.value.1));
  }

  lemma AllocTrades<T>(a: Action<T>, s: Shared<T>)
    requires Enabled(a, s) && Conserved(s) && a.Alloc?
    ensures Trades(a, s)
  {
    PopCount(s.queue);
    OwnedOnce(s, a.t, s.queue[0]);
    KeyAdded(s.threads[a.t].owned, s.queue[0], None);
  }

  lemma EraseTrades<T>(a: Action<T>, s: Shared<T>)
    requires Enabled(a, s) && a.Erase?
    ensures Trades(a, s)
  {
    KeyDropped(s.threads[a.t].owned, a.index);
  }

  lemma StoreTrades<T>(a: Action<T>, s: Shared<T>)
    requires Enabled(a, s) && a.Store?
    ensures Trades(a, s)
  {
    var owned := s.threads[a.t].owned;
    assert owned[a.index := Some(a.value)].Keys == owned.Keys;
  }

  lemma StepTrades<T>(a: Action<T>, s: Shared<T>)
    requires Enabled(a, s) && Conserved(s)
    ensures Trades(a, s)
  {
    match a
    case PushPop(_, _) => PopTrades(a, s);
    case PushWrite(_) => WriteTrades(a, s);
    case Alloc(_) => AllocTrades(a, s);
    case Store(_, _, _) => StoreTrades(a, s);
    case Erase(_, _) => EraseTrades(a, s);
  }

  lemma Balance(q: multiset<nat>, q': multiset<nat>, all: multiset<nat>, all': multiset<nat>,
      share: multiset<nat>, share': multiset<nat>)
    requires all' + share == all + share' && q' + share' == q + share
    ensures q' + all' == q + all
  {
    forall i ensures (q' + all')[i] == (q + all)[i] {
      assert (all' + share)[i] == (all + share')[i];
      assert (q' + share')[i] == (q + share)[i];
    }
  }

  lemma StepConserves<T>(a: Action<T>, s: Shared<T>)
    requires Enabled(a, s) && Conserved(s)
    ensures Conserved(Next(a, s))
    ensures Next(a, s).queue == s.queue[|Popped1(a, s)|..] + Erased1(a)
  {
    var n := Next(a, s);
    StepQueues(a, s);
    StepTrades(a, s);
    HeldUpdate(s.threads, a.t, n.threads[a.t]);
    Balance(multiset(s.queue), multiset(n.queue), Held(s.threads), Held(n.threads),
      HeldBy(s.threads[a.t]), HeldBy(n.threads[a.t]));
  }

  // ---------- Values ----------

  /** Thread t finds in slot i what it stored there, if it owns the slot and stored something. */
  ghost predicate Finds<T>(s: Shared<T>, t: nat, i: nat)
    requires t < |s.threads|
  {
    i in s.threads[t].owned && s.threads[t].owned[i].Some? ==>
      i < |s.data| && s.data[i] == s.threads[t].owned[i].value
  }

  /** Every owner finds in its slots what it stored there. */
  ghost predicate ReadsBack<T>(s: Shared<T>) {
    forall t: nat, i: nat :: t < |s.threads| ==> Finds(s, t, i)
  }

  ghost predicate Invariant<T>(s: Shared<T>) {
    Conserved(s) && ReadsBack(s)
  }

  /** A step of one thread leaves the slots of the others alone. */
  lemma OthersKept<T>(a: Action<T>, s: Shared<T>, t: nat, i: nat)
    requires Enabled(a, s) && Conserved(s) && t < |s.threads| && t != a.t && i in s.threads[t].owned
    ensures i < |s.data| && Next(a, s).data[i] == s.data[i]
  {
    OwnedOnce(s, t, i);
    assert i in HeldBy(s.threads[t]);
    HeldApart(s, t, a.t, i);
    assert i !in HeldBy(s.threads[a.t]);
  }

  lemma OwnKept<T>(a: Action<T>, s: Shared<T>, i: nat)
    requires Enabled(a, s) && Invariant(s)
    ensures Finds(Next(a, s), a.t, i)
  {
    assert Finds(s, a.t, i);
    OwnedOnce(s, a.t, i);
  }

  lemma StepReadsBack<T>(a: Action<T>, s: Shared<T>)
    requires Enabled(a, s) && Invariant(s)
    ensures ReadsBack(Next(a, s))
  {
    var n := Next(a, s);
    forall t: nat, i: nat | t < |n.threads| ensures Finds(n, t, i) {
      if t != a.t {
        assert Finds(s, t, i);
        if i in s.threads[t].owned {
          OthersKept(a, s, t, i);
        }
      } else {
        OwnKept(a, s, i);
      }
    }
  }

  lemma StepSafe<T>(a: Action<T>, s: Shared<T>)
    requires Enabled(a, s) && Invariant(s)
    ensures Invariant(Next(a, s))
  {
    StepConserves(a, s);
    StepReadsBack(a, s);
  }

  // ---------- Every interleaving ----------

  predicate Interleaving<T>(trace: seq<Action<T>>, s: Shared<T>)
    decreases |trace|
  {
    trace != [] ==> Enabled(trace[0], s) && Interleaving(trace[1..], Next(trace[0], s))
  }

  function After<T>(trace: seq<Action<T>>, s: Shared<T>): Shared<T>
    requires Interleaving(trace, s)
    decreases |trace|
  {
    if trace == [] then s else After(trace[1..], Next(trace[0], s))
  }

  lemma {:induction false} InitialInvariant<T>(data: seq<T>, threads: nat)
    ensures Invariant(Initial(data, threads))
  {
    NothingHeld(Initial(data, threads).threads);
  }

  lemma {:induction false} NothingHeld<T>(threads: seq<Thread<T>>)
    requires forall t :: 0 <= t < |threads| ==> threads[t] == Thread(None, map[])
    ensures Held(threads) == multiset{}
  {
    if threads != [] {
      assert threads[0].owned.Keys == {};
      NothingHeld(threads[1..]);
    }
  }

  /** Safety over every interleaving: indices are conserved and owners read back what they stored. */
  lemma {:induction false} InterleavingSafe<T>(trace: seq<Action<T>>, s: Shared<T>)
    requires Invariant(s) && Interleaving(trace, s)
    ensures Invariant(After(trace, s)) && |After(trace, s).data| == |s.data|
    decreases |trace|
  {
    if trace != [] {
      StepSafe(trace[0], s);
      InterleavingSafe(trace[1..], Next(trace[0], s));
    }
  }

  /** Exclusive ownership after any interleaving: an index is queued once and held by nobody, or held once, by one
      thread, and not queued. */
  lemma Exclusive<T>(data: seq<T>, threads: nat, trace: seq<Action<T>>, i: nat)
    requires Interleaving(trace, Initial(data, threads)) && i < |data|
    ensures var s := After(trace, Initial(data, threads));
      && (multiset(s.queue)[i] == 1 <==> forall t :: 0 <= t < |s.threads| ==> i !in HeldBy(s.threads[t]))
      && (multiset(s.queue)[i] == 0 <==> exists t :: 0 <= t < |s.threads| && i in HeldBy(s.threads[t]))
      && (forall t, u :: 0 <= t < u < |s.threads| && i in HeldBy(s.threads[t]) ==> i !in HeldBy(s.threads[u]))
      && (forall t :: 0 <= t < |s.threads| ==> HeldBy(s.threads[t])[i] <= 1)
  {
    InitialInvariant(data, threads);
    InterleavingSafe(trace, Initial(data, threads));
    var s := After(trace, Initial(data, threads));
    IotaCount(|s.data|, i);
    assert (multiset(s.queue) + Held(s.threads))[i] == 1;
    forall t | 0 <= t < |s.threads|
      ensures HeldBy(s.threads[t])[i] <= 1 && (i in HeldBy(s.threads[t]) ==> multiset(s.queue)[i] == 0)
    {
      HeldAtMostOnce(s, t);
    }
    forall t, u | 0 <= t < u < |s.threads| && i in HeldBy(s.threads[t]) ensures i !in HeldBy(s.threads[u]) {
      HeldApart(s, t, u, i);
    }
    if multiset(s.queue)[i] == 0 {
      var t := Holder(s.threads, i);
    }
  }

  lemma {:induction false} Holder<T>(threads: seq<Thread<T>>, i: nat) returns (t: nat)
    requires Held(threads)[i] > 0
    ensures t < |threads| && i in HeldBy(threads[t])
    decreases |threads|
  {
    if i in HeldBy(threads[0]) {
      t := 0;
    } else {
      t := Holder(threads[1..], i);
      t := t + 1;
    }
  }

  /** Queued and held indices add up to the capacity, after any interleaving. */
  lemma Total<T>(data: seq<T>, threads: nat, trace: seq<Action<T>>)
    requires Interleaving(trace, Initial(data, threads))
    ensures var s := After(trace, Initial(data, threads)); |s.queue| + |Held(s.threads)| == |data|
  {
    InitialInvariant(data, threads);
    InterleavingSafe(trace, Initial(data, threads));
    var s := After(trace, Initial(data, threads));
    assert |multiset(s.queue) + Held(s.threads)| == |multiset(Iota(|data|))|;
  }

  /** An alloc or push finds the queue empty exactly when the demand has reached the capacity. */
  lemma QueueEmptyExactly<T>(data: seq<T>, threads: nat, trace: seq<Action<T>>)
    requires Interleaving(trace, Initial(data, threads))
    ensures var s := After(trace, Initial(data, threads)); s.queue == [] <==> |Held(s.threads)| == |data|
  {
    Total(data, threads, trace);
  }

  /** What the shared list's `empty` answers: that something is still queued. */
  predicate ReportsEmpty<T>(s: Shared<T>) {
    s.queue != []
  }

  /** That is the same as nothing being held, as in the other two lists, exactly when the capacity is not zero and either
      nothing or everything is held. */
  lemma ReportsEmptyExactly<T>(data: seq<T>, threads: nat, trace: seq<Action<T>>)
    requires Interleaving(trace, Initial(data, threads))
    ensures var s := After(trace, Initial(data, threads));
      (ReportsEmpty(s) <==> Held(s.threads) == multiset{})
      <==> |data| > 0 && (Held(s.threads) == multiset{} || |Held(s.threads)| == |data|)
  {
    Total(data, threads, trace);
  }

  /** With one of two slots held it answers that the list is empty. */
  lemma ReportsEmptyFails()
    ensures var s, trace := Initial([false, false], 1), [Action<bool>.Alloc(0)];
      && Interleaving(trace, s)
      && ReportsEmpty(After(trace, s)) && Held(After(trace, s).threads) != multiset{}
  {
    var s, trace := Initial([false, false], 1), [Action<bool>.Alloc(0)];
    var t := Next(trace[0], s);
    assert s.queue == [0, 1] && trace[1..] == [];
    assert After(trace, s) == t;
    assert 0 in t.threads[0].owned;
    HeldAtLeast(t.threads, 0, 0);
  }

  lemma StepKeepsOwned<T>(a: Action<T>, s: Shared<T>, t: nat, i: nat)
    requires Invariant(s) && Enabled(a, s) && t < |s.threads| && i in s.threads[t].owned
    requires a.t == t ==> a != Erase(t, i) && !(a.Store? && a.index == i)
    ensures i in Next(a, s).threads[t].owned && Next(a, s).threads[t].owned[i] == s.threads[t].owned[i]
  {
    OwnedOnce(s, t, i);
  }

  /** What a thread stored it reads back after any further interleaving in which it neither erases the slot nor
      stores to it again; the other threads may do anything. */
  lemma {:induction false} ReadsBackUntilErase<T>(trace: seq<Action<T>>, s: Shared<T>, t: nat, i: nat, v: T)
    requires Invariant(s) && Interleaving(trace, s) && t < |s.threads|
    requires i in s.threads[t].owned && s.threads[t].owned[i] == Some(v)
    requires forall k :: 0 <= k < |trace| && trace[k].t == t ==>
      trace[k] != Erase(t, i) && !(trace[k].Store? && trace[k].index == i)
    ensures var n := After(trace, s); t < |n.threads| && i in n.threads[t].owned && i < |n.data| && n.data[i] == v
    decreases |trace|
  {
    assert Finds(s, t, i);
    if trace != [] {
      StepSafe(trace[0], s);
      StepKeepsOwned(trace[0], s, t, i);
      ReadsBackUntilErase(trace[1..], Next(trace[0], s), t, i, v);
    }
  }

  /** While other threads run, a push waits between its two steps with the slot it popped. */
  lemma {:induction false} PendingKept<T>(trace: seq<Action<T>>, s: Shared<T>, t: nat)
    requires Invariant(s) && Interleaving(trace, s) && t < |s.threads|
    requires forall k :: 0 <= k < |trace| ==> trace[k].t != t
    ensures var n := After(trace, s); Invariant(n) && |n.threads| == |s.threads| && n.threads[t] == s.threads[t]
    decreases |trace|
  {
    if trace != [] {
      StepSafe(trace[0], s);
      assert trace[0].t != t;
      PendingKept(trace[1..], Next(trace[0], s), t);
    }
  }

  /** A whole push: thread t pops slot i for v; the others do anything; t writes; then anything happens except that t
      erases i or stores to it. The slot still holds v, and t still owns it. */
  lemma PushReadsBack<T>(s: Shared<T>, t: nat, v: T, between: seq<Action<T>>, later: seq<Action<T>>)
    requires Invariant(s) && Enabled(PushPop(t, v), s)
    requires Interleaving(between, Next(PushPop(t, v), s))
    requires forall k :: 0 <= k < |between| ==> between[k].t != t
    requires var w := After(between, Next(PushPop(t, v), s));
      Enabled(PushWrite(t), w) && Interleaving(later, Next(PushWrite(t), w))
    requires forall k :: 0 <= k < |later| && later[k].t == t ==>
      later[k] != Erase(t, s.queue[0]) && !(later[k].Store? && later[k].index == s.queue[0])
    ensures var i, n := s.queue[0], After(later, Next(PushWrite(t), After(between, Next(PushPop(t, v), s))));
      t < |n.threads| && i in n.threads[t].owned && i < |n.data| && n.data[i] == v
  {
    var popped := Next(PushPop(t, v), s);
    StepSafe(PushPop(t, v), s);
    PendingKept(between, popped, t);
    var w := After(between, popped);
    StepSafe(PushWrite(t), w);
    ReadsBackUntilErase(later, Next(PushWrite(t), w), t, s.queue[0], v);
  }

  /** A whole store: what an owner stores it reads back after anything that happens, unless it erases the slot or stores to
      it again. */
  lemma StoreReadsBack<T>(s: Shared<T>, t: nat, i: nat, v: T, later: seq<Action<T>>)
    requires Invariant(s) && Enabled(Store(t, i, v), s) && Interleaving(later, Next(Store(t, i, v), s))
    requires forall k :: 0 <= k < |later| && later[k].t == t ==>
      later[k] != Erase(t, i) && !(later[k].Store? && later[k].index == i)
    ensures var n := After(later, Next(Store(t, i, v), s));
      t < |n.threads| && i in n.threads[t].owned && i < |n.data| && n.data[i] == v
  {
    StepSafe(Store(t, i, v), s);
    ReadsBackUntilErase(later, Next(Store(t, i, v), s), t, i, v);
  }
}

/** What the pool protocol guarantees in every run: no wake-up is lost, buffers go to waiters in arrival order, tearing
    the pool down is safe, and every buffer is in exactly one place. */
module PoolOwnership {
  import opened Bytes
  import opened PoolSpec
  import opened PoolProtocol

  // ---------------------------------------------------------------------------------------------------------------
  // Where the buffers are

  /** How often buffer `b` occurs in a list. */
  function Count(s: seq<Addr>, b: Addr): nat {
    if s == [] then 0 else Count(s[..|s| - 1], b) + if s[|s| - 1] == b then 1 else 0
  }

  lemma {:induction false} CountAppend(s: seq<Addr>, t: seq<Addr>, b: Addr)
    ensures Count(s + t, b) == Count(s, b) + Count(t, b)
    decreases |t|
  {
    if t == [] {
      assert s + t == s;
    } else {
      CountAppend(s, t[..|t| - 1], b);
      assert (s + t)[..|s + t| - 1] == s + t[..|t| - 1];
    }
  }

  lemma {:induction false} CountSingle(x: Addr, b: Addr)
    ensures Count([x], b) == if x == b then 1 else 0
  {
    assert [x][..0] == [];
  }

  lemma {:induction false} CountSnoc(s: seq<Addr>, x: Addr, b: Addr)
    ensures Count(s + [x], b) == Count(s, b) + if x == b then 1 else 0
  {
    assert (s + [x])[..|s|] == s;
  }

  lemma {:induction false} CountFirst(s: seq<Addr>, b: Addr)
    requires s != []
    ensures Count(s, b) == Count(s[1..], b) + if s[0] == b then 1 else 0
  {
    CountAppend([s[0]], s[1..], b);
    CountSingle(s[0], b);
    assert s == [s[0]] + s[1..];
  }

  lemma {:induction false} CountCut(s: seq<Addr>, i: nat, b: Addr)
    requires i < |s|
    ensures Count(s, b) == Count(Cut(s, i), b) + if s[i] == b then 1 else 0
  {
    CountAppend(s[..i], s[i + 1..], b);
    CountAppend(s[..i], s[i..], b);
    CountFirst(s[i..], b);
    assert s == s[..i] + s[i..] && s[i..][1..] == s[i + 1..];
  }

  lemma {:induction false} CountNone(s: seq<Addr>, b: Addr)
    ensures Count(s, b) == 0 <==> b !in s
    decreases |s|
  {
    if s != [] {
      CountNone(s[..|s| - 1], b);
      assert s == s[..|s| - 1] + [s[|s| - 1]];
    }
  }

  lemma {:induction false} CountOne(s: seq<Addr>, b: Addr)
    requires Distinct(s) && b in s
    ensures Count(s, b) == 1
    decreases |s|
  {
    var n := |s| - 1;
    assert s == s[..n] + [s[n]];
    if s[n] == b {
      CountNone(s[..n], b);
    } else {
      CountOne(s[..n], b);
    }
  }

  function One(x: Option<Addr>, b: Addr): nat {
    if x == Some(b) then 1 else 0
  }

  /** Current and parked buffers of the writers. */
  function Kept(writers: seq<Holding>, b: Addr): nat {
    if writers == [] then 0
    else
      var h := writers[|writers| - 1];
      Kept(writers[..|writers| - 1], b) + Count(h.parked, b) + One(h.current, b)
  }

  function Outer(p: Places, b: Addr): nat {
    Count(p.hands, b) + Kept(p.writers, b) + Count(p.ready, b) + Count(p.service, b) + Count(p.drained, b)
    + Count(p.batch, b)
  }

  /** The buffer handed to a waiter that has not left yet. */
  function Of(pcs: seq<Pc>, nodes: map<Tid, Node>, t: Tid): Option<Addr>
    requires t < |pcs|
  {
    if pcs[t].In? && t in nodes then nodes[t].buf else None
  }

  function Handed(pcs: seq<Pc>, nodes: map<Tid, Node>, n: nat, b: Addr): nat
    requires n <= |pcs|
  {
    if n == 0 then 0 else Handed(pcs, nodes, n - 1, b) + One(Of(pcs, nodes, n - 1), b)
  }

  function WithRecycler(m: Mutex, b: Addr): nat {
    if m.Recycling? then Count(m.rest, b) else 0
  }

  /** Free, handed to a waiter, with the recycler, or outside the pool. */
  function Everywhere(s: State, b: Addr): nat {
    Count(s.pool.free, b) + Handed(s.pcs, s.pool.nodes, |s.pcs|, b) + WithRecycler(s.mutex, b) + Outer(s.places, b)
  }

  ghost predicate Owned(s: State) {
    Distinct(s.pool.all) && forall b :: Everywhere(s, b) == Count(s.pool.all, b)
  }

  lemma {:induction false} HandedSame(a: seq<Pc>, m: map<Tid, Node>, a': seq<Pc>, m': map<Tid, Node>, n: nat, b: Addr)
    requires n <= |a| && n <= |a'| && forall t :: 0 <= t < n ==> Of(a, m, t) == Of(a', m', t)
    ensures Handed(a, m, n, b) == Handed(a', m', n, b)
  {
    hide Of;
    if n > 0 {
      HandedSame(a, m, a', m', n - 1, b);
    }
  }

  lemma {:induction false} HandedChange(a: seq<Pc>, m: map<Tid, Node>, a': seq<Pc>, m': map<Tid, Node>, t: Tid, n: nat,
                                        b: Addr)
    requires t < n <= |a| && n <= |a'|
    requires forall x :: 0 <= x < n && x != t ==> Of(a, m, x) == Of(a', m', x)
    ensures Handed(a', m', n, b) + One(Of(a, m, t), b) == Handed(a, m, n, b) + One(Of(a', m', t), b)
  {
    hide Of;
    if t == n - 1 {
      HandedSame(a, m, a', m', n - 1, b);
    } else {
      HandedChange(a, m, a', m', t, n - 1, b);
    }
  }

  lemma {:induction false} KeptUpdate(writers: seq<Holding>, w: nat, h: Holding, b: Addr)
    requires w < |writers|
    ensures Kept(writers[w := h], b) + Count(writers[w].parked, b) + One(writers[w].current, b)
            == Kept(writers, b) + Count(h.parked, b) + One(h.current, b)
    decreases |writers|
  {
    hide Count, One;
    var n := |writers| - 1;
    if w < n {
      KeptUpdate(writers[..n], w, h, b);
      assert writers[w := h][..n] == writers[..n][w := h];
    } else {
      assert writers[w := h][..n] == writers[..n];
    }
  }

  lemma {:induction false} CountContents(h: Holding, b: Addr)
    ensures Count(Contents(h), b) == Count(h.parked, b) + One(h.current, b)
  {
    if h.current.Some? {
      CountSnoc(h.parked, h.current.value, b);
    } else {
      assert Contents(h) == h.parked;
    }
  }

  lemma {:induction false} CountLast(s: seq<Addr>, b: Addr)
    requires s != []
    ensures Count(s, b) == Count(s[..|s| - 1], b) + if s[|s| - 1] == b then 1 else 0
  {
  }

  /** Moving buffers outside the pool loses and copies none. */
  lemma {:induction false} MoveKeeps(p: Places, m: Move, b: Addr)
    requires CanMove(p, m)
    ensures Outer(Moved(p, m), b) == Outer(p, b)
  {
    hide Count, Kept, Contents, Cut;
    var p' := Moved(p, m);
    match m {
      case TakeCurrent(w, i) =>
        CountCut(p.hands, i, b);
        KeptUpdate(p.writers, w, p'.writers[w], b);
      case ParkCurrent(w) =>
        KeptUpdate(p.writers, w, p'.writers[w], b);
        CountContents(p.writers[w], b);
      case Reopen(w) =>
        KeptUpdate(p.writers, w, p'.writers[w], b);
        CountLast(p.writers[w].parked, b);
      case DropParked(w) =>
        var k := p.writers[w].parked;
        KeptUpdate(p.writers, w, p'.writers[w], b);
        CountLast(k, b);
        CountSnoc(p.hands, k[|k| - 1], b);
      case DropCurrent(w) =>
        KeptUpdate(p.writers, w, p'.writers[w], b);
        CountSnoc(p.hands, p.writers[w].current.value, b);
      case Pull(w) =>
        KeptUpdate(p.writers, w, p'.writers[w], b);
        CountContents(p.writers[w], b);
        CountAppend(p.batch, Contents(p.writers[w]), b);
        CountNone([], b);
      case Push(w) =>
        KeptUpdate(p.writers, w, p'.writers[w], b);
        CountContents(p.writers[w], b);
        CountAppend(p.ready, Contents(p.writers[w]), b);
        CountNone([], b);
      case DrainReady =>
        CountAppend(p.batch, p.ready, b);
        CountNone([], b);
      case ToService(i) =>
        CountCut(p.hands, i, b);
        CountSnoc(p.service, p.hands[i], b);
      case DrainService =>
        CountAppend(p.drained, p.service, b);
        CountNone([], b);
    }
  }

  lemma {:induction false} GivenKeeps(p: Places, src: Source, b: Addr)
    requires CanGive(p, src)
    ensures var (p', bs) := Given(p, src); Outer(p', b) + Count(bs, b) == Outer(p, b)
  {
    hide Count, Kept, Cut;
    match src
    case FromHand(i) =>
      CountCut(p.hands, i, b);
      CountSingle(p.hands[i], b);
    case FromDrained =>
      CountFirst(p.drained, b);
      CountSingle(p.drained[0], b);
    case FromBatch => CountNone([], b);
  }

  lemma {:induction false} ToHandsKeeps(p: Places, x: Option<Addr>, b: Addr)
    ensures Outer(ToHands(p, x), b) == Outer(p, b) + One(x, b)
  {
    hide Count, Kept;
    if x.Some? {
      CountSnoc(p.hands, x.value, b);
    }
  }

  /** A buffer taken from the free list or from the allocator is in one hand. */
  lemma {:induction false} AcquireKeeps(p: Pool<Tid>, alloc: Alloc, b: Addr)
    ensures var (p', x) := Acquire(p, alloc);
            Count(p'.free, b) + One(x, b) + Count(p.all, b) == Count(p.free, b) + Count(p'.all, b)
  {
    hide Count;
    if p.free != [] {
      CountFirst(p.free, b);
    } else if alloc.Got? {
      CountSnoc(p.all, alloc.addr, b);
    }
  }

  lemma {:induction false} AcquireDistinct(p: Pool<Tid>, alloc: Alloc)
    requires Distinct(p.all) && Honest(p, alloc)
    ensures Distinct(Acquire(p, alloc).0.all)
  {
  }

  lemma {:induction false} EnterKeepsAll(s: State, t: Tid, alloc: Alloc, b: Addr)
    requires WaitersOk(s) && Enabled(s, Enter(t, alloc)) && Everywhere(s, b) == Count(s.pool.all, b)
    ensures var s' := Apply(s, Enter(t, alloc)); Everywhere(s', b) == Count(s'.pool.all, b)
  {
    hide PoolOk, ThreadsOk, Outer, Count, Handed;
    var s' := Apply(s, Enter(t, alloc));
    var (p, x) := Acquire(s.pool, alloc);
    AcquireKeeps(s.pool, alloc, b);
    ToHandsKeeps(s.places, x, b);
    if x.None? && !p.stopping {
      HandedSame(s.pcs, s.pool.nodes, s'.pcs, s'.pool.nodes, |s.pcs|, b);
    }
  }

  lemma {:induction false} DepartKeepsAll(s: State, t: Tid, b: Addr)
    requires Enabled(s, Depart(t))
    ensures Everywhere(Apply(s, Depart(t)), b) == Everywhere(s, b)
  {
    hide Outer, Count, Handed, ToHands;
    var s' := Apply(s, Depart(t));
    ToHandsKeeps(s.places, s.pool.nodes[t].buf, b);
    HandedChange(s.pcs, s.pool.nodes, s'.pcs, s'.pool.nodes, t, |s.pcs|, b);
  }

  /** A recycled buffer goes to the head of the queue, who had none, or to the free list. */
  lemma {:induction false} RecycleKeepsAll(s: State, b: Addr)
    requires WaitersOk(s) && Enabled(s, RecycleNext)
    ensures Everywhere(Apply(s, RecycleNext), b) == Everywhere(s, b)
  {
    hide Outer, Count, Handed, Distinct;
    var s', q, x := Apply(s, RecycleNext), s.pool.queue, s.mutex.rest[0];
    CountFirst(s.mutex.rest, b);
    if q == [] {
      CountSnoc(s.pool.free, x, b);
    } else {
      var w := q[0];
      assert w in q;
      assert ThreadOk(s.pool, s.mutex, s.pcs, w);
      HandedChange(s.pcs, s.pool.nodes, s'.pcs, s'.pool.nodes, w, |s.pcs|, b);
    }
  }

  lemma {:induction false} StopKeepsAll(s: State, close: bool, b: Addr)
    requires WaitersOk(s) && Enabled(s, StopAll(close))
    ensures Everywhere(Apply(s, StopAll(close)), b) == Everywhere(s, b)
  {
    hide Outer, Count, Handed, Distinct, ThreadsOk;
    var s' := Apply(s, StopAll(close));
    HandedSame(s.pcs, s.pool.nodes, s'.pcs, s'.pool.nodes, |s.pcs|, b);
  }

  lemma {:induction false} WakeKeepsAll(s: State, step: Step, b: Addr)
    requires Enabled(s, step) && (step.Spurious? || step.Check? || step.Notify? || step.NotifyShard?)
    ensures Everywhere(Apply(s, step), b) == Everywhere(s, b)
  {
    hide Outer, Count, Handed;
    var s' := Apply(s, step);
    HandedSame(s.pcs, s.pool.nodes, s'.pcs, s'.pool.nodes, |s.pcs|, b);
  }

  lemma {:induction false} TryAcquireKeepsAll(s: State, alloc: Alloc, b: Addr)
    requires Enabled(s, TryAcquire(alloc)) && Everywhere(s, b) == Count(s.pool.all, b)
    ensures var s' := Apply(s, TryAcquire(alloc)); Everywhere(s', b) == Count(s'.pool.all, b)
  {
    hide Outer, Count, Handed;
    AcquireKeeps(s.pool, alloc, b);
    ToHandsKeeps(s.places, Acquire(s.pool, alloc).1, b);
  }

  lemma {:induction false} StepKeepsAll(s: State, step: Step, b: Addr)
    requires WaitersOk(s) && Enabled(s, step) && Everywhere(s, b) == Count(s.pool.all, b)
    ensures var s' := Apply(s, step); Everywhere(s', b) == Count(s'.pool.all, b)
  {
    hide WaitersOk, Outer, Count, Handed, Acquire, EnterStep, Moved, Given;
    match step {
      case TryAcquire(alloc) => TryAcquireKeepsAll(s, alloc, b);
      case Enter(t, alloc) => EnterKeepsAll(s, t, alloc, b);
      case Depart(t) => DepartKeepsAll(s, t, b);
      case StartRecycle(src) => GivenKeeps(s.places, src, b);
      case RecycleNext =>
        RecycleKeepsAll(s, b);
      case StopAll(close) =>
        StopKeepsAll(s, close, b);
      case Outside(m) => MoveKeeps(s.places, m, b);
      case EndRecycle => CountNone([], b);
      case EndStop =>
      case Destroy =>
      case _ => WakeKeepsAll(s, step, b);
    }
  }

  lemma {:induction false} StepKeepsDistinct(s: State, step: Step)
    requires Enabled(s, step) && Distinct(s.pool.all)
    ensures Distinct(Apply(s, step).pool.all)
  {
    hide Distinct;
    match step
    case TryAcquire(alloc) => AcquireDistinct(s.pool, alloc);
    case Enter(t, alloc) => AcquireDistinct(s.pool, alloc);
    case _ =>
  }

  lemma {:induction false} StepKeepsOwned(s: State, step: Step)
    requires WaitersOk(s) && Owned(s) && Enabled(s, step)
    ensures Owned(Apply(s, step))
  {
    hide WaitersOk, Everywhere, Count, Apply, Distinct;
    StepKeepsDistinct(s, step);
    forall b ensures Everywhere(Apply(s, step), b) == Count(Apply(s, step).pool.all, b) {
      StepKeepsAll(s, step, b);
    }
  }

  // ---------------------------------------------------------------------------------------------------------------
  // Every run

  lemma {:induction false} InvHolds(states: seq<State>, steps: seq<Step>, i: nat)
    requires Run(states, steps) && i < |states|
    ensures WaitersOk(states[i]) && Owned(states[i])
  {
    if i == 0 {
      var threads: nat, writers: nat :| states[0] == Init(threads, writers);
      InitOk(threads, writers);
    } else {
      hide Apply, Enabled, WaitersOk, Owned;
      InvHolds(states, steps, i - 1);
      StepKeepsWaiters(states[i - 1], steps[i - 1]);
      StepKeepsOwned(states[i - 1], steps[i - 1]);
    }
  }

  lemma {:induction false} InitOk(threads: nat, writers: nat)
    ensures WaitersOk(Init(threads, writers)) && Owned(Init(threads, writers))
  {
    var s := Init(threads, writers);
    NoneInside(s.pcs);
    forall b ensures Everywhere(s, b) == 0 {
      NoneHanded(s.pcs, s.pool.nodes, |s.pcs|, b);
      NoneKept(s.places.writers, b);
    }
  }

  lemma {:induction false} NoneInside(pcs: seq<Pc>)
    requires forall t :: 0 <= t < |pcs| ==> pcs[t].Out?
    ensures Inside(pcs) == 0
    decreases |pcs|
  {
    if pcs != [] {
      NoneInside(pcs[..|pcs| - 1]);
    }
  }

  lemma {:induction false} NoneHanded(pcs: seq<Pc>, nodes: map<Tid, Node>, n: nat, b: Addr)
    requires n <= |pcs| && forall t :: 0 <= t < |pcs| ==> pcs[t].Out?
    ensures Handed(pcs, nodes, n, b) == 0
  {
    if n > 0 {
      NoneHanded(pcs, nodes, n - 1, b);
    }
  }

  lemma {:induction false} NoneKept(writers: seq<Holding>, b: Addr)
    requires forall w :: 0 <= w < |writers| ==> writers[w] == Holding(None, [])
    ensures Kept(writers, b) == 0
    decreases |writers|
  {
    if writers != [] {
      NoneKept(writers[..|writers| - 1], b);
    }
  }

  /** Every allocated buffer is in exactly one place: the counts over all places add up to one. */
  lemma {:induction false} OnePlace(states: seq<State>, steps: seq<Step>, i: nat, b: Addr)
    requires Run(states, steps) && i < |states| && b in states[i].pool.all
    ensures var s := states[i];
            Count(s.pool.free, b) + Handed(s.pcs, s.pool.nodes, |s.pcs|, b) + WithRecycler(s.mutex, b)
            + Count(s.places.hands, b) + Kept(s.places.writers, b) + Count(s.places.ready, b)
            + Count(s.places.service, b) + Count(s.places.drained, b) + Count(s.places.batch, b) == 1
  {
    hide Count, Handed, Kept, WaitersOk;
    InvHolds(states, steps, i);
    CountOne(states[i].pool.all, b);
    assert Everywhere(states[i], b) == 1;
  }

  /** A waiter marked done is not left asleep: while the mutex is free it is awake or gone, and otherwise the holder of
      the mutex still has its shard to notify. */
  lemma {:induction false} NoLostWakeup(states: seq<State>, steps: seq<Step>, i: nat, t: Tid)
    requires Run(states, steps) && i < |states|
    requires t < |states[i].pcs| && states[i].pcs[t].In? && t in states[i].pool.nodes && states[i].pool.nodes[t].done
    ensures var s := states[i];
            && (s.pcs[t].stage.Blocked? ==> WillNotify(s.mutex, s.pool.nodes[t].shard))
            && (s.mutex.Free? && !s.destroyed ==> Enabled(s, Check(t)) || Enabled(s, Depart(t)))
  {
    var s := states[i];
    InvHolds(states, steps, i);
    assert ThreadOk(s.pool, s.mutex, s.pcs, t);
    if Inside(s.pcs) == 0 {
      NobodyInside(s.pcs);
      assert false;
    }
  }

  /** The k-th hand-off went to the k-th arrival, and while a thread waits nothing is free, so a later caller can only
      get memory the pool never had before. */
  lemma {:induction false} FifoHandOff(states: seq<State>, steps: seq<Step>, i: nat, alloc: Alloc)
    requires Run(states, steps) && i < |states|
    ensures var s := states[i];
            && s.served <= s.arrivals
            && (!s.pool.stopping ==> s.arrivals == s.served + s.pool.queue)
            && (s.pool.queue != [] && Honest(s.pool, alloc) && Acquire(s.pool, alloc).1.Some? ==>
                  Acquire(s.pool, alloc).1.value !in s.pool.all)
  {
    InvHolds(states, steps, i);
  }

  /** Once the pool stops, the queue stays empty for good; once the destructor is past its barrier, no waiter is left
      inside. */
  lemma {:induction false} SafeTeardown(states: seq<State>, steps: seq<Step>, i: nat, j: nat)
    requires Run(states, steps) && i <= j < |states|
    ensures states[i].pool.stopping ==> states[j].pool.stopping && states[j].pool.queue == []
    ensures states[j].inflight == Inside(states[j].pcs)
    ensures states[j].destroyed ==> forall t :: 0 <= t < |states[j].pcs| ==> states[j].pcs[t].Out?
  {
    InvHolds(states, steps, j);
    if states[j].destroyed {
      NobodyInside(states[j].pcs);
    }
    StoppingLatched(states, steps, i, j);
  }

  lemma {:induction false} StoppingLatched(states: seq<State>, steps: seq<Step>, i: nat, j: nat)
    requires Run(states, steps) && i <= j < |states|
    ensures states[i].pool.stopping ==> states[j].pool.stopping
    decreases j
  {
    hide Enabled, Apply, Init;
    if i < j {
      StoppingLatched(states, steps, i, j - 1);
      if states[j - 1].pool.stopping {
        StoppingStays(states[j - 1], steps[j - 1]);
      }
    }
  }

  lemma {:induction false} StoppingStays(s: State, step: Step)
    requires Enabled(s, step) && s.pool.stopping
    ensures Apply(s, step).pool.stopping
  {
  }
}

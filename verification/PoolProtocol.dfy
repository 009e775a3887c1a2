/** The threads around the buffer pool, interleaved: who holds the pool mutex, who waits on which condition variable,
    and where every buffer is. Steps are the stretches between two points where another thread may come in; waking is a
    step of its own, so a wake-up could be lost if the protocol allowed it. */
module PoolProtocol {
  import opened Bytes
  import opened PoolSpec

  type Tid = nat

  /** A thread inside acquire_wait that has joined the queue: blocked on its condition variable, awake and about to take
      the mutex, or past the unlock but still counted in flight. */
  datatype Stage = Blocked | Awake | Unlocked

  datatype Pc = Out | In(stage: Stage)

  /** The pool mutex: free, with a recycler (the shard it has yet to notify, if any), or with stop_waiters, which
      notifies the shards one after the other. */
  datatype Mutex = Free | Recycling(rest: seq<Addr>, notify: Option<nat>) | Stopping(next: nat)

  /** Where buffers are outside the pool. */
  datatype Holding = Holding(current: Option<Addr>, parked: seq<Addr>)

  datatype Places = Places(hands: seq<Addr>, writers: seq<Holding>, ready: seq<Addr>, service: seq<Addr>,
                           drained: seq<Addr>, batch: seq<Addr>)

  datatype State = State(pool: Pool<Tid>, mutex: Mutex, pcs: seq<Pc>, inflight: nat, closing: bool, destroyed: bool,
                         places: Places, arrivals: seq<Tid>, served: seq<Tid>)

  function Init(threads: nat, writers: nat): State {
    State(Pool([], [], [], map[], false, 0), Free, seq(threads, _ => Out), 0, false, false,
          Places([], seq(writers, _ => Holding(None, [])), [], [], [], []), [], [])
  }

  /** Buffers changing hands outside the pool. */
  datatype Move =
    | TakeCurrent(w: nat, i: nat)     // an acquired buffer becomes a writer's current one
    | ParkCurrent(w: nat)
    | Reopen(w: nat)                  // a discarded record: the last parked buffer is current again
    | DropParked(w: nat)              // ... and those taken only for it are on their way back
    | DropCurrent(w: nat)
    | Pull(w: nat)
    | Push(w: nat)
    | DrainReady
    | ToService(i: nat)
    | DrainService

  /** What is given back to the pool: a buffer in hand, a drained service buffer, or the whole flushed batch. */
  datatype Source = FromHand(i: nat) | FromDrained | FromBatch

  datatype Step =
    | TryAcquire(alloc: Alloc)
    | Enter(t: Tid, alloc: Alloc)
    | Spurious(t: Tid)
    | Check(t: Tid)
    | Depart(t: Tid)
    | StartRecycle(src: Source)
    | RecycleNext
    | Notify
    | EndRecycle
    | StopAll(close: bool)
    | NotifyShard
    | EndStop
    | Destroy
    | Outside(move: Move)

  // ---------------------------------------------------------------------------------------------------------------
  // Outside the pool

  predicate CanMove(p: Places, m: Move) {
    match m
    case TakeCurrent(w, i) => w < |p.writers| && i < |p.hands| && p.writers[w].current.None?
    case ParkCurrent(w) => w < |p.writers| && p.writers[w].current.Some?
    case Reopen(w) => w < |p.writers| && p.writers[w].current.None? && p.writers[w].parked != []
    case DropParked(w) => w < |p.writers| && p.writers[w].parked != []
    case DropCurrent(w) => w < |p.writers| && p.writers[w].current.Some?
    case Pull(w) => w < |p.writers|
    case Push(w) => w < |p.writers|
    case DrainReady => true
    case ToService(i) => i < |p.hands|
    case DrainService => true
  }

  function Cut(s: seq<Addr>, i: nat): seq<Addr>
    requires i < |s|
  {
    s[..i] + s[i + 1..]
  }

  function Contents(h: Holding): seq<Addr> {
    h.parked + if h.current.Some? then [h.current.value] else []
  }

  function Moved(p: Places, m: Move): Places
    requires CanMove(p, m)
  {
    match m
    case TakeCurrent(w, i) =>
      p.(hands := Cut(p.hands, i), writers := p.writers[w := p.writers[w].(current := Some(p.hands[i]))])
    case ParkCurrent(w) => p.(writers := p.writers[w := Holding(None, Contents(p.writers[w]))])
    case Reopen(w) =>
      var k := p.writers[w].parked;
      p.(writers := p.writers[w := Holding(Some(k[|k| - 1]), k[..|k| - 1])])
    case DropParked(w) =>
      var k := p.writers[w].parked;
      p.(hands := p.hands + [k[|k| - 1]], writers := p.writers[w := p.writers[w].(parked := k[..|k| - 1])])
    case DropCurrent(w) =>
      p.(hands := p.hands + [p.writers[w].current.value], writers := p.writers[w := p.writers[w].(current := None)])
    case Pull(w) => p.(batch := p.batch + Contents(p.writers[w]), writers := p.writers[w := Holding(None, [])])
    case Push(w) => p.(ready := p.ready + Contents(p.writers[w]), writers := p.writers[w := Holding(None, [])])
    case DrainReady => p.(batch := p.batch + p.ready, ready := [])
    case ToService(i) => p.(hands := Cut(p.hands, i), service := p.service + [p.hands[i]])
    case DrainService => p.(drained := p.drained + p.service, service := [])
  }

  predicate CanGive(p: Places, src: Source) {
    match src
    case FromHand(i) => i < |p.hands|
    case FromDrained => p.drained != []
    case FromBatch => p.batch != []
  }

  function Given(p: Places, src: Source): (Places, seq<Addr>)
    requires CanGive(p, src)
  {
    match src
    case FromHand(i) => (p.(hands := Cut(p.hands, i)), [p.hands[i]])
    case FromDrained => (p.(drained := p.drained[1..]), [p.drained[0]])
    case FromBatch => (p.(batch := []), p.batch)
  }

  // ---------------------------------------------------------------------------------------------------------------
  // The pool

  predicate At(s: State, t: Tid, pc: Pc) {
    t < |s.pcs| && s.pcs[t] == pc && (pc.In? ==> t in s.pool.nodes)
  }

  predicate Enabled(s: State, step: Step) {
    !s.destroyed &&
    match step
    case TryAcquire(alloc) => s.mutex.Free? && Honest(s.pool, alloc)
    case Enter(t, alloc) => s.mutex.Free? && At(s, t, Out) && Honest(s.pool, alloc)
    case Spurious(t) => At(s, t, In(Blocked))
    case Check(t) => At(s, t, In(Awake)) && s.mutex.Free?
    case Depart(t) => At(s, t, In(Unlocked)) && s.inflight > 0
    case StartRecycle(src) => s.mutex.Free? && CanGive(s.places, src)
    case RecycleNext =>
      && s.mutex.Recycling? && s.mutex.rest != [] && s.mutex.notify.None?
      && (s.pool.queue != [] ==> s.pool.queue[0] in s.pool.nodes)
    case Notify => s.mutex.Recycling? && s.mutex.notify.Some?
    case EndRecycle => s.mutex.Recycling? && s.mutex.rest == [] && s.mutex.notify.None?
    case StopAll(_) => s.mutex.Free? && forall i :: 0 <= i < |s.pool.queue| ==> s.pool.queue[i] in s.pool.nodes
    case NotifyShard => s.mutex.Stopping? && s.mutex.next < SHARDS
    case EndStop => s.mutex.Stopping? && s.mutex.next == SHARDS
    // the barrier: nobody is in flight, and the destructor gets the mutex
    case Destroy => s.closing && s.mutex.Free? && s.inflight == 0
    case Outside(m) => CanMove(s.places, m)
  }

  /** notify_all on one shard. */
  function Wake(pcs: seq<Pc>, nodes: map<Tid, Node>, shard: nat): (r: seq<Pc>)
    ensures |r| == |pcs|
    ensures forall t :: 0 <= t < |pcs| ==>
              r[t] == if pcs[t] == In(Blocked) && t in nodes && nodes[t].shard == shard then In(Awake) else pcs[t]
  {
    seq(|pcs|, t requires 0 <= t < |pcs| =>
      if pcs[t] == In(Blocked) && t in nodes && nodes[t].shard == shard then In(Awake) else pcs[t])
  }

  function ToHands(p: Places, b: Option<Addr>): Places {
    if b.Some? then p.(hands := p.hands + [b.value]) else p
  }

  function EnterStep(s: State, t: Tid, alloc: Alloc): State
    requires t < |s.pcs|
  {
    var (p, b) := Acquire(s.pool, alloc);
    if b.None? && !p.stopping then
      s.(pool := Park(p, t), pcs := s.pcs[t := In(Blocked)], inflight := s.inflight + 1, arrivals := s.arrivals + [t])
    else s.(pool := p, places := ToHands(s.places, b))
  }

  function RecycleStep(s: State): State
    requires s.mutex.Recycling? && s.mutex.rest != [] && (s.pool.queue != [] ==> s.pool.queue[0] in s.pool.nodes)
  {
    var q := s.pool.queue;
    s.(pool := Recycle(s.pool, s.mutex.rest[0]),
       mutex := Recycling(s.mutex.rest[1..], if q == [] then None else Some(s.pool.nodes[q[0]].shard)),
       served := if q == [] then s.served else s.served + [q[0]])
  }

  ghost function Apply(s: State, step: Step): State
    requires Enabled(s, step)
  {
    match step
    case TryAcquire(alloc) =>
      var (p, b) := Acquire(s.pool, alloc);
      s.(pool := p, places := ToHands(s.places, b))
    case Enter(t, alloc) => EnterStep(s, t, alloc)
    case Spurious(t) => s.(pcs := s.pcs[t := In(Awake)])
    case Check(t) => s.(pcs := s.pcs[t := if s.pool.nodes[t].done then In(Unlocked) else In(Blocked)])
    case Depart(t) =>
      s.(pcs := s.pcs[t := Out], inflight := s.inflight - 1, places := ToHands(s.places, s.pool.nodes[t].buf))
    case StartRecycle(src) =>
      var (p, bs) := Given(s.places, src);
      s.(places := p, mutex := Recycling(bs, None))
    case RecycleNext => RecycleStep(s)
    case Notify =>
      s.(pcs := Wake(s.pcs, s.pool.nodes, s.mutex.notify.value), mutex := s.mutex.(notify := None))
    case EndRecycle => s.(mutex := Free)
    case StopAll(close) =>
      s.(pool := Stop(s.pool), mutex := if s.pool.queue != [] then Stopping(0) else Free, closing := s.closing || close)
    case NotifyShard => s.(pcs := Wake(s.pcs, s.pool.nodes, s.mutex.next), mutex := Stopping(s.mutex.next + 1))
    case EndStop => s.(mutex := Free)
    case Destroy => s.(destroyed := true)
    case Outside(m) => s.(places := Moved(s.places, m))
  }

  ghost predicate Run(states: seq<State>, steps: seq<Step>) {
    && |states| == |steps| + 1
    && (exists threads: nat, writers: nat :: states[0] == Init(threads, writers))
    && forall i :: 0 <= i < |steps| ==> Enabled(states[i], steps[i]) && states[i + 1] == Apply(states[i], steps[i])
  }

  // ---------------------------------------------------------------------------------------------------------------
  // Waiters

  function Inside(pcs: seq<Pc>): nat {
    if pcs == [] then 0 else Inside(pcs[..|pcs| - 1]) + if pcs[|pcs| - 1].In? then 1 else 0
  }

  lemma {:induction false} InsideUpdate(pcs: seq<Pc>, t: nat, pc: Pc)
    requires t < |pcs|
    ensures Inside(pcs[t := pc]) == Inside(pcs) - (if pcs[t].In? then 1 else 0) + if pc.In? then 1 else 0
    decreases |pcs|
  {
    var n := |pcs| - 1;
    if t < n {
      InsideUpdate(pcs[..n], t, pc);
      assert pcs[t := pc][..n] == pcs[..n][t := pc];
    } else {
      assert pcs[t := pc][..n] == pcs[..n];
    }
  }

  lemma {:induction false} InsideSame(a: seq<Pc>, b: seq<Pc>)
    requires |a| == |b| && forall t :: 0 <= t < |a| ==> (a[t].In? <==> b[t].In?)
    ensures Inside(a) == Inside(b)
    decreases |a|
  {
    if a != [] {
      InsideSame(a[..|a| - 1], b[..|b| - 1]);
    }
  }

  lemma {:induction false} NobodyInside(pcs: seq<Pc>)
    requires Inside(pcs) == 0
    ensures forall t :: 0 <= t < |pcs| ==> pcs[t].Out?
    decreases |pcs|
  {
    if pcs != [] {
      NobodyInside(pcs[..|pcs| - 1]);
      forall t | 0 <= t < |pcs| ensures pcs[t].Out? {
        if t < |pcs| - 1 {
          assert pcs[t] == pcs[..|pcs| - 1][t];
        }
      }
    }
  }

  /** Someone holding the mutex is still to notify this shard. */
  predicate WillNotify(m: Mutex, shard: nat) {
    match m
    case Free => false
    case Recycling(_, notify) => notify == Some(shard)
    case Stopping(next) => next <= shard
  }

  ghost predicate ThreadOk(pool: Pool<Tid>, mutex: Mutex, pcs: seq<Pc>, t: Tid)
    requires t < |pcs|
  {
    && (t in pool.queue ==> pcs[t].In?)
    && (pcs[t].In? ==>
          && t in pool.nodes
          && (t in pool.queue <==> !pool.nodes[t].done)
          && (pcs[t].stage.Unlocked? ==> pool.nodes[t].done)
          && (pcs[t].stage.Blocked? && pool.nodes[t].done ==> WillNotify(mutex, pool.nodes[t].shard)))
  }

  ghost predicate ThreadsOk(pool: Pool<Tid>, mutex: Mutex, pcs: seq<Pc>) {
    && (forall t :: t in pool.queue ==> t < |pcs|)
    && (forall t :: 0 <= t < |pcs| ==> ThreadOk(pool, mutex, pcs, t))
  }

  ghost predicate WaitersOk(s: State) {
    && PoolOk(s.pool) && ThreadsOk(s.pool, s.mutex, s.pcs)
    && s.inflight == Inside(s.pcs)
    && (s.mutex.Stopping? ==> s.pool.stopping)
    && (s.closing ==> s.pool.stopping) && (s.destroyed ==> s.closing && s.inflight == 0)
    && (if s.pool.stopping then s.served <= s.arrivals else s.served + s.pool.queue == s.arrivals)
  }

  lemma {:induction false} EnterKeeps(s: State, t: Tid, alloc: Alloc)
    requires WaitersOk(s) && Enabled(s, Enter(t, alloc))
    ensures WaitersOk(Apply(s, Enter(t, alloc)))
  {
    hide PoolOk, Distinct;
    var s' := Apply(s, Enter(t, alloc));
    var (p, b) := Acquire(s.pool, alloc);
    AcquireOk(s.pool, alloc);
    SameQueue(s.pool, p, s.mutex, s.pcs);
    if b.None? && !p.stopping {
      InsideUpdate(s.pcs, t, In(Blocked));
      assert t !in s.pool.queue by { assert ThreadOk(s.pool, s.mutex, s.pcs, t); }
      ParkOk(p, t);
      ParkThreads(p, s.mutex, s.pcs, t);
      assert s'.served + s'.pool.queue == (s.served + s.pool.queue) + [t];
    }
  }

  lemma {:induction false} AcquireOk(p: Pool<Tid>, alloc: Alloc)
    requires PoolOk(p)
    ensures var (p', b) := Acquire(p, alloc);
            && PoolOk(p') && p'.queue == p.queue && p'.nodes == p.nodes && p'.stopping == p.stopping
            && (b.None? ==> p'.free == [])
  {
  }

  lemma {:induction false} SameQueue(p: Pool<Tid>, p': Pool<Tid>, mutex: Mutex, pcs: seq<Pc>)
    requires ThreadsOk(p, mutex, pcs) && p'.queue == p.queue && p'.nodes == p.nodes
    ensures ThreadsOk(p', mutex, pcs)
  {
    forall x | 0 <= x < |pcs| ensures ThreadOk(p', mutex, pcs, x) {
      assert ThreadOk(p, mutex, pcs, x);
    }
  }

  lemma {:induction false} ParkThreads(p: Pool<Tid>, mutex: Mutex, pcs: seq<Pc>, t: Tid)
    requires ThreadsOk(p, mutex, pcs) && t < |pcs| && t !in p.queue
    ensures ThreadsOk(Park(p, t), mutex, pcs[t := In(Blocked)])
  {
    var p', pcs' := Park(p, t), pcs[t := In(Blocked)];
    forall x | 0 <= x < |pcs'| ensures ThreadOk(p', mutex, pcs', x) {
      assert ThreadOk(p, mutex, pcs, x);
    }
  }

  lemma {:induction false} CheckKeeps(s: State, t: Tid)
    requires WaitersOk(s) && Enabled(s, Check(t))
    ensures WaitersOk(Apply(s, Check(t)))
  {
    hide PoolOk;
    var s' := Apply(s, Check(t));
    InsideUpdate(s.pcs, t, s'.pcs[t]);
    forall x | 0 <= x < |s'.pcs| ensures ThreadOk(s'.pool, s'.mutex, s'.pcs, x) {
      assert ThreadOk(s.pool, s.mutex, s.pcs, x);
    }
  }

  lemma {:induction false} SpuriousKeeps(s: State, t: Tid)
    requires WaitersOk(s) && Enabled(s, Spurious(t))
    ensures WaitersOk(Apply(s, Spurious(t)))
  {
    hide PoolOk;
    var s' := Apply(s, Spurious(t));
    InsideUpdate(s.pcs, t, In(Awake));
    forall x | 0 <= x < |s'.pcs| ensures ThreadOk(s'.pool, s'.mutex, s'.pcs, x) {
      assert ThreadOk(s.pool, s.mutex, s.pcs, x);
    }
  }

  lemma {:induction false} DepartKeeps(s: State, t: Tid)
    requires WaitersOk(s) && Enabled(s, Depart(t))
    ensures WaitersOk(Apply(s, Depart(t)))
  {
    hide PoolOk;
    var s' := Apply(s, Depart(t));
    InsideUpdate(s.pcs, t, Out);
    assert ThreadOk(s.pool, s.mutex, s.pcs, t);
    forall x | 0 <= x < |s'.pcs| ensures ThreadOk(s'.pool, s'.mutex, s'.pcs, x) {
      assert ThreadOk(s.pool, s.mutex, s.pcs, x);
    }
  }

  /** A hand-off marks one waiter done and owes its shard a notification. */
  lemma {:induction false} RecycleNextKeeps(s: State)
    requires WaitersOk(s) && Enabled(s, RecycleNext)
    ensures WaitersOk(Apply(s, RecycleNext))
  {
    var s', q := Apply(s, RecycleNext), s.pool.queue;
    RecycleOk(s.pool, s.mutex.rest[0]);
    if q == [] {
      Owing(s.pool, s'.pool, s.mutex, s'.mutex, s.pcs);
    } else {
      HeadUnique(s.pool);
      HandoffThreads(s.pool, s.mutex, s'.mutex, s.pcs, s.mutex.rest[0]);
      assert s'.served + s'.pool.queue == s.served + q;
    }
  }

  /** A mutex that owed nobody a notification may change. */
  lemma {:induction false} Owing(p: Pool<Tid>, p': Pool<Tid>, m: Mutex, m': Mutex, pcs: seq<Pc>)
    requires ThreadsOk(p, m, pcs) && p'.queue == p.queue && p'.nodes == p.nodes
    requires forall x: nat :: x < SHARDS && WillNotify(m, x) ==> WillNotify(m', x)
    requires forall t :: t in p.nodes ==> p.nodes[t].shard < SHARDS
    ensures ThreadsOk(p', m', pcs)
  {
    forall x | 0 <= x < |pcs| ensures ThreadOk(p', m', pcs, x) {
      assert ThreadOk(p, m, pcs, x);
    }
  }

  lemma {:induction false} HandoffThreads(p: Pool<Tid>, m: Mutex, m': Mutex, pcs: seq<Pc>, b: Addr)
    requires ThreadsOk(p, m, pcs) && p.queue != [] && p.queue[0] in p.nodes && p.queue[0] !in p.queue[1..]
    requires (forall x: nat :: !WillNotify(m, x)) && WillNotify(m', p.nodes[p.queue[0]].shard)
    ensures ThreadsOk(Handoff(p, b), m', pcs)
  {
    var q := p.queue;
    assert q == [q[0]] + q[1..];
    assert forall t :: t in q[1..] ==> t in q;
    forall x | 0 <= x < |pcs| ensures ThreadOk(Handoff(p, b), m', pcs, x) {
      assert ThreadOk(p, m, pcs, x);
    }
  }

  lemma {:induction false} HeadUnique(p: Pool<Tid>)
    requires PoolOk(p) && p.queue != []
    ensures p.queue[0] !in p.queue[1..] && !p.stopping
  {
  }

  lemma {:induction false} WakeKeeps(s: State, shard: nat, m: Mutex)
    requires WaitersOk(s) && (m.Stopping? ==> s.pool.stopping)
    requires forall x: nat :: WillNotify(s.mutex, x) && x != shard ==> WillNotify(m, x)
    ensures WaitersOk(s.(pcs := Wake(s.pcs, s.pool.nodes, shard), mutex := m))
  {
    hide PoolOk;
    var s' := s.(pcs := Wake(s.pcs, s.pool.nodes, shard), mutex := m);
    InsideSame(s.pcs, s'.pcs);
    forall x | 0 <= x < |s'.pcs| ensures ThreadOk(s'.pool, s'.mutex, s'.pcs, x) {
      assert ThreadOk(s.pool, s.mutex, s.pcs, x);
    }
  }

  lemma {:induction false} StopKeeps(s: State, close: bool)
    requires WaitersOk(s) && Enabled(s, StopAll(close))
    ensures WaitersOk(Apply(s, StopAll(close)))
  {
    var s' := Apply(s, StopAll(close));
    StopOk(s.pool);
    hide PoolOk;
    forall x | 0 <= x < |s'.pcs| ensures ThreadOk(s'.pool, s'.mutex, s'.pcs, x) {
      assert ThreadOk(s.pool, s.mutex, s.pcs, x);
    }
  }

  /** The mutex goes back only after every notification owed. */
  lemma {:induction false} UnlockKeeps(s: State, step: Step)
    requires WaitersOk(s) && Enabled(s, step) && (step.EndRecycle? || step.EndStop?)
    ensures WaitersOk(Apply(s, step))
  {
    Owing(s.pool, s.pool, s.mutex, Free, s.pcs);
  }

  lemma {:induction false} StartRecycleKeeps(s: State, src: Source)
    requires WaitersOk(s) && Enabled(s, StartRecycle(src))
    ensures WaitersOk(Apply(s, StartRecycle(src)))
  {
    hide Given;
    Owing(s.pool, s.pool, s.mutex, Apply(s, StartRecycle(src)).mutex, s.pcs);
  }

  lemma {:induction false} TryAcquireKeeps(s: State, alloc: Alloc)
    requires WaitersOk(s) && Enabled(s, TryAcquire(alloc))
    ensures WaitersOk(Apply(s, TryAcquire(alloc)))
  {
    hide PoolOk;
    AcquireOk(s.pool, alloc);
    SameQueue(s.pool, Acquire(s.pool, alloc).0, s.mutex, s.pcs);
  }

  lemma {:induction false} StepKeepsWaiters(s: State, step: Step)
    requires WaitersOk(s) && Enabled(s, step)
    ensures WaitersOk(Apply(s, step))
  {
    hide PoolOk, ThreadsOk, Moved, Given, Recycle, Stop, Acquire, Park;
    match step {
      case TryAcquire(alloc) => TryAcquireKeeps(s, alloc);
      case Enter(t, alloc) => EnterKeeps(s, t, alloc);
      case Spurious(t) => SpuriousKeeps(s, t);
      case Check(t) => CheckKeeps(s, t);
      case Depart(t) => DepartKeeps(s, t);
      case StartRecycle(src) => StartRecycleKeeps(s, src);
      case RecycleNext => RecycleNextKeeps(s);
      case Notify => WakeKeeps(s, s.mutex.notify.value, s.mutex.(notify := None));
      case EndRecycle => UnlockKeeps(s, step);
      case StopAll(close) => StopKeeps(s, close);
      case NotifyShard => WakeKeeps(s, s.mutex.next, Stopping(s.mutex.next + 1));
      case EndStop => UnlockKeeps(s, step);
      case Destroy =>
      case Outside(_) =>
    }
  }
}

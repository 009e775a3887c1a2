/** The memory budget (engine/p8_memory_budget.cpp) shared by any number of pools, under every interleaving of their
    threads: compare-and-swap attempts that may fail for no reason, allocations that fail, pools that are destroyed.
    Arithmetic wraps at 64 bits, as the code's would; what is proved is that it never does. */
module Budget {
  import opened Bytes

  function Add(a: u64, b: u64): u64 {
    (a + b) % WORD
  }

  function Sub(a: u64, b: u64): u64 {
    (a - b) % WORD
  }

  function Mul(a: u64, b: nat): u64 {
    (b * a) % WORD
  }

  /** A pool with `count` buffers of `size` bytes. The destructor frees the buffers, then gives their bytes back. */
  datatype Pool = Pool(size: u64, count: nat, closing: u64)

  /** A thread in try_reserve has read the counter; one past it has a reservation, and either gets its memory or is
      about to give the reservation back. */
  datatype Pc = Idle | Trying(pool: nat, seen: u64) | Reserved(pool: nat) | Failing(pool: nat)

  datatype State = State(max: u64, used: u64, pools: seq<Pool>, pcs: seq<Pc>)

  datatype Step =
    | Create(size: u64)
    | Load(t: nat, pool: nat)
    | Attempt(t: nat, spurious: bool)
    | Allocate(t: nat, ok: bool)
    | GiveUp(t: nat)
    | Clear(pool: nat)
    | Release(pool: nat)

  predicate Enabled(s: State, step: Step) {
    match step
    case Create(_) => true
    case Load(t, pool) => t < |s.pcs| && s.pcs[t].Idle? && pool < |s.pools|
    case Attempt(t, _) => t < |s.pcs| && s.pcs[t].Trying? && s.pcs[t].pool < |s.pools|
    case Allocate(t, _) => t < |s.pcs| && s.pcs[t].Reserved? && s.pcs[t].pool < |s.pools|
    case GiveUp(t) => t < |s.pcs| && s.pcs[t].Failing? && s.pcs[t].pool < |s.pools|
    case Clear(pool) => pool < |s.pools| && s.pools[pool].closing == 0
    case Release(pool) => pool < |s.pools| && s.pools[pool].closing > 0
  }

  /** One round of the loop: the test against the cap, then the compare-and-swap, which reloads on failure. */
  function AttemptStep(s: State, t: nat, spurious: bool): State
    requires Enabled(s, Attempt(t, spurious))
  {
    var pc := s.pcs[t];
    var size := s.pools[pc.pool].size;
    if pc.seen > s.max || Sub(s.max, pc.seen) < size then s.(pcs := s.pcs[t := Idle])
    else if s.used == pc.seen && !spurious then
      s.(used := Add(pc.seen, size), pcs := s.pcs[t := Reserved(pc.pool)])
    else s.(pcs := s.pcs[t := pc.(seen := s.used)])
  }

  function Apply(s: State, step: Step): State
    requires Enabled(s, step)
  {
    match step
    case Create(size) => s.(pools := s.pools + [Pool(size, 0, 0)])
    case Load(t, pool) => s.(pcs := s.pcs[t := Trying(pool, s.used)])
    case Attempt(t, spurious) => AttemptStep(s, t, spurious)
    case Allocate(t, ok) =>
      var i := s.pcs[t].pool;
      if ok then s.(pools := s.pools[i := s.pools[i].(count := s.pools[i].count + 1)], pcs := s.pcs[t := Idle])
      else s.(pcs := s.pcs[t := Failing(i)])
    case GiveUp(t) => s.(used := Sub(s.used, s.pools[s.pcs[t].pool].size), pcs := s.pcs[t := Idle])
    case Clear(i) =>
      s.(pools := s.pools[i := s.pools[i].(closing := Mul(s.pools[i].size, s.pools[i].count), count := 0)])
    case Release(i) => s.(used := Sub(s.used, s.pools[i].closing), pools := s.pools[i := s.pools[i].(closing := 0)])
  }

  /** Bytes of a pool's buffers, or of those just freed whose bytes are still accounted. */
  function Held(p: Pool): nat {
    p.count * p.size + p.closing
  }

  function InPools(pools: seq<Pool>): nat {
    if pools == [] then 0 else InPools(pools[..|pools| - 1]) + Held(pools[|pools| - 1])
  }

  function Pending(pools: seq<Pool>, pc: Pc): nat {
    if (pc.Reserved? || pc.Failing?) && pc.pool < |pools| then pools[pc.pool].size else 0
  }

  function InProgress(pools: seq<Pool>, pcs: seq<Pc>): nat {
    if pcs == [] then 0 else InProgress(pools, pcs[..|pcs| - 1]) + Pending(pools, pcs[|pcs| - 1])
  }

  /** The counter is the bytes of all pools' buffers plus the reservations in progress, and never above the cap. */
  predicate Inv(s: State) {
    && s.used == InPools(s.pools) + InProgress(s.pools, s.pcs) && s.used <= s.max
    && (forall t :: 0 <= t < |s.pcs| && !s.pcs[t].Idle? ==> s.pcs[t].pool < |s.pools|)
    && (forall t :: 0 <= t < |s.pcs| && s.pcs[t].Trying? ==> s.pcs[t].seen <= s.max)
  }

  ghost predicate Run(max: u64, threads: nat, states: seq<State>, steps: seq<Step>) {
    && |states| == |steps| + 1 && states[0] == State(max, 0, [], seq(threads, _ => Idle))
    && forall i :: 0 <= i < |steps| ==> Enabled(states[i], steps[i]) && states[i + 1] == Apply(states[i], steps[i])
  }

  lemma {:induction false} PoolsUpdate(pools: seq<Pool>, i: nat, p: Pool)
    requires i < |pools|
    ensures InPools(pools[i := p]) == InPools(pools) - Held(pools[i]) + Held(p)
    ensures Held(pools[i]) <= InPools(pools)
    decreases |pools|
  {
    hide Held;
    var n := |pools| - 1;
    if i < n {
      PoolsUpdate(pools[..n], i, p);
      assert pools[i := p][..n] == pools[..n][i := p];
    } else {
      assert pools[i := p][..n] == pools[..n];
    }
  }

  lemma {:induction false} ProgressUpdate(pools: seq<Pool>, pcs: seq<Pc>, t: nat, pc: Pc)
    requires t < |pcs|
    ensures InProgress(pools, pcs[t := pc]) == InProgress(pools, pcs) - Pending(pools, pcs[t]) + Pending(pools, pc)
    ensures Pending(pools, pcs[t]) <= InProgress(pools, pcs)
    decreases |pcs|
  {
    hide Pending;
    var n := |pcs| - 1;
    if t < n {
      ProgressUpdate(pools, pcs[..n], t, pc);
      assert pcs[t := pc][..n] == pcs[..n][t := pc];
    } else {
      assert pcs[t := pc][..n] == pcs[..n];
    }
  }

  lemma {:induction false} ProgressSameSizes(pools: seq<Pool>, pools': seq<Pool>, pcs: seq<Pc>)
    requires |pools| <= |pools'| && forall i :: 0 <= i < |pools| ==> pools'[i].size == pools[i].size
    requires forall t :: 0 <= t < |pcs| && !pcs[t].Idle? ==> pcs[t].pool < |pools|
    ensures InProgress(pools', pcs) == InProgress(pools, pcs)
    decreases |pcs|
  {
    if pcs != [] {
      ProgressSameSizes(pools, pools', pcs[..|pcs| - 1]);
    }
  }

  lemma {:induction false} AttemptKeeps(s: State, t: nat, spurious: bool)
    requires Inv(s) && Enabled(s, Attempt(t, spurious))
    ensures Inv(Apply(s, Attempt(t, spurious)))
  {
    hide InPools, InProgress, Add;
    ProgressUpdate(s.pools, s.pcs, t, AttemptStep(s, t, spurious).pcs[t]);
    if s.pcs[t].seen <= s.max && Sub(s.max, s.pcs[t].seen) >= s.pools[s.pcs[t].pool].size {
      Fits(s.max, s.pcs[t].seen, s.pools[s.pcs[t].pool].size);
    }
  }

  lemma {:induction false} OneMore(p: Pool)
    ensures Held(p.(count := p.count + 1)) == Held(p) + p.size
  {
  }

  lemma {:induction false} AllocateKeeps(s: State, t: nat, ok: bool)
    requires Inv(s) && Enabled(s, Allocate(t, ok))
    ensures Inv(Apply(s, Allocate(t, ok)))
  {
    hide InPools, InProgress, Held;
    var s', i := Apply(s, Allocate(t, ok)), s.pcs[t].pool;
    ProgressUpdate(s.pools, s.pcs, t, s'.pcs[t]);
    if ok {
      PoolsUpdate(s.pools, i, s'.pools[i]);
      OneMore(s.pools[i]);
      ProgressSameSizes(s.pools, s'.pools, s'.pcs);
    }
  }

  /** The product the destructor computes does not wrap: the bytes are part of the counter. */
  lemma {:induction false} ClearKeeps(s: State, i: nat)
    requires Inv(s) && Enabled(s, Clear(i))
    ensures Inv(Apply(s, Clear(i))) && Mul(s.pools[i].size, s.pools[i].count) == s.pools[i].count * s.pools[i].size
  {
    hide InPools, InProgress;
    var s' := Apply(s, Clear(i));
    PoolsUpdate(s.pools, i, s'.pools[i]);
    ProgressSameSizes(s.pools, s'.pools, s.pcs);
    assert s.pools[i].count * s.pools[i].size < WORD;
  }

  lemma {:induction false} ReleaseKeeps(s: State, i: nat)
    requires Inv(s) && Enabled(s, Release(i))
    ensures Inv(Apply(s, Release(i)))
  {
    hide InPools, InProgress, Sub;
    var s' := Apply(s, Release(i));
    PoolsUpdate(s.pools, i, s'.pools[i]);
    ProgressSameSizes(s.pools, s'.pools, s.pcs);
    ClosingCounted(s.pools[i]);
    Exact(s.used, s.pools[i].closing);
  }

  lemma {:induction false} CreateKeeps(s: State, size: u64)
    requires Inv(s)
    ensures Inv(Apply(s, Create(size)))
  {
    hide Held, InProgress;
    var s' := Apply(s, Create(size));
    assert s'.pools[..|s.pools|] == s.pools;
    NewPool(size);
    ProgressSameSizes(s.pools, s'.pools, s.pcs);
  }

  lemma {:induction false} LoadKeeps(s: State, t: nat, pool: nat)
    requires Inv(s) && Enabled(s, Load(t, pool))
    ensures Inv(Apply(s, Load(t, pool)))
  {
    hide InPools, InProgress;
    ProgressUpdate(s.pools, s.pcs, t, Trying(pool, s.used));
  }

  lemma {:induction false} GiveUpKeeps(s: State, t: nat)
    requires Inv(s) && Enabled(s, GiveUp(t))
    ensures Inv(Apply(s, GiveUp(t)))
  {
    hide InPools, InProgress, Sub;
    ProgressUpdate(s.pools, s.pcs, t, Idle);
    Exact(s.used, s.pools[s.pcs[t].pool].size);
  }

  lemma {:induction false} StepKeeps(s: State, step: Step)
    requires Inv(s) && Enabled(s, step)
    ensures Inv(Apply(s, step))
  {
    hide Inv, Apply, AttemptStep;
    match step {
      case Create(size) => CreateKeeps(s, size);
      case Load(t, pool) => LoadKeeps(s, t, pool);
      case Attempt(t, spurious) => AttemptKeeps(s, t, spurious);
      case Allocate(t, ok) => AllocateKeeps(s, t, ok);
      case GiveUp(t) => GiveUpKeeps(s, t);
      case Clear(i) => ClearKeeps(s, i);
      case Release(i) => ReleaseKeeps(s, i);
    }
  }

  lemma {:induction false} NewPool(size: u64)
    ensures Held(Pool(size, 0, 0)) == 0
  {
  }

  /** In every run the counter equals the bytes of all buffers plus the reservations in progress, stays under the cap,
      and no step of it wraps. */
  lemma {:induction false} BudgetSafe(max: u64, threads: nat, states: seq<State>, steps: seq<Step>, i: nat)
    requires Run(max, threads, states, steps) && i < |states|
    ensures var s := states[i];
            && s.max == max && s.used == InPools(s.pools) + InProgress(s.pools, s.pcs) <= max && Inv(s)
            && (i < |steps| ==> NoWrap(s, steps[i]))
  {
    if i == 0 {
      NoneInProgress([], states[0].pcs);
    } else {
      BudgetSafe(max, threads, states, steps, i - 1);
      StepKeeps(states[i - 1], steps[i - 1]);
    }
    if i < |steps| {
      StepExact(states[i], steps[i]);
    }
  }

  lemma {:induction false} NoneInProgress(pools: seq<Pool>, pcs: seq<Pc>)
    requires forall t :: 0 <= t < |pcs| ==> pcs[t].Idle?
    ensures InProgress(pools, pcs) == 0
    decreases |pcs|
  {
    if pcs != [] {
      NoneInProgress(pools, pcs[..|pcs| - 1]);
    }
  }

  /** What a step writes to the counter is the exact sum or difference. */
  predicate NoWrap(s: State, step: Step)
    requires Enabled(s, step)
  {
    match step
    case Attempt(t, spurious) =>
      var s' := Apply(s, step);
      s'.used == s.used || s'.used == s.used + s.pools[s.pcs[t].pool].size
    case GiveUp(t) => Apply(s, step).used == s.used - s.pools[s.pcs[t].pool].size
    case Release(i) => Apply(s, step).used == s.used - s.pools[i].closing
    case _ => Apply(s, step).used == s.used
  }

  /** What passes the test against the cap can be added. */
  lemma {:induction false} Fits(max: u64, seen: u64, size: u64)
    requires seen <= max && Sub(max, seen) >= size
    ensures Add(seen, size) == seen + size <= max
  {
  }

  lemma {:induction false} StepExact(s: State, step: Step)
    requires Inv(s) && Enabled(s, step)
    ensures NoWrap(s, step)
  {
    hide InPools, InProgress, Add, Sub, Mul, Held;
    match step {
      case GiveUp(t) =>
        ProgressUpdate(s.pools, s.pcs, t, Idle);
        Exact(s.used, s.pools[s.pcs[t].pool].size);
      case Release(i) =>
        PoolsUpdate(s.pools, i, s.pools[i]);
        ClosingCounted(s.pools[i]);
        Exact(s.used, s.pools[i].closing);
      case Attempt(t, spurious) =>
        if s.pcs[t].seen <= s.max && Sub(s.max, s.pcs[t].seen) >= s.pools[s.pcs[t].pool].size {
          Fits(s.max, s.pcs[t].seen, s.pools[s.pcs[t].pool].size);
        }
      case _ =>
    }
  }

  lemma {:induction false} ClosingCounted(p: Pool)
    ensures p.closing <= Held(p)
  {
  }

  lemma {:induction false} Exact(a: u64, b: u64)
    requires b <= a
    ensures Sub(a, b) == a - b
  {
  }

  /** Does this step read the counter for thread `t`? */
  predicate Reads(step: Step, t: nat) {
    match step
    case Load(u, _) => u == t
    case Attempt(u, _) => u == t
    case _ => false
  }

  /** Thread `t` last read the counter in step `j`, before step `n`. */
  predicate ReadAt(steps: seq<Step>, j: nat, n: nat, t: nat) {
    j < n <= |steps| && Reads(steps[j], t) && forall m :: j < m < n ==> !Reads(steps[m], t)
  }

  /** What a thread compares with is what it read last. */
  lemma {:induction false} SeenWasRead(max: u64, threads: nat, states: seq<State>, steps: seq<Step>, n: nat, t: nat)
    requires Run(max, threads, states, steps) && n < |states| && t < |states[n].pcs| && states[n].pcs[t].Trying?
    ensures exists j: nat :: ReadAt(steps, j, n, t) && states[j].used == states[n].pcs[t].seen
  {
    hide Enabled, Apply;
    assert n > 0;
    var s, s', step := states[n - 1], states[n], steps[n - 1];
    if Reads(step, t) {
      ReadNow(s, step, t);
      assert ReadAt(steps, n - 1, n, t);
    } else {
      NotRead(s, step, t);
      SeenWasRead(max, threads, states, steps, n - 1, t);
      var j: nat :| ReadAt(steps, j, n - 1, t) && states[j].used == s.pcs[t].seen;
      assert ReadAt(steps, j, n, t);
    }
  }

  lemma {:induction false} ReadNow(s: State, step: Step, t: nat)
    requires Enabled(s, step) && Reads(step, t) && t < |Apply(s, step).pcs| && Apply(s, step).pcs[t].Trying?
    ensures Apply(s, step).pcs[t].seen == s.used
  {
  }

  lemma {:induction false} NotRead(s: State, step: Step, t: nat)
    requires Enabled(s, step) && !Reads(step, t) && t < |Apply(s, step).pcs| && Apply(s, step).pcs[t].Trying?
    ensures t < |s.pcs| && Apply(s, step).pcs[t] == s.pcs[t]
  {
  }

  /** One round of a thread whose last value of the counter is `seen`: refused exactly when the bytes do not fit beside
      that, reserved exactly when they do and the counter still has that value, else tried again. */
  predicate Decided(s: State, s': State, t: nat, seen: nat, spurious: bool)
    requires t < |s.pcs| && s.pcs[t].Trying? && s.pcs[t].pool < |s.pools| && t < |s'.pcs|
  {
    var i := s.pcs[t].pool;
    if seen + s.pools[i].size > s.max then s'.pcs[t] == Idle && s'.used == s.used
    else if s.used == seen && !spurious then s'.pcs[t] == Reserved(i) && s'.used == s.used + s.pools[i].size
    else s'.pcs[t] == Trying(i, s.used) && s'.used == s.used
  }

  /** In every run: a reservation is refused only when its bytes would have passed the cap at the value the thread had
      read, and one that fits is refused never. */
  lemma {:induction false} AttemptExact(max: u64, threads: nat, states: seq<State>, steps: seq<Step>, i: nat, t: nat,
                                        spurious: bool)
    requires Run(max, threads, states, steps) && i < |steps| && steps[i] == Attempt(t, spurious)
    requires t < |states[i].pcs| && states[i].pcs[t].Trying? && states[i].pcs[t].pool < |states[i].pools|
    ensures t < |states[i + 1].pcs|
    ensures exists j: nat ::
              ReadAt(steps, j, i, t) && Decided(states[i], states[i + 1], t, states[j].used, spurious)
  {
    hide InPools, InProgress;
    SeenWasRead(max, threads, states, steps, i, t);
    BudgetSafe(max, threads, states, steps, i);
    var s := states[i];
    var j: nat :| ReadAt(steps, j, i, t) && states[j].used == s.pcs[t].seen;
    DecidesBy(s, t, spurious);
    assert Decided(s, states[i + 1], t, states[j].used, spurious);
  }

  lemma {:induction false} DecidesBy(s: State, t: nat, spurious: bool)
    requires Inv(s) && Enabled(s, Attempt(t, spurious))
    ensures Decided(s, AttemptStep(s, t, spurious), t, s.pcs[t].seen, spurious)
  {
    hide InPools, InProgress;
  }
}

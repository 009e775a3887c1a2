/** The buffer pool (engine/p8_buffer_pool.cpp): a free list, grow on demand, and a FIFO queue of waiters linked through
    nodes on the waiters' own stacks. `PoolSpec` says what each critical section does to sequences; the class does it
    with links and flags and is proved against that. */
module PoolSpec {
  import opened Bytes

  /** Address of a buffer. */
  type Addr = nat

  const SHARDS: nat := 64
  const CURSOR_MOD: nat := 0x1_0000_0000

  /** What growing the pool meets: no budget, no memory, or a new buffer. */
  datatype Alloc = Refused | Failed | Got(addr: Addr)

  /** A waiter's node: the buffer handed to it, the flag it waits for, the condition variable it waits on. */
  datatype Node = Node(buf: Option<Addr>, done: bool, shard: nat)

  datatype Pool<!W> = Pool(free: seq<Addr>, all: seq<Addr>, queue: seq<W>, nodes: map<W, Node>, stopping: bool,
                           cursor: nat)

  ghost predicate Distinct<T>(s: seq<T>) {
    forall i, j :: 0 <= i < j < |s| ==> s[i] != s[j]
  }

  /** A waiter in the queue has nothing yet, and while one waits no buffer lies free. */
  ghost predicate PoolOk<W>(p: Pool<W>) {
    && Distinct(p.queue)
    && (forall i :: 0 <= i < |p.queue| ==>
          p.queue[i] in p.nodes && !p.nodes[p.queue[i]].done && p.nodes[p.queue[i]].buf == None)
    && (forall w :: w in p.nodes ==> p.nodes[w].shard < SHARDS)
    && (p.queue != [] ==> p.free == [])
    && (p.stopping ==> p.queue == [])
  }

  /** The allocator returns memory that is not in use. */
  predicate Honest<W>(p: Pool<W>, alloc: Alloc) {
    alloc.Got? ==> alloc.addr !in p.all
  }

  /** acquire_no_lock: the oldest free buffer, or a new one. */
  function Acquire<W>(p: Pool<W>, alloc: Alloc): (Pool<W>, Option<Addr>) {
    if p.free != [] then (p.(free := p.free[1..]), Some(p.free[0]))
    else if alloc.Got? then (p.(all := p.all + [alloc.addr]), Some(alloc.addr))
    else (p, None)
  }

  /** The part of acquire_wait that joins the queue. */
  function Park<W>(p: Pool<W>, w: W): Pool<W> {
    p.(queue := p.queue + [w], nodes := p.nodes[w := Node(None, false, p.cursor % SHARDS)],
       cursor := (p.cursor + 1) % CURSOR_MOD)
  }

  function Handoff<W>(p: Pool<W>, b: Addr): Pool<W>
    requires p.queue != [] && p.queue[0] in p.nodes
  {
    var w := p.queue[0];
    p.(queue := p.queue[1..], nodes := p.nodes[w := Node(Some(b), true, p.nodes[w].shard)])
  }

  function Recycle<W>(p: Pool<W>, b: Addr): Pool<W>
    requires p.queue != [] ==> p.queue[0] in p.nodes
  {
    if p.queue == [] then p.(free := p.free + [b]) else Handoff(p, b)
  }

  ghost function RecycleAll<W>(p: Pool<W>, bs: seq<Addr>): Pool<W>
    requires PoolOk(p)
    decreases |bs|
  {
    if bs == [] then p
    else
      RecycleOk(p, bs[0]);
      RecycleAll(Recycle(p, bs[0]), bs[1..])
  }

  /** stop_waiters: every waiter leaves with nothing, and none will park again. */
  ghost function Stop<W>(p: Pool<W>): Pool<W>
    requires forall i :: 0 <= i < |p.queue| ==> p.queue[i] in p.nodes
  {
    p.(queue := [], stopping := true,
       nodes := map w | w in p.nodes :: if w in p.queue then Node(None, true, p.nodes[w].shard) else p.nodes[w])
  }

  lemma {:induction false} RecycleOk<W>(p: Pool<W>, b: Addr)
    requires PoolOk(p)
    ensures PoolOk(Recycle(p, b))
  {
  }

  lemma {:induction false} ParkOk<W>(p: Pool<W>, w: W)
    requires PoolOk(p) && w !in p.queue && !p.stopping && p.free == []
    ensures PoolOk(Park(p, w))
  {
  }

  lemma {:induction false} StopOk<W>(p: Pool<W>)
    requires PoolOk(p)
    ensures PoolOk(Stop(p))
  {
  }

  /** `p1` is `p` after the buffers `bs` went to the waiters in arrival order; only what is left over became free, and
      then no waiter is left. */
  ghost predicate Fifo<W>(p: Pool<W>, bs: seq<Addr>, p1: Pool<W>) {
    var n := if |bs| < |p.queue| then |bs| else |p.queue|;
    && p1 == p.(queue := p.queue[n..], free := p.free + bs[n..], nodes := p1.nodes)
    && p1.nodes.Keys == p.nodes.Keys
    && (forall i :: 0 <= i < n ==> Served(p, p1, i, bs))
    && (forall w :: w in p.nodes && w !in p.queue[..n] ==> p1.nodes[w] == p.nodes[w])
  }

  ghost predicate Served<W>(p: Pool<W>, p1: Pool<W>, i: nat, bs: seq<Addr>)
    requires i < |bs| && i < |p.queue|
  {
    && p.queue[i] in p.nodes && p.queue[i] in p1.nodes
    && p1.nodes[p.queue[i]] == Node(Some(bs[i]), true, p.nodes[p.queue[i]].shard)
  }

  /** Buffers recycled one by one or in one batch go to the waiters in arrival order. */
  lemma {:induction false} RecycleAllFifo<W>(p: Pool<W>, bs: seq<Addr>)
    requires PoolOk(p)
    ensures PoolOk(RecycleAll(p, bs)) && Fifo(p, bs, RecycleAll(p, bs))
    decreases |bs|
  {
    hide Recycle;
    if bs != [] {
      var p1 := Recycle(p, bs[0]);
      RecycleOk(p, bs[0]);
      RecycleAllFifo(p1, bs[1..]);
      hide Fifo;
      if p.queue == [] {
        FifoFree(p, bs, RecycleAll(p, bs));
      } else {
        FifoServe(p, bs, RecycleAll(p, bs));
      }
    }
  }

  lemma {:induction false} FifoFree<W>(p: Pool<W>, bs: seq<Addr>, q: Pool<W>)
    requires PoolOk(p) && bs != [] && p.queue == [] && Fifo(Recycle(p, bs[0]), bs[1..], q)
    ensures Fifo(p, bs, q)
  {
    assert p.free + [bs[0]] + bs[1..] == p.free + bs;
  }

  lemma {:induction false} FifoServe<W>(p: Pool<W>, bs: seq<Addr>, q: Pool<W>)
    requires PoolOk(p) && bs != [] && p.queue != [] && Fifo(Recycle(p, bs[0]), bs[1..], q)
    ensures Fifo(p, bs, q)
  {
    var p1, n := Recycle(p, bs[0]), if |bs| < |p.queue| then |bs| else |p.queue|;
    assert p.queue[1..][..n - 1] == p.queue[1..n];
    assert p.queue[..n] == [p.queue[0]] + p.queue[1..n];
    assert p.queue[0] !in p.queue[1..n];
    forall i | 0 <= i < n ensures Served(p, q, i, bs) {
      if i > 0 {
        assert Served(p1, q, i - 1, bs[1..]);
        assert p.queue[i] == p1.queue[i - 1] && p.queue[i] != p.queue[0];
      }
    }
  }
}

module BufferPool {
  import opened Bytes
  import opened PoolSpec

  /** Lives on the stack of a blocked thread. */
  class Waiter {
    var next: Waiter?
    var buf: Option<Addr>
    var done: bool
    var shard: nat

    constructor ()
      ensures next == null && buf == None && !done
    {
      next, buf, done, shard := null, None, false, 0;
    }
  }

  class BufferPool {
    var free: seq<Addr>
    var all: seq<Addr>
    var head: Waiter?
    var tail: Waiter?
    var waitCount: nat
    var stopping: bool
    var cursor: nat

    ghost var queue: seq<Waiter>
    ghost var members: set<Waiter>

    constructor ()
      ensures Valid() && Abs() == Pool([], [], [], map[], false, 0) && fresh(this)
    {
      free, all, head, tail, waitCount, stopping, cursor := [], [], null, null, 0, false, 0;
      queue, members := [], {};
    }

    ghost function Nodes(): map<Waiter, Node>
      reads this`members, members
    {
      map w | w in members :: Node(w.buf, w.done, w.shard)
    }

    ghost function Abs(): Pool<Waiter>
      reads this, members
    {
      Pool(free, all, queue, Nodes(), stopping, cursor)
    }

    /** The links hold the queue in order. */
    ghost predicate Linked()
      reads this`head, this`tail, this`queue, queue
    {
      if queue == [] then head == null && tail == null
      else
        && head == queue[0] && tail == queue[|queue| - 1] && queue[|queue| - 1].next == null
        && forall i :: 0 <= i < |queue| - 1 ==> queue[i].next == queue[i + 1]
    }

    ghost predicate Valid()
      reads this, members, queue
    {
      Linked() && waitCount == |queue| && PoolOk(Abs())
    }

    /** Pre-allocate up to `count` buffers, until the budget or the memory ends; `allocs` is what each try meets. */
    method Init(count: nat, allocs: seq<Alloc>) returns (n: nat)
      requires Valid() && queue == [] && |allocs| >= count
      requires forall i :: 0 <= i < count && allocs[i].Got? ==> allocs[i].addr !in all
      requires forall i, j :: 0 <= i < j < count && allocs[i].Got? && allocs[j].Got? ==>
                 allocs[i].addr != allocs[j].addr
      modifies this
      ensures Valid() && n <= count && (n < count ==> !allocs[n].Got?)
      ensures |free| == |old(free)| + n && old(free) <= free && |all| == |old(all)| + n && old(all) <= all
      ensures forall i :: 0 <= i < n ==>
                allocs[i].Got? && free[|old(free)| + i] == allocs[i].addr && all[|old(all)| + i] == allocs[i].addr
      ensures Abs() == old(Abs()).(free := free, all := all)
    {
      n := 0;
      while n < count && allocs[n].Got?
        invariant n <= count && queue == old(queue) && members == old(members) && Valid()
        invariant |free| == |old(free)| + n && old(free) <= free && |all| == |old(all)| + n && old(all) <= all
        invariant forall i :: 0 <= i < n ==>
                    allocs[i].Got? && free[|old(free)| + i] == allocs[i].addr && all[|old(all)| + i] == allocs[i].addr
        invariant Abs() == old(Abs()).(free := free, all := all)
        modifies this`free, this`all
      {
        all := all + [allocs[n].addr];
        free := free + [allocs[n].addr];
        n := n + 1;
      }
    }

    method AcquireNoLock(alloc: Alloc) returns (b: Option<Addr>)
      requires Valid() && Honest(Abs(), alloc)
      modifies this`free, this`all
      ensures Valid() && (Abs(), b) == Acquire(old(Abs()), alloc)
      ensures old(free) != [] ==> b == Some(old(free)[0]) && free == old(free)[1..] && all == old(all)
      ensures old(free) == [] && alloc.Got? ==> b == Some(alloc.addr) && free == [] && all == old(all) + [alloc.addr]
      ensures old(free) == [] && !alloc.Got? ==> b == None && free == [] && all == old(all)
    {
      if |free| == 0 {
        if !alloc.Got? {
          return None;
        }
        all := all + [alloc.addr];
        free := free + [alloc.addr];
      }
      b := Some(free[0]);
      free := free[1..];
      assert old(free) == [] ==> free == [];
    }

    /** acquire_wait up to the wait itself: a buffer, a refusal after shutdown, or a place at the end of the queue. */
    method EnterWait(self: Waiter, alloc: Alloc) returns (b: Option<Addr>, parked: bool)
      requires Valid() && Honest(Abs(), alloc) && self !in members
      modifies this, self, tail
      ensures Valid()
      ensures var (p, got) := Acquire(old(Abs()), alloc);
              && b == got && (parked <==> got.None? && !old(stopping))
              && (parked ==> members == old(members) + {self} && queue == old(queue) + [self])
              && Abs() == if parked then Park(p, self) else p
      ensures b.Some? <==> old(free) != [] || alloc.Got?
      ensures parked ==> self.shard == old(cursor) % 64 && cursor == (old(cursor) + 1) % 0x1_0000_0000
    {
      b := AcquireNoLock(alloc);
      parked := b.None? && !stopping;
      if parked {
        Enqueue(self);
      }
    }

    method Enqueue(self: Waiter)
      requires Valid() && self !in members && !stopping && free == []
      modifies this`head, this`tail, this`waitCount, this`cursor, this`queue, this`members, self,
               (if tail == null then {} else {tail})`next
      ensures Valid() && members == old(members) + {self} && queue == old(queue) + [self]
      ensures Abs() == Park(old(Abs()), self)
      ensures self.shard == old(cursor) % 64 && cursor == (old(cursor) + 1) % 0x1_0000_0000
    {
      hide PoolOk, Linked, Distinct, Nodes;
      ghost var p := Abs();
      InMembers();
      NodesAre();
      self.buf, self.done := None, false;
      self.shard := cursor % SHARDS;
      cursor := (cursor + 1) % CURSOR_MOD;
      Link(self);
      members := members + {self};
      NodesWith(p.nodes, self);
      ParkOk(p, self);
    }

    lemma NodesWith(nodes: map<Waiter, Node>, self: Waiter)
      requires self !in nodes && members == nodes.Keys + {self}
      requires forall w :: w in nodes ==> nodes[w] == Node(w.buf, w.done, w.shard)
      ensures Nodes() == nodes[self := Node(self.buf, self.done, self.shard)]
    {
    }

    lemma NodesAre()
      ensures Nodes().Keys == members && forall w :: w in members ==> Nodes()[w] == Node(w.buf, w.done, w.shard)
    {
    }

    /** Append a node to the linked queue. */
    method Link(self: Waiter)
      requires Linked() && waitCount == |queue| && Distinct(queue) && self !in queue
      modifies this`head, this`tail, this`waitCount, this`queue, self`next, (if tail == null then {} else {tail})`next
      ensures Linked() && waitCount == |queue| && queue == old(queue) + [self]
    {
      self.next := null;
      if tail != null {
        tail.next := self;
      } else {
        head := self;
      }
      tail := self;
      waitCount := waitCount + 1;
      queue := queue + [self];
    }

    lemma InMembers()
      requires Valid()
      ensures Distinct(queue) && forall i :: 0 <= i < |queue| ==> queue[i] in members
    {
    }

    /** Hand a buffer to the oldest waiter; the result is the shard to notify, or -1 when nobody waits. */
    method TryHandoff(b: Addr) returns (idx: int)
      requires Valid()
      modifies this`head, this`tail, this`waitCount, this`queue, head
      ensures Valid() && members == old(members)
      ensures old(queue) == [] ==> idx == -1 && Abs() == old(Abs())
      ensures old(queue) != [] ==> Abs() == Handoff(old(Abs()), b) && idx == old(queue[0].shard) && 0 <= idx < SHARDS
    {
      hide PoolOk, Linked, Distinct, Nodes;
      InMembers();
      NodesAre();
      if waitCount == 0 {
        return -1;
      }
      ghost var p := Abs();
      HeadQueued();
      ShardInRange(p);
      var waiter := head;
      Unlink();
      waiter.buf, waiter.done := Some(b), true;
      idx := waiter.shard;
      RecycleOk(p, b);
      NodeChanged(p.nodes, waiter);
    }

    /** Take the head off the linked queue. */
    method Unlink()
      requires Linked() && waitCount == |queue| > 0
      modifies this`head, this`tail, this`waitCount, this`queue
      ensures Linked() && waitCount == |queue| && queue == old(queue)[1..]
    {
      head := head.next;
      if head == null {
        tail := null;
      }
      waitCount := waitCount - 1;
      queue := queue[1..];
    }

    lemma ShardInRange(p: Pool<Waiter>)
      requires PoolOk(p) && p.queue != []
      ensures p.queue[0] in p.nodes && p.nodes[p.queue[0]].shard < SHARDS
    {
    }

    lemma NodeChanged(nodes: map<Waiter, Node>, waiter: Waiter)
      requires waiter in nodes && members == nodes.Keys
      requires forall w :: w in nodes && w != waiter ==> nodes[w] == Node(w.buf, w.done, w.shard)
      ensures Nodes() == nodes[waiter := Node(waiter.buf, waiter.done, waiter.shard)]
    {
    }

    /** Return one buffer to the pool; a null one is ignored. `notified` is the shard that was notified, or -1. */
    method RecycleOne(b: Option<Addr>) returns (notified: int)
      requires Valid()
      modifies this`free, this`head, this`tail, this`waitCount, this`queue, head
      ensures Valid() && members == old(members)
      ensures Abs() == if b.None? then old(Abs()) else Recycle(old(Abs()), b.value)
      ensures notified == if b.None? || old(queue) == [] then -1 else old(queue[0].shard)
      ensures queue == if b.None? || old(queue) == [] then old(queue) else old(queue)[1..]
    {
      if b.None? {
        return -1;
      }
      notified := TryHandoff(b.value);
      if notified < 0 {
        free := free + [b.value];
      }
    }

    /** Return a batch under one lock: the same as returning them one by one. */
    method RecycleBatch(bs: seq<Option<Addr>>)
      requires Valid()
      modifies this`free, this`head, this`tail, this`waitCount, this`queue, queue
      ensures Valid() && members == old(members) && Abs() == RecycleAll(old(Abs()), NotNull(bs))
    {
      hide Linked, PoolOk, Nodes, Recycle, RecycleAll;
      var i := 0;
      assert bs[0..] == bs;
      ghost var p := Abs();
      while i < |bs|
        invariant i <= |bs| && Valid() && members == old(members)
        invariant forall w :: w in queue ==> w in old(queue)
        invariant PoolOk(p) && RecycleAll(Abs(), NotNull(bs[i..])) == RecycleAll(p, NotNull(bs))
      {
        HeadQueued();
        RecycleStep(Abs(), bs, i);
        var _ := RecycleOne(bs[i]);
        i := i + 1;
      }
      RecycleStep(Abs(), bs, i);
    }

    lemma HeadQueued()
      requires Valid()
      ensures head != null ==> head in queue
      ensures queue != [] ==> head == queue[0]
    {
    }

    /** stop_waiters: every waiter is marked done with no buffer, and from now on nobody parks. */
    method StopWaiters()
      requires Valid()
      modifies this`head, this`tail, this`waitCount, this`queue, this`stopping, queue
      ensures Valid() && members == old(members) && Abs() == Stop(old(Abs()))
    {
      hide PoolOk, Distinct, Nodes, Stop, Linked;
      InMembers();
      NodesAre();
      ghost var p := Abs();
      stopping := true;
      MarkAll();
      MarkedNodes(p);
      tail, waitCount, queue := null, 0, [];
      NodesStopped(p);
      StopOk(p);
      NothingLinked();
    }

    lemma NothingLinked()
      requires queue == [] && head == null && tail == null
      ensures Linked()
    {
    }

    /** The nodes after the walk, by what they were before. */
    twostate lemma MarkedNodes(p: Pool<Waiter>)
      requires queue == old(queue) == p.queue && members == old(members) == p.nodes.Keys
      requires forall w :: w in members ==> p.nodes[w] == old(Node(w.buf, w.done, w.shard))
      requires forall i :: 0 <= i < |queue| ==> queue[i].done && queue[i].buf == None
      requires forall w :: w in members ==> w.shard == old(w.shard)
      requires forall w :: w in members && w !in queue ==> w.buf == old(w.buf) && w.done == old(w.done)
      ensures forall w :: w in members ==>
                Node(w.buf, w.done, w.shard) == if w in p.queue then Node(None, true, p.nodes[w].shard) else p.nodes[w]
    {
      forall w | w in members
        ensures Node(w.buf, w.done, w.shard) == if w in p.queue then Node(None, true, p.nodes[w].shard) else p.nodes[w]
      {
        if w in p.queue {
          var i :| 0 <= i < |p.queue| && p.queue[i] == w;
          assert queue[i].done && queue[i].buf == None;
        }
      }
    }

    lemma NodesStopped(p: Pool<Waiter>)
      requires PoolOk(p) && members == p.nodes.Keys && queue == [] && stopping
      requires free == p.free && all == p.all && cursor == p.cursor
      requires forall w :: w in members ==>
                 Node(w.buf, w.done, w.shard) == if w in p.queue then Node(None, true, p.nodes[w].shard) else p.nodes[w]
      ensures Abs() == Stop(p)
    {
      assert Nodes() == Stop(p).nodes;
    }

    /** Walk the queue from the head and mark every node. */
    method MarkAll()
      requires Linked()
      modifies this`head, queue`buf, queue`done
      ensures head == null && forall i :: 0 <= i < |queue| ==> queue[i].done && queue[i].buf == None
    {
      ghost var k := 0;
      while head != null
        invariant k <= |queue| && head == if k < |queue| then queue[k] else null
        invariant forall i :: 0 <= i < k ==> queue[i].done && queue[i].buf == None
        decreases |queue| - k
      {
        var waiter := head;
        head := waiter.next;
        waiter.buf := None;
        waiter.done := true;
        k := k + 1;
      }
    }
  }

  /** The buffers of a batch without the null entries. */
  function NotNull(bs: seq<Option<Addr>>): seq<Addr> {
    if bs == [] then [] else (if bs[0].Some? then [bs[0].value] else []) + NotNull(bs[1..])
  }

  lemma {:induction false} RecycleStep<W>(p: Pool<W>, bs: seq<Option<Addr>>, i: nat)
    requires PoolOk(p) && i <= |bs|
    ensures i == |bs| ==> RecycleAll(p, NotNull(bs[i..])) == p
    ensures i < |bs| ==> var q := if bs[i].None? then p else Recycle(p, bs[i].value);
                         PoolOk(q) && RecycleAll(q, NotNull(bs[i + 1..])) == RecycleAll(p, NotNull(bs[i..]))
  {
    if i < |bs| {
      assert bs[i..][1..] == bs[i + 1..];
      if bs[i].Some? {
        RecycleOk(p, bs[i].value);
        assert NotNull(bs[i..])[1..] == NotNull(bs[i + 1..]);
      } else {
        assert NotNull(bs[i..]) == NotNull(bs[i + 1..]);
      }
    }
  }
}

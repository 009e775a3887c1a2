/** Order and wholeness of what the worker delivers: in every interleaving, the buffers of one writer reach the sink
    numbered 0, 1, 2, ..., the fragments of a record lie side by side in one batch, and the payload of one writer at
    the sink decodes to the first records it sent. */
module CollectionOrder {
  import opened Bytes
  import opened Fragments
  import opened Wire
  import opened Collection

  // ---------------------------------------------------------------------------------------------------------------
  // The buffers of one writer in a sequence of buffers

  function Of(ps: seq<Parcel>, w: nat): seq<Parcel> {
    if ps == [] then []
    else Of(ps[..|ps| - 1], w) + (if ps[|ps| - 1].writer == w then [ps[|ps| - 1]] else [])
  }

  lemma {:induction false} OfAppend(a: seq<Parcel>, b: seq<Parcel>, w: nat)
    ensures Of(a + b, w) == Of(a, w) + Of(b, w)
    decreases |b|
  {
    if b == [] {
      assert a + b == a;
    } else {
      OfAppend(a, b[..|b| - 1], w);
      assert (a + b)[..|a + b| - 1] == a + b[..|b| - 1];
    }
  }

  lemma {:induction false} OfOne(ps: seq<Parcel>, w: nat)
    ensures (forall p :: p in ps ==> p.writer == w) ==> Of(ps, w) == ps
    ensures (forall p :: p in ps ==> p.writer != w) ==> Of(ps, w) == []
    decreases |ps|
  {
    if ps != [] {
      OfOne(ps[..|ps| - 1], w);
      assert ps == ps[..|ps| - 1] + [ps[|ps| - 1]];
    }
  }

  function Flat(packets: seq<Packet>): seq<Parcel> {
    if packets == [] then [] else Flat(packets[..|packets| - 1]) + packets[|packets| - 1].parcels
  }

  /** Every buffer handed over so far, in the order in which it will have reached the sink. */
  function Path(s: State): seq<Parcel> {
    Flat(s.packets) + s.worker.batch + s.ready
  }

  /** The fragments of a record follow each other. */
  predicate Whole(ps: seq<Parcel>) {
    forall j :: 0 <= j < |ps| && ps[j].buf.view.fragment ==>
      j + 1 < |ps| && ps[j + 1].writer == ps[j].writer && ps[j + 1].number == ps[j].number + 1
  }

  /** The first `n` buffers of writer `w`, numbered from 0. */
  function First(w: nat, v: Writer, n: nat): (ps: seq<Parcel>)
    requires n <= |v.bufs|
  {
    Parcels(w, v.bufs, 0, n)
  }

  ghost predicate Ordered(writers: seq<Writer>, path: seq<Parcel>) {
    && (forall p :: p in path ==> p.writer < |writers|)
    && (forall w :: 0 <= w < |writers| ==> Of(path, w) == First(w, writers[w], writers[w].pulled))
  }

  predicate AllWhole(s: State) {
    Whole(s.worker.batch) && Whole(s.ready) && forall i :: 0 <= i < |s.packets| ==> Whole(s.packets[i].parcels)
  }

  predicate InRegistry(p: Phase) {
    !p.Left? && !p.Gone?
  }

  /** The registry lists the writers that have not left; one that is leaving holds no buffers, and only such have
      buffers in the ready queue. */
  ghost predicate Registered(writers: seq<Writer>, registry: seq<nat>, ready: seq<Parcel>) {
    && (forall i, j :: 0 <= i < j < |registry| ==> registry[i] != registry[j])
    && (forall w :: w in registry ==> w < |writers|)
    && (forall w :: 0 <= w < |writers| ==> (w in registry <==> InRegistry(writers[w].phase)))
    && (forall w :: 0 <= w < |writers| && !writers[w].phase.Live? ==> writers[w].pulled == |writers[w].bufs|)
    && (forall w :: 0 <= w < |writers| && writers[w].phase.Live? ==> Of(ready, w) == [])
  }

  // ---------------------------------------------------------------------------------------------------------------
  // One writer

  function Starts(bufs: seq<Buf>): seq<Record> {
    if bufs == [] then [] else Starts(bufs[..|bufs| - 1]) + bufs[|bufs| - 1].starts
  }

  /** The records filed in the first `n` buffers are those that begin before the end of buffer `n`. */
  ghost predicate FiledTo(bufs: seq<Buf>, blocks: seq<Block>, n: nat) {
    n <= |bufs| &&
    var c := |Starts(bufs[..n])|;
    c <= |blocks| && Off(Views(bufs), n) <= Bnd(blocks, c) && (c > 0 ==> Bnd(blocks, c - 1) < Off(Views(bufs), n))
  }

  ghost predicate Filed(v: Writer) {
    Starts(v.bufs) == v.sent && forall n :: 0 <= n <= |v.bufs| ==> FiledTo(v.bufs, v.blocks, n)
  }

  ghost predicate SentAs(r: Record, b: Block) {
    Encodes(r, b.bytes) && Bounded(r)
  }

  ghost predicate Written(cap: nat, v: Writer) {
    && Shape(cap, Views(v.bufs), v.blocks) && Join(Views(v.bufs)) == Concat(BlockBytes(v.blocks))
    && |v.sent| == |v.blocks|
    && forall i :: 0 <= i < |v.sent| ==> SentAs(v.sent[i], v.blocks[i])
  }

  ghost predicate WriterOk(cap: nat, v: Writer) {
    Written(cap, v) && Filed(v)
  }

  lemma {:induction false} StartsAgree(a: seq<Buf>, b: seq<Buf>, n: nat)
    requires n <= |a| && n <= |b| && forall i :: 0 <= i < n ==> a[i].starts == b[i].starts
    ensures Starts(a[..n]) == Starts(b[..n])
  {
    if n > 0 {
      StartsAgree(a, b, n - 1);
      assert a[..n][..n - 1] == a[..n - 1] && b[..n][..n - 1] == b[..n - 1];
    }
  }

  lemma {:induction false} StartsEnd(bufs: seq<Buf>, m: nat, n: nat)
    requires m <= n <= |bufs| && forall i :: m <= i < n ==> bufs[i].starts == []
    ensures Starts(bufs[..n]) == Starts(bufs[..m])
    decreases n
  {
    if m < n {
      StartsEnd(bufs, m, n - 1);
      assert bufs[..n][..n - 1] == bufs[..n - 1];
    }
  }

  /** Writing a record keeps its writer in order. */
  lemma {:induction false} SendKeepsWriter(c: Config, s: State, w: nat, open: bool, r: Record, b: Block)
    requires CanAct(c, s, w, Send(open, r, b)) && WriterOk(c.cap, s.writers[w])
    ensures WriterOk(c.cap, Next(c, s, w, Send(open, r, b)))
  {
    hide Encodes, Shape, Filed, Views, Off, Bnd, CanStart, Extend, Extended, Starts;
    var v, v' := s.writers[w], Next(c, s, w, Send(open, r, b));
    var vs := Views(v.bufs);
    EncodedSize(r, b.bytes);
    CommitBlock(c.cap, vs, open, v.blocks, b);
    assert Written(c.cap, v') by {
      forall i | 0 <= i < |v'.sent| ensures SentAs(v'.sent[i], v'.blocks[i]) {
        if i < |v.sent| {
          assert SentAs(v.sent[i], v.blocks[i]);
        }
      }
    }
    FiledAfterSend(c.cap, v, open, r, b, v');
  }

  lemma {:induction false} EncodedSize(r: Record, bytes: seq<byte>)
    requires Encodes(r, bytes)
    ensures 0 < Fixed(r) <= |bytes| && |bytes| % 8 == 0
  {
    hide Head, Body;
  }

  lemma {:induction false} FiledAfterSend(cap: nat, v: Writer, open: bool, r: Record, b: Block, v': Writer)
    requires Filed(v) && Shape(cap, Views(v.bufs), v.blocks) && |v.sent| == |v.blocks|
    requires CanStart(cap, Views(v.bufs), open, b.fixed) && b.fixed <= |b.bytes|
    requires v'.bufs == Extended(cap, v.bufs, open, r, b.bytes) && v'.blocks == v.blocks + [b]
             && v'.sent == v.sent + [r]
    ensures Filed(v')
  {
    hide Shape, Off, Bnd, Extend, FiledTo, Starts;
    var m := if open then |v.bufs| else |v.bufs| + 1;
    ExtendGrows(cap, Start(Views(v.bufs), open), b.bytes);
    FiledStarts(cap, v, open, r, b, v'.bufs, |v'.bufs|);
    assert v'.bufs[..|v'.bufs|] == v'.bufs;
    forall n | 0 <= n <= |v'.bufs| ensures FiledTo(v'.bufs, v'.blocks, n) {
      if n < m {
        assert FiledTo(v.bufs, v.blocks, n);
        FiledBefore(cap, v, open, r, b, v'.bufs, n);
      } else {
        FiledBehind(cap, v, open, r, b, v'.bufs, n);
      }
    }
  }

  /** The new record is filed in the last buffer of before it, or the fresh one. */
  lemma {:induction false} FiledStarts(cap: nat, v: Writer, open: bool, r: Record, b: Block, bufs': seq<Buf>, n: nat)
    requires 0 < cap && Open(cap, Start(Views(v.bufs), open)) && bufs' == Extended(cap, v.bufs, open, r, b.bytes)
    requires n <= |bufs'| && Starts(v.bufs) == v.sent
    ensures var m := if open then |v.bufs| else |v.bufs| + 1;
            if n < m then n <= |v.bufs| && Starts(bufs'[..n]) == Starts(v.bufs[..n])
            else Starts(bufs'[..n]) == v.sent + [r]
  {
    hide Extend, Starts;
    var m := if open then |v.bufs| else |v.bufs| + 1;
    if n < m {
      StartsAgree(bufs', v.bufs, n);
    } else {
      StartsAgree(bufs', v.bufs, m - 1);
      StartsEnd(bufs', m, n);
      StartsLast(bufs', m);
      assert v.bufs[..|v.bufs|] == v.bufs;
      if open {
        StartsLast(v.bufs, m);
      }
    }
  }

  lemma {:induction false} StartsLast(bufs: seq<Buf>, n: nat)
    requires 0 < n <= |bufs|
    ensures Starts(bufs[..n]) == Starts(bufs[..n - 1]) + bufs[n - 1].starts
  {
    assert bufs[..n][..n - 1] == bufs[..n - 1];
  }

  lemma {:induction false} FiledBefore(cap: nat, v: Writer, open: bool, r: Record, b: Block, bufs': seq<Buf>, n: nat)
    requires 0 < cap && Open(cap, Start(Views(v.bufs), open)) && bufs' == Extended(cap, v.bufs, open, r, b.bytes)
    requires Starts(v.bufs) == v.sent && FiledTo(v.bufs, v.blocks, n) && n < |Start(Views(v.bufs), open)|
    ensures FiledTo(bufs', v.blocks + [b], n)
  {
    hide Extend, Starts, Off, Bnd, Extended;
    var v0 := Start(Views(v.bufs), open);
    FiledStarts(cap, v, open, r, b, bufs', n);
    ExtendFacts(cap, v0, b.bytes);
    OffPrefix(Views(bufs'), Views(v.bufs), n);
    var k := |Starts(v.bufs[..n])|;
    BndPrefix(v.blocks, b, k);
    if k > 0 {
      BndPrefix(v.blocks, b, k - 1);
    }
  }

  lemma {:induction false} FiledBehind(cap: nat, v: Writer, open: bool, r: Record, b: Block, bufs': seq<Buf>, n: nat)
    requires Starts(v.bufs) == v.sent && |v.sent| == |v.blocks|
    requires Shape(cap, Views(v.bufs), v.blocks) && CanStart(cap, Views(v.bufs), open, b.fixed) && b.fixed <= |b.bytes|
    requires Open(cap, Start(Views(v.bufs), open)) && bufs' == Extended(cap, v.bufs, open, r, b.bytes)
    requires |Start(Views(v.bufs), open)| <= n <= |bufs'|
    ensures FiledTo(bufs', v.blocks + [b], n)
  {
    hide Extend, Starts, Bnd, Off, Extended, Shape;
    FiledStarts(cap, v, open, r, b, bufs', n);
    EndsBehind(cap, Views(v.bufs), open, v.blocks, b, n);
  }

  /** Every buffer from the one a record starts in on ends inside or behind that record. */
  lemma {:induction false} EndsBehind(cap: nat, vs: seq<View>, open: bool, bs: seq<Block>, b: Block, n: nat)
    requires Shape(cap, vs, bs) && CanStart(cap, vs, open, b.fixed) && b.fixed <= |b.bytes|
    requires Open(cap, Start(vs, open)) && |Start(vs, open)| <= n <= |Extend(cap, Start(vs, open), b.bytes)|
    ensures Bnd(bs + [b], |bs|) < Off(Extend(cap, Start(vs, open), b.bytes), n) <= Bnd(bs + [b], |bs| + 1)
  {
    hide Extend, Bnd, Shape, HasHeader, Boundary, Off;
    var v0 := Start(vs, open);
    var r, m := Extend(cap, v0, b.bytes), |v0|;
    StartReady(cap, vs, open, bs, b.fixed);
    ExtendGrows(cap, v0, b.bytes);
    BndPrefix(bs, b, |bs|);
    BndLast(bs, b);
    OffMonotone(r, n, |r|);
    OffMonotone(r, m, n);
    StartedEarlier(cap, v0, r, bs, b, m);
  }

  lemma {:induction false} BndLast(bs: seq<Block>, b: Block)
    ensures Bnd(bs + [b], |bs| + 1) == Bnd(bs, |bs|) + |b.bytes|
  {
    BndPrefix(bs, b, |bs|);
  }

  /** The buffer a record starts in grows by at least one byte of it. */
  lemma {:induction false} StartedEarlier(cap: nat, v0: seq<View>, r': seq<View>, bs: seq<Block>, b: Block, m: nat)
    requires Grown(cap, v0, r', |b.bytes|) && m == |v0| && 0 < b.fixed <= |b.bytes|
    requires |v0[m - 1].payload| + b.fixed <= cap && Off(v0, m) == Bnd(bs, |bs|)
    ensures Bnd(bs, |bs|) < Off(r', m)
  {
    hide Bnd;
    assert Off(r', m) == Off(r', m - 1) + |r'[m - 1].payload|;
    if |r'| > m {
      assert |r'[m - 1].payload| == cap;
    }
  }

  // ---------------------------------------------------------------------------------------------------------------
  // Every step

  ghost predicate Inv(c: Config, s: State) {
    && c.cap % 8 == 0 && 72 <= c.cap <= 65519
    && (forall w :: 0 <= w < |s.writers| ==> WriterOk(c.cap, s.writers[w]))
    && Ordered(s.writers, Path(s))
    && Registered(s.writers, s.registry, s.ready)
    && AllWhole(s)
    && (forall i :: 0 <= i < |s.packets| ==> s.packets[i].index == i % 0x1_0000)
  }

  /** What a writer holds goes out whole. */
  lemma {:induction false} HeldWhole(c: Config, w: nat, v: Writer)
    requires WriterOk(c.cap, v)
    ensures Whole(Held(w, v))
  {
    hide Encodes, Off, Bnd, HasHeader, Boundary, Concat, Join, FiledTo, Starts;
  }

  lemma {:induction false} WholeAppend(a: seq<Parcel>, b: seq<Parcel>)
    requires Whole(a) && Whole(b)
    ensures Whole(a + b)
  {
  }

  /** What writer `w` holds is put behind everything of its own, at the end of the batch or of the ready queue. */
  lemma {:induction false} Handed(writers: seq<Writer>, w: nat, a: seq<Parcel>, b: seq<Parcel>, v': Writer)
    requires Ordered(writers, a + b) && w < |writers| && Of(b, w) == []
    requires v'.bufs == writers[w].bufs && v'.pulled == |v'.bufs|
    ensures Ordered(writers[w := v'], a + Held(w, writers[w]) + b)
  {
    hide Of;
    var v := writers[w];
    var held := Held(w, v);
    var writers' := writers[w := v'];
    forall x | 0 <= x < |writers| ensures Of(a + held + b, x) == First(x, writers'[x], writers'[x].pulled) {
      OfAppend(a + held, b, x);
      OfAppend(a, held, x);
      OfAppend(a, b, x);
      OfOne(held, x);
      if x == w {
        assert First(w, v', |v'.bufs|) == First(w, v, v.pulled) + held;
      }
    }
    forall p | p in a + held + b ensures p.writer < |writers'| {
      if p in a || p in b {
        assert p in a + b;
      }
    }
  }

  lemma {:induction false} PullKeeps(c: Config, s: State)
    requires Inv(c, s) && CanWork(s, PullOne)
    ensures Inv(c, Worked(c, s, PullOne))
  {
    hide WriterOk, Ordered, Whole;
    var w, s' := s.worker.todo[0], Worked(c, s, PullOne);
    var v := s.writers[w];
    HeldWhole(c, w, v);
    WholeAppend(s.worker.batch, Held(w, v));
    Unmoved(c, v, s'.writers[w]);
    var a := Flat(s.packets) + s.worker.batch;
    if v.phase.Live? {
      Handed(s.writers, w, a, s.ready, s'.writers[w]);
      assert Path(s') == a + Held(w, v) + s.ready;
    } else {
      assert Held(w, v) == [] && s'.writers[w] == v;
      assert s'.worker.batch == s.worker.batch && s'.writers == s.writers;
    }
  }

  /** A writer's buffers do not depend on who has them. */
  lemma {:induction false} Unmoved(c: Config, v: Writer, v': Writer)
    requires WriterOk(c.cap, v) && v'.bufs == v.bufs && v'.blocks == v.blocks && v'.sent == v.sent
    ensures WriterOk(c.cap, v')
  {
    hide Shape, Encodes, FiledTo, Starts;
  }

  lemma {:induction false} PushKeeps(c: Config, s: State, w: nat)
    requires Inv(c, s) && CanAct(c, s, w, Push)
    ensures Inv(c, Act(c, s, w, Push))
  {
    hide WriterOk, Ordered, Whole;
    var s' := Act(c, s, w, Push);
    var v := s.writers[w];
    var held := Held(w, v);
    HeldWhole(c, w, v);
    WholeAppend(s.ready, held);
    Unmoved(c, v, s'.writers[w]);
    assert Path(s) + [] == Path(s);
    Handed(s.writers, w, Path(s), [], s'.writers[w]);
    assert Path(s') == Path(s) + held + [];
    forall x | 0 <= x < |s.writers| && s'.writers[x].phase.Live? ensures Of(s'.ready, x) == [] {
      OfAppend(s.ready, held, x);
      OfOne(held, x);
    }
  }

  lemma {:induction false} SendKeeps(c: Config, s: State, w: nat, open: bool, r: Record, b: Block)
    requires Inv(c, s) && CanAct(c, s, w, Send(open, r, b))
    ensures Inv(c, Act(c, s, w, Send(open, r, b)))
  {
    hide WriterOk, Whole, Of, Extended, Encodes, Extend, CanStart;
    var s' := Act(c, s, w, Send(open, r, b));
    SendKeepsWriter(c, s, w, open, r, b);
    SendKeepsHandedOver(c, s, w, open, r, b);
    assert Path(s') == Path(s);
  }

  /** Buffers the worker has are not written any more. */
  lemma {:induction false} SendKeepsHandedOver(c: Config, s: State, w: nat, open: bool, r: Record, b: Block)
    requires CanAct(c, s, w, Send(open, r, b))
    ensures var v, v' := s.writers[w], Next(c, s, w, Send(open, r, b));
            && v'.bufs[..v.pulled] == v.bufs[..v.pulled] && First(w, v', v'.pulled) == First(w, v, v.pulled)
            && v'.pulled == v.pulled
  {
    hide Extend, Encodes;
    var v, v' := s.writers[w], Next(c, s, w, Send(open, r, b));
    ExtendFacts(c.cap, Start(Views(v.bufs), open), b.bytes);
    forall i | 0 <= i < v.pulled ensures v'.bufs[i] == v.bufs[i] {
      assert v'.bufs[i].view == Views(v'.bufs)[i] == v.bufs[i].view;
    }
  }

  lemma {:induction false} RegisterKeeps(c: Config, s: State, kind: Stream)
    requires Inv(c, s) && Enabled(c, s, Register(kind))
    ensures Inv(c, Apply(c, s, Register(kind)))
  {
    hide Whole, Of, WriterOk, Registered;
    var s' := Apply(c, s, Register(kind));
    var n := |s.writers|;
    NewWriterOk(c, kind);
    assert s'.writers[n] == Writer(kind, [], [], [], 0, 0, 0, Live);
    assert Path(s') == Path(s);
    OfOne(Path(s), n);
    OfAppend(Flat(s.packets) + s.worker.batch, s.ready, n);
    assert First(n, s'.writers[n], 0) == [];
    forall w | 0 <= w < |s'.writers|
      ensures WriterOk(c.cap, s'.writers[w]) && Of(Path(s'), w) == First(w, s'.writers[w], s'.writers[w].pulled)
    {
      if w < n {
        assert s'.writers[w] == s.writers[w];
      }
    }
    RegisteredGrows(s.writers, s.registry, s.ready, s'.writers[n]);
  }

  lemma {:induction false} RegisteredGrows(writers: seq<Writer>, registry: seq<nat>, ready: seq<Parcel>, v: Writer)
    requires Registered(writers, registry, ready) && v.phase.Live? && Of(ready, |writers|) == []
    ensures Registered(writers + [v], [|writers|] + registry, ready)
  {
    hide Of;
    var writers', registry' := writers + [v], [|writers|] + registry;
    assert |writers| !in registry;
    forall w | 0 <= w < |writers'| ensures w in registry' <==> InRegistry(writers'[w].phase) {
      assert w in registry' <==> w == |writers| || w in registry;
    }
  }

  lemma {:induction false} NewWriterOk(c: Config, kind: Stream)
    requires c.cap % 8 == 0
    ensures WriterOk(c.cap, Writer(kind, [], [], [], 0, 0, 0, Live))
  {
    var v := Writer(kind, [], [], [], 0, 0, 0, Live);
    forall n | 0 <= n <= |v.bufs| ensures FiledTo(v.bufs, v.blocks, n) {
      assert v.bufs[..n] == [];
    }
  }

  lemma {:induction false} UnregisterKeeps(c: Config, s: State, w: nat)
    requires Inv(c, s) && CanAct(c, s, w, Unregister)
    ensures Inv(c, Act(c, s, w, Unregister))
  {
    hide WriterOk, Whole, Of;
    var s' := Act(c, s, w, Unregister);
    WithoutRemoves(s.registry, w);
    Unmoved(c, s.writers[w], s'.writers[w]);
    assert Path(s') == Path(s);
  }

  lemma {:induction false} WithoutRemoves(registry: seq<nat>, w: nat)
    requires forall i, j :: 0 <= i < j < |registry| ==> registry[i] != registry[j]
    ensures var r := Without(registry, w);
            w !in r && forall i, j :: 0 <= i < j < |r| ==> r[i] != r[j]
    decreases |registry|
  {
    if registry != [] && registry[0] != w {
      var t := Without(registry[1..], w);
      WithoutRemoves(registry[1..], w);
      assert Without(registry, w) == [registry[0]] + t;
      assert registry[0] !in registry[1..];
      assert registry[0] !in t;
    }
  }

  lemma {:induction false} FlushKeeps(c: Config, s: State)
    requires Inv(c, s) && CanWork(s, Flush)
    ensures Inv(c, Worked(c, s, Flush))
  {
    hide WriterOk, Ordered, Whole, Registered, Quiet, Flat;
    var s' := Worked(c, s, Flush);
    if s'.packets != s.packets {
      FlatSnoc(s.packets, s'.packets[|s.packets|]);
      assert Path(s') == Path(s);
      EmptyWhole();
    }
  }

  lemma {:induction false} FlatSnoc(packets: seq<Packet>, p: Packet)
    ensures Flat(packets + [p]) == Flat(packets) + p.parcels
  {
    assert (packets + [p])[..|packets|] == packets;
  }

  lemma {:induction false} DrainKeeps(c: Config, s: State)
    requires Inv(c, s) && CanWork(s, DrainReady)
    ensures Inv(c, Worked(c, s, DrainReady))
  {
    hide WriterOk, Ordered, Whole;
    var s' := Worked(c, s, DrainReady);
    WholeAppend(s.worker.batch, s.ready);
    assert Path(s') == Path(s);
    assert Whole([]) by { EmptyWhole(); }
  }

  lemma {:induction false} EmptyWhole()
    ensures Whole([])
  {
  }

  /** Steps of one writer that touch only its counters or its phase. */
  lemma {:induction false} PhaseKeeps(c: Config, s: State, w: nat, s': State)
    requires Inv(c, s) && w < |s.writers| && |s'.writers| == |s.writers| && s'.writers == s.writers[w := s'.writers[w]]
    requires s'.registry == s.registry && s'.ready == s.ready && s'.worker.batch == s.worker.batch
             && s'.packets == s.packets
    requires var v, v' := s.writers[w], s'.writers[w];
             && v'.bufs == v.bufs && v'.blocks == v.blocks && v'.sent == v.sent && v'.pulled == v.pulled
             && (v'.phase.Live? <==> v.phase.Live?) && (InRegistry(v'.phase) <==> InRegistry(v.phase))
    ensures Inv(c, s')
  {
    hide WriterOk, Whole, Of;
    Unmoved(c, s.writers[w], s'.writers[w]);
    assert Path(s') == Path(s);
  }

  lemma {:induction false} ActKeeps(c: Config, s: State, w: nat, act: WriterStep)
    requires Inv(c, s) && CanAct(c, s, w, act)
    ensures Inv(c, Act(c, s, w, act))
  {
    hide Inv, CanSend, Extended, Without;
    match act {
      case Send(open, r, b) => SendKeeps(c, s, w, open, r, b);
      case Push => PushKeeps(c, s, w);
      case Unregister => UnregisterKeeps(c, s, w);
      case _ => PhaseKeeps(c, s, w, Act(c, s, w, act));
    }
  }

  lemma {:induction false} WorkKeeps(c: Config, s: State, part: WorkerStep)
    requires Inv(c, s) && CanWork(s, part)
    ensures Inv(c, Worked(c, s, part))
  {
    hide Inv, Flushed, Parcels;
    match part {
      case PullOne => PullKeeps(c, s);
      case DrainReady => DrainKeeps(c, s);
      case Flush => FlushKeeps(c, s);
      case PollOne => PhaseKeeps(c, s, s.worker.todo[0], Worked(c, s, part));
      case _ => SameData(c, s, Worked(c, s, part));
    }
  }

  /** Every step of every thread keeps the buffers in order. */
  lemma {:induction false} StepKeeps(c: Config, s: State, step: Step)
    requires Inv(c, s) && Enabled(c, s, step)
    ensures Inv(c, Apply(c, s, step))
  {
    hide Inv, CanAct, CanWork, CanServe, Act, Worked, Served;
    match step {
      case Register(kind) => RegisterKeeps(c, s, kind);
      case By(w, act) => ActKeeps(c, s, w, act);
      case Work(part) => WorkKeeps(c, s, part);
      case _ => SameData(c, s, Apply(c, s, step));
    }
  }

  lemma {:induction false} SameData(c: Config, s: State, s': State)
    requires Inv(c, s)
    requires s'.writers == s.writers && s'.registry == s.registry && s'.ready == s.ready
             && s'.worker.batch == s.worker.batch
    requires s'.packets == s.packets
    ensures Inv(c, s')
  {
    hide WriterOk, Ordered, Registered, Whole;
  }

  lemma {:induction false} InvHolds(c: Config, states: seq<State>, steps: seq<Step>, i: nat)
    requires Run(c, states, steps) && i < |states|
    ensures Inv(c, states[i])
  {
    if i == 0 {
      EmptyWhole();
    } else {
      InvHolds(c, states, steps, i - 1);
      StepKeeps(c, states[i - 1], steps[i - 1]);
    }
  }

  // ---------------------------------------------------------------------------------------------------------------
  // What the sink has

  /** What the sink has of writer `w`. */
  function AtSink(s: State, w: nat): seq<Parcel> {
    Of(Flat(s.packets), w)
  }

  function Payload(ps: seq<Parcel>): seq<byte> {
    if ps == [] then [] else Payload(ps[..|ps| - 1]) + ps[|ps| - 1].buf.view.payload
  }

  /** Over all batches the buffers of a writer are its first buffers, numbered 0, 1, 2, ... without gap or swap. */
  lemma {:induction false} SinkInOrder(c: Config, states: seq<State>, steps: seq<Step>, i: nat, w: nat)
    requires Run(c, states, steps) && i < |states| && w < |states[i].writers|
    ensures var n := |AtSink(states[i], w)|;
            n <= states[i].writers[w].pulled && AtSink(states[i], w) == First(w, states[i].writers[w], n)
  {
    InvHolds(c, states, steps, i);
    SinkFirst(c, states[i], w);
  }

  lemma {:induction false} SinkFirst(c: Config, s: State, w: nat)
    requires Inv(c, s) && w < |s.writers|
    ensures var n := |AtSink(s, w)|; n <= s.writers[w].pulled && AtSink(s, w) == First(w, s.writers[w], n)
  {
    var v := s.writers[w];
    assert Path(s) == Flat(s.packets) + (s.worker.batch + s.ready);
    OfAppend(Flat(s.packets), s.worker.batch + s.ready, w);
    var all, n := First(w, v, v.pulled), |AtSink(s, w)|;
    assert AtSink(s, w) == all[..n] == First(w, v, n);
  }

  /** In every batch the fragments of a record follow each other. */
  lemma {:induction false} SinkWhole(c: Config, states: seq<State>, steps: seq<Step>, i: nat, k: nat)
    requires Run(c, states, steps) && i < |states| && k < |states[i].packets|
    ensures Whole(states[i].packets[k].parcels) && states[i].packets[k].index == k % 0x1_0000
  {
    InvHolds(c, states, steps, i);
  }

  predicate WholeOf(ps: seq<Parcel>, w: nat) {
    forall j :: 0 <= j < |ps| && ps[j].writer == w && ps[j].buf.view.fragment ==> j + 1 < |ps| && ps[j + 1].writer == w
  }

  lemma {:induction false} LastIsWhole(ps: seq<Parcel>, w: nat)
    requires WholeOf(ps, w) && Of(ps, w) != []
    ensures !Of(ps, w)[|Of(ps, w)| - 1].buf.view.fragment
    decreases |ps|
  {
    if ps[|ps| - 1].writer != w {
      LastIsWhole(ps[..|ps| - 1], w);
    }
  }

  lemma {:induction false} FlatWhole(packets: seq<Packet>)
    requires forall i :: 0 <= i < |packets| ==> Whole(packets[i].parcels)
    ensures Whole(Flat(packets))
    decreases |packets|
  {
    if packets != [] {
      FlatWhole(packets[..|packets| - 1]);
      WholeAppend(Flat(packets[..|packets| - 1]), packets[|packets| - 1].parcels);
    }
  }

  /** A cut behind a buffer without FRAGMENT is a cut between two records. */
  lemma {:induction false} CutIsClean(cap: nat, v: Writer, n: nat)
    requires WriterOk(cap, v) && n <= |v.bufs| && (n > 0 ==> !v.bufs[n - 1].view.fragment)
    ensures var k := |Starts(v.bufs[..n])|;
            && k <= |v.sent| && Starts(v.bufs[..n]) == v.sent[..k]
            && Join(Views(v.bufs)[..n]) == Concat(BlockBytes(v.blocks[..k]))
  {
    hide Encodes, Off, Bnd, HasHeader, Starts, Join, Concat;
    var vs, bs := Views(v.bufs), v.blocks;
    var k := |Starts(v.bufs[..n])|;
    assert FiledTo(v.bufs, bs, n);
    StartsPrefix(v.bufs, n);
    assert Boundary(bs, Off(vs, n)) by {
      if n == 0 {
        OffIsJoin(vs, 0);
        ZeroIsBoundary(vs, bs);
      } else {
        assert vs[n - 1] == v.bufs[n - 1].view;
        if n == |vs| {
          assert Off(vs, n) == Bnd(bs, |bs|);
        }
      }
    }
    var j :| 0 <= j <= |bs| && Bnd(bs, j) == Off(vs, n);
    SameBoundary(bs, j, k, Off(vs, n));
    OffIsJoin(vs, n);
    BndIsConcat(bs, k);
    JoinPrefix(vs, n);
    ConcatPrefix(bs, k);
    assert |Join(vs[..n])| == |Concat(BlockBytes(bs[..k]))|;
  }

  lemma {:induction false} ZeroIsBoundary(vs: seq<View>, bs: seq<Block>)
    ensures Boundary(bs, Off(vs, 0))
  {
    assert Bnd(bs, 0) == 0;
  }

  lemma {:induction false} StartsPrefix(bufs: seq<Buf>, n: nat)
    requires n <= |bufs|
    ensures var k := |Starts(bufs[..n])|; k <= |Starts(bufs)| && Starts(bufs[..n]) == Starts(bufs)[..k]
    decreases |bufs|
  {
    if n == |bufs| {
      assert bufs[..n] == bufs;
    } else {
      StartsPrefix(bufs[..|bufs| - 1], n);
      assert bufs[..|bufs| - 1][..n] == bufs[..n];
    }
  }

  lemma {:induction false} SameBoundary(bs: seq<Block>, j: nat, k: nat, x: nat)
    requires j <= |bs| && k <= |bs| && Bnd(bs, j) == x
    requires x <= Bnd(bs, k) && (k > 0 ==> Bnd(bs, k - 1) < x)
    requires forall i :: 0 <= i < |bs| ==> 0 < |bs[i].bytes|
    ensures j == k
  {
    if j < k {
      BndMonotone(bs, j, k - 1);
    } else if k < j {
      BndMonotone(bs, k, j - 1);
    }
  }

  lemma {:induction false} BndIsConcat(bs: seq<Block>, k: nat)
    requires k <= |bs|
    ensures Bnd(bs, k) == |Concat(BlockBytes(bs[..k]))|
  {
    if k > 0 {
      BndIsConcat(bs, k - 1);
      var bb := BlockBytes(bs[..k]);
      assert bb[..k - 1] == BlockBytes(bs[..k - 1]);
    }
  }

  lemma {:induction false} JoinPrefix(vs: seq<View>, n: nat)
    requires n <= |vs|
    ensures Join(vs[..n]) <= Join(vs)
  {
    JoinAppendLast(vs[..n], vs[n..]);
    assert vs[..n] + vs[n..] == vs;
  }

  lemma {:induction false} ConcatPrefix(bs: seq<Block>, k: nat)
    requires k <= |bs|
    ensures Concat(BlockBytes(bs[..k])) <= Concat(BlockBytes(bs))
  {
    ConcatAppend(BlockBytes(bs[..k]), BlockBytes(bs[k..]));
    assert BlockBytes(bs[..k]) + BlockBytes(bs[k..]) == BlockBytes(bs);
  }

  lemma {:induction false} PayloadIsJoin(w: nat, v: Writer, n: nat)
    requires n <= |v.bufs|
    ensures Payload(First(w, v, n)) == Join(Views(v.bufs)[..n])
  {
    if n > 0 {
      PayloadIsJoin(w, v, n - 1);
      assert First(w, v, n)[..n - 1] == First(w, v, n - 1);
      assert Views(v.bufs)[..n][..n - 1] == Views(v.bufs)[..n - 1];
    }
  }

  /** How many records the buffers of writer `w` at the sink hold. */
  function CountAtSink(s: State, w: nat): nat
    requires w < |s.writers|
  {
    var n := |AtSink(s, w)|;
    if n <= |s.writers[w].bufs| then |Starts(s.writers[w].bufs[..n])| else 0
  }

  /** What the sink has of a writer are its first records, whole. */
  lemma {:induction false} SinkClean(c: Config, s: State, w: nat)
    requires Inv(c, s) && w < |s.writers|
    ensures var v, n, k := s.writers[w], |AtSink(s, w)|, CountAtSink(s, w);
            && n <= |v.bufs| && k <= |v.sent| && |v.blocks| == |v.sent| && Starts(v.bufs[..n]) == v.sent[..k]
            && Payload(AtSink(s, w)) == Concat(BlockBytes(v.blocks[..k]))
  {
    hide Encodes, Shape, Starts, Filed, Ordered, Registered, Whole, SentAs;
    var v, n := s.writers[w], |AtSink(s, w)|;
    SinkFirst(c, s, w);
    FlatWhole(s.packets);
    if n > 0 {
      WholeEach(Flat(s.packets), w);
      LastIsWhole(Flat(s.packets), w);
      assert AtSink(s, w)[n - 1].buf == v.bufs[n - 1];
    }
    CutIsClean(c.cap, v, n);
    PayloadIsJoin(w, v, n);
  }

  /** At every moment of every run, the buffers of a writer at the sink hold its first records, whole: their joined
      payload decodes to exactly those if and only if every log has arguments within the limit, and always for spans. */
  lemma {:induction false} SinkDecodes(c: Config, states: seq<State>, steps: seq<Step>, i: nat, w: nat, known: Known)
    requires Run(c, states, steps) && i < |states| && w < |states[i].writers|
    requires var v, k := states[i].writers[w], CountAtSink(states[i], w);
             forall j :: 0 <= j < k && j < |v.sent| ==> Describes(v.kind, known, v.sent[j])
    ensures var s, v := states[i], states[i].writers[w];
            var k := CountAtSink(s, w);
            && k <= |v.sent|
            && (DecodeStream(v.kind, known, Payload(AtSink(s, w))) == Some(v.sent[..k]) <==> AllArgsFit(v.sent[..k]))
            && (v.kind.Traces? ==> DecodeStream(v.kind, known, Payload(AtSink(s, w))) == Some(v.sent[..k]))
  {
    InvHolds(c, states, steps, i);
    SinkStream(c, states[i], w, known);
  }

  lemma {:induction false} SinkStream(c: Config, s: State, w: nat, known: Known)
    requires Inv(c, s) && w < |s.writers|
    requires forall j :: 0 <= j < CountAtSink(s, w) && j < |s.writers[w].sent| ==>
               Describes(s.writers[w].kind, known, s.writers[w].sent[j])
    ensures var v, k := s.writers[w], CountAtSink(s, w);
            && k <= |v.sent|
            && (DecodeStream(v.kind, known, Payload(AtSink(s, w))) == Some(v.sent[..k]) <==> AllArgsFit(v.sent[..k]))
            && (v.kind.Traces? ==> DecodeStream(v.kind, known, Payload(AtSink(s, w))) == Some(v.sent[..k]))
  {
    SinkClean(c, s, w);
    hide Encodes, Describes, Shape, Filed, Ordered, Registered, AllWhole, DecodeStream, CountAtSink, AtSink,
         Payload, ArgsFit, Bounded;
    var v, k := s.writers[w], CountAtSink(s, w);
    forall j | 0 <= j < k ensures Encodes(v.sent[..k][j], BlockBytes(v.blocks[..k])[j]) && Bounded(v.sent[..k][j]) {
      assert SentAs(v.sent[j], v.blocks[j]);
    }
    BoundedStream(v.kind, known, v.sent[..k], BlockBytes(v.blocks[..k]));
  }

  lemma {:induction false} WholeEach(ps: seq<Parcel>, w: nat)
    requires Whole(ps)
    ensures WholeOf(ps, w)
  {
  }
}

/** The writer class takes the steps the collection protocol gives a writer: what a call of it does to arrays, parked
    buffers and counters is one send or one drop there, after at most one pull by the worker. */
module Refinement {
  import opened Bytes
  import opened Fragments
  import opened Wire
  import opened Collection
  import Impl = TlsWriter
  import RawBuffers

  /** The protocol's writer `v` stands for the object `w`. */
  ghost predicate Shows(w: Impl.TlsWriter, v: Writer)
    reads w, w.source, w.fragments, w.buffer
  {
    && Views(v.bufs) == w.Now() && v.pulled == |w.delivered| && v.blocks == w.blocks && v.sent == w.sent
    && v.dropped == if v.kind.Logs? then w.droppedLogs else w.droppedTraces
  }

  /** A new object shows the writer a Register step adds. */
  method NewWriter(source: Impl.BufferSource, packetType: byte, threadId: u32, writerId: u32, ghost c: Config,
                   ghost s: State, ghost kind: Stream)
    returns (w: Impl.TlsWriter)
    requires source.size % 8 == 0 && 88 <= source.size <= 65535 && source.lent == {}
    requires Enabled(c, s, Register(kind)) && c.cap == source.size - BUF_HDR
    ensures fresh(w) && w.Valid() && w.source == source && w.buffer == null && w.attrCache == [] && c.cap == w.Cap()
    ensures Registered(w, c, s, kind)
  {
    hide Shape, Join, Concat;
    w := new Impl.TlsWriter(source, packetType, threadId, writerId);
  }

  ghost predicate Registered(w: Impl.TlsWriter, c: Config, s: State, kind: Stream)
    reads w, w.source, w.fragments, w.buffer
  {
    && Enabled(c, s, Register(kind))
    && Shows(w, Apply(c, s, Register(kind)).writers[|s.writers|])
    && Apply(c, s, Register(kind)).writers[|s.writers|].phase.Live?
  }

  /** What pull does to the writer at `i`. */
  function AfterPull(s: State, i: nat): State
    requires i < |s.writers|
  {
    s.(writers := s.writers[i := s.writers[i].(pulled := |s.writers[i].bufs|)])
  }

  /** The state a send finds once it holds the lock. */
  ghost function Found(s: State, i: nat, same: bool): State
    requires i < |s.writers|
  {
    if same then s else AfterPull(s, i)
  }

  /** The step `act` from `s1` is what the object did. */
  ghost predicate Took(w: Impl.TlsWriter, c: Config, s1: State, i: nat, act: WriterStep)
    reads w, w.source, w.fragments, w.buffer
  {
    CanAct(c, s1, i, act) && Shows(w, Next(c, s1, i, act))
  }

  lemma {:induction false} SendEnabled(c: Config, s: State, i: nat, open: bool, r: Record, b: Block)
    requires i < |s.writers| && s.writers[i].phase.Live? && (s.writers[i].kind.Logs? <==> r.Log?)
    requires r.timestamp == s.clock && Resolved(s.service, r) && AttrsOf(s.reg, r)
    requires b.fixed == Fixed(r) && Encodes(r, b.bytes) && Bounded(r)
    requires CanStart(c.cap, Views(s.writers[i].bufs), open, b.fixed)
    requires open ==> s.writers[i].pulled < |s.writers[i].bufs|
    ensures CanAct(c, s, i, Send(open, r, b)) && Open(c.cap, Start(Views(s.writers[i].bufs), open)) && 0 < c.cap
    ensures var v, v' := s.writers[i], Next(c, s, i, Send(open, r, b));
            && Views(v'.bufs) == Extend(c.cap, Start(Views(v.bufs), open), b.bytes)
            && v'.blocks == v.blocks + [b] && v'.sent == v.sent + [r]
            && v'.pulled == v.pulled && v'.dropped == v.dropped && v'.kind == v.kind
  {
    hide Encodes, Extend, Resolved, AttrsOf, Bounded;
  }

  /** A committed record is a Send step. */
  lemma {:induction false} SendMatches(w: Impl.TlsWriter, c: Config, s: State, i: nat, was: seq<View>, bs: seq<Block>,
                                       before: seq<Record>, open: bool, r: Record)
    requires w.Valid() && w.Appended(was, open, bs, w.Now())
    requires i < |s.writers| && s.writers[i].phase.Live? && (s.writers[i].kind.Logs? <==> r.Log?)
    requires Views(s.writers[i].bufs) == was && s.writers[i].pulled == |w.delivered|
    requires open ==> s.writers[i].pulled < |s.writers[i].bufs|
    requires s.writers[i].blocks == bs && s.writers[i].sent == before && w.sent == before + [r] && |before| == |bs|
    requires s.writers[i].dropped == if s.writers[i].kind.Logs? then w.droppedLogs else w.droppedTraces
    requires c.cap == w.Cap() && r.timestamp == s.clock && Resolved(s.service, r) && AttrsOf(s.reg, r)
    ensures |w.blocks| > |bs| && Took(w, c, s, i, Send(open, r, w.blocks[|bs|]))
  {
    w.LastBlock(was, open, bs, before, r);
    hide Shape, Join, Concat, Encodes, Extend, CanStart, Resolved, Open, CanAct, Next, Views, AttrsOf, Bounded;
    SendEnabled(c, s, i, open, r, w.blocks[|bs|]);
  }

  /** cp8_log::send, seen from the protocol. */
  method LogSend(w: Impl.TlsWriter, level: u8, minLevel: u8, resolved: bool, hash: u64, now: u64, traceId: u64,
                 modId: u16, args: seq<Arg>, attrs: seq<AttrVal>, reg: seq<AttrType>, ghost c: Config, ghost s: State,
                 ghost i: nat)
    returns (ok: bool, ghost s1: State, ghost act: WriterStep)
    requires w.Valid() && w.attrCache <= reg && level >= minLevel
    requires i < |s.writers| && s.writers[i].phase.Live? && s.writers[i].kind.Logs? && Shows(w, s.writers[i])
    requires c.cap == w.Cap() && now == s.clock && reg == s.reg
    requires resolved ==> hash in s.service.logs.known && ArgsOf(s.service.logs.known[hash], SentArgs(args))
    modifies w, w.source, w.buffer
    ensures w.Valid() && (s1 == s || s1 == AfterPull(s, i))
    ensures Took(w, c, s1, i, act) && (if ok then act.Send? && act.r.timestamp == now else act == Drop)
    ensures w.source.refused == old(w.source.refused) + if ok || !resolved then 0 else 1
    ensures w.buffer == null || fresh(w.buffer) || w.buffer == old(w.buffer)
  {
    hide Shape, Join, Concat, Encodes, Extend, CanStart, ArgsBytes, Plan, Open, Extended, AttrOf, ArgsOf, Bounded;
    ghost var was, bs, before, delivered := w.Now(), w.blocks, w.sent, w.delivered;
    ghost var open: bool;
    ok, open := w.SendLog(level, minLevel, resolved, hash, now, traceId, modId, args, attrs, reg);
    s1 := Found(s, i, w.delivered == delivered);
    if ok {
      ghost var r := w.sent[|before|];
      SendMatches(w, c, s1, i, was, bs, before, open, r);
      act := Send(open, r, w.blocks[|bs|]);
    } else {
      act := Drop;
    }
  }

  /** cp8_trc::write_begin, seen from the protocol. */
  method SpanBegin(w: Impl.TlsWriter, resolved: bool, hash: u64, now: u64, spanId: u64, isAsync: bool, parentId: u64,
                   attrs: seq<AttrVal>, reg: seq<AttrType>, ghost c: Config, ghost s: State, ghost i: nat)
    returns (ok: bool, ghost s1: State, ghost act: WriterStep)
    requires w.Valid() && w.attrCache <= reg
    requires i < |s.writers| && s.writers[i].phase.Live? && s.writers[i].kind.Traces? && Shows(w, s.writers[i])
    requires c.cap == w.Cap() && now == s.clock && reg == s.reg && (resolved ==> hash in s.service.spans.known)
    modifies w, w.source, w.buffer
    ensures w.Valid() && (s1 == s || s1 == AfterPull(s, i))
    ensures Took(w, c, s1, i, act) && (if ok then act.Send? && act.r.timestamp == now else act == Drop)
    ensures w.source.refused == old(w.source.refused) + if ok || !resolved then 0 else 1
    ensures w.buffer == null || fresh(w.buffer) || w.buffer == old(w.buffer)
  {
    hide Shape, Join, Concat, Encodes, Extend, CanStart, Plan, Open, Extended, AttrOf, Bounded;
    ghost var was, bs, before, delivered := w.Now(), w.blocks, w.sent, w.delivered;
    ghost var open: bool;
    ok, open := w.WriteBegin(resolved, hash, now, spanId, isAsync, parentId, attrs, reg);
    s1 := Found(s, i, w.delivered == delivered);
    if ok {
      ghost var r := w.sent[|before|];
      SendMatches(w, c, s1, i, was, bs, before, open, r);
      act := Send(open, r, w.blocks[|bs|]);
    } else {
      act := Drop;
    }
  }

  /** cp8_trc::write_end, seen from the protocol. */
  method SpanEnd(w: Impl.TlsWriter, now: u64, spanId: u64, ghost c: Config, ghost s: State, ghost i: nat)
    returns (ok: bool, ghost s1: State, ghost act: WriterStep)
    requires w.Valid()
    requires i < |s.writers| && s.writers[i].phase.Live? && s.writers[i].kind.Traces? && Shows(w, s.writers[i])
    requires c.cap == w.Cap() && now == s.clock
    modifies w, w.source, w.buffer
    ensures w.Valid() && (s1 == s || s1 == AfterPull(s, i))
    ensures Took(w, c, s1, i, act) && (if ok then act.Send? && act.r.timestamp == now else act == Drop)
    ensures w.source.refused == old(w.source.refused) + if ok then 0 else 1
    ensures w.buffer == null || fresh(w.buffer) || w.buffer == old(w.buffer)
  {
    hide Shape, Join, Concat, Encodes, Extend, CanStart, Open, Extended, Bounded;
    ghost var was, bs, before, delivered := w.Now(), w.blocks, w.sent, w.delivered;
    ghost var open: bool;
    ok, open := w.WriteEnd(now, spanId);
    s1 := Found(s, i, w.delivered == delivered);
    if ok {
      ghost var r := w.sent[|before|];
      SendMatches(w, c, s1, i, was, bs, before, open, r);
      act := Send(open, r, w.blocks[|bs|]);
    } else {
      act := Drop;
    }
  }

  /** These arrays are the buffers `ps` under way: payload and flag, and the header with type, thread, writer and
      number. */
  ghost predicate Carries(w: Impl.TlsWriter, out: seq<array<byte>>, ps: seq<Parcel>)
    reads out
  {
    |out| == |ps| &&
    forall j :: 0 <= j < |out| ==>
      && RawBuffers.ReadView(out[j][..]) == ps[j].buf.view
      && RawBuffers.HeaderReads(w.cfg, out[j][..], ps[j].number)
  }

  /** What the object holds is what the protocol's writer holds. */
  lemma {:induction false} HeldCarries(w: Impl.TlsWriter, i: nat, v: Writer)
    requires w.Resting() && Views(v.bufs) == w.Now() && v.pulled == |w.delivered|
    ensures Carries(w, w.Held(), Held(i, v))
  {
    hide *;
    Impl.HandOver(w);
    var out := w.Held();
    if |out| == 0 {
      NothingHeld(w.delivered, Impl.Raws(out), i, v);
    } else {
      HeldView(w.delivered, Impl.Raws(out), i, v, 0);
    }
    forall j | 0 <= j < |out|
      ensures RawBuffers.ReadView(out[j][..]) == Held(i, v)[j].buf.view
      ensures RawBuffers.HeaderReads(w.cfg, out[j][..], Held(i, v)[j].number)
    {
      w.HeldStamped(j);
      HeldView(w.delivered, Impl.Raws(out), i, v, j);
    }
    MakeCarries(w, out, Held(i, v));
  }

  lemma {:induction false} MakeCarries(w: Impl.TlsWriter, out: seq<array<byte>>, ps: seq<Parcel>)
    requires |out| == |ps|
    requires forall j :: 0 <= j < |out| ==> RawBuffers.ReadView(out[j][..]) == ps[j].buf.view
    requires forall j :: 0 <= j < |out| ==> RawBuffers.HeaderReads(w.cfg, out[j][..], ps[j].number)
    ensures Carries(w, out, ps)
  {
    hide RawBuffers.ReadView, RawBuffers.HeaderReads;
  }

  lemma {:induction false} NothingHeld(was: seq<View>, raws: seq<RawBuffers.Raw>, i: nat, v: Writer)
    requires Views(v.bufs) == was + RawBuffers.ReadViews(raws) && v.pulled == |was| && raws == []
    ensures Held(i, v) == []
  {
  }

  lemma {:induction false} HeldView(was: seq<View>, raws: seq<RawBuffers.Raw>, i: nat, v: Writer, j: nat)
    requires Views(v.bufs) == was + RawBuffers.ReadViews(raws) && v.pulled == |was| && j < |raws|
    ensures |Held(i, v)| == |raws| && Held(i, v)[j].number == |was| + j
    ensures RawBuffers.ReadView(raws[j]) == Held(i, v)[j].buf.view
  {
    hide RawBuffers.ReadView;
    assert Views(v.bufs)[|was| + j] == RawBuffers.ReadViews(raws)[j];
  }

  /** Handing `out` over is the worker's PullOne from `s`: the object shows the writer after it, and the batch gains the
      buffers `out` carries. */
  ghost predicate PulledAs(w: Impl.TlsWriter, c: Config, s: State, out: seq<array<byte>>)
    reads w, w.source, w.fragments, w.buffer, out
  {
    CanWork(s, PullOne) &&
    var i, s' := s.worker.todo[0], Worked(c, s, PullOne);
    && Shows(w, s'.writers[i]) && Carries(w, out, Held(i, s.writers[i]))
    && s'.worker.batch == s.worker.batch + Held(i, s.writers[i])
  }

  /** Handing `out` over is the Push of the leaving writer `i`: the ready queue gains the buffers `out` carries. */
  ghost predicate PushedAs(w: Impl.TlsWriter, c: Config, s: State, i: nat, out: seq<array<byte>>)
    reads w, w.source, w.fragments, w.buffer, out
  {
    CanAct(c, s, i, Push) &&
    var s' := Act(c, s, i, Push);
    && Shows(w, s'.writers[i]) && Carries(w, out, Held(i, s.writers[i])) && s'.ready == s.ready + Held(i, s.writers[i])
  }

  lemma {:induction false} PullOneDoes(c: Config, s: State)
    requires CanWork(s, PullOne)
    ensures var i, s' := s.worker.todo[0], Worked(c, s, PullOne);
            && |s'.writers| == |s.writers| && s'.writers[i] == s.writers[i].(pulled := |s.writers[i].bufs|)
            && s'.worker.batch == s.worker.batch + Held(i, s.writers[i])
  {
  }

  /** cp8_tls_writer::pull is the worker's PullOne: the batch gains exactly the buffers the writer held. */
  method WorkerPull(w: Impl.TlsWriter, ghost c: Config, ghost s: State) returns (out: seq<array<byte>>)
    requires w.Valid() && CanWork(s, PullOne) && Shows(w, s.writers[s.worker.todo[0]])
    modifies w, w.source
    ensures w.Valid() && PulledAs(w, c, s, out)
  {
    hide *;
    TodoIsWriter(s);
    ghost var i := s.worker.todo[0];
    ghost var v := s.writers[i];
    w.ValidRests();
    Shown(w, v);
    PullOneDoes(c, s);
    HeldCarries(w, i, v);
    ghost var held := w.Held();
    assert Carries(w, held, Held(i, v));
    out := w.Pull();
    assert out == held;
    assert Carries(w, held, Held(i, v));
    HandedOver(w, v, Live);
    MakePulledAs(w, c, s, out);
  }

  lemma {:induction false} TodoIsWriter(s: State)
    requires CanWork(s, PullOne)
    ensures s.worker.todo != [] && s.worker.todo[0] < |s.writers|
  {
  }

  lemma {:induction false} MakePulledAs(w: Impl.TlsWriter, c: Config, s: State, out: seq<array<byte>>)
    requires CanWork(s, PullOne)
    requires var i := s.worker.todo[0];
             && Shows(w, s.writers[i].(pulled := |s.writers[i].bufs|)) && Carries(w, out, Held(i, s.writers[i]))
    ensures PulledAs(w, c, s, out)
  {
    hide Shows, Carries, Held;
  }

  lemma {:induction false} Shown(w: Impl.TlsWriter, v: Writer)
    requires Shows(w, v)
    ensures Views(v.bufs) == w.Now() && v.pulled == |w.delivered| && v.blocks == w.blocks && v.sent == w.sent
    ensures v.dropped == if v.kind.Logs? then w.droppedLogs else w.droppedTraces
  {
  }

  /** After everything was handed over the object shows the writer with nothing held, in any phase. */
  lemma {:induction false} HandedOver(w: Impl.TlsWriter, v: Writer, p: Phase)
    requires Views(v.bufs) == w.Now() == w.delivered && v.blocks == w.blocks && v.sent == w.sent
    requires v.dropped == if v.kind.Logs? then w.droppedLogs else w.droppedTraces
    ensures Shows(w, v.(pulled := |v.bufs|)) && Shows(w, v.(pulled := |v.bufs|, phase := p))
  {
  }

  /** cp8_tls_writer::core_push is the Push of a leaving writer: the ready queue gains exactly what it held. */
  method ExitPush(w: Impl.TlsWriter, ghost c: Config, ghost s: State, ghost i: nat) returns (chain: seq<array<byte>>)
    requires w.Valid() && CanAct(c, s, i, Push) && Shows(w, s.writers[i])
    modifies w, w.source
    ensures w.Valid() && PushedAs(w, c, s, i, chain)
  {
    hide *;
    ActsOnWriter(c, s, i, Push);
    ghost var v := s.writers[i];
    w.ValidRests();
    Shown(w, v);
    HeldCarries(w, i, v);
    ghost var held := w.Held();
    assert Carries(w, held, Held(i, v));
    chain := w.CorePush();
    assert chain == held;
    assert Carries(w, held, Held(i, v));
    HandedOver(w, v, Pushed);
    MakePushedAs(w, c, s, i, chain);
  }

  lemma {:induction false} ActsOnWriter(c: Config, s: State, i: nat, act: WriterStep)
    requires CanAct(c, s, i, act)
    ensures i < |s.writers|
  {
    hide CanSend;
  }

  lemma {:induction false} MakePushedAs(w: Impl.TlsWriter, c: Config, s: State, i: nat, out: seq<array<byte>>)
    requires CanAct(c, s, i, Push)
    requires Shows(w, s.writers[i].(pulled := |s.writers[i].bufs|, phase := Pushed))
    requires Carries(w, out, Held(i, s.writers[i]))
    ensures PushedAs(w, c, s, i, out)
  {
    hide Shows, Carries, Held;
  }
}

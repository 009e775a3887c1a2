/** The sink explains itself: the argument kinds read off the service stream at the sink are enough to decode every
    record at the sink, at every moment of every run. */
module CollectionDecode {
  import opened Bytes
  import opened Fragments
  import opened Wire
  import opened Collection
  import Order = CollectionOrder
  import Descs = CollectionDescs

  /** What a decoder learns about log arguments from service entries. */
  function KindsIn(es: seq<Entry>): map<u64, seq<ArgKind>> {
    if es == [] then map[]
    else
      var e, m := es[|es| - 1], KindsIn(es[..|es| - 1]);
      if e.LogDesc? then m[e.hash := e.kinds] else m
  }

  lemma {:induction false} KindsFound(es: seq<Entry>, h: u64, ks: seq<ArgKind>)
    requires Descs.Once(es) && LogDesc(h, ks) in es
    ensures h in KindsIn(es) && KindsIn(es)[h] == ks
    decreases |es|
  {
    var n := |es| - 1;
    if es[n] != LogDesc(h, ks) {
      var j :| 0 <= j < |es| && es[j] == LogDesc(h, ks);
      assert es[..n][j] == es[j];
      assert !Descs.SameKey(es[j], es[n]);
      KindsFound(es[..n], h, ks);
    }
  }

  // ---------------------------------------------------------------------------------------------------------------
  // Records and attribute types

  predicate SentOk(reg: seq<AttrType>, v: Writer) {
    forall j :: 0 <= j < |v.sent| ==> AttrsOf(reg, v.sent[j]) && (v.kind.Logs? <==> v.sent[j].Log?)
  }

  predicate Inv(reg: seq<AttrType>, writers: seq<Writer>) {
    forall w :: 0 <= w < |writers| ==> SentOk(reg, writers[w])
  }

  lemma {:induction false} ActKeeps(c: Config, s: State, w: nat, act: WriterStep)
    requires Inv(s.reg, s.writers) && CanAct(c, s, w, act)
    ensures Inv(Act(c, s, w, act).reg, Act(c, s, w, act).writers)
  {
    hide Encodes, CanStart, Resolved, Extended, AttrsOf, Without;
    assert SentOk(s.reg, Next(c, s, w, act));
  }

  lemma {:induction false} AttrsGrow(reg: seq<AttrType>, ty: AttrType, writers: seq<Writer>)
    requires Inv(reg, writers)
    ensures Inv(reg + [ty], writers)
  {
    forall w | 0 <= w < |writers| ensures SentOk(reg + [ty], writers[w]) {
      assert SentOk(reg, writers[w]);
    }
  }

  lemma {:induction false} RegisterKeeps(c: Config, s: State, kind: Stream)
    requires Inv(s.reg, s.writers) && Enabled(c, s, Register(kind))
    ensures Inv(s.reg, Apply(c, s, Register(kind)).writers)
  {
    hide AttrsOf;
  }

  lemma {:induction false} WorkKeeps(c: Config, s: State, part: WorkerStep)
    requires Inv(s.reg, s.writers) && CanWork(s, part)
    ensures Inv(Worked(c, s, part).reg, Worked(c, s, part).writers)
  {
    hide AttrsOf, Quiet, Parcels;
  }

  lemma {:induction false} StepKeeps(c: Config, s: State, step: Step)
    requires Inv(s.reg, s.writers) && Enabled(c, s, step)
    ensures Inv(Apply(c, s, step).reg, Apply(c, s, step).writers)
  {
    hide CanAct, CanWork, CanServe, Act, Worked, Served, Inv;
    match step {
      case AddAttr(ty) => AttrsGrow(s.reg, ty, s.writers);
      case Register(kind) => RegisterKeeps(c, s, kind);
      case By(w, act) => ActKeeps(c, s, w, act);
      case Work(part) => WorkKeeps(c, s, part);
      case _ =>
    }
  }

  lemma {:induction false} InvHolds(c: Config, states: seq<State>, steps: seq<Step>, i: nat)
    requires Run(c, states, steps) && i < |states|
    ensures Inv(states[i].reg, states[i].writers)
  {
    hide Enabled, Apply;
    if i > 0 {
      InvHolds(c, states, steps, i - 1);
      StepKeeps(c, states[i - 1], steps[i - 1]);
    }
  }

  // ---------------------------------------------------------------------------------------------------------------
  // From the buffers at the sink to the descriptors there

  lemma {:induction false} FlatWritten(es: seq<Entry>, packets: seq<Packet>)
    requires forall i :: 0 <= i < |packets| ==> Descs.WrittenIn(es, packets[i].parcels)
    ensures Descs.WrittenIn(es, Order.Flat(packets))
    decreases |packets|
  {
    hide Descs.Described;
    if packets != [] {
      FlatWritten(es, packets[..|packets| - 1]);
    }
  }

  lemma {:induction false} OfIsPart(ps: seq<Parcel>, w: nat, p: Parcel)
    requires p in Order.Of(ps, w)
    ensures p in ps
    decreases |ps|
  {
    var n := |ps| - 1;
    if p in Order.Of(ps[..n], w) {
      OfIsPart(ps[..n], w, p);
    }
  }

  lemma {:induction false} StartedIn(bufs: seq<Buf>, r: Record)
    requires r in Order.Starts(bufs)
    ensures exists m :: 0 <= m < |bufs| && r in bufs[m].starts
    decreases |bufs|
  {
    var n := |bufs| - 1;
    if r in bufs[n].starts {
    } else {
      StartedIn(bufs[..n], r);
      var m :| 0 <= m < |bufs[..n]| && r in bufs[..n][m].starts;
      assert r in bufs[m].starts;
    }
  }

  /** A record of writer `w` at the sink has its descriptor there. */
  lemma {:induction false} AtSinkDescribed(c: Config, s: State, w: nat, j: nat)
    requires Order.Inv(c, s) && Descs.Inv(s) && w < |s.writers|
    requires j < Order.CountAtSink(s, w) && j < |s.writers[w].sent|
    ensures Descs.Described(s.service.written, s.writers[w].sent[j])
  {
    Order.SinkClean(c, s, w);
    Order.SinkFirst(c, s, w);
    hide Order.Inv, Descs.ServiceOk, Descs.HeldKnown, Descs.KnownIn, Descs.BatchOk, Descs.Described, Order.Of,
         Order.Starts, Order.Payload;
    var v, n, k := s.writers[w], |Order.AtSink(s, w)|, Order.CountAtSink(s, w);
    var r := v.sent[j];
    assert r == v.sent[..k][j];
    StartedIn(v.bufs[..n], r);
    var m :| 0 <= m < n && r in v.bufs[..n][m].starts;
    var p := Order.AtSink(s, w)[m];
    assert p.buf == v.bufs[m];
    OfIsPart(Order.Flat(s.packets), w, p);
    FlatWritten(s.service.written, s.packets);
  }

  /** The decoder at the sink: argument kinds from the service stream there, attribute types from the registry. */
  function KnownAtSink(s: State): Known {
    Known(KindsIn(s.service.written), s.reg)
  }

  lemma {:induction false} AtSinkDescribes(c: Config, s: State, w: nat, j: nat)
    requires Order.Inv(c, s) && Descs.Inv(s) && Inv(s.reg, s.writers) && w < |s.writers|
    requires j < Order.CountAtSink(s, w) && j < |s.writers[w].sent|
    ensures Describes(s.writers[w].kind, KnownAtSink(s), s.writers[w].sent[j])
  {
    hide Order.Ordered, Order.Registered, Order.AllWhole, Descs.WrittenIn, Descs.KnownIn, Descs.BatchOk, Shape,
         Order.Filed, KindsIn, ArgsOf, AttrOf;
    var v, r := s.writers[w], s.writers[w].sent[j];
    AtSinkDescribed(c, s, w, j);
    assert Order.SentAs(v.sent[j], v.blocks[j]);
    AttrsCount(r, v.blocks[j].bytes);
    assert SentOk(s.reg, v);
    if r.Log? {
      WrittenOnce(s.service);
      var ks :| LogDesc(r.hash, ks) in s.service.written && ArgsOf(ks, r.args);
      KindsFound(s.service.written, r.hash, ks);
    }
  }

  lemma {:induction false} AttrsCount(r: Record, bytes: seq<byte>)
    requires Encodes(r, bytes)
    ensures !r.End? ==> |r.attrs| <= MAX_ATTRS
  {
    hide Head, Body;
  }

  lemma {:induction false} WrittenOnce(sv: Service)
    requires Descs.ServiceOk(sv)
    ensures Descs.Once(sv.written)
  {
    hide Descs.LogsOk, Descs.SpansOk;
    assert Descs.All(sv) == sv.written + (sv.taken + sv.pending);
    Descs.Prefix(sv.written, sv.taken + sv.pending);
  }

  /** At every moment of every run, whoever has the service and data streams of the sink and the attribute types can
      decode what is there of every writer: exactly its first records, in order, if and only if every log among them has
      arguments within the limit; spans always. */
  lemma {:induction false} SinkExplainsItself(c: Config, states: seq<State>, steps: seq<Step>, i: nat, w: nat)
    requires Run(c, states, steps) && i < |states| && w < |states[i].writers|
    ensures var s, v := states[i], states[i].writers[w];
            var k := Order.CountAtSink(s, w);
            var out := DecodeStream(v.kind, KnownAtSink(s), Order.Payload(Order.AtSink(s, w)));
            && k <= |v.sent|
            && (out == Some(v.sent[..k]) <==> AllArgsFit(v.sent[..k]))
            && (v.kind.Traces? ==> out == Some(v.sent[..k]))
  {
    hide *;
    var s := states[i];
    Order.InvHolds(c, states, steps, i);
    Descs.InvHolds(c, states, steps, i);
    InvHolds(c, states, steps, i);
    forall j | 0 <= j < Order.CountAtSink(s, w) && j < |s.writers[w].sent|
      ensures Describes(s.writers[w].kind, KnownAtSink(s), s.writers[w].sent[j])
    {
      AtSinkDescribes(c, s, w, j);
    }
    Order.SinkStream(c, s, w, KnownAtSink(s));
  }
}

/** The batch promise (api/p8_protocol.h): in every interleaving, no record in a batch after a packet is older than that
    packet's timestamp, and packet timestamps never decrease. */
module CollectionTime {
  import opened Bytes
  import opened Fragments
  import opened Wire
  import opened Collection
  import Order = CollectionOrder

  /** Every record that starts in these buffers was sent at `t` or later. */
  predicate Since(ps: seq<Parcel>, t: nat) {
    forall i, j :: 0 <= i < |ps| && 0 <= j < |ps[i].buf.starts| ==> ps[i].buf.starts[j].timestamp >= t
  }

  predicate HeldSince(writers: seq<Writer>, w: nat, t: nat)
    requires w < |writers|
  {
    Since(Held(w, writers[w]), t)
  }

  predicate AllHeldSince(writers: seq<Writer>, t: nat) {
    forall w :: 0 <= w < |writers| ==> HeldSince(writers, w, t)
  }

  /** The stamp a cycle would take now. */
  function StampAt(c: Config, clock: u64): u64 {
    if clock > c.margin then clock - c.margin else 0
  }

  predicate Stamps(c: Config, clock: u64, k: Worker) {
    && k.lastStamp <= StampAt(c, clock)
    && (InCycle(k.pc) ==> k.lastStamp <= k.stamp <= StampAt(c, clock))
  }

  /** What the worker left behind in this cycle is not older than the stamp. */
  predicate Left(writers: seq<Writer>, ready: seq<Parcel>, k: Worker) {
    && (k.pc.Pulling? ==> forall w :: 0 <= w < |writers| && w !in k.todo ==> HeldSince(writers, w, k.stamp))
    && (PulledAll(k.pc) ==> AllHeldSince(writers, k.stamp))
    && (HasReady(k.pc) ==> Since(ready, k.stamp))
  }

  predicate Unsent(writers: seq<Writer>, ready: seq<Parcel>, k: Worker) {
    Since(k.batch, k.lastStamp) && Since(ready, k.lastStamp) && AllHeldSince(writers, k.lastStamp)
  }

  /** The promise, for the packets at the sink. */
  predicate Promise(packets: seq<Packet>) {
    forall i, j :: 0 <= i < j < |packets| ==>
      packets[i].timestamp <= packets[j].timestamp && Since(packets[j].parcels, packets[i].timestamp)
  }

  /** The timestamp of the last packet at the sink, 0 before the first, ... */
  function LastTime(packets: seq<Packet>): u64 {
    if packets == [] then 0 else packets[|packets| - 1].timestamp
  }

  /** ... and whether that packet had data. */
  predicate LastHadData(packets: seq<Packet>) {
    packets != [] && packets[|packets| - 1].parcels != []
  }

  predicate LastPacket(packets: seq<Packet>, lastStamp: u64, withData: bool) {
    lastStamp == LastTime(packets) && (withData <==> LastHadData(packets))
  }

  ghost predicate Inv(c: Config, s: State) {
    && Stamps(c, s.clock, s.worker)
    && Left(s.writers, s.ready, s.worker)
    && Unsent(s.writers, s.ready, s.worker)
    && Promise(s.packets) && LastPacket(s.packets, s.worker.lastStamp, s.worker.withData)
  }

  lemma {:induction false} SinceAppend(a: seq<Parcel>, b: seq<Parcel>, t: nat)
    requires Since(a, t) && Since(b, t)
    ensures Since(a + b, t)
  {
  }

  lemma {:induction false} SinceEarlier(a: seq<Parcel>, t: nat, u: nat)
    requires Since(a, t) && u <= t
    ensures Since(a, u)
  {
  }

  /** A record is stamped with the clock when it is written, so what a writer holds gets no older. */
  lemma {:induction false} SendSince(c: Config, s: State, w: nat, open: bool, r: Record, b: Block, t: nat)
    requires CanAct(c, s, w, Send(open, r, b)) && Since(Held(w, s.writers[w]), t) && t <= s.clock
    ensures Since(Held(w, Next(c, s, w, Send(open, r, b))), t)
  {
    hide CanStart, Encodes, Extended, Held;
    var h' := Held(w, Next(c, s, w, Send(open, r, b)));
    forall i, j | 0 <= i < |h'| && 0 <= j < |h'[i].buf.starts| ensures h'[i].buf.starts[j].timestamp >= t {
      HeldAfterSend(c, s, w, open, r, b, i, j);
    }
  }

  lemma {:induction false} ActHeld(c: Config, s: State, w: nat, act: WriterStep, x: nat, t: nat)
    requires CanAct(c, s, w, act) && x < |s.writers| && HeldSince(s.writers, x, t) && t <= s.clock
    ensures HeldSince(Act(c, s, w, act).writers, x, t)
  {
    hide Since, CanSend, Extended, Without;
    if x == w {
      match act
      case Send(open, r, b) => SendSince(c, s, w, open, r, b, t);
      case Push =>
        assert Held(w, Next(c, s, w, act)) == [];
        NothingSince(t);
      case _ => assert Held(w, Next(c, s, w, act)) == Held(w, s.writers[w]);
    }
  }

  lemma {:induction false} NothingSince(t: nat)
    ensures Since([], t)
  {
  }

  lemma {:induction false} AllActHeld(c: Config, s: State, w: nat, act: WriterStep, t: nat)
    requires CanAct(c, s, w, act) && AllHeldSince(s.writers, t) && t <= s.clock
    ensures AllHeldSince(Act(c, s, w, act).writers, t)
  {
    hide HeldSince, CanSend, Next;
    forall x | 0 <= x < |s.writers| ensures HeldSince(Act(c, s, w, act).writers, x, t) {
      ActHeld(c, s, w, act, x, t);
    }
  }

  lemma {:induction false} ActReady(c: Config, s: State, w: nat, act: WriterStep, t: nat)
    requires CanAct(c, s, w, act) && Since(s.ready, t) && HeldSince(s.writers, w, t)
    ensures Since(Act(c, s, w, act).ready, t)
  {
    hide Since, CanSend, Extended, Without;
    if act.Push? {
      SinceAppend(s.ready, Held(w, s.writers[w]), t);
    }
  }

  lemma {:induction false} ActKeeps(c: Config, s: State, w: nat, act: WriterStep)
    requires Inv(c, s) && CanAct(c, s, w, act)
    ensures Inv(c, Act(c, s, w, act))
  {
    hide HeldSince, AllHeldSince, Since, CanSend, Next, Promise, LastPacket;
    var s' := Act(c, s, w, act);
    var k := s.worker;
    assert s'.worker == k && s'.clock == s.clock && s'.packets == s.packets && |s'.writers| == |s.writers|;
    AllActHeld(c, s, w, act, k.lastStamp);
    OneHeld(s.writers, w, k.lastStamp);
    ActReady(c, s, w, act, k.lastStamp);
    if k.pc.Pulling? {
      forall x | 0 <= x < |s'.writers| && x !in k.todo ensures HeldSince(s'.writers, x, k.stamp) {
        ActHeld(c, s, w, act, x, k.stamp);
      }
    }
    if PulledAll(k.pc) {
      AllActHeld(c, s, w, act, k.stamp);
      OneHeld(s.writers, w, k.stamp);
    }
    if HasReady(k.pc) {
      ActReady(c, s, w, act, k.stamp);
    }
  }

  lemma {:induction false} OneHeld(writers: seq<Writer>, w: nat, t: nat)
    requires AllHeldSince(writers, t) && w < |writers|
    ensures HeldSince(writers, w, t)
  {
  }

  lemma {:induction false} RegisterKeeps(c: Config, s: State, kind: Stream)
    requires Inv(c, s) && Enabled(c, s, Register(kind))
    ensures Inv(c, Apply(c, s, Register(kind)))
  {
    hide Since, Promise, LastPacket;
    var s' := Apply(c, s, Register(kind));
    var n, k := |s.writers|, s.worker;
    forall x, t: nat | 0 <= x < |s'.writers| && (x < n ==> HeldSince(s.writers, x, t))
      ensures HeldSince(s'.writers, x, t)
    {
      if x < n {
        assert s'.writers[x] == s.writers[x];
      } else {
        assert Held(n, s'.writers[n]) == [];
        NothingSince(t);
      }
    }
  }

  /** A writer the worker has visited holds nothing. */
  lemma {:induction false} PullKeeps(c: Config, s: State)
    requires Inv(c, s) && CanWork(s, PullOne)
    ensures Inv(c, Worked(c, s, PullOne))
  {
    hide Since, Promise, LastPacket;
    var s', k := Worked(c, s, PullOne), s.worker;
    var w := k.todo[0];
    OneHeld(s.writers, w, k.lastStamp);
    SinceAppend(k.batch, Held(w, s.writers[w]), k.lastStamp);
    assert Held(w, s'.writers[w]) == [];
    NothingSince(k.stamp);
    NothingSince(k.lastStamp);
    forall x, t: nat | 0 <= x < |s'.writers| && x != w && HeldSince(s.writers, x, t)
      ensures HeldSince(s'.writers, x, t)
    {
    }
    assert forall x :: x in k.todo ==> x == w || x in k.todo[1..];
  }

  /** In every run a writer that is not in the registry holds nothing, so the worker's round misses no buffer. */
  lemma {:induction false} OutsideHoldsNothing(c: Config, states: seq<State>, steps: seq<Step>, i: nat, w: nat)
    requires Run(c, states, steps) && i < |states| && w < |states[i].writers| && w !in states[i].registry
    ensures Held(w, states[i].writers[w]) == []
  {
    hide Order.WriterOk, Order.Ordered, Order.AllWhole;
    Order.InvHolds(c, states, steps, i);
  }

  lemma {:induction false} LockKeeps(c: Config, s: State)
    requires Inv(c, s) && Order.Inv(c, s) && CanWork(s, LockWriters)
    ensures Inv(c, Worked(c, s, LockWriters))
  {
    hide Since, Promise, LastPacket, Order.WriterOk, Order.Ordered, Order.AllWhole;
    forall w | 0 <= w < |s.writers| && w !in s.registry ensures HeldSince(s.writers, w, s.worker.stamp) {
      assert Held(w, s.writers[w]) == [];
      NothingSince(s.worker.stamp);
    }
  }

  lemma {:induction false} DrainKeeps(c: Config, s: State)
    requires Inv(c, s) && CanWork(s, DrainReady)
    ensures Inv(c, Worked(c, s, DrainReady))
  {
    hide Since, Promise, LastPacket, AllHeldSince;
    SinceAppend(s.worker.batch, s.ready, s.worker.lastStamp);
    NothingSince(s.worker.lastStamp);
    NothingSince(s.worker.stamp);
  }

  lemma {:induction false} FlushLast(c: Config, s: State)
    requires CanWork(s, Flush) && LastPacket(s.packets, s.worker.lastStamp, s.worker.withData)
    ensures var s' := Worked(c, s, Flush); LastPacket(s'.packets, s'.worker.lastStamp, s'.worker.withData)
  {
    hide Quiet;
  }

  lemma {:induction false} PromiseGrows(packets: seq<Packet>, p: Packet, last: u64)
    requires Promise(packets) && LastTime(packets) <= last <= p.timestamp && Since(p.parcels, last)
    ensures Promise(packets + [p])
  {
    hide Since;
    var ps := packets + [p];
    forall i, j | 0 <= i < j < |ps| ensures ps[i].timestamp <= ps[j].timestamp && Since(ps[j].parcels, ps[i].timestamp)
    {
      if j == |packets| {
        assert ps[i].timestamp <= LastTime(packets);
        SinceEarlier(p.parcels, last, ps[i].timestamp);
      }
    }
  }

  lemma {:induction false} FlushKeeps(c: Config, s: State)
    requires Inv(c, s) && CanWork(s, Flush)
    ensures Inv(c, Worked(c, s, Flush))
  {
    hide Since, AllHeldSince, Quiet, Promise;
    var s', k := Worked(c, s, Flush), s.worker;
    FlushLast(c, s);
    if s'.packets != s.packets {
      NothingSince(k.stamp);
      PromiseGrows(s.packets, s'.packets[|s.packets|], k.lastStamp);
    }
  }

  lemma {:induction false} WorkKeeps(c: Config, s: State, part: WorkerStep)
    requires Inv(c, s) && Order.Inv(c, s) && CanWork(s, part)
    ensures Inv(c, Worked(c, s, part))
  {
    hide Since, Promise, LastPacket, Order.Inv, Flushed, HeldSince;
    match part {
      case LockWriters => LockKeeps(c, s);
      case PullOne => PullKeeps(c, s);
      case DrainReady => DrainKeeps(c, s);
      case Flush => FlushKeeps(c, s);
      case PollOne => PollKeeps(c, s);
      case _ =>
    }
  }

  lemma {:induction false} PollKeeps(c: Config, s: State)
    requires Inv(c, s) && CanWork(s, PollOne)
    ensures Inv(c, Worked(c, s, PollOne))
  {
    hide Since, Promise, LastPacket;
    var s' := Worked(c, s, PollOne);
    forall x, t: nat | 0 <= x < |s'.writers| && HeldSince(s.writers, x, t) ensures HeldSince(s'.writers, x, t) {
      assert Held(x, s'.writers[x]) == Held(x, s.writers[x]);
    }
  }

  lemma {:induction false} StepKeeps(c: Config, s: State, step: Step)
    requires Inv(c, s) && Order.Inv(c, s) && Enabled(c, s, step)
    ensures Inv(c, Apply(c, s, step))
  {
    hide CanAct, CanWork, CanServe, Act, Worked, Served, Order.Inv, Left, Unsent, Promise, LastPacket;
    match step {
      case Register(kind) => RegisterKeeps(c, s, kind);
      case By(w, act) => ActKeeps(c, s, w, act);
      case Work(part) => WorkKeeps(c, s, part);
      case _ =>
    }
  }

  lemma {:induction false} InvHolds(c: Config, states: seq<State>, steps: seq<Step>, i: nat)
    requires Run(c, states, steps) && i < |states|
    ensures Inv(c, states[i])
  {
    hide Enabled, Apply;
    if i > 0 {
      InvHolds(c, states, steps, i - 1);
      Order.InvHolds(c, states, steps, i - 1);
      StepKeeps(c, states[i - 1], steps[i - 1]);
    }
  }

  /** Packet timestamps never decrease, and every record in a later batch is at least as late as each packet before
      it. */
  lemma {:induction false} BatchPromise(c: Config, states: seq<State>, steps: seq<Step>, n: nat, i: nat, j: nat)
    requires Run(c, states, steps) && n < |states| && i < j < |states[n].packets|
    ensures var ps := states[n].packets;
            && ps[i].timestamp <= ps[j].timestamp
            && forall p, r :: p in ps[j].parcels && r in p.buf.starts ==> r.timestamp >= ps[i].timestamp
  {
    InvHolds(c, states, steps, n);
    var ps := states[n].packets;
    assert Since(ps[j].parcels, ps[i].timestamp);
  }

  /** Nor will a record that has not reached the sink yet be older than the last packet there. */
  lemma {:induction false} BatchPromiseAhead(c: Config, states: seq<State>, steps: seq<Step>, n: nat, i: nat, w: nat)
    requires Run(c, states, steps) && n < |states| && i < |states[n].packets| && w < |states[n].writers|
    ensures var s := states[n];
            && s.packets[i].timestamp <= s.clock
            && forall p, r :: (p in s.worker.batch || p in s.ready || p in Held(w, s.writers[w])) && r in p.buf.starts
                 ==> r.timestamp >= s.packets[i].timestamp
  {
    InvHolds(c, states, steps, n);
    var s := states[n];
    var t := s.packets[i].timestamp;
    assert t <= s.worker.lastStamp;
    assert HeldSince(s.writers, w, s.worker.lastStamp);
  }

  /** The worker woke up at step `i` for the cycle it is in at step `n`. */
  ghost predicate WokeFor(steps: seq<Step>, i: nat, n: nat) {
    && i < n <= |steps| && steps[i].Work? && steps[i].part.Wake?
    && forall k :: i < k < n && steps[k].Work? ==> !steps[k].part.Wake?
  }

  /** The clock less the safety margin, or 0 while the clock has not passed it. */
  predicate IsMarginBehind(c: Config, clock: u64, t: u64) {
    t + c.margin == clock || (t == 0 && clock <= c.margin)
  }

  ghost predicate StampedFrom(c: Config, states: seq<State>, steps: seq<Step>, i: nat, n: nat, t: u64,
                              last: bool)
    requires |states| == |steps| + 1
  {
    WokeFor(steps, i, n) && IsMarginBehind(c, states[i].clock, t) && steps[i].part.last == last
  }

  /** The stamp of a cycle is the clock of its wake-up, less the margin. */
  lemma {:induction false} CycleStamp(c: Config, states: seq<State>, steps: seq<Step>, n: nat)
    requires Run(c, states, steps) && n < |states| && InCycle(states[n].worker.pc)
    ensures exists i: nat ::
              StampedFrom(c, states, steps, i, n, states[n].worker.stamp, states[n].worker.last)
  {
    hide Enabled, Apply;
    assert n > 0;
    var step := steps[n - 1];
    if step.Work? && step.part.Wake? {
      WakeStamps(c, states[n - 1], step);
      assert StampedFrom(c, states, steps, n - 1, n, states[n].worker.stamp, states[n].worker.last);
    } else {
      StampStays(c, states[n - 1], step);
      CycleStamp(c, states, steps, n - 1);
      var i: nat :| StampedFrom(c, states, steps, i, n - 1, states[n - 1].worker.stamp, states[n - 1].worker.last);
      assert StampedFrom(c, states, steps, i, n, states[n].worker.stamp, states[n].worker.last);
    }
  }

  lemma {:induction false} WakeStamps(c: Config, s: State, step: Step)
    requires Enabled(c, s, step) && step.Work? && step.part.Wake?
    ensures IsMarginBehind(c, s.clock, Apply(c, s, step).worker.stamp)
    ensures Apply(c, s, step).worker.last == step.part.last
  {
  }

  lemma {:induction false} StampStays(c: Config, s: State, step: Step)
    requires Enabled(c, s, step) && !(step.Work? && step.part.Wake?) && InCycle(Apply(c, s, step).worker.pc)
    ensures InCycle(s.worker.pc) && Apply(c, s, step).worker.stamp == s.worker.stamp
    ensures Apply(c, s, step).worker.last == s.worker.last
  {
    hide Enabled, Apply, CanWork, Worked;
    WorkerStays(c, s, step);
    if step.Work? {
      WorkStamps(c, s, step.part);
    }
  }

  lemma {:induction false} WorkStamps(c: Config, s: State, part: WorkerStep)
    requires CanWork(s, part) && !part.Wake?
    ensures var k := Worked(c, s, part).worker;
            InCycle(s.worker.pc) && k.stamp == s.worker.stamp && k.last == s.worker.last
  {
    hide Minus, Held;
  }

  /** A packet goes out with the batch, or without data once the last packet is `tail` (if that had data) or `idle`
      ticks ago; otherwise nothing does. */
  ghost predicate FlushedAt(c: Config, was: seq<Packet>, now: seq<Packet>, batch: seq<Parcel>, t: u64) {
    && t >= LastTime(was)
    && now == if batch != [] || t - LastTime(was) >= (if LastHadData(was) then c.tail else c.idle)
              then was + [Packet(|was| % 0x1_0000, t, batch)]
              else was
  }

  /** In every run, each flush decides by the clock of its cycle's wake-up and the packets at the sink alone, and the
      worker stops exactly after the cycle it was woken up for to stop. */
  lemma {:induction false} FlushDecides(c: Config, states: seq<State>, steps: seq<Step>, f: nat)
    requires Run(c, states, steps) && f < |steps| && steps[f] == Work(Flush)
    ensures exists i: nat, t: u64, last: bool ::
              && StampedFrom(c, states, steps, i, f, t, last)
              && FlushedAt(c, states[f].packets, states[f + 1].packets, states[f].worker.batch, t)
              && states[f + 1].worker.pc == if last then Stopped else Waiting
  {
    hide StampedFrom, Since, FlushedAt, Enabled, Apply;
    InvHolds(c, states, steps, f);
    FlushDoes(c, states[f]);
    CycleStamp(c, states, steps, f);
    var k := states[f].worker;
    var i: nat :| StampedFrom(c, states, steps, i, f, k.stamp, k.last);
  }

  lemma {:induction false} FlushDoes(c: Config, s: State)
    requires Inv(c, s) && Enabled(c, s, Work(Flush))
    ensures var s' := Apply(c, s, Work(Flush));
            && InCycle(s.worker.pc) && FlushedAt(c, s.packets, s'.packets, s.worker.batch, s.worker.stamp)
            && s'.worker.pc == if s.worker.last then Stopped else Waiting
  {
    hide Since, Promise, AllHeldSince;
  }

  lemma {:induction false} OnlyFlushWrites(c: Config, s: State, step: Step)
    requires Enabled(c, s, step)
    ensures step != Work(Flush) ==> Apply(c, s, step).packets == s.packets
  {
    hide CanAct, Next, CanServe, Served, Held;
  }

  /** Step `f` wrote packet `j`, in the cycle the worker woke up for at step `i`. */
  ghost predicate WroteAt(c: Config, states: seq<State>, steps: seq<Step>, i: nat, f: nat, j: nat, p: Packet)
    requires |states| == |steps| + 1
  {
    && f < |steps| && steps[f] == Work(Flush) && |states[f].packets| == j
    && states[f + 1].packets == states[f].packets + [p] && p.parcels == states[f].worker.batch
    && p.index == j % 0x1_0000 && StampedFrom(c, states, steps, i, f, p.timestamp, states[f].worker.last)
  }

  /** In every run, every packet at the sink was written by a flush, with all the worker had collected, and carries the
      clock at which the worker had woken up for that cycle, less the margin. */
  lemma {:induction false} PacketStamp(c: Config, states: seq<State>, steps: seq<Step>, n: nat, j: nat)
    requires Run(c, states, steps) && n < |states| && j < |states[n].packets|
    ensures exists i: nat, f: nat :: f < n && WroteAt(c, states, steps, i, f, j, states[n].packets[j])
  {
    hide Enabled, Apply, StampedFrom, FlushedAt, Inv;
    assert n > 0;
    var s, s' := states[n - 1], states[n];
    OnlyFlushWrites(c, s, steps[n - 1]);
    if steps[n - 1] == Work(Flush) {
      InvHolds(c, states, steps, n - 1);
      FlushDoes(c, s);
      FlushAppends(c, s.packets, s'.packets, s.worker.batch, s.worker.stamp);
    }
    if j < |s.packets| {
      PacketStamp(c, states, steps, n - 1, j);
      var i: nat, f: nat :| f < n - 1 && WroteAt(c, states, steps, i, f, j, s.packets[j]);
      assert s'.packets[j] == s.packets[j];
      assert WroteAt(c, states, steps, i, f, j, s'.packets[j]);
    } else {
      CycleStamp(c, states, steps, n - 1);
      var i: nat :| StampedFrom(c, states, steps, i, n - 1, s.worker.stamp, s.worker.last);
      assert WroteAt(c, states, steps, i, n - 1, j, s'.packets[j]);
    }
  }

  lemma {:induction false} FlushAppends(c: Config, was: seq<Packet>, now: seq<Packet>, batch: seq<Parcel>, t: u64)
    requires FlushedAt(c, was, now, batch, t)
    ensures now == was || now == was + [Packet(|was| % 0x1_0000, t, batch)]
  {
  }
}

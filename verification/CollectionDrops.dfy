/** Accounting: when the worker has stopped for good, every record that passed the verbosity and core checks was written
    to the sink exactly once or counted exactly once in the drop totals, whoever took the counters. */
module CollectionDrops {
  import opened Wire
  import opened Collection
  import Order = CollectionOrder

  /** Drops of a writer that are still on their way to the totals. */
  function OnTheWay(v: Writer): nat {
    v.dropped + if v.phase.Counted? then v.phase.inHand else 0
  }

  /** Records of kind `k` that writer `v` failed to send and whose drop has left the writer. */
  function Balance(v: Writer, k: Stream): int {
    if v.kind == k then v.attempts - |v.sent| - OnTheWay(v) else 0
  }

  function Sum(writers: seq<Writer>, k: Stream): int {
    if writers == [] then 0 else Sum(writers[..|writers| - 1], k) + Balance(writers[|writers| - 1], k)
  }

  /** Attempts and successes of all writers of kind `k`. */
  function Attempts(writers: seq<Writer>, k: Stream): nat {
    if writers == [] then 0
    else Attempts(writers[..|writers| - 1], k)
         + if writers[|writers| - 1].kind == k then writers[|writers| - 1].attempts else 0
  }

  function Sent(writers: seq<Writer>, k: Stream): nat {
    if writers == [] then 0
    else Sent(writers[..|writers| - 1], k)
         + if writers[|writers| - 1].kind == k then |writers[|writers| - 1].sent| else 0
  }

  lemma {:induction false} SumUpdate(writers: seq<Writer>, w: nat, v: Writer, k: Stream)
    requires w < |writers|
    ensures Sum(writers[w := v], k) == Sum(writers, k) - Balance(writers[w], k) + Balance(v, k)
    decreases |writers|
  {
    hide Balance;
    var n := |writers| - 1;
    if w < n {
      SumUpdate(writers[..n], w, v, k);
      assert writers[w := v][..n] == writers[..n][w := v];
    } else {
      assert writers[w := v][..n] == writers[..n];
    }
  }

  ghost predicate Conserved(writers: seq<Writer>, totals: Totals, polled: Totals) {
    forall k :: totals.Of(k) + polled.Of(k) == Sum(writers, k)
  }

  predicate Counters(writers: seq<Writer>) {
    forall w :: 0 <= w < |writers| && !writers[w].phase.Live? && !writers[w].phase.Pushed? ==> writers[w].dropped == 0
  }

  predicate AllGone(writers: seq<Writer>) {
    forall w :: 0 <= w < |writers| ==> writers[w].phase.Gone?
  }

  ghost predicate Inv(s: State) {
    && Conserved(s.writers, s.totals, s.worker.polled)
    && Counters(s.writers)
    && (!s.worker.pc.Polling? && !s.worker.pc.Polled? ==> s.worker.polled == Totals(0, 0))
    && (s.stopping ==> AllGone(s.writers))
    && (s.worker.pc.Stopped? ==> s.worker.last)
    && (s.worker.last && (InCycle(s.worker.pc) || s.worker.pc.Stopped?) ==> s.stopping)
    && (s.worker.last && (HasReady(s.worker.pc) || s.worker.pc.Stopped?) ==> s.ready == [])
    && (s.worker.pc.Waiting? || s.worker.pc.Stopped? ==> s.worker.batch == [])
  }

  lemma {:induction false} ActConserves(c: Config, s: State, w: nat, act: WriterStep, k: Stream)
    requires CanAct(c, s, w, act) && s.totals.Of(k) + s.worker.polled.Of(k) == Sum(s.writers, k)
    ensures var s' := Act(c, s, w, act); s'.totals.Of(k) + s'.worker.polled.Of(k) == Sum(s'.writers, k)
  {
    hide Sum, CanSend, Extended, Without;
    SumUpdate(s.writers, w, Next(c, s, w, act), k);
  }

  lemma {:induction false} ActKeeps(c: Config, s: State, w: nat, act: WriterStep)
    requires Inv(s) && CanAct(c, s, w, act)
    ensures Inv(Act(c, s, w, act))
  {
    hide Sum, CanSend, Extended, Without;
    forall k ensures var s' := Act(c, s, w, act); s'.totals.Of(k) + s'.worker.polled.Of(k) == Sum(s'.writers, k) {
      ActConserves(c, s, w, act, k);
    }
  }

  lemma {:induction false} PollKeeps(c: Config, s: State)
    requires Inv(s) && CanWork(s, PollOne)
    ensures Inv(Worked(c, s, PollOne))
  {
    hide Sum;
    var s', w := Worked(c, s, PollOne), s.worker.todo[0];
    forall k ensures s'.totals.Of(k) + s'.worker.polled.Of(k) == Sum(s'.writers, k) {
      SumUpdate(s.writers, w, s'.writers[w], k);
    }
  }

  lemma {:induction false} PullKeeps(c: Config, s: State)
    requires Inv(s) && CanWork(s, PullOne)
    ensures Inv(Worked(c, s, PullOne))
  {
    hide Sum;
    var s', w := Worked(c, s, PullOne), s.worker.todo[0];
    forall k ensures s'.totals.Of(k) + s'.worker.polled.Of(k) == Sum(s'.writers, k) {
      SumUpdate(s.writers, w, s'.writers[w], k);
    }
  }

  lemma {:induction false} RegisterKeeps(c: Config, s: State, kind: Stream)
    requires Inv(s) && Enabled(c, s, Register(kind))
    ensures Inv(Apply(c, s, Register(kind)))
  {
    var s', n := Apply(c, s, Register(kind)), |s.writers|;
    assert s'.writers[..n] == s.writers;
    forall k ensures Sum(s'.writers, k) == Sum(s.writers, k) {
      assert Balance(s'.writers[n], k) == 0;
    }
  }

  lemma {:induction false} WorkKeeps(c: Config, s: State, part: WorkerStep)
    requires Inv(s) && CanWork(s, part)
    ensures Inv(Worked(c, s, part))
  {
    hide Sum, Minus;
    match part {
      case PullOne => PullKeeps(c, s);
      case PollOne => PollKeeps(c, s);
      case _ =>
    }
  }

  lemma {:induction false} StepKeeps(c: Config, s: State, step: Step)
    requires Inv(s) && Enabled(c, s, step)
    ensures Inv(Apply(c, s, step))
  {
    hide CanAct, CanWork, CanServe, Act, Worked, Served, Conserved, Counters;
    match step {
      case Register(kind) => RegisterKeeps(c, s, kind);
      case By(w, act) => ActKeeps(c, s, w, act);
      case Work(part) => WorkKeeps(c, s, part);
      case _ =>
    }
  }

  lemma {:induction false} InvHolds(c: Config, states: seq<State>, steps: seq<Step>, i: nat)
    requires Run(c, states, steps) && i < |states|
    ensures Inv(states[i])
  {
    hide Enabled, Apply;
    if i > 0 {
      InvHolds(c, states, steps, i - 1);
      StepKeeps(c, states[i - 1], steps[i - 1]);
    }
  }

  lemma {:induction false} SumIsLost(writers: seq<Writer>, k: Stream)
    requires AllGone(writers) && Counters(writers)
    ensures Sum(writers, k) == Attempts(writers, k) - Sent(writers, k)
    decreases |writers|
  {
    if writers != [] {
      SumIsLost(writers[..|writers| - 1], k);
    }
  }

  /** The records the sink has of writer `w`, in the order they came. */
  function SinkRecords(ps: seq<Parcel>): seq<Record> {
    if ps == [] then [] else SinkRecords(ps[..|ps| - 1]) + ps[|ps| - 1].buf.starts
  }

  lemma {:induction false} SinkRecordsAre(w: nat, v: Writer, n: nat)
    requires n <= |v.bufs|
    ensures SinkRecords(Order.First(w, v, n)) == Order.Starts(v.bufs[..n])
  {
    if n > 0 {
      SinkRecordsAre(w, v, n - 1);
      Order.StartsLast(v.bufs, n);
      assert Order.First(w, v, n)[..n - 1] == Order.First(w, v, n - 1);
    }
  }

  /** Once the worker has stopped, the sink has from every writer exactly the records it sent, each once and in order,
      and the totals hold exactly the others. */
  lemma {:induction false} EveryRecordAccounted(c: Config, states: seq<State>, steps: seq<Step>, i: nat, k: Stream)
    requires Run(c, states, steps) && i < |states| && states[i].worker.pc.Stopped?
    ensures var s := states[i];
            && (forall w :: 0 <= w < |s.writers| ==> SinkRecords(Order.AtSink(s, w)) == s.writers[w].sent)
            && Attempts(s.writers, k) == Sent(s.writers, k) + s.totals.Of(k)
  {
    hide Order.WriterOk, Order.Ordered, Order.AllWhole, Order.Of, Order.Starts, SinkRecords, Sum, Attempts, Sent;
    var s := states[i];
    InvHolds(c, states, steps, i);
    Order.InvHolds(c, states, steps, i);
    SumIsLost(s.writers, k);
    forall w | 0 <= w < |s.writers| ensures SinkRecords(Order.AtSink(s, w)) == s.writers[w].sent {
      AllAtSink(c, s, w);
    }
  }

  lemma {:induction false} AllAtSink(c: Config, s: State, w: nat)
    requires Inv(s) && Order.Inv(c, s) && s.worker.pc.Stopped? && w < |s.writers|
    ensures SinkRecords(Order.AtSink(s, w)) == s.writers[w].sent
  {
    hide Order.Written, Order.AllWhole, Order.Of, Order.Starts, Order.FiledTo, SinkRecords, Sum;
    var v := s.writers[w];
    assert Order.Path(s) == Order.Flat(s.packets);
    assert v.pulled == |v.bufs|;
    SinkRecordsAre(w, v, |v.bufs|);
    assert v.bufs[..|v.bufs|] == v.bufs;
  }

  /** At every moment the drops counted, polled, in a leaving thread's hand and in the writers' counters add up to the
      records that were not sent. */
  lemma {:induction false} DropsConserved(c: Config, states: seq<State>, steps: seq<Step>, i: nat, k: Stream)
    requires Run(c, states, steps) && i < |states|
    ensures var s := states[i]; s.totals.Of(k) + s.worker.polled.Of(k) == Sum(s.writers, k)
  {
    InvHolds(c, states, steps, i);
  }

  /** How many records this writer failed to send. */
  function Lost(v: Writer): int {
    v.attempts - |v.sent|
  }

  /** A later state of a writer, with at most the drops in its counter that came since. */
  predicate Emptied(was: Writer, now: Writer) {
    now.dropped <= Lost(now) - Lost(was)
  }

  predicate LostGrows(was: seq<Writer>, now: seq<Writer>) {
    |was| <= |now| && forall w :: 0 <= w < |was| ==> Lost(was[w]) <= Lost(now[w])
  }

  predicate AllEmptied(registry: seq<nat>, todo: seq<nat>, was: seq<Writer>, now: seq<Writer>)
    requires |was| <= |now|
  {
    forall w :: w in registry && w !in todo && w < |was| ==> Emptied(was[w], now[w])
  }

  /** The poll under way in `states[n]` began at step `p`, and the writers it has been with had their counters
      emptied. */
  ghost predicate PollSince(states: seq<State>, steps: seq<Step>, p: nat, n: nat)
    requires |states| == |steps| + 1
  {
    && p < n <= |steps| && steps[p] == Work(LockForPoll)
    && LostGrows(states[p].writers, states[n].writers)
    && AllEmptied(states[p].registry, states[n].worker.todo, states[p].writers, states[n].writers)
  }

  predicate InPoll(pc: Pc) {
    pc.Polling? || pc.Polled?
  }

  /** A counter that is not emptied grows only with a loss. */
  predicate CountsLosses(was: Writer, now: Writer) {
    now.dropped == 0 || now.dropped - was.dropped <= Lost(now) - Lost(was)
  }

  predicate AllCountLosses(was: seq<Writer>, now: seq<Writer>) {
    |was| <= |now| && forall w :: 0 <= w < |was| ==> CountsLosses(was[w], now[w]) && Lost(was[w]) <= Lost(now[w])
  }

  lemma {:induction false} ActCounts(c: Config, s: State, w: nat, act: WriterStep)
    requires CanAct(c, s, w, act)
    ensures AllCountLosses(s.writers, Act(c, s, w, act).writers)
  {
    hide CanSend, Extended, Without, Held;
  }

  lemma {:induction false} WorkCounts(c: Config, s: State, part: WorkerStep)
    requires CanWork(s, part)
    ensures AllCountLosses(s.writers, Worked(c, s, part).writers)
  {
    hide Minus, Held;
  }

  lemma {:induction false} StepCounts(c: Config, s: State, step: Step)
    requires Enabled(c, s, step)
    ensures AllCountLosses(s.writers, Apply(c, s, step).writers)
  {
    hide CanAct, Act, CanServe, Served, CanWork, Worked;
    match step {
      case By(w, act) => ActCounts(c, s, w, act);
      case Work(part) => WorkCounts(c, s, part);
      case _ =>
    }
  }

  /** While the worker polls, a writer is taken off its list only with its counter emptied. */
  lemma {:induction false} PollStep(c: Config, s: State, step: Step, w: nat)
    requires Enabled(c, s, step) && InPoll(s.worker.pc) && InPoll(Apply(c, s, step).worker.pc)
    requires w in s.worker.todo && w !in Apply(c, s, step).worker.todo
    ensures var s' := Apply(c, s, step); w < |s'.writers| && s'.writers[w].dropped == 0
  {
    hide Enabled, Apply, Flushed, Held;
    WorkerStays(c, s, step);
    if step.Work? {
      WorkPolls(c, s, step.part);
      assert s.worker.todo == [s.worker.todo[0]] + s.worker.todo[1..];
    }
  }

  /** The worker polls only after it took the registry lock for that, ... */
  lemma {:induction false} WorkPolls(c: Config, s: State, part: WorkerStep)
    requires CanWork(s, part) && InPoll(Worked(c, s, part).worker.pc)
    ensures part in {LockForPoll, PollOne, UnlockAfterPoll}
  {
    hide Minus;
  }

  lemma {:induction false} PollBegins(c: Config, s: State, step: Step)
    requires Enabled(c, s, step) && InPoll(Apply(c, s, step).worker.pc)
    ensures InPoll(s.worker.pc) || (step == Work(LockForPoll) && Apply(c, s, step).worker.todo == s.registry)
  {
    hide Enabled, Apply, Flushed, Held;
    WorkerStays(c, s, step);
    if step.Work? {
      WorkPolls(c, s, step.part);
    }
  }

  lemma {:induction false} PollTrace(c: Config, states: seq<State>, steps: seq<Step>, n: nat)
    requires Run(c, states, steps) && n < |states| && InPoll(states[n].worker.pc)
    ensures exists p: nat :: PollSince(states, steps, p, n)
  {
    hide Enabled, Apply, Lost;
    assert n > 0;
    var s, s', step := states[n - 1], states[n], steps[n - 1];
    StepCounts(c, s, step);
    PollBegins(c, s, step);
    if !InPoll(s.worker.pc) {
      assert PollSince(states, steps, n - 1, n);
    } else {
      PollTrace(c, states, steps, n - 1);
      var p: nat :| PollSince(states, steps, p, n - 1);
      forall w | w in states[p].registry && w !in s'.worker.todo && w < |states[p].writers|
        ensures Emptied(states[p].writers[w], s'.writers[w])
      {
        assert CountsLosses(s.writers[w], s'.writers[w]);
        if w in s.worker.todo {
          PollStep(c, s, step, w);
        }
      }
      assert PollSince(states, steps, p, n);
    }
  }

  /** In every run, when the worker adds what it polled to the totals, every writer that was registered when that poll
      began has at most the drops in its counter that came since. */
  lemma {:induction false} PollEmpties(c: Config, states: seq<State>, steps: seq<Step>, f: nat)
    requires Run(c, states, steps) && f < |steps| && steps[f] == Work(AddPolled)
    ensures states[f + 1].totals == states[f].totals.PlusAll(states[f].worker.polled)
    ensures exists p: nat ::
              && p < f && steps[p] == Work(LockForPoll) && |states[p].writers| <= |states[f + 1].writers|
              && forall w :: w in states[p].registry && w < |states[p].writers| ==>
                   Emptied(states[p].writers[w], states[f + 1].writers[w])
  {
    hide Lost;
    PollTrace(c, states, steps, f);
    PolledIsDone(c, states, steps, f);
  }

  /** The worker adds up only when it has been with every writer. */
  lemma {:induction false} PolledIsDone(c: Config, states: seq<State>, steps: seq<Step>, n: nat)
    requires Run(c, states, steps) && n < |states| && states[n].worker.pc.Polled?
    ensures states[n].worker.todo == []
  {
    hide Enabled, Apply;
    assert n > 0;
    if states[n - 1].worker.pc.Polled? {
      PolledIsDone(c, states, steps, n - 1);
    }
    PolledAll(c, states[n - 1], steps[n - 1]);
  }

  /** ... and stops polling only with nobody left to visit. */
  lemma {:induction false} PolledAll(c: Config, s: State, step: Step)
    requires Enabled(c, s, step) && Apply(c, s, step).worker.pc.Polled?
    requires s.worker.pc.Polled? ==> s.worker.todo == []
    ensures Apply(c, s, step).worker.todo == []
  {
    hide Enabled, Apply, Flushed, Held;
    WorkerStays(c, s, step);
    if step.Work? {
      WorkPolls(c, s, step.part);
    }
  }
}

/** Descriptor before data: in every interleaving, when a log or span-begin record reaches the sink its descriptor is in
    the service stream already, a span descriptor comes behind its three strings, and no descriptor and no string is
    written twice, although the service lock is released while a thread waits for a service buffer. */
module CollectionDescs {
  import opened Bytes
  import opened Fragments
  import opened Wire
  import opened Collection

  /** Every entry written so far, in order, wherever it is. */
  function All(sv: Service): seq<Entry> {
    sv.written + sv.taken + sv.pending
  }

  predicate SameKey(a: Entry, b: Entry) {
    match a
    case LogDesc(h, _) => b.LogDesc? && b.hash == h
    case Str(t, h) => b == Str(t, h)
    case SpanDesc(h, _) => b.SpanDesc? && b.hash == h
    case Other => false
  }

  predicate Once(es: seq<Entry>) {
    forall i, j :: 0 <= i < j < |es| ==> !SameKey(es[i], es[j])
  }

  predicate Before(es: seq<Entry>, i: nat, e: Entry) {
    exists j :: 0 <= j < i && j < |es| && es[j] == e
  }

  predicate StringsBefore(es: seq<Entry>, i: nat, n: Names) {
    Before(es, i, Str(FileName, n.file)) && Before(es, i, Str(FuncName, n.func)) && Before(es, i, Str(SpanName, n.name))
  }

  /** A span descriptor comes behind the strings it refers to. */
  predicate StringsFirst(es: seq<Entry>) {
    forall i :: 0 <= i < |es| && es[i].SpanDesc? ==> StringsBefore(es, i, es[i].names)
  }

  ghost predicate HasSpan(es: seq<Entry>, h: u64) {
    exists n :: SpanDesc(h, n) in es
  }

  /** A descriptor under this hash, for such arguments. */
  ghost predicate HasLog(es: seq<Entry>, h: u64, args: seq<Arg>) {
    exists ks :: LogDesc(h, ks) in es && ArgsOf(ks, args)
  }

  ghost predicate Described(es: seq<Entry>, r: Record) {
    match r
    case Log(hash, _, _, _, _, _, args, _) => HasLog(es, hash, args)
    case Begin(_, _, _, _, hash, _, _) => HasSpan(es, hash)
    case End(_, _, _) => true
  }

  /** A published descriptor has been written, and one that has been written is published or about to be. */
  ghost predicate LogsOk(d: Descs, es: seq<Entry>) {
    && (d.busy.Some? ==> d.busy.value.hash !in d.known && LogWork(d.busy.value))
    && forall h, ks :: LogDesc(h, ks) in es <==>
         (h in d.known && d.known[h] == ks) || (d.busy.Some? && Finished(d.busy.value, h, ks))
  }

  predicate LogWork(r: Resolver) {
    r.entries == LogEntries(r.hash, r.kinds)
  }

  predicate Finished(r: Resolver, h: u64, ks: seq<ArgKind>) {
    !Unfinished(r) && r.hash == h && r.kinds == ks
  }

  ghost predicate SpansOk(d: Descs, es: seq<Entry>) {
    && (d.busy.Some? ==> d.busy.value.hash !in d.known && SpanWork(d.busy.value, es))
    && forall h :: HasSpan(es, h) <==>
         h in d.known || (d.busy.Some? && h == d.busy.value.hash && !Unfinished(d.busy.value))
  }

  /** The entries a resolver is done with are in the stream. */
  ghost predicate SpanWork(r: Resolver, es: seq<Entry>) {
    && (exists n :: r.entries == SpanEntries(r.hash, n))
    && (forall j :: 0 <= j < r.done ==> r.entries[j] in es)
  }

  ghost predicate ServiceOk(sv: Service) {
    && LogsOk(sv.logs, All(sv)) && SpansOk(sv.spans, All(sv))
    && (forall e: Entry :: e.Str? ==> (e in sv.strings <==> e in All(sv)))
    && Once(All(sv)) && StringsFirst(All(sv))
  }

  // ---------------------------------------------------------------------------------------------------------------
  // One more entry

  lemma {:induction false} OnceSnoc(es: seq<Entry>, e: Entry)
    requires Once(es) && forall i :: 0 <= i < |es| ==> !SameKey(es[i], e)
    ensures Once(es + [e])
  {
  }

  lemma {:induction false} BeforeSnoc(es: seq<Entry>, x: Entry, i: nat, e: Entry)
    requires i <= |es|
    ensures Before(es + [x], i, e) <==> Before(es, i, e)
  {
    if Before(es, i, e) {
      var j :| 0 <= j < i && j < |es| && es[j] == e;
      assert (es + [x])[j] == e;
    }
    if Before(es + [x], i, e) {
      var j :| 0 <= j < i && j < |es + [x]| && (es + [x])[j] == e;
      assert es[j] == e;
    }
  }

  lemma {:induction false} StringsSnoc(es: seq<Entry>, e: Entry)
    requires StringsFirst(es) && (e.SpanDesc? ==> StringsBefore(es, |es|, e.names))
    ensures StringsFirst(es + [e])
  {
    var es' := es + [e];
    forall i | 0 <= i < |es'| && es'[i].SpanDesc? ensures StringsBefore(es', i, es'[i].names) {
      var n := es'[i].names;
      BeforeSnoc(es, e, i, Str(FileName, n.file));
      BeforeSnoc(es, e, i, Str(FuncName, n.func));
      BeforeSnoc(es, e, i, Str(SpanName, n.name));
      assert StringsBefore(es, i, n);
    }
  }

  lemma {:induction false} HasSpanSnoc(es: seq<Entry>, e: Entry, h: u64)
    ensures HasSpan(es + [e], h) <==> HasSpan(es, h) || (e.SpanDesc? && e.hash == h)
  {
    if HasSpan(es, h) {
      var n :| SpanDesc(h, n) in es;
      assert SpanDesc(h, n) in es + [e];
    }
    if e.SpanDesc? && e.hash == h {
      assert SpanDesc(h, e.names) in es + [e];
    }
    if HasSpan(es + [e], h) {
      var n :| SpanDesc(h, n) in es + [e];
    }
  }

  /** An entry of no descriptor changes no descriptor's standing. */
  lemma {:induction false} PlainEntry(sv: Service, e: Entry)
    requires ServiceOk(sv) && !e.LogDesc? && !e.SpanDesc?
    ensures LogsOk(sv.logs, All(sv) + [e]) && SpansOk(sv.spans, All(sv) + [e])
  {
    var es := All(sv);
    forall h ensures HasSpan(es + [e], h) <==> HasSpan(es, h) {
      HasSpanSnoc(es, e, h);
    }
  }

  lemma {:induction false} WriteLogKeeps(sv: Service)
    requires ServiceOk(sv) && CanServe(sv, WriteEntry(Logs))
    ensures ServiceOk(Served(sv, WriteEntry(Logs)))
  {
    var sv' := Served(sv, WriteEntry(Logs));
    var r := sv.logs.busy.value;
    var e := r.entries[r.done];
    assert e == LogDesc(r.hash, r.kinds);
    assert All(sv') == All(sv) + [e];
    assert e !in All(sv);
    OnceSnoc(All(sv), e);
    StringsSnoc(All(sv), e);
    forall h ensures HasSpan(All(sv'), h) <==> HasSpan(All(sv), h) {
      HasSpanSnoc(All(sv), e, h);
    }
  }

  /** A span's resolver: a string not sent before ... */
  lemma {:induction false} WriteStrKeeps(sv: Service)
    requires ServiceOk(sv) && CanServe(sv, WriteEntry(Traces))
    requires var r := sv.spans.busy.value; r.entries[r.done].Str?
    ensures ServiceOk(Served(sv, WriteEntry(Traces)))
  {
    var sv' := Served(sv, WriteEntry(Traces));
    var r, r' := sv.spans.busy.value, sv'.spans.busy.value;
    var e := r.entries[r.done];
    var n :| r.entries == SpanEntries(r.hash, n);
    assert Unfinished(r') by { assert r.done != 3; }
    if e in sv.strings {
      assert All(sv') == All(sv);
      assert SpanWork(r', All(sv'));
    } else {
      assert All(sv') == All(sv) + [e];
      PlainEntry(sv, e);
      OnceSnoc(All(sv), e);
      StringsSnoc(All(sv), e);
      assert SpanWork(r', All(sv'));
    }
  }

  /** ... and, behind all three, the descriptor itself. */
  lemma {:induction false} WriteSpanKeeps(sv: Service)
    requires ServiceOk(sv) && CanServe(sv, WriteEntry(Traces))
    requires var r := sv.spans.busy.value; !r.entries[r.done].Str?
    ensures ServiceOk(Served(sv, WriteEntry(Traces)))
  {
    hide Once, StringsFirst, HasSpan, Before, SameKey;
    var sv' := Served(sv, WriteEntry(Traces));
    var es := All(sv);
    var r, r' := sv.spans.busy.value, sv'.spans.busy.value;
    var e := r.entries[r.done];
    var n :| r.entries == SpanEntries(r.hash, n);
    assert r.done == 3 && e == SpanDesc(r.hash, n);
    assert All(sv') == es + [e];
    InStream(es, r.entries[0]);
    InStream(es, r.entries[1]);
    InStream(es, r.entries[2]);
    StringsSnoc(es, e);
    assert !HasSpan(es, r.hash);
    SpanOnce(es, e);
    forall h ensures HasSpan(All(sv'), h) <==> HasSpan(es, h) || h == r.hash {
      HasSpanSnoc(es, e, h);
    }
    assert SpanWork(r', All(sv'));
  }

  lemma {:induction false} SpanOnce(es: seq<Entry>, e: Entry)
    requires Once(es) && e.SpanDesc? && !HasSpan(es, e.hash)
    ensures Once(es + [e])
  {
    hide HasSpan;
    forall i | 0 <= i < |es| ensures !SameKey(es[i], e) {
      if SameKey(es[i], e) {
        SpanSeen(es, i);
        assert false;
      }
    }
    OnceSnoc(es, e);
  }

  lemma {:induction false} SpanSeen(es: seq<Entry>, i: nat)
    requires i < |es| && es[i].SpanDesc?
    ensures HasSpan(es, es[i].hash)
  {
    assert SpanDesc(es[i].hash, es[i].names) in es;
  }

  lemma {:induction false} InStream(es: seq<Entry>, e: Entry)
    requires e in es
    ensures Before(es, |es|, e)
  {
  }

  lemma {:induction false} ServeKeeps(sv: Service, entry: ServiceStep)
    requires ServiceOk(sv) && CanServe(sv, entry)
    ensures ServiceOk(Served(sv, entry))
  {
    hide ServiceOk;
    match entry {
      case WriteEntry(k) =>
        if k.Logs? {
          WriteLogKeeps(sv);
        } else if sv.spans.busy.value.entries[sv.spans.busy.value.done].Str? {
          WriteStrKeeps(sv);
        } else {
          WriteSpanKeeps(sv);
        }
      case WriteOther => WriteOtherKeeps(sv);
      case _ => MutexKeeps(sv, entry);
    }
  }

  lemma {:induction false} WriteOtherKeeps(sv: Service)
    requires ServiceOk(sv)
    ensures ServiceOk(Served(sv, WriteOther))
  {
    hide Once, StringsFirst, HasSpan, SpanWork;
    assert All(Served(sv, WriteOther)) == All(sv) + [Other];
    PlainEntry(sv, Other);
    OtherKeeps(All(sv));
  }

  /** Taking the descriptor mutex, giving up and publishing write nothing. */
  lemma {:induction false} MutexKeeps(sv: Service, entry: ServiceStep)
    requires ServiceOk(sv) && CanServe(sv, entry) && !entry.WriteEntry? && !entry.WriteOther?
    ensures ServiceOk(Served(sv, entry))
  {
    hide Once, StringsFirst, HasSpan;
    var sv' := Served(sv, entry);
    assert All(sv') == All(sv);
    if entry.ResolveSpan? {
      assert sv'.spans.busy.value.entries == SpanEntries(entry.hash, entry.names);
    }
  }

  lemma {:induction false} OtherKeeps(es: seq<Entry>)
    requires Once(es) && StringsFirst(es)
    ensures Once(es + [Other]) && StringsFirst(es + [Other])
  {
    OnceSnoc(es, Other);
    StringsSnoc(es, Other);
  }

  // ---------------------------------------------------------------------------------------------------------------
  // Records and their descriptors

  predicate KnownIn(sv: Service, ps: seq<Parcel>) {
    forall i, j :: 0 <= i < |ps| && 0 <= j < |ps[i].buf.starts| ==> Resolved(sv, ps[i].buf.starts[j])
  }

  ghost predicate WrittenIn(es: seq<Entry>, ps: seq<Parcel>) {
    forall i, j :: 0 <= i < |ps| && 0 <= j < |ps[i].buf.starts| ==> Described(es, ps[i].buf.starts[j])
  }

  predicate HeldKnown(sv: Service, writers: seq<Writer>) {
    forall w :: 0 <= w < |writers| ==> KnownIn(sv, Held(w, writers[w]))
  }

  /** Where the worker stands with the batch: collected, described to the worker, or described at the sink. */
  ghost predicate BatchOk(sv: Service, k: Worker) {
    if k.pc.Described? then WrittenIn(sv.written + sv.taken, k.batch)
    else if k.pc.Ready? || k.pc.Polling? || k.pc.Polled? || k.pc.Flushing? then WrittenIn(sv.written, k.batch)
    else KnownIn(sv, k.batch)
  }

  ghost predicate Inv(s: State) {
    && ServiceOk(s.service)
    && HeldKnown(s.service, s.writers) && KnownIn(s.service, s.ready)
    && BatchOk(s.service, s.worker)
    && (forall i :: 0 <= i < |s.packets| ==> WrittenIn(s.service.written, s.packets[i].parcels))
  }

  lemma {:induction false} KnownIsWritten(sv: Service, ps: seq<Parcel>)
    requires ServiceOk(sv) && KnownIn(sv, ps)
    ensures WrittenIn(All(sv), ps)
  {
    hide Once, StringsFirst, All;
  }

  lemma {:induction false} DescribedGrows(es: seq<Entry>, more: seq<Entry>, r: Record)
    requires Described(es, r)
    ensures Described(es + more, r)
  {
    if r.Begin? {
      var n :| SpanDesc(r.hash, n) in es;
      assert SpanDesc(r.hash, n) in es + more;
    }
  }

  lemma {:induction false} WrittenGrows(es: seq<Entry>, more: seq<Entry>, ps: seq<Parcel>)
    requires WrittenIn(es, ps)
    ensures WrittenIn(es + more, ps)
  {
    hide Described;
    forall i, j | 0 <= i < |ps| && 0 <= j < |ps[i].buf.starts| ensures Described(es + more, ps[i].buf.starts[j]) {
      DescribedGrows(es, more, ps[i].buf.starts[j]);
    }
  }

  lemma {:induction false} KnownAppend(sv: Service, a: seq<Parcel>, b: seq<Parcel>)
    requires KnownIn(sv, a) && KnownIn(sv, b)
    ensures KnownIn(sv, a + b)
  {
    hide Resolved;
  }

  predicate Grows(a: map<u64, seq<ArgKind>>, b: map<u64, seq<ArgKind>>) {
    forall h :: h in a ==> h in b && b[h] == a[h]
  }

  /** What is being resolved is not published yet. */
  predicate BusyUnknown(d: Descs) {
    d.busy.Some? ==> d.busy.value.hash !in d.known
  }

  lemma {:induction false} ServiceBusy(sv: Service)
    requires ServiceOk(sv)
    ensures BusyUnknown(sv.logs) && BusyUnknown(sv.spans)
  {
    hide Once, StringsFirst, All, SpanWork, HasSpan;
  }

  /** A step of a resolver takes nothing back. */
  lemma {:induction false} ServeGrows(sv: Service, entry: ServiceStep)
    requires CanServe(sv, entry) && BusyUnknown(sv.logs) && BusyUnknown(sv.spans)
    ensures var sv' := Served(sv, entry);
            && Grows(sv.logs.known, sv'.logs.known) && Grows(sv.spans.known, sv'.spans.known)
            && sv'.written == sv.written && sv'.taken == sv.taken
  {
  }

  lemma {:induction false} KnownGrows(sv: Service, sv': Service, ps: seq<Parcel>)
    requires KnownIn(sv, ps) && Grows(sv.logs.known, sv'.logs.known) && Grows(sv.spans.known, sv'.spans.known)
    ensures KnownIn(sv', ps)
  {
  }

  lemma {:induction false} ServeStepKeeps(c: Config, s: State, entry: ServiceStep)
    requires Inv(s) && CanServe(s.service, entry)
    ensures Inv(s.(service := Served(s.service, entry)))
  {
    hide ServiceOk, KnownIn, WrittenIn, Served, CanServe;
    var sv, sv' := s.service, Served(s.service, entry);
    ServeKeeps(sv, entry);
    ServiceBusy(sv);
    ServeGrows(sv, entry);
    KnownGrows(sv, sv', s.ready);
    forall w | 0 <= w < |s.writers| ensures KnownIn(sv', Held(w, s.writers[w])) {
      KnownGrows(sv, sv', Held(w, s.writers[w]));
    }
    if KnownIn(sv, s.worker.batch) {
      KnownGrows(sv, sv', s.worker.batch);
    }
  }

  lemma {:induction false} SendKnown(c: Config, s: State, w: nat, open: bool, r: Record, b: Block)
    requires CanAct(c, s, w, Send(open, r, b)) && KnownIn(s.service, Held(w, s.writers[w]))
    ensures KnownIn(s.service, Held(w, Next(c, s, w, Send(open, r, b))))
  {
    hide CanStart, Encodes, Extended, Held, Resolved;
    var h' := Held(w, Next(c, s, w, Send(open, r, b)));
    forall i, j | 0 <= i < |h'| && 0 <= j < |h'[i].buf.starts| ensures Resolved(s.service, h'[i].buf.starts[j]) {
      HeldAfterSend(c, s, w, open, r, b, i, j);
    }
  }

  lemma {:induction false} NothingKnown(sv: Service)
    ensures KnownIn(sv, [])
  {
  }

  lemma {:induction false} ActKeeps(c: Config, s: State, w: nat, act: WriterStep)
    requires Inv(s) && CanAct(c, s, w, act)
    ensures Inv(Act(c, s, w, act))
  {
    hide ServiceOk, KnownIn, WrittenIn, CanSend, Extended, Without, BatchOk;
    var s' := Act(c, s, w, act);
    assert KnownIn(s.service, Held(w, s'.writers[w])) by {
      match act
      case Send(open, r, b) => SendKnown(c, s, w, open, r, b);
      case Push =>
        assert Held(w, s'.writers[w]) == [];
        NothingKnown(s.service);
      case _ => assert Held(w, s'.writers[w]) == Held(w, s.writers[w]);
    }
    if act.Push? {
      KnownAppend(s.service, s.ready, Held(w, s.writers[w]));
    }
  }

  lemma {:induction false} RegisterKeeps(c: Config, s: State, kind: Stream)
    requires Inv(s) && Enabled(c, s, Register(kind))
    ensures Inv(Apply(c, s, Register(kind)))
  {
    hide ServiceOk, KnownIn, WrittenIn, BatchOk;
    var s', n := Apply(c, s, Register(kind)), |s.writers|;
    forall w | 0 <= w < |s'.writers| ensures KnownIn(s.service, Held(w, s'.writers[w])) {
      if w < n {
        assert s'.writers[w] == s.writers[w];
      } else {
        assert Held(n, s'.writers[n]) == [];
        NothingKnown(s.service);
      }
    }
  }

  lemma {:induction false} PullKeeps(c: Config, s: State)
    requires Inv(s) && CanWork(s, PullOne)
    ensures Inv(Worked(c, s, PullOne))
  {
    hide ServiceOk, KnownIn, WrittenIn;
    var s', w := Worked(c, s, PullOne), s.worker.todo[0];
    KnownAppend(s.service, s.worker.batch, Held(w, s.writers[w]));
    assert Held(w, s'.writers[w]) == [];
    NothingKnown(s.service);
  }

  lemma {:induction false} PollKeeps(c: Config, s: State)
    requires Inv(s) && CanWork(s, PollOne)
    ensures Inv(Worked(c, s, PollOne))
  {
    hide ServiceOk, KnownIn, WrittenIn;
    var s' := Worked(c, s, PollOne);
    forall w | 0 <= w < |s'.writers| ensures Held(w, s'.writers[w]) == Held(w, s.writers[w]) {
    }
  }

  lemma {:induction false} DrainServiceKeeps(c: Config, s: State)
    requires Inv(s) && CanWork(s, DrainService)
    ensures Inv(Worked(c, s, DrainService))
  {
    hide KnownIn, WrittenIn, LogsOk, SpansOk, Once, StringsFirst;
    var sv, sv' := s.service, Worked(c, s, DrainService).service;
    KnownIsWritten(sv, s.worker.batch);
    assert All(sv') == All(sv) == sv'.written + sv'.taken;
    SameKnown(sv, sv', s);
  }

  lemma {:induction false} SameKnown(sv: Service, sv': Service, s: State)
    requires sv'.logs == sv.logs && sv'.spans == sv.spans && HeldKnown(sv, s.writers) && KnownIn(sv, s.ready)
    ensures HeldKnown(sv', s.writers) && KnownIn(sv', s.ready)
  {
  }

  lemma {:induction false} WriteServiceKeeps(c: Config, s: State)
    requires Inv(s) && CanWork(s, WriteService)
    ensures Inv(Worked(c, s, WriteService))
  {
    hide KnownIn, WrittenIn, LogsOk, SpansOk, Once, StringsFirst;
    var sv, sv' := s.service, Worked(c, s, WriteService).service;
    assert All(sv') == All(sv);
    SameKnown(sv, sv', s);
    forall i | 0 <= i < |s.packets| ensures WrittenIn(sv'.written, s.packets[i].parcels) {
      WrittenGrows(sv.written, sv.taken, s.packets[i].parcels);
    }
  }

  lemma {:induction false} DrainReadyKeeps(c: Config, s: State)
    requires Inv(s) && CanWork(s, DrainReady)
    ensures Inv(Worked(c, s, DrainReady))
  {
    hide ServiceOk, KnownIn, WrittenIn;
    KnownAppend(s.service, s.worker.batch, s.ready);
    NothingKnown(s.service);
  }

  lemma {:induction false} FlushKeeps(c: Config, s: State)
    requires Inv(s) && CanWork(s, Flush)
    ensures Inv(Worked(c, s, Flush))
  {
    hide ServiceOk, KnownIn, WrittenIn, Minus;
    NothingKnown(s.service);
  }

  lemma {:induction false} WorkKeeps(c: Config, s: State, part: WorkerStep)
    requires Inv(s) && CanWork(s, part)
    ensures Inv(Worked(c, s, part))
  {
    hide ServiceOk, KnownIn, WrittenIn, Flushed, HeldKnown;
    match part {
      case PullOne => PullKeeps(c, s);
      case PollOne => PollKeeps(c, s);
      case DrainReady => DrainReadyKeeps(c, s);
      case DrainService => DrainServiceKeeps(c, s);
      case WriteService => WriteServiceKeeps(c, s);
      case Flush => FlushKeeps(c, s);
      case _ =>
    }
  }

  lemma {:induction false} StepKeeps(c: Config, s: State, step: Step)
    requires Inv(s) && Enabled(c, s, step)
    ensures Inv(Apply(c, s, step))
  {
    hide CanAct, CanWork, CanServe, Act, Worked, Served, ServiceOk, KnownIn, WrittenIn, HeldKnown, BatchOk;
    match step {
      case Register(kind) => RegisterKeeps(c, s, kind);
      case By(w, act) => ActKeeps(c, s, w, act);
      case Serve(entry) => ServeStepKeeps(c, s, entry);
      case Work(part) => WorkKeeps(c, s, part);
      case _ =>
    }
  }

  lemma {:induction false} InvHolds(c: Config, states: seq<State>, steps: seq<Step>, i: nat)
    requires Run(c, states, steps) && i < |states|
    ensures Inv(states[i])
  {
    hide Enabled, Apply;
    if i > 0 {
      InvHolds(c, states, steps, i - 1);
      StepKeeps(c, states[i - 1], steps[i - 1]);
    }
  }

  /** Every record at the sink, and every record about to be flushed, has its descriptor in the service stream already
      written to the sink. */
  lemma {:induction false} DescriptorBeforeData(c: Config, states: seq<State>, steps: seq<Step>, i: nat)
    requires Run(c, states, steps) && i < |states|
    ensures var s := states[i];
            && (forall k, p, r :: 0 <= k < |s.packets| && p in s.packets[k].parcels && r in p.buf.starts
                  ==> Described(s.service.written, r))
            && (s.worker.pc.Flushing? ==>
                  forall p, r :: p in s.worker.batch && r in p.buf.starts ==> Described(s.service.written, r))
  {
    hide Described, ServiceOk, HeldKnown, KnownIn;
    InvHolds(c, states, steps, i);
  }

  /** The service stream at the sink names no descriptor and no string twice, and every span descriptor comes behind its
      strings. */
  lemma {:induction false} StreamWellFormed(c: Config, states: seq<State>, steps: seq<Step>, i: nat)
    requires Run(c, states, steps) && i < |states|
    ensures Once(states[i].service.written) && StringsFirst(states[i].service.written)
  {
    InvHolds(c, states, steps, i);
    var sv := states[i].service;
    assert All(sv) == sv.written + (sv.taken + sv.pending);
    Prefix(sv.written, sv.taken + sv.pending);
  }

  lemma {:induction false} Prefix(es: seq<Entry>, more: seq<Entry>)
    requires Once(es + more) && StringsFirst(es + more)
    ensures Once(es) && StringsFirst(es)
  {
    var all := es + more;
    forall i, j | 0 <= i < j < |es| ensures !SameKey(es[i], es[j]) {
      assert all[i] == es[i] && all[j] == es[j];
    }
    forall i | 0 <= i < |es| && es[i].SpanDesc? ensures StringsBefore(es, i, es[i].names) {
      assert all[i] == es[i];
      assert StringsBefore(all, i, es[i].names);
      BeforePrefix(es, more, i, Str(FileName, es[i].names.file));
      BeforePrefix(es, more, i, Str(FuncName, es[i].names.func));
      BeforePrefix(es, more, i, Str(SpanName, es[i].names.name));
    }
  }

  lemma {:induction false} BeforePrefix(es: seq<Entry>, more: seq<Entry>, i: nat, e: Entry)
    requires i <= |es| && Before(es + more, i, e)
    ensures Before(es, i, e)
  {
    var j :| 0 <= j < i && j < |es + more| && (es + more)[j] == e;
    assert es[j] == e;
  }

  /** A step takes nothing back that was published. */
  lemma {:induction false} StepGrows(c: Config, s: State, step: Step)
    requires Enabled(c, s, step) && ServiceOk(s.service)
    ensures var sv := Apply(c, s, step).service;
            Grows(s.service.logs.known, sv.logs.known) && Grows(s.service.spans.known, sv.spans.known)
  {
    hide CanAct, Next, CanServe, Served, ServiceOk, Held, Minus;
    ServiceBusy(s.service);
    if step.Serve? {
      ServeGrows(s.service, step.entry);
    }
  }

  lemma {:induction false} PublishNow(sv: Service, k: Stream)
    requires CanServe(sv, Publish(k))
    ensures var d, d' := DescsOf(sv, k), DescsOf(Served(sv, Publish(k)), k);
            d.busy.Some? && d'.busy.None? && d'.known == d.known[d.busy.value.hash := d.busy.value.kinds]
  {
  }

  lemma {:induction false} GrowsOf(sv: Service, sv': Service, k: Stream, h: u64)
    requires Grows(sv.logs.known, sv'.logs.known) && Grows(sv.spans.known, sv'.spans.known)
    requires h in DescsOf(sv, k).known
    ensures h in DescsOf(sv', k).known && DescsOf(sv', k).known[h] == DescsOf(sv, k).known[h]
  {
  }

  /** In every run a descriptor that was published stays known, with its argument kinds, for good. */
  lemma {:induction false} PublishedStays(c: Config, states: seq<State>, steps: seq<Step>, i: nat, n: nat, k: Stream)
    requires Run(c, states, steps) && i < n < |states| && steps[i] == Serve(Publish(k))
    ensures var was := DescsOf(states[i].service, k).busy;
            was.Some? && was.value.hash in DescsOf(states[n].service, k).known
            && DescsOf(states[n].service, k).known[was.value.hash] == was.value.kinds
  {
    hide Enabled, Apply;
    var s, step := states[n - 1], steps[n - 1];
    if n == i + 1 {
      PublishApplies(c, s, k);
    } else {
      PublishedStays(c, states, steps, i, n - 1, k);
      InvHolds(c, states, steps, n - 1);
      StepGrows(c, s, step);
      GrowsOf(s.service, states[n].service, k, DescsOf(states[i].service, k).busy.value.hash);
    }
  }

  lemma {:induction false} PublishApplies(c: Config, s: State, k: Stream)
    requires Enabled(c, s, Serve(Publish(k)))
    ensures var d, d' := DescsOf(s.service, k), DescsOf(Apply(c, s, Serve(Publish(k))).service, k);
            d.busy.Some? && d'.known == d.known[d.busy.value.hash := d.busy.value.kinds]
  {
    hide CanServe, Served;
    PublishNow(s.service, k);
  }
}

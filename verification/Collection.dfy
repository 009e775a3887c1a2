/** The collection protocol of the core (engine/p8_core.cpp): producers, exiting threads, registrations and
    descriptor resolution interleaved with the one worker, as a state machine over atomic steps.

    A record is written with its writer locked from the clock read to the commit, so a send is one step. Every other
    step is one critical section or one atomic operation of the code.
 */
module Collection {
  import opened Bytes
  import opened Fragments
  import opened Wire

  /** A buffer and the records whose header lies in it. */
  datatype Buf = Buf(view: View, starts: seq<Record>)

  function Views(bufs: seq<Buf>): (vs: seq<View>)
    ensures |vs| == |bufs| && forall i :: 0 <= i < |bufs| ==> vs[i] == bufs[i].view
  {
    seq(|bufs|, i requires 0 <= i < |bufs| => bufs[i].view)
  }

  /** A buffer under way to the sink, with the writer and the buffer number its header carries. */
  datatype Parcel = Parcel(writer: nat, number: nat, buf: Buf)

  function Parcels(w: nat, bufs: seq<Buf>, from: nat, to: nat): (ps: seq<Parcel>)
    requires from <= to <= |bufs|
    ensures |ps| == to - from && forall k :: 0 <= k < to - from ==> ps[k] == Parcel(w, from + k, bufs[from + k])
  {
    seq(to - from, k requires 0 <= k < to - from => Parcel(w, from + k, bufs[from + k]))
  }

  /** Opens a batch at the sink. */
  datatype Packet = Packet(index: u16, timestamp: u64, parcels: seq<Parcel>)

  /** The life of a writer; leaving takes five steps. */
  datatype Phase =
    | Live
    | Pushed                 // buffers are in the ready queue
    | Counted(inHand: nat)   // drop counter taken, not yet added to the totals
    | Added
    | Left                   // out of the registry
    | Gone                   // reference to the core released

  /** A writer: every buffer it ever filled, of which the first `pulled` were handed over, and what it sent. */
  datatype WriterState = Writer(kind: Stream, bufs: seq<Buf>, blocks: seq<Block>, sent: seq<Record>, pulled: nat,
                                attempts: nat, dropped: nat, phase: Phase)

  type Writer = v: WriterState | v.pulled <= |v.bufs| witness Writer(Logs, [], [], [], 0, 0, 0, Live)

  datatype Names = Names(file: u64, func: u64, name: u64)

  /** Entries of the service stream. `Other` are attributes, modules and metrics, which may be dropped. */
  datatype Entry =
    | LogDesc(hash: u64, kinds: seq<ArgKind>)
    | Str(ty: StrType, hash: u64)
    | SpanDesc(hash: u64, names: Names)
    | Other

  /** A thread inside resolve_log_desc or resolve_trc_desc, holding the descriptor mutex: the entries it has to write,
      and how many it is done with. */
  datatype ResolverState = Resolver(hash: u64, kinds: seq<ArgKind>, entries: seq<Entry>, done: nat)

  type Resolver = r: ResolverState | r.done <= |r.entries| witness Resolver(0, [], [], 0)

  /** Descriptors of one kind: those published, with the kinds of their arguments, and the holder of the mutex. */
  datatype Descs = Descs(known: map<u64, seq<ArgKind>>, busy: Option<Resolver>)

  datatype Totals = Totals(logs: nat, traces: nat) {
    function Of(k: Stream): nat { if k.Logs? then logs else traces }
    function Plus(k: Stream, n: nat): Totals {
      if k.Logs? then this.(logs := logs + n) else this.(traces := traces + n)
    }
    function PlusAll(t: Totals): Totals { Totals(logs + t.logs, traces + t.traces) }
  }

  datatype Pc =
    | Waiting | Stamped | Pulling | Drained | Collected | Described | Ready | Polling | Polled | Flushing | Stopped

  /** A cycle of the worker is under way, */
  predicate InCycle(pc: Pc) {
    !pc.Waiting? && !pc.Stopped?
  }

  /** it has been with every writer, */
  predicate PulledAll(pc: Pc) {
    InCycle(pc) && !pc.Stamped? && !pc.Pulling?
  }

  /** and it has emptied the ready queue. */
  predicate HasReady(pc: Pc) {
    PulledAll(pc) && !pc.Drained?
  }

  datatype Config = Config(cap: nat, margin: u64, tail: u64, idle: u64)

  /** The service stream on its way: descriptors and strings known, entries in service buffers, with the worker, and at
      the sink. */
  datatype Service = Service(logs: Descs, spans: Descs, strings: set<Entry>,
                             pending: seq<Entry>, taken: seq<Entry>, written: seq<Entry>)

  /** The worker: where it is, the stamp of this cycle, whether it was woken to stop, the writers still to visit, drops
      polled but not yet added, the batch, and what the last packet was. */
  datatype Worker = Worker(pc: Pc, stamp: u64, last: bool, todo: seq<nat>, polled: Totals, batch: seq<Parcel>,
                           lastStamp: u64, withData: bool)

  datatype State = State(clock: u64, reg: seq<AttrType>, writers: seq<Writer>, registry: seq<nat>,
                         ready: seq<Parcel>, totals: Totals, stopping: bool, service: Service, worker: Worker,
                         packets: seq<Packet>)

  function Init(): State {
    State(0, [], [], [], [], Totals(0, 0), false, Service(Descs(map[], None), Descs(map[], None), {}, [], [], []),
          Worker(Waiting, 0, false, [], Totals(0, 0), [], 0, false), [])
  }

  datatype WriterStep =
    | Send(open: bool, r: Record, b: Block)
    | Drop
    | Push
    | TakeDrops
    | AddDrops
    | Unregister
    | Release

  datatype ServiceStep =
    | ResolveLog(hash: u64, kinds: seq<ArgKind>)
    | ResolveSpan(hash: u64, names: Names)
    | WriteEntry(kind: Stream)
    | GiveUp(kind: Stream)
    | Publish(kind: Stream)
    | WriteOther

  datatype WorkerStep =
    | Wake(last: bool)
    | LockWriters
    | PullOne
    | UnlockWriters
    | DrainReady
    | DrainService
    | WriteService
    | LockForPoll
    | SkipPoll
    | PollOne
    | UnlockAfterPoll
    | AddPolled
    | Flush

  datatype Step =
    | Tick(t: u64)
    | AddAttr(ty: AttrType)
    | Register(kind: Stream)
    | By(w: nat, act: WriterStep)
    | Serve(entry: ServiceStep)
    | Stop
    | Work(part: WorkerStep)

  /** The worker holds the registry lock. */
  predicate WritersLocked(s: State) {
    s.worker.pc.Pulling? || s.worker.pc.Polling?
  }

  // ---------------------------------------------------------------------------------------------------------------
  // Writers

  /** The descriptor a record refers to has been published, and a log's arguments are of the kinds it names. */
  predicate Resolved(sv: Service, r: Record) {
    match r
    case Log(hash, _, _, _, _, _, args, _) => hash in sv.logs.known && ArgsOf(sv.logs.known[hash], args)
    case Begin(_, _, _, _, hash, _, _) => hash in sv.spans.known
    case End(_, _, _) => true
  }

  /** The attributes of a record are registered ones. */
  predicate AttrsOf(reg: seq<AttrType>, r: Record) {
    !r.End? ==> forall i :: 0 <= i < |r.attrs| ==> AttrOf(reg, r.attrs[i])
  }

  ghost predicate CanSend(c: Config, s: State, v: Writer, open: bool, r: Record, b: Block) {
    && (v.kind.Logs? <==> r.Log?)
    && r.timestamp == s.clock && Resolved(s.service, r) && AttrsOf(s.reg, r)
    && b.fixed == Fixed(r) && Encodes(r, b.bytes) && Bounded(r)
    && CanStart(c.cap, Views(v.bufs), open, b.fixed)
    // a buffer the worker took is no longer the writer's current one
    && (open ==> v.pulled < |v.bufs|)
  }

  ghost predicate CanAct(c: Config, s: State, w: nat, act: WriterStep) {
    w < |s.writers| &&
    var v := s.writers[w];
    match act
    case Send(open, r, b) => v.phase.Live? && CanSend(c, s, v, open, r, b)
    case Drop => v.phase.Live?
    case Push => v.phase.Live?
    case TakeDrops => v.phase.Pushed?
    case AddDrops => v.phase.Counted?
    case Unregister => v.phase.Added? && !WritersLocked(s)
    case Release => v.phase.Left?
  }

  /** The buffers after a record that starts in the current or a fresh one: the record is filed where it starts. */
  ghost function Extended(cap: nat, bufs: seq<Buf>, open: bool, r: Record, bytes: seq<byte>): (r': seq<Buf>)
    requires 0 < cap && Open(cap, Start(Views(bufs), open))
    ensures Views(r') == Extend(cap, Start(Views(bufs), open), bytes)
  {
    var v0 := Start(Views(bufs), open);
    var vs := Extend(cap, v0, bytes);
    seq(|vs|, i requires 0 <= i < |vs| =>
      Buf(vs[i], (if i < |bufs| then bufs[i].starts else []) + (if i == |v0| - 1 then [r] else [])))
  }

  /** What a step does to the writer that takes it. */
  ghost function Next(c: Config, s: State, w: nat, act: WriterStep): Writer
    requires CanAct(c, s, w, act)
  {
    var v := s.writers[w];
    match act
    case Send(open, r, b) =>
      v.(bufs := Extended(c.cap, v.bufs, open, r, b.bytes), blocks := v.blocks + [b], sent := v.sent + [r],
         attempts := v.attempts + 1)
    case Drop => v.(attempts := v.attempts + 1, dropped := v.dropped + 1)
    case Push => v.(pulled := |v.bufs|, phase := Pushed)
    case TakeDrops => v.(phase := Counted(v.dropped), dropped := 0)
    case AddDrops => v.(phase := Added)
    case Unregister => v.(phase := Left)
    case Release => v.(phase := Gone)
  }

  /** What the writer still holds. */
  function Held(w: nat, v: Writer): seq<Parcel> {
    Parcels(w, v.bufs, v.pulled, |v.bufs|)
  }

  ghost function Act(c: Config, s: State, w: nat, act: WriterStep): State
    requires CanAct(c, s, w, act)
  {
    var s1 := s.(writers := s.writers[w := Next(c, s, w, act)]);
    match act
    case Push => s1.(ready := s.ready + Held(w, s.writers[w]))
    case AddDrops => s1.(totals := s.totals.Plus(s.writers[w].kind, s.writers[w].phase.inHand))
    case Unregister => s1.(registry := Without(s.registry, w))
    case _ => s1
  }

  /** What the writer holds after a send: the records of before, and the new one. */
  lemma {:induction false} HeldAfterSend(c: Config, s: State, w: nat, open: bool, r: Record, b: Block, i: nat, j: nat)
    requires CanAct(c, s, w, Send(open, r, b))
    requires var h' := Held(w, Next(c, s, w, Send(open, r, b))); i < |h'| && j < |h'[i].buf.starts|
    ensures var h, h' := Held(w, s.writers[w]), Held(w, Next(c, s, w, Send(open, r, b)));
            var x := h'[i].buf.starts[j];
            x == r || (i < |h| && j < |h[i].buf.starts| && x == h[i].buf.starts[j])
  {
    hide Extend, Encodes, Resolved, AttrsOf, Bounded;
    var v, v' := s.writers[w], Next(c, s, w, Send(open, r, b));
    StartsAt(c.cap, v.bufs, open, r, b.bytes, v.pulled + i);
  }

  lemma {:induction false} StartsAt(cap: nat, bufs: seq<Buf>, open: bool, r: Record, bytes: seq<byte>, x: nat)
    requires 0 < cap && Open(cap, Start(Views(bufs), open)) && x < |Extended(cap, bufs, open, r, bytes)|
    ensures var old_ := if x < |bufs| then bufs[x].starts else [];
            Extended(cap, bufs, open, r, bytes)[x].starts in {old_, old_ + [r]}
  {
    hide Extend;
    var old_ := if x < |bufs| then bufs[x].starts else [];
    assert old_ + [] == old_;
  }

  // ---------------------------------------------------------------------------------------------------------------
  // Descriptors

  function DescsOf(sv: Service, k: Stream): Descs {
    if k.Logs? then sv.logs else sv.spans
  }

  function WithDescs(sv: Service, k: Stream, d: Descs): Service {
    if k.Logs? then sv.(logs := d) else sv.(spans := d)
  }

  predicate Unfinished(r: Resolver) {
    r.done < |r.entries|
  }

  predicate CanServe(sv: Service, entry: ServiceStep) {
    match entry
    case ResolveLog(hash, _) => sv.logs.busy.None? && hash !in sv.logs.known
    case ResolveSpan(hash, _) => sv.spans.busy.None? && hash !in sv.spans.known
    case WriteEntry(k) => DescsOf(sv, k).busy.Some? && Unfinished(DescsOf(sv, k).busy.value)
    case GiveUp(k) => DescsOf(sv, k).busy.Some? && Unfinished(DescsOf(sv, k).busy.value)
    case Publish(k) => DescsOf(sv, k).busy.Some? && !Unfinished(DescsOf(sv, k).busy.value)
    case WriteOther => true
  }

  function LogEntries(hash: u64, kinds: seq<ArgKind>): seq<Entry> {
    [LogDesc(hash, kinds)]
  }

  function SpanEntries(hash: u64, n: Names): seq<Entry> {
    [Str(FileName, n.file), Str(FuncName, n.func), Str(SpanName, n.name), SpanDesc(hash, n)]
  }

  function Served(sv: Service, entry: ServiceStep): Service
    requires CanServe(sv, entry)
  {
    match entry
    case ResolveLog(hash, kinds) =>
      sv.(logs := sv.logs.(busy := Some(Resolver(hash, kinds, LogEntries(hash, kinds), 0))))
    case ResolveSpan(hash, n) =>
      sv.(spans := sv.spans.(busy := Some(Resolver(hash, [], SpanEntries(hash, n), 0))))
    case WriteEntry(k) => EntryWritten(sv, k)
    case GiveUp(k) => WithDescs(sv, k, DescsOf(sv, k).(busy := None))
    case Publish(k) =>
      var d := DescsOf(sv, k);
      WithDescs(sv, k, Descs(d.known[d.busy.value.hash := d.busy.value.kinds], None))
    case WriteOther => sv.(pending := sv.pending + [Other])
  }

  /** One entry of a resolver; a string sent before is passed over. */
  function EntryWritten(sv: Service, k: Stream): Service
    requires CanServe(sv, WriteEntry(k))
  {
    var d := DescsOf(sv, k);
    var r := d.busy.value;
    var e := r.entries[r.done];
    var sv1 := WithDescs(sv, k, d.(busy := Some(r.(done := r.done + 1))));
    if e.Str? && e in sv.strings then sv1
    else sv1.(pending := sv.pending + [e], strings := if e.Str? then sv.strings + {e} else sv.strings)
  }

  // ---------------------------------------------------------------------------------------------------------------
  // The worker

  predicate CanWork(s: State, part: WorkerStep) {
    var k := s.worker;
    match part
    case Wake(last) => k.pc.Waiting? && (last ==> s.stopping)
    case LockWriters => k.pc.Stamped?
    case PullOne => k.pc.Pulling? && k.todo != [] && k.todo[0] < |s.writers|
    case UnlockWriters => k.pc.Pulling? && k.todo == []
    case DrainReady => k.pc.Drained?
    case DrainService => k.pc.Collected?
    case WriteService => k.pc.Described?
    case LockForPoll => k.pc.Ready?
    case SkipPoll => k.pc.Ready?
    case PollOne => k.pc.Polling? && k.todo != [] && k.todo[0] < |s.writers|
    case UnlockAfterPoll => k.pc.Polling? && k.todo == []
    case AddPolled => k.pc.Polled?
    case Flush => k.pc.Flushing?
  }

  function WithWorker(s: State, k: Worker): State {
    s.(worker := k)
  }

  function Worked(c: Config, s: State, part: WorkerStep): State
    requires CanWork(s, part)
  {
    var k := s.worker;
    match part
    case Wake(last) =>
      WithWorker(s, k.(pc := Stamped, last := last, stamp := if s.clock > c.margin then s.clock - c.margin else 0))
    case LockWriters => WithWorker(s, k.(pc := Pulling, todo := s.registry))
    case PullOne =>
      var w := k.todo[0];
      var v := s.writers[w];
      WithWorker(s, k.(todo := k.todo[1..], batch := k.batch + Held(w, v)))
        .(writers := s.writers[w := v.(pulled := |v.bufs|)])
    case UnlockWriters => WithWorker(s, k.(pc := Drained))
    case DrainReady => WithWorker(s, k.(pc := Collected, batch := k.batch + s.ready)).(ready := [])
    case DrainService =>
      WithWorker(s, k.(pc := Described))
        .(service := s.service.(taken := s.service.taken + s.service.pending, pending := []))
    case WriteService =>
      WithWorker(s, k.(pc := Ready))
        .(service := s.service.(written := s.service.written + s.service.taken, taken := []))
    case LockForPoll => WithWorker(s, k.(pc := Polling, todo := s.registry))
    case SkipPoll => WithWorker(s, k.(pc := Flushing))
    case PollOne =>
      var w := k.todo[0];
      var v := s.writers[w];
      WithWorker(s, k.(todo := k.todo[1..], polled := k.polled.Plus(v.kind, v.dropped)))
        .(writers := s.writers[w := v.(dropped := 0)])
    case UnlockAfterPoll => WithWorker(s, k.(pc := Polled))
    case AddPolled =>
      WithWorker(s, k.(pc := Flushing, polled := Totals(0, 0))).(totals := s.totals.PlusAll(k.polled))
    case Flush => Flushed(c, s)
  }

  /** Subtraction of 64-bit unsigned values. */
  function Minus(a: u64, b: u64): u64 {
    if a >= b then a - b else a - b + 0x1_0000_0000_0000_0000
  }

  /** Without data, a packet goes out only when the last one is long enough ago. */
  predicate Quiet(c: Config, k: Worker) {
    k.batch == [] && Minus(k.stamp, k.lastStamp) < if k.withData then c.tail else c.idle
  }

  function Flushed(c: Config, s: State): State {
    var k := s.worker.(pc := if s.worker.last then Stopped else Waiting);
    if Quiet(c, k) then WithWorker(s, k)
    else WithWorker(s, k.(lastStamp := k.stamp, withData := k.batch != [], batch := []))
           .(packets := s.packets + [Packet(|s.packets| % 0x1_0000, k.stamp, k.batch)])
  }

  // ---------------------------------------------------------------------------------------------------------------
  // All together

  ghost predicate Enabled(c: Config, s: State, step: Step) {
    match step
    case Tick(t) => s.clock <= t
    case AddAttr(_) => true
    case Register(_) => !WritersLocked(s) && !s.stopping
    case By(w, act) => CanAct(c, s, w, act)
    case Serve(entry) => CanServe(s.service, entry)
    case Stop => forall w :: 0 <= w < |s.writers| ==> s.writers[w].phase.Gone?
    case Work(part) => CanWork(s, part)
  }

  ghost function Apply(c: Config, s: State, step: Step): State
    requires Enabled(c, s, step)
  {
    match step
    case Tick(t) => s.(clock := t)
    case AddAttr(ty) => s.(reg := s.reg + [ty])
    case Register(kind) =>
      s.(writers := s.writers + [Writer(kind, [], [], [], 0, 0, 0, Live)], registry := [|s.writers|] + s.registry)
    case By(w, act) => Act(c, s, w, act)
    case Serve(entry) => s.(service := Served(s.service, entry))
    case Stop => s.(stopping := true)
    case Work(part) => Worked(c, s, part)
  }

  /** Only the worker moves the worker. */
  lemma {:induction false} WorkerStays(c: Config, s: State, step: Step)
    requires Enabled(c, s, step)
    ensures if step.Work? then CanWork(s, step.part) && Apply(c, s, step) == Worked(c, s, step.part)
            else Apply(c, s, step).worker == s.worker
  {
    hide CanAct, Next, CanServe, Served, CanWork, Worked;
  }

  /** unregister_writer unlinks one node of the list. */
  function Without(registry: seq<nat>, w: nat): (r: seq<nat>)
    ensures forall x :: x in r ==> x in registry
    ensures forall x :: x in registry && x != w ==> x in r
  {
    if registry == [] then []
    else if registry[0] == w then registry[1..]
    else [registry[0]] + Without(registry[1..], w)
  }

  /** A run: the states it passes through, and the steps between them. */
  ghost predicate Run(c: Config, states: seq<State>, steps: seq<Step>) {
    && |states| == |steps| + 1 && states[0] == Init()
    && c.cap % 8 == 0 && 72 <= c.cap <= 65519
    && forall i :: 0 <= i < |steps| ==>
         Enabled(c, states[i], steps[i]) && states[i + 1] == Apply(c, states[i], steps[i])
  }
}

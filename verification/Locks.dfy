/** Every lock of the core, and every code path that takes one, as a script per entry point: take, give back, wait for a
    buffer, branch. What is proved is about all interleavings of threads that run these scripts; which locks a thread
    holds where is derived from the scripts. */
module Locks {
  import opened Bytes

  datatype Lock =
    | LogDesc          // mo_log_desc_mutex
    | SpanDesc         // mo_trc_desc_mutex
    | Modules          // mo_log_mod_mutex
    | Metrics          // mo_mtk_desc_mutex
    | Writers          // mo_writers_lock
    | Spin(w: nat)     // a writer's own spin lock
    | Attrs            // mo_attr_mutex
    | Svc              // mo_svc_mutex
    | Ready            // mo_ready_lock
    | Pool             // the pool mutex

  // ---------------------------------------------------------------------------------------------------------------
  // The code

  /** Wait is a condition variable's: it gives the pool mutex back, sleeps, and takes the mutex again. */
  datatype Op = Take(l: Lock) | Give(l: Lock) | Wait | Skip | Return

  /** What is done, and where the code may go on. */
  datatype Instr = Instr(op: Op, next: set<nat>)

  datatype EntryPoint =
    | Record(desc: Lock, w: nat)   // cp8_log::send and cp8_trc::write_begin; write_end is its second half
    | Registration(reg: Lock)      // attr_register and register_module; lookups take the short way
    | MetricRegistration           // register_mtk
    | Leave(w: nat)                // core_push
    | Brief(lock: Lock)            // one critical section
    | DrainWriters(ws: seq<nat>)   // drain_writers over these writers

  /** The buffer for a record or a service entry is asked for twice: acquire_buffer tries under the pool mutex, and only
      then acquire_wait, which tries again and parks. */
  function RecordCode(d: Lock, w: nat, pc: nat): Instr {
    match pc
    case 0 => Instr(Skip, {1, 16})              // descriptor not cached, or cached
    case 1 => Instr(Take(d), {2})
    case 2 => Instr(Skip, {3, 14})              // to be written, or published by another thread
    case 3 => Instr(Take(Svc), {4})
    case 4 => Instr(Skip, {5, 12})              // no room in the service buffer, or room
    case 5 => Instr(Give(Svc), {6})
    case 6 => Instr(Take(Pool), {7})
    case 7 => Instr(Give(Pool), {8, 11})
    case 8 => Instr(Take(Pool), {9, 10})
    case 9 => Instr(Wait, {9, 10})              // woken for nothing, or served
    case 10 => Instr(Give(Pool), {11})
    case 11 => Instr(Take(Svc), {4, 12})
    case 12 => Instr(Skip, {4, 13})             // the next entry, or done
    case 13 => Instr(Give(Svc), {14})
    case 14 => Instr(Give(d), {15})
    case 15 => Instr(Skip, {16, 30})
    case 16 => Instr(Take(Spin(w)), {17, 24})   // no current buffer, or one with room
    case 17 => Instr(Give(Spin(w)), {18})
    case 18 => Instr(Take(Pool), {19})
    case 19 => Instr(Give(Pool), {20, 23})
    case 20 => Instr(Take(Pool), {21, 22})
    case 21 => Instr(Wait, {21, 22})
    case 22 => Instr(Give(Pool), {23})
    case 23 => Instr(Take(Spin(w)), {24, 29})
    case 24 => Instr(Skip, {25, 27, 29})        // attribute cache, next or returned buffer, end of the record
    case 25 => Instr(Take(Attrs), {26})
    case 26 => Instr(Give(Attrs), {24})
    case 27 => Instr(Take(Pool), {28})
    case 28 => Instr(Give(Pool), {24})
    case 29 => Instr(Give(Spin(w)), {30})
    case _ => Instr(Return, {})
  }

  function RegistrationCode(l: Lock, pc: nat): Instr {
    match pc
    case 0 => Instr(Take(l), {1})
    case 1 => Instr(Skip, {2, 7})               // new, or known
    case 2 => Instr(Take(Svc), {3})
    case 3 => Instr(Skip, {4, 6})               // no room, or room
    case 4 => Instr(Take(Pool), {5})
    case 5 => Instr(Give(Pool), {3, 6})
    case 6 => Instr(Give(Svc), {7})
    case 7 => Instr(Give(l), {8})
    case _ => Instr(Return, {})
  }

  function MetricCode(pc: nat): Instr {
    match pc
    case 0 => Instr(Take(Metrics), {1})
    case 1 => Instr(Skip, {2, 9})               // new, or known
    case 2 => Instr(Take(Attrs), {3})
    case 3 => Instr(Give(Attrs), {4})
    case 4 => Instr(Take(Svc), {5})
    case 5 => Instr(Skip, {6, 8})               // no room, or room
    case 6 => Instr(Take(Pool), {7})
    case 7 => Instr(Give(Pool), {5, 8})
    case 8 => Instr(Give(Svc), {9})
    case 9 => Instr(Give(Metrics), {10})
    case _ => Instr(Return, {})
  }

  function LeaveCode(w: nat, pc: nat): Instr {
    match pc
    case 0 => Instr(Take(Spin(w)), {1, 3})      // something held, or nothing
    case 1 => Instr(Take(Ready), {2})
    case 2 => Instr(Give(Ready), {3})
    case 3 => Instr(Give(Spin(w)), {4})
    case _ => Instr(Return, {})
  }

  function BriefCode(l: Lock, pc: nat): Instr {
    match pc
    case 0 => Instr(Take(l), {1})
    case 1 => Instr(Give(l), {2})
    case _ => Instr(Return, {})
  }

  function DrainCode(ws: seq<nat>, pc: nat): Instr {
    if pc == 0 then Instr(Take(Writers), {1})
    else if pc <= 2 * |ws| then
      var w := ws[(pc - 1) / 2];
      Instr(if pc % 2 == 1 then Take(Spin(w)) else Give(Spin(w)), {pc + 1})
    else if pc == 2 * |ws| + 1 then Instr(Give(Writers), {pc + 1})
    else Instr(Return, {})
  }

  function Code(e: EntryPoint, pc: nat): Instr {
    match e
    case Record(d, w) => RecordCode(d, w, pc)
    case Registration(l) => RegistrationCode(l, pc)
    case MetricRegistration => MetricCode(pc)
    case Leave(w) => LeaveCode(w, pc)
    case Brief(l) => BriefCode(l, pc)
    case DrainWriters(ws) => DrainCode(ws, pc)
  }

  const WORKER: nat := 0

  /** The worker drains the writers, takes the ready queue, takes the service list, polls the drop counters under the
      registry lock, and recycles. Other threads send, register, come and go; each may give a buffer back. */
  predicate Calls(t: nat, e: EntryPoint) {
    match e
    case Record(d, _) => t != WORKER && (d.LogDesc? || d.SpanDesc?)
    case Registration(l) => t != WORKER && (l.Attrs? || l.Modules?)
    case MetricRegistration => t != WORKER
    case Leave(_) => t != WORKER
    case Brief(l) => l.Writers? || l.Pool? || (t == WORKER && (l.Ready? || l.Svc?))
    case DrainWriters(_) => t == WORKER
  }

  // ---------------------------------------------------------------------------------------------------------------
  // Threads that run it

  /** A thread: the call it is in, the locks it has, the one it waits for, and whether it is parked for a buffer. */
  datatype Thread = Thread(call: Option<EntryPoint>, pc: nat, held: seq<Lock>, want: Option<Lock>, parked: bool)

  datatype Step =
    | Enter(t: nat, e: EntryPoint)
    | Ask(t: nat)                  // reach for a lock
    | Grant(t: nat, to: nat)       // get it
    | Go(t: nat, to: nat)          // give one back, or branch
    | Park(t: nat)
    | Unpark(t: nat)               // woken: reach for the pool mutex again
    | Exit(t: nat)

  predicate Running(th: Thread) {
    th.want.None? && !th.parked
  }

  predicate Held(s: seq<Thread>, l: Lock) {
    exists u :: 0 <= u < |s| && l in s[u].held
  }

  function Now(th: Thread): Instr
    requires th.call.Some?
  {
    Code(th.call.value, th.pc)
  }

  predicate Enabled(s: seq<Thread>, step: Step) {
    step.t < |s| &&
    var th := s[step.t];
    match step
    case Enter(t, e) => th.call.None? && Calls(t, e)
    case Ask(_) => th.call.Some? && Running(th) && Now(th).op.Take?
    case Grant(_, to) => th.call.Some? && th.want.Some? && !Held(s, th.want.value) && to in Now(th).next
    case Go(_, to) => th.call.Some? && Running(th) && (Now(th).op.Give? || Now(th).op.Skip?) && to in Now(th).next
    case Park(_) => th.call.Some? && Running(th) && Now(th).op.Wait?
    case Unpark(_) => th.parked
    case Exit(_) => th.call.Some? && Running(th) && Now(th).op.Return?
  }

  /** The locks without `l`. */
  function Without(held: seq<Lock>, l: Lock): seq<Lock> {
    if held == [] then []
    else if held[|held| - 1] == l then held[..|held| - 1]
    else Without(held[..|held| - 1], l) + [held[|held| - 1]]
  }

  function Apply(s: seq<Thread>, step: Step): seq<Thread>
    requires Enabled(s, step)
  {
    var th := s[step.t];
    match step
    case Enter(t, e) => s[t := th.(call := Some(e), pc := 0)]
    case Ask(t) => s[t := th.(want := Some(Now(th).op.l))]
    case Grant(t, to) => s[t := th.(held := th.held + [th.want.value], want := None, pc := to)]
    case Go(t, to) =>
      s[t := th.(held := if Now(th).op.Give? then Without(th.held, Now(th).op.l) else th.held, pc := to)]
    case Park(t) => s[t := th.(held := Without(th.held, Pool), parked := true)]
    case Unpark(t) => s[t := th.(parked := false, want := Some(Pool))]
    case Exit(t) => s[t := th.(call := None, pc := 0)]
  }

  ghost predicate Run(states: seq<seq<Thread>>, steps: seq<Step>) {
    && |states| == |steps| + 1
    && (forall t :: 0 <= t < |states[0]| ==> states[0][t] == Thread(None, 0, [], None, false))
    && forall i :: 0 <= i < |steps| ==> Enabled(states[i], steps[i]) && states[i + 1] == Apply(states[i], steps[i])
  }

  // ---------------------------------------------------------------------------------------------------------------
  // What is held where

  /** One rank for all locks. */
  function Rank(l: Lock): nat {
    match l
    case LogDesc => 0
    case SpanDesc => 0
    case Modules => 1
    case Metrics => 1
    case Writers => 2
    case Spin(_) => 3
    case Attrs => 4
    case Svc => 5
    case Ready => 6
    case Pool => 7
  }

  predicate Climbing(held: seq<Lock>) {
    forall i, j :: 0 <= i < j < |held| ==> Rank(held[i]) < Rank(held[j])
  }

  predicate Above(held: seq<Lock>, l: Lock) {
    forall i :: 0 <= i < |held| ==> Rank(held[i]) < Rank(l)
  }

  /** The locks held before the instruction at `pc`. */
  function Stack(e: EntryPoint, pc: nat): seq<Lock> {
    match e
    case Record(d, w) => RecordStack(d, w, pc)
    case Registration(l) =>
      if pc in {1, 2, 7} then [l] else if pc in {3, 4, 6} then [l, Svc] else if pc == 5 then [l, Svc, Pool] else []
    case MetricRegistration =>
      if pc in {1, 2, 4, 9} then [Metrics] else if pc == 3 then [Metrics, Attrs]
      else if pc in {5, 6, 8} then [Metrics, Svc] else if pc == 7 then [Metrics, Svc, Pool] else []
    case Leave(w) => if pc in {1, 3} then [Spin(w)] else if pc == 2 then [Spin(w), Ready] else []
    case Brief(l) => if pc == 1 then [l] else []
    case DrainWriters(ws) =>
      if pc == 0 || pc > 2 * |ws| + 1 then []
      else if pc % 2 == 1 then [Writers]
      else [Writers, Spin(ws[(pc - 1) / 2])]
  }

  function RecordStack(d: Lock, w: nat, pc: nat): seq<Lock> {
    if pc in {2, 3, 6, 8, 11, 14} then [d]
    else if pc in {4, 5, 12, 13} then [d, Svc]
    else if pc in {7, 9, 10} then [d, Pool]
    else if pc in {17, 24, 25, 27, 29} then [Spin(w)]
    else if pc in {19, 21, 22} then [Pool]
    else if pc == 26 then [Spin(w), Attrs]
    else if pc == 28 then [Spin(w), Pool]
    else []
  }

  /** What a parked thread may hold. */
  predicate MayPark(held: seq<Lock>) {
    held == [] || held == [LogDesc] || held == [SpanDesc]
  }

  /** What an instruction does to the stack. */
  predicate Fits(op: Op, before: seq<Lock>, after: seq<Lock>) {
    match op
    case Take(l) => Above(before, l) && after == before + [l]
    case Give(l) => before == after + [l]
    case Wait => before == after && before != [] && before[|before| - 1] == Pool && MayPark(before[..|before| - 1])
    case Skip => before == after
    case Return => false
  }

  lemma {:induction false} RecordFits(d: Lock, w: nat, pc: nat, to: nat)
    requires (d.LogDesc? || d.SpanDesc?) && to in RecordCode(d, w, pc).next
    ensures Fits(RecordCode(d, w, pc).op, RecordStack(d, w, pc), RecordStack(d, w, to))
  {
    hide RecordCode, RecordStack, Fits;
    if pc < 8 {
      ResolveFits(d, w, pc, to);
    } else if pc < 16 {
      ResolveWaitFits(d, w, pc, to);
    } else {
      WriteFits(d, w, pc, to);
    }
  }

  lemma {:induction false} ResolveFits(d: Lock, w: nat, pc: nat, to: nat)
    requires (d.LogDesc? || d.SpanDesc?) && pc < 8 && to in RecordCode(d, w, pc).next
    ensures Fits(RecordCode(d, w, pc).op, RecordStack(d, w, pc), RecordStack(d, w, to))
  {
  }

  lemma {:induction false} ResolveWaitFits(d: Lock, w: nat, pc: nat, to: nat)
    requires (d.LogDesc? || d.SpanDesc?) && 8 <= pc < 16 && to in RecordCode(d, w, pc).next
    ensures Fits(RecordCode(d, w, pc).op, RecordStack(d, w, pc), RecordStack(d, w, to))
  {
  }

  lemma {:induction false} WriteFits(d: Lock, w: nat, pc: nat, to: nat)
    requires 16 <= pc && to in RecordCode(d, w, pc).next
    ensures Fits(RecordCode(d, w, pc).op, RecordStack(d, w, pc), RecordStack(d, w, to))
  {
  }

  lemma {:induction false} DrainFits(ws: seq<nat>, pc: nat, to: nat)
    requires to in DrainCode(ws, pc).next
    ensures Fits(DrainCode(ws, pc).op, Stack(DrainWriters(ws), pc), Stack(DrainWriters(ws), to))
  {
    assert to == pc + 1;
    if pc > 0 && pc <= 2 * |ws| {
      Halves(pc);
    }
  }

  lemma {:induction false} Halves(pc: nat)
    requires pc > 0
    ensures pc % 2 == 1 ==> (pc + 1) % 2 == 0 && (pc - 1) / 2 == (pc + 1 - 1) / 2
    ensures pc % 2 == 0 ==> (pc + 1) % 2 == 1
  {
  }

  /** On every path of every entry point: a lock is taken above all held ones, the last one taken is given back first,
      and the wait for a buffer comes with the pool mutex on top of at most one descriptor mutex. */
  lemma {:induction false} CodeFits(t: nat, e: EntryPoint, pc: nat, to: nat)
    requires Calls(t, e) && to in Code(e, pc).next
    ensures Fits(Code(e, pc).op, Stack(e, pc), Stack(e, to))
    ensures Code(e, pc).op.Wait? ==> t != WORKER
  {
    hide RecordStack, RecordCode, DrainCode, Fits;
    RecordWaits(e, pc);
    match e {
      case Record(d, w) => RecordFits(d, w, pc, to);
      case Registration(l) => RegistrationFits(l, pc, to);
      case MetricRegistration => MetricFits(pc, to);
      case Leave(w) => LeaveFits(w, pc, to);
      case Brief(l) => BriefFits(l, pc, to);
      case DrainWriters(ws) => DrainFits(ws, pc, to);
    }
  }

  lemma {:induction false} RegistrationFits(l: Lock, pc: nat, to: nat)
    requires (l.Attrs? || l.Modules?) && to in RegistrationCode(l, pc).next
    ensures Fits(RegistrationCode(l, pc).op, Stack(Registration(l), pc), Stack(Registration(l), to))
  {
  }

  lemma {:induction false} MetricFits(pc: nat, to: nat)
    requires to in MetricCode(pc).next
    ensures Fits(MetricCode(pc).op, Stack(MetricRegistration, pc), Stack(MetricRegistration, to))
  {
  }

  lemma {:induction false} LeaveFits(w: nat, pc: nat, to: nat)
    requires to in LeaveCode(w, pc).next
    ensures Fits(LeaveCode(w, pc).op, Stack(Leave(w), pc), Stack(Leave(w), to))
  {
  }

  lemma {:induction false} BriefFits(l: Lock, pc: nat, to: nat)
    requires to in BriefCode(l, pc).next
    ensures Fits(BriefCode(l, pc).op, Stack(Brief(l), pc), Stack(Brief(l), to))
  {
  }

  /** Only a record waits for a buffer. */
  lemma {:induction false} RecordWaits(e: EntryPoint, pc: nat)
    ensures Code(e, pc).op.Wait? ==> e.Record?
  {
    hide RecordCode;
  }

  /** Every path ends with all locks given back. */
  lemma {:induction false} ReturnsClean(e: EntryPoint, pc: nat)
    requires Code(e, pc).op.Return?
    ensures Stack(e, pc) == []
  {
  }

  /** Every instruction that is not the last leads somewhere. */
  lemma {:induction false} GoesOn(e: EntryPoint, pc: nat) returns (to: nat)
    requires !Code(e, pc).op.Return?
    ensures to in Code(e, pc).next
  {
    to :| to in Code(e, pc).next;
  }

  lemma {:induction false} StackClimbs(t: nat, e: EntryPoint, pc: nat)
    requires Calls(t, e)
    ensures Climbing(Stack(e, pc))
    ensures t == WORKER ==> forall l :: l in Stack(e, pc) ==> Rank(l) >= 2
  {
  }

  // ---------------------------------------------------------------------------------------------------------------
  // Every run

  /** A thread has the locks its place in the code says. */
  ghost predicate ThreadOk(t: nat, th: Thread) {
    match th.call
    case None => th.held == [] && Running(th)
    case Some(e) =>
      && Calls(t, e) && !(th.parked && th.want.Some?)
      && (th.want.Some? && Now(th).op.Take? ==> th.want.value == Now(th).op.l && th.held == Stack(e, th.pc))
      && (th.want.Some? && !Now(th).op.Take? ==> th.want.value == Pool)
      && (th.parked || (th.want.Some? && !Now(th).op.Take?) ==> Now(th).op.Wait? && th.held + [Pool] == Stack(e, th.pc))
      && (Running(th) ==> th.held == Stack(e, th.pc))
  }

  ghost predicate Inv(s: seq<Thread>) {
    && (forall t :: 0 <= t < |s| ==> ThreadOk(t, s[t]))
    && (forall t, u, l :: 0 <= t < u < |s| && l in s[t].held ==> l !in s[u].held)
  }

  lemma {:induction false} WithoutLast(held: seq<Lock>, l: Lock)
    ensures Without(held + [l], l) == held
  {
    assert (held + [l])[..|held|] == held;
  }

  lemma {:induction false} WithoutPart(held: seq<Lock>, l: Lock, m: Lock)
    requires m in Without(held, l)
    ensures m in held
    decreases |held|
  {
    var n := |held| - 1;
    if held[n] != l && m in Without(held[..n], l) {
      WithoutPart(held[..n], l, m);
    }
  }

  lemma {:induction false} ThreadStep(s: seq<Thread>, step: Step)
    requires Inv(s) && Enabled(s, step)
    ensures ThreadOk(step.t, Apply(s, step)[step.t])
  {
    hide Code, Stack, Calls, Without, Rank;
    var th := s[step.t];
    assert ThreadOk(step.t, th);
    match step {
      case Enter(t, e) => StartsClean(e);
      case Ask(t) =>
      case Grant(t, to) => CodeFits(t, th.call.value, th.pc, to);
      case Go(t, to) =>
        CodeFits(t, th.call.value, th.pc, to);
        if Now(th).op.Give? {
          WithoutLast(Stack(th.call.value, to), Now(th).op.l);
        }
      case Park(t) =>
        var to := GoesOn(th.call.value, th.pc);
        CodeFits(t, th.call.value, th.pc, to);
        var st := Stack(th.call.value, th.pc);
        assert st == st[..|st| - 1] + [Pool];
        WithoutLast(st[..|st| - 1], Pool);
      case Unpark(t) =>
      case Exit(t) => ReturnsClean(th.call.value, th.pc);
    }
  }

  lemma {:induction false} StartsClean(e: EntryPoint)
    ensures Stack(e, 0) == []
  {
  }

  lemma {:induction false} ExclusiveStep(s: seq<Thread>, step: Step, t: nat, u: nat, l: Lock)
    requires Inv(s) && Enabled(s, step) && t < u < |s| && l in Apply(s, step)[t].held
    ensures l !in Apply(s, step)[u].held
  {
    hide ThreadOk, Without, Code;
    var s', x := Apply(s, step), step.t;
    if step.Grant? {
      var w := s[x].want.value;
      assert forall v :: 0 <= v < |s| ==> w !in s[v].held;
    } else {
      forall m | m in s'[x].held ensures m in s[x].held {
        if step.Park? {
          WithoutPart(s[x].held, Pool, m);
        } else if step.Go? && Now(s[x]).op.Give? {
          WithoutPart(s[x].held, Now(s[x]).op.l, m);
        }
      }
    }
  }

  lemma {:induction false} StepKeeps(s: seq<Thread>, step: Step)
    requires Inv(s) && Enabled(s, step)
    ensures Inv(Apply(s, step))
  {
    hide ThreadOk, Without, Code;
    var s' := Apply(s, step);
    ThreadStep(s, step);
    forall t | 0 <= t < |s'| ensures ThreadOk(t, s'[t]) {
    }
    forall t, u, l | 0 <= t < u < |s'| && l in s'[t].held ensures l !in s'[u].held {
      ExclusiveStep(s, step, t, u, l);
    }
  }

  lemma {:induction false} InvHolds(states: seq<seq<Thread>>, steps: seq<Step>, i: nat)
    requires Run(states, steps) && i < |states|
    ensures Inv(states[i])
  {
    if i > 0 {
      hide Inv, Enabled, Apply;
      InvHolds(states, steps, i - 1);
      StepKeeps(states[i - 1], steps[i - 1]);
    }
  }

  /** What the places in the code say about a thread's locks. */
  ghost predicate Disciplined(t: nat, th: Thread) {
    && Climbing(th.held) && (th.want.Some? ==> Above(th.held, th.want.value))
    && (th.parked ==> t != WORKER && th.want.None? && MayPark(th.held))
    && (t == WORKER ==> (forall l :: l in th.held ==> Rank(l) >= 2) && (th.want.Some? ==> Rank(th.want.value) >= 2))
  }

  lemma {:induction false} CodeDisciplines(t: nat, th: Thread)
    requires ThreadOk(t, th)
    ensures Disciplined(t, th)
  {
    hide Code, Stack, Calls;
    if th.call.Some? {
      var e := th.call.value;
      StackClimbs(t, e, th.pc);
      if !Running(th) {
        var to := GoesOn(e, th.pc);
        CodeFits(t, e, th.pc, to);
        StackClimbs(t, e, to);
        if Now(th).op.Wait? {
          var st := Stack(e, th.pc);
          assert st[..|st| - 1] == th.held && st[|th.held|] == Pool;
          PartClimbs(th.held, Pool);
        } else {
          var st := Stack(e, to);
          assert st[|th.held|] == th.want.value && th.want.value in st;
        }
      }
    }
  }

  lemma {:induction false} PartClimbs(held: seq<Lock>, l: Lock)
    requires Climbing(held + [l])
    ensures Climbing(held) && Above(held, l)
  {
    var st := held + [l];
    assert forall i :: 0 <= i < |held| ==> st[i] == held[i];
    assert st[|held|] == l;
  }

  /** In every run a thread that reaches for a lock holds only locks of lower rank. */
  lemma {:induction false} TakesGoUp(states: seq<seq<Thread>>, steps: seq<Step>, n: nat, t: nat)
    requires Run(states, steps) && n < |states| && t < |states[n]| && states[n][t].want.Some?
    ensures forall l :: l in states[n][t].held ==> Rank(l) < Rank(states[n][t].want.value)
  {
    hide ThreadOk, Rank;
    InvHolds(states, steps, n);
    CodeDisciplines(t, states[n][t]);
  }

  /** In every run a thread parked for a buffer holds nothing but possibly one descriptor mutex, and it is never the
      worker. */
  lemma {:induction false} ParkedHoldsLittle(states: seq<seq<Thread>>, steps: seq<Step>, n: nat, t: nat)
    requires Run(states, steps) && n < |states| && t < |states[n]| && states[n][t].parked
    ensures t != WORKER && states[n][t].held in {[], [LogDesc], [SpanDesc]}
  {
    hide ThreadOk, Rank;
    InvHolds(states, steps, n);
    CodeDisciplines(t, states[n][t]);
  }

  // ---------------------------------------------------------------------------------------------------------------
  // Who waits for whom

  ghost predicate AllDisciplined(s: seq<Thread>) {
    forall t :: 0 <= t < |s| ==> Disciplined(t, s[t])
  }

  lemma {:induction false} DisciplineHolds(states: seq<seq<Thread>>, steps: seq<Step>, n: nat)
    requires Run(states, steps) && n < |states|
    ensures AllDisciplined(states[n])
  {
    hide ThreadOk, Disciplined;
    InvHolds(states, steps, n);
    forall t | 0 <= t < |states[n]| ensures Disciplined(t, states[n][t]) {
      CodeDisciplines(t, states[n][t]);
    }
  }

  /** Each thread of the chain waits for a lock the next one holds. */
  predicate Chain(s: seq<Thread>, c: seq<nat>) {
    && c != [] && (forall i :: 0 <= i < |c| ==> c[i] < |s|)
    && forall i :: 0 <= i < |c| - 1 ==> s[c[i]].want.Some? && s[c[i]].want.value in s[c[i + 1]].held
  }

  /** Along a chain the ranks waited for go up. */
  lemma {:induction false} ChainClimbs(s: seq<Thread>, c: seq<nat>, i: nat, j: nat)
    requires AllDisciplined(s) && Chain(s, c) && i < j < |c| && s[c[j]].want.Some?
    ensures s[c[i]].want.Some? && Rank(s[c[i]].want.value) < Rank(s[c[j]].want.value)
    decreases j
  {
    hide Rank;
    var k := j - 1;
    assert s[c[k]].want.Some? && s[c[k]].want.value in s[c[k + 1]].held;
    assert Disciplined(c[j], s[c[j]]);
    if i < k {
      ChainClimbs(s, c, i, k);
    }
  }

  /** A thread waiting, through any number of others, for itself: impossible. */
  lemma {:induction false} NoDeadlock(states: seq<seq<Thread>>, steps: seq<Step>, n: nat, c: seq<nat>)
    requires Run(states, steps) && n < |states| && Chain(states[n], c)
    ensures forall i, j :: 0 <= i < j < |c| ==> c[i] != c[j]
    ensures |c| <= 9
  {
    var s := states[n];
    DisciplineHolds(states, steps, n);
    forall i, j | 0 <= i < j < |c| ensures c[i] != c[j] {
      if c[i] == c[j] {
        SelfWait(s, c, i, j);
        assert false;
      }
    }
    if |c| > 1 {
      RankGrows(s, c, |c| - 2);
    }
  }

  lemma {:induction false} SelfWait(s: seq<Thread>, c: seq<nat>, i: nat, j: nat)
    requires AllDisciplined(s) && Chain(s, c) && i < j < |c|
    ensures c[i] != c[j]
  {
    hide Rank;
    assert s[c[i]].want.Some? && s[c[i]].want.value in s[c[i + 1]].held;
    if c[i] == c[j] {
      ChainClimbs(s, c, i, j);
    }
  }

  lemma {:induction false} RankGrows(s: seq<Thread>, c: seq<nat>, i: nat)
    requires AllDisciplined(s) && Chain(s, c) && i < |c| - 1
    ensures s[c[i]].want.Some? && i <= Rank(s[c[i]].want.value) <= 7
  {
    if i > 0 {
      RankGrows(s, c, i - 1);
      ChainClimbs(s, c, i - 1, i);
    }
  }

  /** Whatever the worker waits for, directly or through others, no thread on the way is parked for a buffer, so the
      worker is never kept from recycling by a producer that waits for it. */
  lemma {:induction false} WorkerNeverBlocked(states: seq<seq<Thread>>, steps: seq<Step>, n: nat, c: seq<nat>, i: nat)
    requires Run(states, steps) && n < |states| && Chain(states[n], c) && c[0] == WORKER && i < |c|
    ensures !states[n][c[i]].parked
  {
    var s := states[n];
    DisciplineHolds(states, steps, n);
    assert Disciplined(c[0], s[c[0]]);
    if i > 0 {
      assert s[c[i - 1]].want.Some? && s[c[i - 1]].want.value in s[c[i - 1 + 1]].held;
      if i > 1 {
        assert s[c[0]].want.Some? && s[c[0]].want.value in s[c[0 + 1]].held;
        ChainClimbs(s, c, 0, i - 1);
      }
      assert Disciplined(c[i], s[c[i]]);
      HighLock(s[c[i]].held, s[c[i - 1]].want.value);
    }
  }

  /** A parked thread holds no lock of rank 2 or more. */
  lemma {:induction false} HighLock(held: seq<Lock>, l: Lock)
    requires l in held && Rank(l) >= 2
    ensures !MayPark(held)
  {
  }

  /** So some thread the worker waits for can always go on: the end of a longest chain runs, or is granted its lock. */
  lemma {:induction false} SomeoneRuns(states: seq<seq<Thread>>, steps: seq<Step>, n: nat, c: seq<nat>)
    requires Run(states, steps) && n < |states| && Chain(states[n], c) && c[0] == WORKER
    requires forall u :: 0 <= u < |states[n]| ==> !Chain(states[n], c + [u])
    ensures var t := c[|c| - 1];
            Running(states[n][t]) || exists to :: Enabled(states[n], Grant(t, to))
  {
    var s, t := states[n], c[|c| - 1];
    WorkerNeverBlocked(states, steps, n, c, |c| - 1);
    hide Chain;
    ChainEnds(s, c);
    if s[t].want.Some? {
      if Held(s, s[t].want.value) {
        var u :| 0 <= u < |s| && s[t].want.value in s[u].held;
        Longer(s, c, u);
      } else {
        InvHolds(states, steps, n);
        WantsInCall(t, s[t]);
        var to := GoesOn(s[t].call.value, s[t].pc);
        assert Enabled(s, Grant(t, to));
      }
    }
  }

  lemma {:induction false} ChainEnds(s: seq<Thread>, c: seq<nat>)
    requires Chain(s, c)
    ensures c != [] && c[|c| - 1] < |s|
  {
  }

  lemma {:induction false} WantsInCall(t: nat, th: Thread)
    requires ThreadOk(t, th) && th.want.Some?
    ensures th.call.Some? && !Now(th).op.Return?
  {
    hide Code, Stack, Calls;
  }

  lemma {:induction false} Longer(s: seq<Thread>, c: seq<nat>, u: nat)
    requires Chain(s, c) && u < |s| && s[c[|c| - 1]].want.Some? && s[c[|c| - 1]].want.value in s[u].held
    ensures Chain(s, c + [u])
  {
    var d := c + [u];
    forall i | 0 <= i < |d| - 1 ensures s[d[i]].want.Some? && s[d[i]].want.value in s[d[i + 1]].held {
      if i < |c| - 1 {
        assert s[c[i]].want.Some? && s[c[i]].want.value in s[c[i + 1]].held;
      }
    }
  }
}

/** Whole runs of one writer object: any sequence of sends, pulls, registrations of attributes and the exit, on a writer
    just made, with the buffers of the core coming and failing as they may. */
module WriterRuns {
  import opened Bytes
  import opened Fragments
  import opened Wire
  import opened TlsWriter

  datatype Call =
    | SendLog(level: u8, minLevel: u8, resolved: bool, hash: u64, now: u64, traceId: u64, modId: u16, args: seq<Arg>,
              attrs: seq<AttrVal>)
    | BeginSpan(resolved: bool, hash: u64, now: u64, spanId: u64, isAsync: bool, parentId: u64, attrs: seq<AttrVal>)
    | EndSpan(now: u64, spanId: u64)
    | AddAttr(ty: AttrType)
    | Pull
    | Leave

  /** The attribute registry after these calls. */
  function Registry(calls: seq<Call>): seq<AttrType> {
    if calls == [] then []
    else
      var last, before := calls[|calls| - 1], Registry(calls[..|calls| - 1]);
      if last.AddAttr? then before + [last.ty] else before
  }

  predicate IsSend(call: Call) {
    call.SendLog? || call.BeginSpan? || call.EndSpan?
  }

  /** What a successful call sends. */
  function RecordOf(call: Call, reg: seq<AttrType>, thread: u32): Record
    requires IsSend(call)
  {
    match call
    case SendLog(level, _, _, hash, now, traceId, modId, args, attrs) =>
      Log(hash, now, traceId, thread, level, modId, SentArgs(args),
          Plan(reg, 40 + |ArgsBytes(SentArgs(args))|, 0, attrs))
    case BeginSpan(_, hash, now, spanId, isAsync, parentId, attrs) =>
      Begin(now, spanId, isAsync, thread, hash, parentId, Plan(reg, 40, 0, attrs))
    case EndSpan(now, spanId) => End(now, spanId, thread)
  }

  /** What one call adds to the records sent. */
  function SentBy(call: Call, ok: bool, reg: seq<AttrType>, thread: u32): seq<Record> {
    if IsSend(call) && ok then [RecordOf(call, reg, thread)] else []
  }

  /** The records of the calls that succeeded, in call order. */
  function Succeeded(calls: seq<Call>, oks: seq<bool>, thread: u32): seq<Record>
    requires |oks| == |calls|
  {
    if calls == [] then []
    else
      var n := |calls| - 1;
      Succeeded(calls[..n], oks[..n], thread) + SentBy(calls[n], oks[n], Registry(calls[..n]), thread)
  }

  /** Is this failure counted, as a log or as a span? */
  function CountedDrop(call: Call, ok: bool, k: Stream): nat {
    if ok then 0
    else if k.Logs? then (if call.SendLog? && call.level >= call.minLevel then 1 else 0)
    else if call.BeginSpan? || call.EndSpan? then 1
    else 0
  }

  function Drops(calls: seq<Call>, oks: seq<bool>, k: Stream): nat
    requires |oks| == |calls|
  {
    if calls == [] then 0
    else
      var n := |calls| - 1;
      Drops(calls[..n], oks[..n], k) + CountedDrop(calls[n], oks[n], k)
  }

  /** May this call succeed at all: is its level high enough and its descriptor known? */
  predicate MaySucceed(call: Call) {
    match call
    case SendLog(level, minLevel, resolved, _, _, _, _, _, _) => level >= minLevel && resolved
    case BeginSpan(resolved, _, _, _, _, _, _) => resolved
    case _ => true
  }

  /** Did this call fail because a buffer was asked for and none was free? */
  function RefusedBuffer(call: Call, ok: bool): nat {
    if ok || !MaySucceed(call) then 0 else 1
  }

  function Refusals(calls: seq<Call>, oks: seq<bool>): nat
    requires |oks| == |calls|
  {
    if calls == [] then 0
    else
      var n := |calls| - 1;
      Refusals(calls[..n], oks[..n]) + RefusedBuffer(calls[n], oks[n])
  }

  /** One more call. */
  lemma {:induction false} OneMore(calls: seq<Call>, oks: seq<bool>, call: Call, ok: bool, thread: u32)
    requires |oks| == |calls|
    ensures Succeeded(calls + [call], oks + [ok], thread)
            == Succeeded(calls, oks, thread) + SentBy(call, ok, Registry(calls), thread)
    ensures forall k :: Drops(calls + [call], oks + [ok], k) == Drops(calls, oks, k) + CountedDrop(call, ok, k)
    ensures Refusals(calls + [call], oks + [ok]) == Refusals(calls, oks) + RefusedBuffer(call, ok)
    ensures Registry(calls + [call]) == if call.AddAttr? then Registry(calls) + [call.ty] else Registry(calls)
  {
    assert (calls + [call])[..|calls|] == calls && (oks + [ok])[..|oks|] == oks;
  }

  /** A decoder of `s` gets exactly `rs` if and only if the arguments of every log fit, and always for spans. */
  ghost predicate DecodesExactly(k: Stream, known: Known, s: seq<byte>, rs: seq<Record>) {
    && (DecodeStream(k, known, s) == Some(rs) <==> AllArgsFit(rs))
    && (k.Traces? ==> DecodeStream(k, known, s) == Some(rs))
  }

  predicate DescribesAll(k: Stream, known: Known, rs: seq<Record>) {
    forall i :: 0 <= i < |rs| ==> Describes(k, known, rs[i])
  }

  /** One call on the object. */
  method Perform(w: TlsWriter, call: Call, reg: seq<AttrType>) returns (ok: bool)
    requires w.Valid() && w.attrCache <= reg
    modifies w, w.source, w.buffer
    ensures w.Valid() && w.attrCache <= reg
    ensures w.buffer == null || fresh(w.buffer) || w.buffer == old(w.buffer)
    ensures w.sent == old(w.sent) + SentBy(call, ok, reg, w.cfg.threadId)
    ensures w.droppedLogs == old(w.droppedLogs) + CountedDrop(call, ok, Logs)
    ensures w.droppedTraces == old(w.droppedTraces) + CountedDrop(call, ok, Traces)
    ensures (ok ==> MaySucceed(call)) && w.source.refused == old(w.source.refused) + RefusedBuffer(call, ok)
  {
    hide *;
    if call.SendLog? {
      ok := PerformLog(w, call, reg);
    } else if call.BeginSpan? {
      ok := PerformBegin(w, call, reg);
    } else if call.EndSpan? {
      ok := PerformEnd(w, call, reg);
    } else {
      NotASend(call);
      ok := PerformOther(w, call, reg);
    }
  }

  method PerformLog(w: TlsWriter, call: Call, reg: seq<AttrType>) returns (ok: bool)
    requires w.Valid() && w.attrCache <= reg && call.SendLog?
    modifies w, w.source, w.buffer
    ensures w.Valid() && w.attrCache <= reg
    ensures w.buffer == null || fresh(w.buffer) || w.buffer == old(w.buffer)
    ensures w.sent == old(w.sent) + SentBy(call, ok, reg, w.cfg.threadId)
    ensures w.droppedLogs == old(w.droppedLogs) + CountedDrop(call, ok, Logs)
    ensures w.droppedTraces == old(w.droppedTraces) + CountedDrop(call, ok, Traces)
    ensures (ok ==> MaySucceed(call)) && w.source.refused == old(w.source.refused) + RefusedBuffer(call, ok)
  {
    hide *;
    Effects(call, reg, w.cfg.threadId);
    ghost var open: bool;
    ok, open := w.SendLog(call.level, call.minLevel, call.resolved, call.hash, call.now, call.traceId, call.modId,
                          call.args, call.attrs, reg);
  }

  method PerformBegin(w: TlsWriter, call: Call, reg: seq<AttrType>) returns (ok: bool)
    requires w.Valid() && w.attrCache <= reg && call.BeginSpan?
    modifies w, w.source, w.buffer
    ensures w.Valid() && w.attrCache <= reg
    ensures w.buffer == null || fresh(w.buffer) || w.buffer == old(w.buffer)
    ensures w.sent == old(w.sent) + SentBy(call, ok, reg, w.cfg.threadId)
    ensures w.droppedLogs == old(w.droppedLogs) + CountedDrop(call, ok, Logs)
    ensures w.droppedTraces == old(w.droppedTraces) + CountedDrop(call, ok, Traces)
    ensures (ok ==> MaySucceed(call)) && w.source.refused == old(w.source.refused) + RefusedBuffer(call, ok)
  {
    hide *;
    Effects(call, reg, w.cfg.threadId);
    ghost var open: bool;
    ok, open := w.WriteBegin(call.resolved, call.hash, call.now, call.spanId, call.isAsync, call.parentId, call.attrs,
                             reg);
  }

  method PerformEnd(w: TlsWriter, call: Call, reg: seq<AttrType>) returns (ok: bool)
    requires w.Valid() && w.attrCache <= reg && call.EndSpan?
    modifies w, w.source, w.buffer
    ensures w.Valid() && w.attrCache <= reg
    ensures w.buffer == null || fresh(w.buffer) || w.buffer == old(w.buffer)
    ensures w.sent == old(w.sent) + SentBy(call, ok, reg, w.cfg.threadId)
    ensures w.droppedLogs == old(w.droppedLogs) + CountedDrop(call, ok, Logs)
    ensures w.droppedTraces == old(w.droppedTraces) + CountedDrop(call, ok, Traces)
    ensures (ok ==> MaySucceed(call)) && w.source.refused == old(w.source.refused) + RefusedBuffer(call, ok)
  {
    hide *;
    Effects(call, reg, w.cfg.threadId);
    ghost var open: bool;
    ok, open := w.WriteEnd(call.now, call.spanId);
  }

  method PerformOther(w: TlsWriter, call: Call, reg: seq<AttrType>) returns (ok: bool)
    requires w.Valid() && w.attrCache <= reg && !IsSend(call)
    modifies w, w.source, w.buffer
    ensures w.Valid() && w.attrCache <= reg
    ensures w.buffer == null || fresh(w.buffer) || w.buffer == old(w.buffer)
    ensures w.sent == old(w.sent) + SentBy(call, ok, reg, w.cfg.threadId)
    ensures w.droppedLogs == old(w.droppedLogs) + CountedDrop(call, ok, Logs)
    ensures w.droppedTraces == old(w.droppedTraces) + CountedDrop(call, ok, Traces)
    ensures (ok ==> MaySucceed(call)) && w.source.refused == old(w.source.refused) + RefusedBuffer(call, ok)
  {
    hide *;
    Effects(call, reg, w.cfg.threadId);
    ok := true;
    if call.Pull? || call.Leave? {
      w.ValidRests();
      if call.Pull? {
        var _ := w.Pull();
      } else {
        var _ := w.CorePush();
      }
      w.NothingHeld();
    }
  }

  lemma {:induction false} NotASend(call: Call)
    requires !call.SendLog? && !call.BeginSpan? && !call.EndSpan?
    ensures !IsSend(call)
  {
  }

  /** The effects of each call, spelled out. */
  lemma {:induction false} Effects(call: Call, reg: seq<AttrType>, thread: u32)
    ensures IsSend(call) ==> SentBy(call, true, reg, thread) == [RecordOf(call, reg, thread)]
    ensures RefusedBuffer(call, true) == 0
    ensures RefusedBuffer(call, false) == match call
            case SendLog(level, minLevel, resolved, _, _, _, _, _, _) => if level < minLevel || !resolved then 0 else 1
            case BeginSpan(resolved, _, _, _, _, _, _) => if !resolved then 0 else 1
            case _ => 1
    ensures MaySucceed(call) <==> match call
            case SendLog(level, minLevel, resolved, _, _, _, _, _, _) => level >= minLevel && resolved
            case BeginSpan(resolved, _, _, _, _, _, _) => resolved
            case _ => true
    ensures SentBy(call, false, reg, thread) == [] && CountedDrop(call, true, Logs) == 0
    ensures CountedDrop(call, true, Traces) == 0
    ensures match call
            case SendLog(level, minLevel, _, hash, now, traceId, modId, args, attrs) =>
              && RecordOf(call, reg, thread) == Log(hash, now, traceId, thread, level, modId, SentArgs(args),
                                                    Plan(reg, 40 + |ArgsBytes(SentArgs(args))|, 0, attrs))
              && CountedDrop(call, false, Logs) == (if level < minLevel then 0 else 1)
              && CountedDrop(call, false, Traces) == 0 && IsSend(call)
            case BeginSpan(_, hash, now, spanId, isAsync, parentId, attrs) =>
              && RecordOf(call, reg, thread)
                 == Begin(now, spanId, isAsync, thread, hash, parentId, Plan(reg, 40, 0, attrs))
              && CountedDrop(call, false, Logs) == 0 && CountedDrop(call, false, Traces) == 1 && IsSend(call)
            case EndSpan(now, spanId) =>
              && RecordOf(call, reg, thread) == End(now, spanId, thread)
              && CountedDrop(call, false, Logs) == 0 && CountedDrop(call, false, Traces) == 1 && IsSend(call)
            case _ => SentBy(call, true, reg, thread) == []
    ensures !IsSend(call) ==> SentBy(call, true, reg, thread) == []
  {
    hide Plan, ArgsBytes, SentArgs;
  }

  /** Every run of calls on a new writer: what it sent are the records of the calls that succeeded, in call order, every
      other send is counted as dropped unless its level was too low, calls that may succeed fail exactly as often as a
      buffer was asked for and none was free, and all buffers it ever took, joined, decode to
      exactly what it sent if and only if every log has arguments within the limit; a trace writer's always do. */
  method RunCalls(source: BufferSource, packetType: byte, threadId: u32, writerId: u32, calls: seq<Call>)
    returns (w: TlsWriter, oks: seq<bool>)
    requires source.size % 8 == 0 && 88 <= source.size <= 65535 && source.lent == {}
    modifies source
    ensures fresh(w) && w.Valid() && |oks| == |calls| && w.sent == Succeeded(calls, oks, threadId)
    ensures w.droppedLogs == Drops(calls, oks, Logs) && w.droppedTraces == Drops(calls, oks, Traces)
    ensures forall j :: 0 <= j < |calls| && oks[j] ==> MaySucceed(calls[j])
    ensures source.refused == old(source.refused) + Refusals(calls, oks)
    ensures forall k, known :: DescribesAll(k, known, w.sent) ==> DecodesExactly(k, known, Join(w.Now()), w.sent)
  {
    hide *;
    w := new TlsWriter(source, packetType, threadId, writerId);
    oks := [];
    var reg := [];
    var i := 0;
    NoCalls(threadId);
    while i < |calls|
      invariant i <= |calls| && |oks| == i && fresh(w) && w.source == source && w.cfg.threadId == threadId
      invariant w.Valid() && (w.buffer == null || fresh(w.buffer))
      invariant (forall j :: 0 <= j < i && oks[j] ==> MaySucceed(calls[j]))
      invariant source.refused == old(source.refused) + Refusals(calls[..i], oks)
      invariant reg == Registry(calls[..i]) && w.attrCache <= reg
      invariant w.sent == Succeeded(calls[..i], oks, threadId)
      invariant w.droppedLogs == Drops(calls[..i], oks, Logs) && w.droppedTraces == Drops(calls[..i], oks, Traces)
    {
      var ok := Perform(w, calls[i], reg);
      OneMore(calls[..i], oks, calls[i], ok, threadId);
      assert calls[..i] + [calls[i]] == calls[..i + 1];
      if calls[i].AddAttr? {
        reg := reg + [calls[i].ty];
      }
      oks, i := oks + [ok], i + 1;
    }
    assert calls[..i] == calls;
    forall k, known | DescribesAll(k, known, w.sent) ensures DecodesExactly(k, known, Join(w.Now()), w.sent) {
      Decodes(w, k, known);
    }
  }

  lemma {:induction false} NoCalls(threadId: u32)
    ensures Registry([]) == [] && Succeeded([], [], threadId) == []
    ensures Drops([], [], Logs) == 0 && Drops([], [], Traces) == 0 && Refusals([], []) == 0
  {
  }

  lemma {:induction false} Decodes(w: TlsWriter, k: Stream, known: Known)
    requires w.Valid() && DescribesAll(k, known, w.sent)
    ensures DecodesExactly(k, known, Join(w.Now()), w.sent)
  {
    hide Describes, Shape, Join, Concat;
    w.DecodesToSent(k, known);
  }
}

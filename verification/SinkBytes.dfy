/** The bytes at the sink explain themselves: service buffers, walked and decoded, tell a decoder what the protocol's
    service stream tells it, so the two byte streams at the sink are enough to decode every record there. */
module SinkBytes {
  import opened Bytes
  import opened Wire
  import opened Collection
  import opened ServiceBuffers
  import Fmt = FormatParser
  import SW = ServiceWire
  import Order = CollectionOrder
  import Descs = CollectionDescs
  import Decode = CollectionDecode

  // ---------------------------------------------------------------------------------------------------------------
  // What entries mean to the protocol

  /** The kinds of the arguments that send serializes. */
  function KindsOf(args: seq<Fmt.Varg>): seq<ArgKind> {
    if args == [] then []
    else (if Fmt.KindOf(args[0]).Some? then [Fmt.KindOf(args[0]).value] else []) + KindsOf(args[1..])
  }

  function Meaning(e: SW.Entry): Entry {
    match e
    case LogDesc(_, hash, _, _, _, args) => LogDesc(hash, KindsOf(args))
    case Str(kind, hash, _) => Str(kind, hash)
    case SpanDesc(_, hash, file, func, name) => SpanDesc(hash, Names(file, func, name))
    case _ => Other
  }

  function Meanings(es: seq<SW.Entry>): (r: seq<Entry>)
    ensures |r| == |es| && forall i :: 0 <= i < |es| ==> r[i] == Meaning(es[i])
  {
    seq(|es|, i requires 0 <= i < |es| => Meaning(es[i]))
  }

  lemma {:induction false} MeaningsSnoc(es: seq<SW.Entry>, e: SW.Entry)
    ensures Meanings(es + [e]) == Meanings(es) + [Meaning(e)]
  {
    hide Meaning;
  }

  /** The descriptor of a format says exactly the kinds of its arguments, up to the most it can hold. */
  lemma {:induction false} FormatKinds(s: string, k: nat)
    ensures k <= |Fmt.Parse(s, Fmt.Plain)| ==> KindsOf(Fmt.Parse(s, Fmt.Plain)[..k]) == Fmt.Kinds(s, k)
  {
    var vs := Fmt.Parse(s, Fmt.Plain);
    if k <= |vs| {
      Fmt.ParsedAreKnown(s, Fmt.Plain);
      AllKinds(vs[..k]);
    }
  }

  lemma {:induction false} AllKinds(vs: seq<Fmt.Varg>)
    requires forall i :: 0 <= i < |vs| ==> Fmt.KindOf(vs[i]).Some?
    ensures |KindsOf(vs)| == |vs| && forall i :: 0 <= i < |vs| ==> KindsOf(vs)[i] == Fmt.KindOf(vs[i]).value
    decreases |vs|
  {
    hide Fmt.KindOf;
    if vs != [] {
      AllKinds(vs[1..]);
      forall i | 0 <= i < |vs| ensures KindsOf(vs)[i] == Fmt.KindOf(vs[i]).value {
        if i > 0 {
          assert vs[1..][i - 1] == vs[i];
        }
      }
    }
  }

  // ---------------------------------------------------------------------------------------------------------------
  // Reading service buffers

  function DecodeAll(bs: seq<seq<byte>>, reg: seq<AttrType>): Option<seq<SW.Entry>> {
    if bs == [] then Some([])
    else
      match SW.Decode(bs[0], reg)
      case None => None
      case Some(e) =>
        match DecodeAll(bs[1..], reg)
        case None => None
        case Some(rest) => Some([e] + rest)
  }

  function ReadBuffer(b: seq<byte>, reg: seq<AttrType>): Option<seq<SW.Entry>> {
    match SW.Walk(b)
    case None => None
    case Some(bs) => DecodeAll(bs, reg)
  }

  /** The service stream: buffer by buffer. */
  function ReadStream(bufs: seq<seq<byte>>, reg: seq<AttrType>): Option<seq<SW.Entry>> {
    if bufs == [] then Some([])
    else
      var n := |bufs| - 1;
      match ReadStream(bufs[..n], reg)
      case None => None
      case Some(before) =>
        match ReadBuffer(bufs[n], reg)
        case None => None
        case Some(es) => Some(before + es)
  }

  /** These buffers hold these entries, as the service list leaves them. */
  predicate Filled(b: seq<byte>, es: seq<SW.Entry>, reg: seq<AttrType>) {
    AllStorable(es) && AllProper(es, reg) && b == Concat(Images(es))
  }

  predicate AllFilled(bufs: seq<seq<byte>>, ess: seq<seq<SW.Entry>>, reg: seq<AttrType>) {
    |bufs| == |ess| && forall i :: 0 <= i < |bufs| ==> Filled(bufs[i], ess[i], reg)
  }

  lemma {:induction false} DecodesAll(es: seq<SW.Entry>, reg: seq<AttrType>)
    requires AllStorable(es) && AllProper(es, reg)
    ensures DecodeAll(Images(es), reg) == Some(es)
    decreases |es|
  {
    hide Storable, SW.Proper, SW.Decode, Image;
    if es != [] {
      assert forall e :: e in es[1..] ==> e in es;
      DecodesAll(es[1..], reg);
      assert Images(es)[1..] == Images(es[1..]);
      StoredBack(es[0], reg);
      assert [es[0]] + es[1..] == es;
    }
  }

  lemma {:induction false} BufferReads(b: seq<byte>, es: seq<SW.Entry>, reg: seq<AttrType>)
    requires Filled(b, es, reg)
    ensures ReadBuffer(b, reg) == Some(es)
  {
    hide Storable, SW.Proper, SW.Walk, DecodeAll, Image, Concat;
    ImagesSized(es);
    SW.WalkVisits(Images(es));
    DecodesAll(es, reg);
  }

  lemma {:induction false} StreamReads(bufs: seq<seq<byte>>, ess: seq<seq<SW.Entry>>, reg: seq<AttrType>)
    requires AllFilled(bufs, ess, reg)
    ensures ReadStream(bufs, reg) == Some(Flatten(ess))
    decreases |bufs|
  {
    hide Filled, ReadBuffer;
    if bufs != [] {
      var n := |bufs| - 1;
      StreamReads(bufs[..n], ess[..n], reg);
      BufferReads(bufs[n], ess[n], reg);
    }
  }

  /** What a decoder that has only the bytes of the service stream knows about log arguments. */
  function KindsFromBytes(bufs: seq<seq<byte>>, reg: seq<AttrType>): map<u64, seq<ArgKind>> {
    match ReadStream(bufs, reg)
    case None => map[]
    case Some(es) => Decode.KindsIn(Meanings(es))
  }

  /** At every moment of every run: take the bytes of the service buffers at the sink, whatever entries fill them as the
      protocol's stream says, and the bytes of a writer's data buffers there. Reading the first gives the kinds with
      which the second decode to exactly the writer's first records, if and only if the arguments of every log among
      them fit; spans always do. */
  lemma {:induction false} SinkBytesDecode(c: Config, states: seq<State>, steps: seq<Step>, i: nat, w: nat,
                                           bufs: seq<seq<byte>>, ess: seq<seq<SW.Entry>>)
    requires Run(c, states, steps) && i < |states| && w < |states[i].writers|
    requires AllFilled(bufs, ess, states[i].reg) && Meanings(Flatten(ess)) == states[i].service.written
    ensures var s, v := states[i], states[i].writers[w];
            var known := Known(KindsFromBytes(bufs, s.reg), s.reg);
            var k, out := Order.CountAtSink(s, w), DecodeStream(v.kind, known, Order.Payload(Order.AtSink(s, w)));
            && k <= |v.sent|
            && (out == Some(v.sent[..k]) <==> AllArgsFit(v.sent[..k]))
            && (v.kind.Traces? ==> out == Some(v.sent[..k]))
  {
    hide *;
    Decode.SinkExplainsItself(c, states, steps, i, w);
    StreamReads(bufs, ess, states[i].reg);
    SameKnowledge(states[i], bufs, ess);
  }

  lemma {:induction false} SameKnowledge(s: State, bufs: seq<seq<byte>>, ess: seq<seq<SW.Entry>>)
    requires ReadStream(bufs, s.reg) == Some(Flatten(ess)) && Meanings(Flatten(ess)) == s.service.written
    ensures Known(KindsFromBytes(bufs, s.reg), s.reg) == Decode.KnownAtSink(s)
  {
    hide Flatten, ReadStream, Meaning, Decode.KindsIn;
  }

  // ---------------------------------------------------------------------------------------------------------------
  // The service list takes the protocol's steps

  /** The protocol's service stream `sv` stands for the object: all entries, and those that left the list. */
  ghost predicate Shows(sb: ServiceBuffers, sv: Service)
    reads sb
  {
    Meanings(sb.log) == Descs.All(sv) && Meanings(Flatten(sb.drained)) == sv.written + sv.taken
  }

  lemma {:induction false} Shown(sb: ServiceBuffers, sv: Service)
    requires Shows(sb, sv)
    ensures Meanings(sb.log) == Descs.All(sv) && Meanings(Flatten(sb.drained)) == sv.written + sv.taken
  {
  }

  /** A resolver's entry, written under the lock, is its WriteEntry step. */
  method WriteEntryStep(sb: ServiceBuffers, e: SW.Entry, ghost sv: Service, ghost k: Stream)
    requires sb.Valid() && Shows(sb, sv) && CanServe(sv, WriteEntry(k)) && Writes(sv, k, e)
    requires SW.Short(e) && SW.Proper(e, sb.reg)
    requires sb.bufs != [] && sb.used[|sb.bufs| - 1] + SW.Size(e) <= sb.capacity
    modifies sb`used, sb`held, sb`log, sb.bufs[|sb.bufs| - 1]
    ensures sb.Valid() && Shows(sb, Served(sv, WriteEntry(k)))
  {
    hide *;
    Shown(sb, sv);
    ghost var log := sb.log;
    sb.Append(e);
    EntryShown(sb, sv, k, e, log);
  }

  /** `e` is the entry the resolver has to write next, and not a string sent before. */
  ghost predicate Writes(sv: Service, k: Stream, e: SW.Entry) {
    CanServe(sv, WriteEntry(k)) &&
    var r := DescsOf(sv, k).busy.value;
    Meaning(e) == r.entries[r.done] && !(Meaning(e).Str? && Meaning(e) in sv.strings)
  }

  lemma {:induction false} EntryShown(sb: ServiceBuffers, sv: Service, k: Stream, e: SW.Entry, log: seq<SW.Entry>)
    requires CanServe(sv, WriteEntry(k)) && Writes(sv, k, e)
    requires sb.log == log + [e] && Meanings(log) == Descs.All(sv)
    requires Meanings(Flatten(sb.drained)) == sv.written + sv.taken
    ensures Shows(sb, Served(sv, WriteEntry(k)))
  {
    hide Flatten, Meaning;
    MeaningsSnoc(log, e);
    assert Descs.All(Served(sv, WriteEntry(k))) == Descs.All(sv) + [Meaning(e)];
  }

  /** The worker's drain is its DrainService step. */
  method DrainStep(sb: ServiceBuffers, ghost c: Config, ghost s: State)
    returns (out: seq<array<byte>>, sizes: seq<nat>)
    requires sb.Valid() && CanWork(s, DrainService) && Shows(sb, s.service)
    modifies sb`bufs, sb`used, sb`held, sb`drained
    ensures sb.Valid() && Shows(sb, Worked(c, s, DrainService).service)
  {
    hide *;
    Shown(sb, s.service);
    out, sizes := sb.Drain();
    AllDrained(sb);
    DrainShown(sb, c, s);
  }

  lemma {:induction false} AllDrained(sb: ServiceBuffers)
    requires sb.Valid() && sb.bufs == []
    ensures sb.log == Flatten(sb.drained)
  {
    hide Flatten;
    assert sb.drained + sb.held == sb.drained;
  }

  lemma {:induction false} DrainShown(sb: ServiceBuffers, c: Config, s: State)
    requires CanWork(s, DrainService) && Meanings(sb.log) == Descs.All(s.service) && sb.log == Flatten(sb.drained)
    ensures Shows(sb, Worked(c, s, DrainService).service)
  {
    hide Flatten, Meaning;
    var sv := Worked(c, s, DrainService).service;
    assert Descs.All(sv) == Descs.All(s.service) == sv.written + sv.taken;
  }
}

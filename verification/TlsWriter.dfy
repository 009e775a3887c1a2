/** The thread-local writer (engine/p8_tls_writer.cpp) and the records its log and trace forms write into it
    (engine/p8_log.cpp, engine/p8_trc.cpp). */
module RawBuffers {
  import opened Bytes
  import opened Fragments

  const NUMBER_MOD: nat := 0x1_0000_0000

  type Raw = seq<byte>

  /** The part of a buffer header that never changes once the buffer is taken: thread, writer, buffer number. */
  function Stamp(threadId: u32, writerId: u32, number: nat): (s: seq<byte>)
    ensures |s| == 12
  {
    Le(threadId, 4) + Le(writerId, 4) + Le(number % NUMBER_MOD, 4)
  }

  function SizeOf(raw: Raw): nat
    requires |raw| >= BUF_HDR
  {
    U16At(raw, 2)
  }

  /** A buffer whose payload ends at `end`. */
  function RawView(raw: Raw, end: nat): View {
    if BUF_HDR <= end <= |raw| then View(raw[1] % 2 == 1, raw[BUF_HDR..end]) else FRESH
  }

  predicate Sized(raw: Raw) {
    |raw| >= BUF_HDR && BUF_HDR <= SizeOf(raw) <= |raw|
  }

  /** A buffer as a reader finds it: the payload ends where the size field says. */
  function ReadView(raw: Raw): View {
    if Sized(raw) then RawView(raw, SizeOf(raw)) else FRESH
  }

  function ReadViews(raws: seq<Raw>): (vs: seq<View>)
    ensures |vs| == |raws| && forall i :: 0 <= i < |raws| ==> vs[i] == ReadView(raws[i])
  {
    seq(|raws|, i requires 0 <= i < |raws| => ReadView(raws[i]))
  }

  function Splice(s: seq<byte>, pos: nat, src: seq<byte>): (r: seq<byte>)
    requires pos + |src| <= |s|
    ensures |r| == |s| && r[pos..pos + |src|] == src && r[..pos] == s[..pos] && r[pos + |src|..] == s[pos + |src|..]
  {
    s[..pos] + src + s[pos + |src|..]
  }

  /** A buffer with its FRAGMENT flag and its payload end written into the header. */
  function Sealed(raw: Raw, fragment: bool, end: nat): (r: Raw)
    requires BUF_HDR <= |raw|
    ensures |r| == |raw| && r[0] == raw[0] && r[4..] == raw[4..]
  {
    var even := if raw[1] % 2 == 1 then raw[1] - 1 else raw[1];
    [raw[0], if fragment then even + 1 else even] + Le(end, 2) + raw[4..]
  }

  lemma SealedView(raw: Raw, fragment: bool, end: nat)
    requires BUF_HDR <= end <= |raw| <= 65535
    ensures Sized(Sealed(raw, fragment, end)) && SizeOf(Sealed(raw, fragment, end)) == end
    ensures ReadView(Sealed(raw, fragment, end)) == View(fragment, raw[BUF_HDR..end])
  {
    hide U16At, Le;
    var r := Sealed(raw, fragment, end);
    assert r[2..4] == Le(end, 2);
    Read16(r, 2, end);
    assert r[BUF_HDR..end] == r[4..][BUF_HDR - 4..end - 4] == raw[4..][BUF_HDR - 4..end - 4] == raw[BUF_HDR..end];
  }

  /** What all buffers of one writer share. */
  datatype Config = Config(bufMax: nat, packetType: byte, threadId: u32, writerId: u32)

  function Header(c: Config, number: nat): (s: seq<byte>)
    ensures |s| == BUF_HDR
  {
    [c.packetType, 0] + Le(BUF_HDR, 2) + Stamp(c.threadId, c.writerId, number)
  }

  predicate Stamped(c: Config, raw: Raw, number: nat) {
    && |raw| == c.bufMax >= BUF_HDR
    && raw[0] == c.packetType
    && raw[4..BUF_HDR] == Stamp(c.threadId, c.writerId, number)
  }

  /** What a reader finds in the header of the writer's buffer `number`: packet type, thread, writer and number. */
  predicate HeaderReads(c: Config, raw: Raw, number: nat) {
    && |raw| >= BUF_HDR
    && raw[0] == c.packetType && U32At(raw, 4) == c.threadId && U32At(raw, 8) == c.writerId
    && U32At(raw, 12) == number % 0x1_0000_0000
  }

  lemma {:induction false} StampedReads(c: Config, raw: Raw, number: nat)
    requires Stamped(c, raw, number)
    ensures HeaderReads(c, raw, number)
  {
    hide Le, U32At;
    var st := Stamp(c.threadId, c.writerId, number);
    assert raw[4..8] == raw[4..BUF_HDR][..4] == st[..4] == Le(c.threadId, 4);
    assert raw[8..12] == raw[4..BUF_HDR][4..8] == st[4..8] == Le(c.writerId, 4);
    assert raw[12..16] == raw[4..BUF_HDR][8..12] == st[8..12] == Le(number % NUMBER_MOD, 4);
    Read32(raw, 4, c.threadId);
    Read32(raw, 8, c.writerId);
    Read32(raw, 12, number % NUMBER_MOD);
  }

  lemma HeaderStamps(c: Config, raw: Raw, number: nat)
    requires |raw| == c.bufMax >= BUF_HDR && Header(c, number) <= raw
    ensures Stamped(c, raw, number) && Sized(raw) && SizeOf(raw) == BUF_HDR && RawView(raw, BUF_HDR) == FRESH
  {
    hide U16At, Le, Stamp;
    assert raw[..BUF_HDR] == Header(c, number);
    assert raw[2..4] == raw[..BUF_HDR][2..4] == Le(BUF_HDR, 2);
    assert raw[4..BUF_HDR] == raw[..BUF_HDR][4..] == Stamp(c.threadId, c.writerId, number);
    assert raw[1] == raw[..BUF_HDR][1] && raw[0] == raw[..BUF_HDR][0];
    Read16(raw, 2, BUF_HDR);
  }

  /** The bytes a writer is responsible for: what it handed over, what it parked, and its current buffer. */
  datatype Store = Store(delivered: seq<View>, parked: seq<Raw>, current: Option<Raw>)

  function Views(st: Store, end: nat): seq<View> {
    st.delivered + ReadViews(st.parked) + (if st.current.Some? then [RawView(st.current.value, end)] else [])
  }

  function Taken(st: Store): nat {
    |st.delivered| + |st.parked| + (if st.current.Some? then 1 else 0)
  }

  /** Every held buffer is well formed and carries its number: the count of buffers this writer took before it. */
  predicate Numbered(c: Config, st: Store) {
    && (forall i :: 0 <= i < |st.parked| ==> Stamped(c, st.parked[i], |st.delivered| + i) && Sized(st.parked[i]))
    && (st.current.Some? ==> Stamped(c, st.current.value, |st.delivered| + |st.parked|))
  }

  /** Bytes put at the end of the current payload append to its view. */
  lemma PutAppends(c: Config, st: Store, end: nat, src: seq<byte>)
    requires Numbered(c, st) && st.current.Some? && BUF_HDR <= end && end + |src| <= c.bufMax
    ensures var st' := st.(current := Some(Splice(st.current.value, end, src)));
            Numbered(c, st') && Views(st', end + |src|) == Append(Views(st, end), src)
  {
    hide Stamp;
    var raw := st.current.value;
    var raw' := Splice(raw, end, src);
    assert raw'[4..BUF_HDR] == raw'[..end][4..BUF_HDR] == raw[..end][4..BUF_HDR] == raw[4..BUF_HDR];
    assert raw'[..end][0] == raw[..end][0] && raw'[..end][1] == raw[..end][1];
    assert raw'[BUF_HDR..end + |src|] == raw'[..end][BUF_HDR..] + raw'[end..end + |src|] == raw[BUF_HDR..end] + src;
  }

  /** Sealing a full current buffer with the FRAGMENT flag and starting a fresh one is a rotation. */
  lemma SealRotates(c: Config, st: Store, end: nat, next: Option<Raw>)
    requires Numbered(c, st) && st.current.Some? && BUF_HDR <= end <= c.bufMax <= 65535
    requires next.Some? ==> |next.value| == c.bufMax && Header(c, Taken(st)) <= next.value
    ensures var st' := Store(st.delivered, st.parked + [Sealed(st.current.value, true, end)], next);
            && Numbered(c, st')
            && HeaderReads(c, st'.parked[|st.parked|], |st.delivered| + |st.parked|)
            && (next.Some? ==> Views(st', BUF_HDR) == Rotate(Views(st, end)) && HeaderReads(c, next.value, Taken(st)))
  {
    hide Stamp, SizeOf, HeaderReads;
    var raw := st.current.value;
    var s := Sealed(raw, true, end);
    SealedView(raw, true, end);
    SealedStamped(c, raw, end, |st.delivered| + |st.parked|);
    StampedReads(c, s, |st.delivered| + |st.parked|);
    if next.Some? {
      HeaderStamps(c, next.value, Taken(st));
      StampedReads(c, next.value, Taken(st));
    }
    assert ReadViews(st.parked + [s]) == ReadViews(st.parked) + [View(true, raw[BUF_HDR..end])];
  }

  /** Bytes of the payload may be overwritten in the current buffer ... */
  lemma PatchesCurrent(c: Config, st: Store, end: nat, pos: nat, p: seq<byte>)
    requires Numbered(c, st) && st.current.Some? && BUF_HDR <= pos && BUF_HDR <= end <= c.bufMax
    requires var i := |st.delivered| + |st.parked|;
             i < |Views(st, end)| && pos - BUF_HDR + |p| <= |Views(st, end)[i].payload|
    ensures var st' := st.(current := Some(Splice(st.current.value, pos, p)));
            var i := |st.delivered| + |st.parked|;
            && Numbered(c, st')
            && Views(st', end) == Patch(Views(st, end), i, pos - BUF_HDR, p)
  {
    hide Stamp;
    assert Views(st, end)[|st.delivered| + |st.parked|] == RawView(st.current.value, end);
    SplicePayload(c, st.current.value, end, pos, p, |st.delivered| + |st.parked|);
  }

  /** ... and in a parked one. */
  lemma PatchesParked(c: Config, st: Store, end: nat, j: nat, pos: nat, p: seq<byte>)
    requires Numbered(c, st) && j < |st.parked| && BUF_HDR <= pos
    requires var i := |st.delivered| + j;
             i < |Views(st, end)| && pos - BUF_HDR + |p| <= |Views(st, end)[i].payload|
    ensures var st' := st.(parked := st.parked[j := Splice(st.parked[j], pos, p)]);
            var i := |st.delivered| + j;
            && Numbered(c, st')
            && Views(st', end) == Patch(Views(st, end), i, pos - BUF_HDR, p)
  {
    hide Stamp, U16At;
    var raw := st.parked[j];
    var raw' := Splice(raw, pos, p);
    assert Views(st, end)[|st.delivered| + j] == ReadView(raw);
    SplicePayload(c, raw, SizeOf(raw), pos, p, |st.delivered| + j);
    var st' := st.(parked := st.parked[j := raw']);
    var i := |st.delivered| + j;
    assert Views(st, end)[i] == ReadView(raw) && Views(st', end)[i] == ReadView(raw');
    assert Views(st', end) == Patch(Views(st, end), i, pos - BUF_HDR, p);
  }

  lemma SplicePayload(c: Config, raw: Raw, end: nat, pos: nat, p: seq<byte>, number: nat)
    requires Stamped(c, raw, number) && BUF_HDR <= pos && pos + |p| <= end <= |raw|
    ensures var r := Splice(raw, pos, p);
            && Stamped(c, r, number) && SizeOf(r) == SizeOf(raw)
            && r[1] == raw[1]
            && r[BUF_HDR..end] == raw[BUF_HDR..end][..pos - BUF_HDR] + p + raw[BUF_HDR..end][pos - BUF_HDR + |p|..]
  {
    hide Stamp, UnLe;
    var r := Splice(raw, pos, p);
    assert r[..BUF_HDR] == r[..pos][..BUF_HDR] == raw[..pos][..BUF_HDR] == raw[..BUF_HDR];
    assert r[4..BUF_HDR] == r[..BUF_HDR][4..] == raw[4..BUF_HDR];
    assert r[2..4] == r[..BUF_HDR][2..4] == raw[..BUF_HDR][2..4] == raw[2..4];
    assert r[..BUF_HDR][0] == raw[..BUF_HDR][0] && r[..BUF_HDR][1] == raw[..BUF_HDR][1];
  }

  /** Moving the payload end over bytes already there appends them. */
  lemma EndMoves(c: Config, st: Store, end: nat, k: nat)
    requires Numbered(c, st) && st.current.Some? && BUF_HDR <= end && end + k <= c.bufMax
    ensures Views(st, end + k) == Append(Views(st, end), st.current.value[end..end + k])
  {
    hide Stamp;
    var raw := st.current.value;
    assert raw[BUF_HDR..end + k] == raw[BUF_HDR..end] + raw[end..end + k];
  }

  /** A buffer just taken is the fresh one behind all others. */
  lemma FreshFollows(c: Config, st: Store, raw: Raw)
    requires Numbered(c, st) && st.current.None? && |raw| == c.bufMax && BUF_HDR <= c.bufMax
    requires Header(c, Taken(st)) <= raw
    ensures var st' := st.(current := Some(raw));
            Numbered(c, st') && SizeOf(raw) == BUF_HDR && forall end :: Views(st', BUF_HDR) == Views(st, end) + [FRESH]
  {
    hide Header, SizeOf;
    HeaderStamps(c, raw, Taken(st));
  }

  /** Storing the payload end in the header changes nothing else. */
  lemma SizeStored(c: Config, st: Store, end: nat)
    requires Numbered(c, st) && st.current.Some? && BUF_HDR <= end <= c.bufMax <= 65535
    ensures var raw := Splice(st.current.value, 2, Le(end, 2));
            var st' := st.(current := Some(raw));
            Numbered(c, st') && SizeOf(raw) == end && Views(st', end) == Views(st, end)
  {
    hide Stamp, U16At, Le;
    var was := st.current.value;
    var raw := Splice(was, 2, Le(end, 2));
    Read16(raw, 2, end);
    assert raw[4..BUF_HDR] == raw[4..][..12] == was[4..][..12] == was[4..BUF_HDR];
    assert raw[BUF_HDR..end] == raw[4..][12..end - 4] == was[4..][12..end - 4] == was[BUF_HDR..end];
    assert raw[0] == raw[..2][0] == was[0] && raw[1] == raw[..2][1] == was[1];
  }

  lemma NumberedPrefix(c: Config, st: Store, n: nat)
    requires Numbered(c, st) && n <= |st.parked|
    ensures Numbered(c, Store(st.delivered, st.parked[..n], None))
  {
    hide Stamped, Sized;
  }

  /** The buffer a dropped record began in, cut back to where it began. */
  lemma CutBack(c: Config, st: Store, n: nat, end: nat)
    requires Numbered(c, st) && n < |st.parked| && BUF_HDR <= end <= c.bufMax <= 65535
    ensures var raw := Sealed(st.parked[n], false, end);
            var st' := Store(st.delivered, st.parked[..n], Some(raw));
            && Numbered(c, st') && SizeOf(raw) == end
            && Views(st', end) == st.delivered + ReadViews(st.parked[..n]) + [View(false, st.parked[n][BUF_HDR..end])]
  {
    hide Sized, SizeOf, Sealed;
    SealedStamped(c, st.parked[n], end, |st.delivered| + n);
    SealedView(st.parked[n], false, end);
    NumberedPrefix(c, st, n);
    assert ReadView(Sealed(st.parked[n], false, end)) == RawView(Sealed(st.parked[n], false, end), end) by {
      assert Sized(Sealed(st.parked[n], false, end));
    }
  }

  /** A current buffer whose size field is up to date reads the same once it is parked. */
  lemma ParkingKeepsViews(c: Config, st: Store, end: nat, end': nat)
    requires Numbered(c, st) && st.current.Some? && BUF_HDR <= end <= c.bufMax && SizeOf(st.current.value) == end
    ensures var st' := Store(st.delivered, st.parked + [st.current.value], None);
            Numbered(c, st') && Views(st', end') == Views(st, end)
  {
    hide Stamp, SizeOf;
    assert ReadViews(st.parked + [st.current.value]) == ReadViews(st.parked) + [RawView(st.current.value, end)];
  }

  lemma SealedStamped(c: Config, raw: Raw, end: nat, number: nat)
    requires Stamped(c, raw, number)
    ensures Stamped(c, Sealed(raw, true, end), number) && Stamped(c, Sealed(raw, false, end), number)
  {
    hide Stamp, Le;
    assert raw[4..BUF_HDR] == raw[4..][..BUF_HDR - 4];
    assert Sealed(raw, true, end)[4..BUF_HDR] == Sealed(raw, true, end)[4..][..BUF_HDR - 4];
    assert Sealed(raw, false, end)[4..BUF_HDR] == Sealed(raw, false, end)[4..][..BUF_HDR - 4];
  }

  /** memcpy into a buffer. */
  method Put(a: array<byte>, pos: nat, src: seq<byte>)
    requires pos + |src| <= a.Length
    modifies a
    ensures a[..] == Splice(old(a[..]), pos, src)
  {
    forall i | 0 <= i < |src| {
      a[pos + i] := src[i];
    }
  }
}

module TlsWriter {
  import opened Bytes
  import opened Fragments
  import opened Wire
  import opened RawBuffers
  import Utf8

  /** Finish a buffer header: FRAGMENT flag and payload end. */
  method Seal(b: array<byte>, fragment: bool, end: nat)
    requires BUF_HDR <= end <= b.Length
    modifies b
    ensures b[..] == Sealed(old(b[..]), fragment, end)
  {
    hide Le;
    var even := if b[1] % 2 == 1 then b[1] - 1 else b[1];
    b[1] := if fragment then even + 1 else even;
    Put(b, 2, Le(end, 2));
  }

  /** The buffers of the core as one writer meets them. Which requests succeed is decided elsewhere, so it is left
      open here; a recycled buffer arrives with arbitrary contents, like a new one. */
  class BufferSource {
    const size: nat
    ghost var lent: set<array<byte>>
    /** How often a buffer was asked for and none was free. */
    ghost var refused: nat

    constructor (size: nat)
      ensures this.size == size && lent == {} && refused == 0
    {
      this.size := size;
      lent, refused := {}, 0;
    }

    method TryAcquire() returns (b: array?<byte>)
      modifies this
      ensures b == null ==> lent == old(lent) && refused == old(refused) + 1
      ensures b != null ==> fresh(b) && b.Length == size && lent == old(lent) + {b} && refused == old(refused)
    {
      b := null;
      if * {
        b := new byte[size];
        lent := lent + {b};
      } else {
        refused := refused + 1;
      }
    }

    method Release(b: array<byte>)
      requires b in lent
      modifies this`lent
      ensures lent == old(lent) - {b}
    {
      lent := lent - {b};
    }
  }

  ghost function Raws(fs: seq<array<byte>>): (rs: seq<Raw>)
    reads fs
    ensures |rs| == |fs| && forall i :: 0 <= i < |fs| ==> rs[i] == fs[i][..]
  {
    seq(|fs|, i requires 0 <= i < |fs| reads fs => fs[i][..])
  }

  /** A record and its bytes. */
  ghost predicate WellSent(r: Record, b: Block) {
    b.fixed == Fixed(r) && Encodes(r, b.bytes) && Bounded(r)
  }

  /** What a record in progress must leave alone: the buffers parked before it, and its first buffer from the header
      stamp up to the place where the record began. */
  datatype Mark = Mark(frags: seq<array<byte>>, raws: seq<Raw>, first: array<byte>, keep: seq<byte>)

  class TlsWriter {
    const cfg: Config
    const source: BufferSource

    var fragments: seq<array<byte>>
    var buffer: array?<byte>
    var used: nat
    var bufSeq: nat
    var droppedLogs: nat
    var droppedTraces: nat
    var attrCache: seq<AttrType>

    /** Views of the buffers already handed to the core, in order. */
    ghost var delivered: seq<View>
    /** Every committed record, as bytes and as what was sent. */
    ghost var blocks: seq<Block>
    ghost var sent: seq<Record>

    constructor (source: BufferSource, packetType: byte, threadId: u32, writerId: u32)
      requires source.size % 8 == 0 && 88 <= source.size <= 65535 && source.lent == {}
      ensures Valid() && Now() == [] && delivered == [] && blocks == [] && sent == [] && fresh(this)
      ensures this.source == source && cfg == Config(source.size, packetType, threadId, writerId)
      ensures buffer == null && attrCache == [] && droppedLogs == 0 && droppedTraces == 0
    {
      this.cfg := Config(source.size, packetType, threadId, writerId);
      this.source := source;
      fragments, buffer, used, bufSeq := [], null, 0, 0;
      droppedLogs, droppedTraces, attrCache := 0, 0, [];
      delivered, blocks, sent := [], [], [];
      new;
      hide *;
      NewIsValid();
    }

    lemma NewIsValid()
      requires cfg.bufMax % 8 == 0 && 88 <= cfg.bufMax <= 65535 && source.size == cfg.bufMax && source.lent == {}
      requires fragments == [] && buffer == null && bufSeq == 0 && delivered == [] && blocks == [] && sent == []
      ensures Valid() && Now() == []
    {
      AllDelivered(this);
      hide Resting, Views, Contents;
    }

    ghost function Held(): seq<array<byte>>
      reads this`fragments, this`buffer
    {
      if buffer == null then fragments else fragments + [buffer]
    }

    ghost function Contents(): Store
      reads this`fragments, this`buffer, this`delivered, fragments, buffer
    {
      Store(delivered, Raws(fragments), if buffer == null then None else Some(buffer[..]))
    }

    /** A buffer size the protocol allows, and the buffer count. */
    ghost predicate Dims()
      reads this`fragments, this`buffer, this`bufSeq, this`delivered
    {
      && cfg.bufMax % 8 == 0 && 88 <= cfg.bufMax <= 65535 && source.size == cfg.bufMax
      && (buffer != null ==> buffer.Length == cfg.bufMax)
      && bufSeq == |delivered| + |Held()|
    }

    /** The writer owns exactly the buffers it holds. */
    ghost predicate Handles()
      reads this`fragments, this`buffer, this`bufSeq, this`delivered, source`lent
    {
      && Dims()
      && (forall i :: 0 <= i < |fragments| ==> fragments[i].Length == cfg.bufMax)
      && (forall i, j :: 0 <= i < j < |fragments| ==> fragments[i] != fragments[j])
      && (buffer != null ==> buffer !in fragments)
      && (forall i :: 0 <= i < |fragments| ==> fragments[i] in source.lent)
      && (buffer != null ==> buffer in source.lent)
      && (forall b :: b in source.lent ==> b in fragments || b == buffer)
    }

    ghost predicate Owned()
      reads this`fragments, this`buffer, this`bufSeq, this`delivered, source`lent, fragments, buffer
    {
      Dims() && Handles() && Numbered(cfg, Contents())
    }

    /** Held buffers carry consecutive numbers, from the count of those handed over on. */
    lemma HeldStamped(j: nat)
      requires Resting() && j < |Held()|
      ensures Stamped(cfg, Held()[j][..], |delivered| + j) && HeaderReads(cfg, Held()[j][..], |delivered| + j)
    {
      hide HeaderReads;
      hide Handles, Stamped, Sized, SizeOf;
      assert j < |fragments| ==> Contents().parked[j] == Held()[j][..];
      StampedReads(cfg, Held()[j][..], |delivered| + j);
    }

    /** All buffers of this writer, handed over or held, as a reader will find them. */
    ghost function Now(): seq<View>
      reads this`fragments, this`buffer, this`delivered, this`used, fragments, buffer
    {
      Views(Contents(), used)
    }

    /** Between records the size field of the current buffer is up to date. */
    ghost predicate Resting()
      reads this`fragments, this`buffer, this`bufSeq, this`delivered, this`used, source`lent, fragments, buffer
    {
      Owned() && (buffer != null ==> BUF_HDR <= used <= cfg.bufMax && SizeOf(buffer[..]) == used)
    }

    /** Between records: the buffers hold exactly the committed records, laid out as `Shape` says. */
    ghost predicate Valid()
      reads this, source`lent, fragments, buffer
    {
      Resting() && Holds(Now())
    }

    ghost predicate Holds(vs: seq<View>)
      reads this`blocks, this`sent
    {
      && Shape(Cap(), vs, blocks)
      && Join(vs) == Concat(BlockBytes(blocks))
      && |sent| == |blocks|
      && forall i :: 0 <= i < |sent| ==> WellSent(sent[i], blocks[i])
    }

    lemma ValidRests()
      requires Valid()
      ensures Resting()
    {
    }

    lemma NothingHeld()
      requires Held() == []
      ensures buffer == null
    {
    }

    /** The joined payload of every buffer this writer ever took decodes to exactly the records it sent, in order, if
        and only if every log has arguments within the limit; a trace writer's always does. */
    lemma DecodesToSent(k: Stream, known: Known)
      requires Valid()
      requires forall i :: 0 <= i < |sent| ==> Describes(k, known, sent[i])
      ensures DecodeStream(k, known, Join(Now())) == Some(sent) <==> AllArgsFit(sent)
      ensures k.Traces? ==> DecodeStream(k, known, Join(Now())) == Some(sent)
    {
      hide Encodes, Describes, Shape, Resting, Fixed, ArgsFit, Bounded;
      forall i | 0 <= i < |sent| ensures Encodes(sent[i], BlockBytes(blocks)[i]) && Bounded(sent[i]) {
        assert WellSent(sent[i], blocks[i]);
      }
      BoundedStream(k, known, sent, BlockBytes(blocks));
    }

    /** Even where an oversize log is in it: the first `n` records decode if and only if none of them is one. */
    lemma DecodesPrefix(k: Stream, known: Known, n: nat)
      requires Valid() && n <= |sent|
      requires forall i :: 0 <= i < |sent| ==> Describes(k, known, sent[i])
      ensures DecodeFirst(k, known, Join(Now()), n) == Some(sent[..n]) <==> AllArgsFit(sent[..n])
    {
      hide Encodes, Describes, Shape, Resting, Fixed, ArgsFit, Bounded;
      forall i | 0 <= i < |sent| ensures Encodes(sent[i], BlockBytes(blocks)[i]) && Bounded(sent[i]) {
        assert WellSent(sent[i], blocks[i]);
      }
      PrefixDecodes(k, known, sent, BlockBytes(blocks), n);
    }

    ghost predicate KeptBytes(m: Mark)
      reads m.first
    {
      4 + |m.keep| <= m.first.Length && m.first[4..4 + |m.keep|] == m.keep
    }

    ghost predicate Recording(m: Mark, end: nat)
      reads this`fragments, this`buffer, this`bufSeq, this`delivered, source`lent, fragments, buffer
    {
      && Owned()
      && m.frags <= fragments
      && (if |m.frags| == |fragments| then buffer == m.first else fragments[|m.frags|] == m.first && buffer != m.first)
      && m.raws <= Raws(fragments) && |m.raws| == |m.frags|
      && 12 <= |m.keep| && 4 + |m.keep| <= cfg.bufMax == m.first.Length
      && KeptBytes(m)
      && (buffer != null ==> BUF_HDR <= end <= cfg.bufMax)
      && (buffer == m.first ==> 4 + |m.keep| <= end)
    }

    /** A fresh current buffer, if there is one. */
    method TakeBuffer() returns (ok: bool)
      requires buffer == null && Dims() && Handles()
      modifies this`buffer, this`used, this`bufSeq, source
      ensures Dims() && Handles() && (ok <==> buffer != null)
      ensures ok ==> fresh(buffer) && used == BUF_HDR && Header(cfg, old(bufSeq)) <= buffer[..]
      ensures !ok ==> used == old(used)
      ensures Raws(fragments) == old(Raws(fragments))
      ensures source.refused == old(source.refused) + if ok then 0 else 1
    {
      hide Header;
      ghost var raws := Raws(fragments);
      buffer := source.TryAcquire();
      ok := buffer != null;
      if ok {
        Put(buffer, 0, Header(cfg, bufSeq));
        bufSeq := bufSeq + 1;
        used := BUF_HDR;
      }
      assert Raws(fragments) == raws;
    }

    /** The full current buffer is finalized with the FRAGMENT flag and parked; writing goes on in a fresh one, if
        there is one. */
    method RotateFragmentBuffer(ghost m: Mark) returns (ok: bool)
      requires buffer != null && Recording(m, used)
      modifies this`fragments, this`buffer, this`used, this`bufSeq, source, buffer
      ensures fragments == old(fragments) + [old(buffer)] && Recording(m, used)
      ensures ok <==> buffer != null
      ensures ok ==> fresh(buffer) && used == BUF_HDR && Views(Contents(), used) == Rotate(old(Views(Contents(), used)))
      ensures !ok ==> used == old(used)
      ensures source.refused == old(source.refused) + if ok then 0 else 1
    {
      hide Numbered, Header, Views, Rotate, Sealed, Handles, Raws;
      ghost var st, end := Contents(), used;
      ParkFragment(m);
      ghost var raws := Raws(fragments);
      ok := TakeBuffer();
      ghost var next := if buffer == null then None else Some(buffer[..]);
      SealRotates(cfg, st, end, next);
      assert Contents() == Store(st.delivered, raws, next);
    }

    method ParkFragment(ghost m: Mark)
      requires buffer != null && Recording(m, used)
      modifies this`fragments, this`buffer, buffer
      ensures fragments == old(fragments) + [old(buffer)] && buffer == null && Dims() && Handles()
      ensures Raws(fragments) == old(Raws(fragments)) + [Sealed(old(buffer[..]), true, used)]
      ensures KeptBytes(m)
    {
      hide Numbered, Sealed, Handles, Raws;
      SealCurrent();
      assert KeptBytes(m) by {
        ghost var n := |m.keep|;
        if m.first == buffer {
          assert buffer[4..4 + n] == buffer[..][4..][..n] == old(buffer[..])[4..][..n] == old(buffer[4..4 + n]);
        }
      }
      PushCurrent();
    }

    method SealCurrent()
      requires buffer != null && Handles() && BUF_HDR <= used <= buffer.Length
      modifies buffer
      ensures buffer[..] == Sealed(old(buffer[..]), true, used) && Raws(fragments) == old(Raws(fragments))
    {
      hide Sealed;
      ghost var raws := Raws(fragments);
      Seal(buffer, true, used);
      assert Raws(fragments) == raws;
    }

    ghost function Cap(): nat {
      if cfg.bufMax >= BUF_HDR then cfg.bufMax - BUF_HDR else 0
    }

    /** Bytes that fit the current buffer. */
    method PutCurrent(dst: nat, src: seq<byte>, ghost m: Mark)
      requires buffer != null && Recording(m, dst) && dst + |src| <= cfg.bufMax
      modifies buffer
      ensures Recording(m, dst + |src|)
      ensures Views(Contents(), dst + |src|) == Append(old(Views(Contents(), dst)), src)
    {
      hide Numbered, Views, Append, Splice, Handles, Raws;
      ghost var st := Contents();
      ghost var raw := buffer[..];
      PutAppends(cfg, st, dst, src);
      PutOverCurrent(dst, src);
      assert KeptBytes(m) by {
        if m.first == buffer {
          KeptBelow(raw, buffer[..], dst, |m.keep|);
        }
      }
    }

    /** Bytes of a record: what does not fit the current buffer goes on in the next ones. */
    method CopyFragmented(dst0: nat, src: seq<byte>, ghost m: Mark) returns (ok: bool, dst: nat)
      requires buffer != null && Recording(m, dst0)
      modifies this`fragments, this`buffer, this`used, this`bufSeq, source, buffer
      ensures Recording(m, dst) && (ok <==> buffer != null)
      ensures ok ==> fresh(buffer) || buffer == old(buffer)
      ensures ok ==> Open(Cap(), old(Views(Contents(), dst0)))
                     && Views(Contents(), dst) == Extend(Cap(), old(Views(Contents(), dst0)), src)
      ensures source.refused == old(source.refused) + if ok then 0 else 1
    {
      hide Extend, Append, Rotate, Views, Contents, Recording, Open;
      dst := dst0;
      var done := 0;
      RecordingBounds(m, dst);
      ghost var v0 := Views(Contents(), dst0);
      assert src[done..] == src;
      while done < |src|
        invariant done <= |src| && buffer != null && Recording(m, dst)
        invariant (fresh(buffer) || buffer == old(buffer)) && source.refused == old(source.refused)
        invariant Open(Cap(), v0) && Open(Cap(), Views(Contents(), dst))
        invariant Extend(Cap(), Views(Contents(), dst), src[done..]) == Extend(Cap(), v0, src)
      {
        RecordingBounds(m, dst);
        if dst == cfg.bufMax {
          ExtendStep(Cap(), Views(Contents(), dst), src[done..], 0);
          used := dst;
          ok := RotateFragmentBuffer(m);
          if !ok {
            return;
          }
          dst := used;
          RecordingBounds(m, dst);
        }
        var k := if |src| - done < cfg.bufMax - dst then |src| - done else cfg.bufMax - dst;
        ExtendStep(Cap(), Views(Contents(), dst), src[done..], k);
        assert src[done..][..k] == src[done..done + k] && src[done..][k..] == src[done + k..];
        PutCurrent(dst, src[done..done + k], m);
        dst := dst + k;
        done := done + k;
        RecordingBounds(m, dst);
      }
      ExtendStep(Cap(), Views(Contents(), dst), src[done..], 0);
      ok := true;
    }

    lemma RecordingBounds(m: Mark, end: nat)
      requires buffer != null && Recording(m, end)
      ensures cfg.bufMax % 8 == 0 && 88 <= cfg.bufMax <= 65535 && BUF_HDR <= end <= cfg.bufMax == buffer.Length
      ensures var vs := Views(Contents(), end);
              Open(Cap(), vs) && |vs[|vs| - 1].payload| == end - BUF_HDR
    {
    }

    /** Views so far are `v0` extended by `a`; then extending them by `b` extends `v0` by both. */
    lemma Continue(m: Mark, end: nat, v0: seq<View>, a: seq<byte>, b: seq<byte>)
      requires buffer != null && Recording(m, end)
      requires Open(Cap(), v0) && Views(Contents(), end) == Extend(Cap(), v0, a)
      ensures Open(Cap(), Views(Contents(), end))
      ensures Extend(Cap(), Views(Contents(), end), b) == Extend(Cap(), v0, a + b)
    {
      RecordingBounds(m, end);
      hide Recording;
      ExtendExtend(Cap(), v0, a, b);
    }

    /** P8_WRITE_PIECE: a plain copy when the piece fits, the fragmenting copy otherwise. */
    method WritePiece(dst0: nat, src: seq<byte>, ghost m: Mark) returns (ok: bool, dst: nat)
      requires buffer != null && Recording(m, dst0)
      modifies this`fragments, this`buffer, this`used, this`bufSeq, source, buffer
      ensures Recording(m, dst) && (ok <==> buffer != null)
      ensures ok ==> fresh(buffer) || buffer == old(buffer)
      ensures ok ==> Open(Cap(), old(Views(Contents(), dst0)))
                     && Views(Contents(), dst) == Extend(Cap(), old(Views(Contents(), dst0)), src)
      ensures source.refused == old(source.refused) + if ok then 0 else 1
    {
      hide Extend, Append, Views, Contents, Recording;
      RecordingBounds(m, dst0);
      if dst0 + |src| <= cfg.bufMax {
        ExtendFits(Cap(), Views(Contents(), dst0), src);
        PutCurrent(dst0, src, m);
        ok, dst := true, dst0 + |src|;
      } else {
        ok, dst := CopyFragmented(dst0, src, m);
      }
    }

    method PutParked(b: array<byte>, ghost j: nat, pos: nat, p: seq<byte>)
      requires Handles() && j < |fragments| && fragments[j] == b && pos + |p| <= b.Length
      modifies b
      ensures b[..] == Splice(old(b[..]), pos, p)
      ensures Contents() == old(Contents()).(parked := old(Contents()).parked[j := Splice(old(b[..]), pos, p)])
    {
      hide Splice;
      ghost var raws := Raws(fragments);
      Put(b, pos, p);
      assert Raws(fragments) == raws[j := b[..]];
    }

    /** Complete the record header at `pos` of the record's first buffer, wherever that buffer is by now. */
    method PatchFirst(ghost end: nat, pos: nat, p: seq<byte>, first: array<byte>, ghost m: Mark)
      requires buffer != null && Recording(m, end) && first == m.first
      requires 4 + |m.keep| <= pos && pos + |p| <= cfg.bufMax
      requires var i := |delivered| + |m.frags|;
               var vs := Views(Contents(), end);
               i < |vs| && pos - BUF_HDR + |p| <= |vs[i].payload|
      modifies first
      ensures Recording(m, end)
      ensures Views(Contents(), end) == Patch(old(Views(Contents(), end)), |delivered| + |m.frags|, pos - BUF_HDR, p)
    {
      hide Numbered, Handles, Views, Patch;
      if first == buffer {
        PatchCurrent(end, pos, p, m);
      } else {
        PatchParked(end, pos, p, first, m);
      }
    }

    method PatchCurrent(ghost end: nat, pos: nat, p: seq<byte>, ghost m: Mark)
      requires buffer != null && Recording(m, end) && buffer == m.first
      requires 4 + |m.keep| <= pos && pos + |p| <= cfg.bufMax
      requires var i := |delivered| + |m.frags|;
               var vs := Views(Contents(), end);
               i < |vs| && pos - BUF_HDR + |p| <= |vs[i].payload|
      modifies buffer
      ensures Recording(m, end)
      ensures Views(Contents(), end) == Patch(old(Views(Contents(), end)), |delivered| + |m.frags|, pos - BUF_HDR, p)
    {
      hide Numbered, Patch, Splice, Handles, Views, Raws;
      ghost var st, raw := Contents(), buffer[..];
      PatchesCurrent(cfg, st, end, pos, p);
      PutOverCurrent(pos, p);
      KeptBelow(raw, buffer[..], pos, |m.keep|);
      assert Raws(fragments) == st.parked;
    }

    method PatchParked(ghost end: nat, pos: nat, p: seq<byte>, first: array<byte>, ghost m: Mark)
      requires buffer != null && Recording(m, end) && first == m.first != buffer
      requires 4 + |m.keep| <= pos && pos + |p| <= cfg.bufMax
      requires var i := |delivered| + |m.frags|;
               var vs := Views(Contents(), end);
               i < |vs| && pos - BUF_HDR + |p| <= |vs[i].payload|
      modifies first
      ensures Recording(m, end)
      ensures Views(Contents(), end) == Patch(old(Views(Contents(), end)), |delivered| + |m.frags|, pos - BUF_HDR, p)
    {
      hide Numbered, Patch, Splice, Handles, Views, Raws;
      ghost var st, raw := Contents(), first[..];
      PatchesParked(cfg, st, end, |m.frags|, pos, p);
      PutParked(first, |m.frags|, pos, p);
      KeptBelow(raw, first[..], pos, |m.keep|);
      assert Raws(fragments) == st.parked[|m.frags| := Splice(raw, pos, p)];
      assert m.raws <= Raws(fragments);
    }

    method PutOverCurrent(pos: nat, p: seq<byte>)
      requires buffer != null && Handles() && pos + |p| <= buffer.Length
      modifies buffer
      ensures buffer[..] == Splice(old(buffer[..]), pos, p)
      ensures Contents() == old(Contents()).(current := Some(Splice(old(buffer[..]), pos, p)))
    {
      hide Splice;
      ghost var raws := Raws(fragments);
      Put(buffer, pos, p);
      assert Raws(fragments) == raws;
    }

    /** Give the last parked buffer back to the core, with its number. */
    method ReleaseLast()
      requires buffer == null && Dims() && Handles() && |fragments| > 0
      modifies this`fragments, this`bufSeq, source`lent
      ensures fragments == old(fragments)[..|old(fragments)| - 1] && Dims() && Handles()
    {
      var last := fragments[|fragments| - 1];
      fragments := fragments[..|fragments| - 1];
      source.Release(last);
      bufSeq := bufSeq - 1;
    }

    /** lbl_discard: a record found no buffer to go on in. The buffers taken only for it go back to the core, and its
        first buffer is cut where it began, or goes back too when the record began it. */
    method Discard(commit: nat, base: nat, ghost end: nat, ghost m: Mark)
      requires buffer == null && Recording(m, end) && commit == |m.frags| && base == 4 + |m.keep|
      modifies this`fragments, this`buffer, this`used, this`bufSeq, source`lent, m.first
      ensures Owned() && fragments == m.frags && Raws(fragments) == m.raws
      ensures if base == BUF_HDR then buffer == null && used == 0
              else buffer == m.first && used == base && SizeOf(buffer[..]) == used
                   && Views(Contents(), used) == delivered + ReadViews(m.raws) + [View(false, m.keep[12..])]
    {
      hide Numbered, Views, Handles, Sealed, Raws;
      ghost var st := Contents();
      ReleaseDownTo(commit + 1);
      NumberedPrefix(cfg, st, commit + 1);
      if base == BUF_HDR {
        DropFirst(commit, m);
      } else {
        CutFirst(commit, base, m);
      }
    }

    /** What a rollback finds once the buffers behind the record's first one are gone. */
    ghost predicate FirstLast(commit: nat, m: Mark)
      reads this`fragments, this`buffer, this`bufSeq, this`delivered, source`lent, fragments
    {
      && buffer == null && Dims() && Handles() && Numbered(cfg, Store(delivered, Raws(fragments), None))
      && |fragments| == commit + 1 && m.frags == fragments[..commit] && fragments[commit] == m.first
      && m.raws == Raws(fragments)[..commit]
    }

    /** The record began its first buffer: that one goes back too. */
    method DropFirst(commit: nat, ghost m: Mark)
      requires FirstLast(commit, m)
      modifies this`fragments, this`used, this`bufSeq, source`lent
      ensures Owned() && fragments == m.frags && Raws(fragments) == m.raws && buffer == null && used == 0
    {
      hide Numbered, Handles, Raws;
      ghost var st := Store(delivered, Raws(fragments), None);
      ReleaseDownTo(commit);
      used := 0;
      NumberedPrefix(cfg, st, commit);
    }

    /** Earlier records are in the first buffer: it is cut where this one began. */
    method CutFirst(commit: nat, base: nat, ghost m: Mark)
      requires FirstLast(commit, m) && KeptBytes(m) && base == 4 + |m.keep| && BUF_HDR < base <= cfg.bufMax
      modifies this`fragments, this`buffer, this`used, m.first
      ensures Owned() && fragments == m.frags && Raws(fragments) == m.raws
      ensures buffer == m.first && used == base && SizeOf(buffer[..]) == used
      ensures Views(Contents(), used) == delivered + ReadViews(m.raws) + [View(false, m.keep[12..])]
    {
      hide Numbered, Views, Handles, Sealed, SizeOf;
      ghost var parked := Raws(fragments);
      assert parked[commit] == m.first[..];
      hide Raws;
      KeptPayload(parked[commit], m.keep);
      CutBack(cfg, Store(delivered, parked, None), commit, base);
      Reopen(base);
      assert Contents() == Store(delivered, parked[..commit], Some(Sealed(parked[commit], false, base)));
    }

    method ReleaseDownTo(n: nat)
      requires buffer == null && Dims() && Handles() && n <= |fragments|
      modifies this`fragments, this`bufSeq, source`lent
      ensures fragments == old(fragments)[..n] && Dims() && Handles()
      ensures Raws(fragments) == old(Raws(fragments))[..n]
    {
      hide Handles;
      while |fragments| > n
        invariant n <= |fragments| && fragments <= old(fragments) && Dims() && Handles()
      {
        ReleaseLast();
      }
    }

    /** The last parked buffer becomes the current one again, ending at `end`. */
    method Reopen(end: nat)
      requires buffer == null && Dims() && Handles() && |fragments| > 0 && BUF_HDR <= end <= cfg.bufMax
      modifies this`fragments, this`buffer, this`used, fragments[|fragments| - 1]
      ensures fragments == old(fragments)[..|old(fragments)| - 1] && buffer == old(fragments)[|fragments|]
      ensures used == end && Dims() && Handles()
      ensures buffer[..] == Sealed(old(fragments[|fragments| - 1][..]), false, end)
      ensures Raws(fragments) == old(Raws(fragments))[..|fragments|]
    {
      hide Sealed, Handles;
      PopLast();
      used := end;
      SealLast();
    }

    method PopLast()
      requires buffer == null && Dims() && Handles() && |fragments| > 0
      modifies this`fragments, this`buffer
      ensures fragments == old(fragments)[..|old(fragments)| - 1] && buffer == old(fragments)[|fragments|]
      ensures Dims() && Handles() && Raws(fragments) == old(Raws(fragments))[..|fragments|]
    {
      ghost var raws := Raws(fragments);
      buffer := fragments[|fragments| - 1];
      fragments := fragments[..|fragments| - 1];
      assert Raws(fragments) == raws[..|fragments|];
    }

    method SealLast()
      requires buffer != null && Handles() && BUF_HDR <= used <= buffer.Length
      modifies buffer
      ensures buffer[..] == Sealed(old(buffer[..]), false, used) && Raws(fragments) == old(Raws(fragments))
    {
      hide Sealed;
      ghost var raws := Raws(fragments);
      Seal(buffer, false, used);
      assert Raws(fragments) == raws;
    }

    /** Hand every held buffer to the worker, in order. */
    method Pull() returns (out: seq<array<byte>>)
      requires Resting()
      modifies this`fragments, this`buffer, this`used, this`delivered, source`lent
      ensures out == old(Held()) && Held() == [] && Resting()
      ensures delivered == Now() == old(Now()) == old(delivered) + ReadViews(Raws(out))
      ensures old(Valid()) ==> Valid()
      ensures forall j :: 0 <= j < |out| ==> HeaderReads(cfg, out[j][..], |old(delivered)| + j)
    {
      hide Numbered, Views, Handles, Holds, HeaderReads;
      forall j | 0 <= j < |Held()| ensures HeaderReads(cfg, Held()[j][..], |delivered| + j) {
        HeldStamped(j);
      }
      HandOver(this);
      out := TakeAll();
      delivered := delivered + ReadViews(Raws(out));
      source.lent := {};
      AllDelivered(this);
    }

    /** The parked buffers in order, then the current one. */
    method TakeAll() returns (out: seq<array<byte>>)
      modifies this`fragments, this`buffer, this`used
      ensures out == old(Held()) && fragments == [] && buffer == null
    {
      out := [];
      while |fragments| > 0
        invariant out + fragments == old(fragments)
        modifies this`fragments
      {
        out := out + [fragments[0]];
        fragments := fragments[1..];
      }
      assert fragments == [] && out + fragments == out;
      if buffer != null {
        out := out + [buffer];
        buffer := null;
        used := 0;
      }
    }

    /** Hand every held buffer to the ready queue as one chain, when the thread exits. */
    method CorePush() returns (chain: seq<array<byte>>)
      requires Resting()
      modifies this`fragments, this`buffer, this`used, this`delivered, source`lent
      ensures chain == old(Held()) && Held() == [] && Resting()
      ensures delivered == Now() == old(Now()) == old(delivered) + ReadViews(Raws(chain)) && used == 0
      ensures old(Valid()) ==> Valid()
      ensures forall j :: 0 <= j < |chain| ==> HeaderReads(cfg, chain[j][..], |old(delivered)| + j)
    {
      hide Numbered, Views, Handles, Holds, HeaderReads;
      forall j | 0 <= j < |Held()| ensures HeaderReads(cfg, Held()[j][..], |delivered| + j) {
        HeldStamped(j);
      }
      HandOver(this);
      chain := TakeChain();
      delivered := delivered + ReadViews(Raws(chain));
      source.lent := {};
      AllDelivered(this);
    }

    /** The current buffer linked behind the parked ones, or alone. */
    method TakeChain() returns (chain: seq<array<byte>>)
      modifies this`fragments, this`buffer, this`used
      ensures chain == old(Held()) && fragments == [] && buffer == null && used == 0
    {
      chain := [];
      if |fragments| > 0 {
        if buffer != null {
          fragments := fragments + [buffer];
          buffer := null;
        }
        chain, fragments := fragments, [];
      } else if buffer != null {
        chain := [buffer];
        buffer := null;
      }
      used := 0;
    }

    /** A current buffer with `needed` free bytes. One with less is parked; the wait for a new one happens with the
        writer unlocked, so the worker may pull meanwhile. */
    method EnsureBuffer(needed: nat, resetCursor: bool) returns (ok: bool, ghost open: bool)
      requires Resting() && needed <= 72
      modifies this`fragments, this`buffer, this`used, this`bufSeq, this`delivered, source
      ensures Owned() && (ok <==> buffer != null)
      ensures ok && open ==> buffer == old(buffer) && used == old(used) && fragments == old(fragments)
      ensures ok && !open ==> fresh(buffer) && used == BUF_HDR
      ensures ok ==> BUF_HDR <= used && used + needed <= cfg.bufMax && Now() == Start(old(Now()), open)
      ensures !ok ==> Resting() && Now() == old(Now())
      ensures Handed(old(delivered), old(Now()), ok && open)
      ensures buffer == null || fresh(buffer) || buffer == old(buffer)
      ensures source.refused == old(source.refused) + if ok then 0 else 1
      ensures ok ==> (open <==> old(buffer) != null && cfg.bufMax - old(used) >= needed)
    {
      hide Numbered, Handles, SizeOf, Views, Contents;
      if buffer != null && cfg.bufMax - used < needed {
        ParkCurrent(resetCursor);
      }
      open := buffer != null;
      if buffer != null {
        HoldsMore();
        return true, open;
      }
      ok := WaitForBuffer();
    }

    lemma HoldsMore()
      requires buffer != null
      ensures |delivered| < |Now()|
    {
    }

    /** Meanwhile the worker has pulled everything or nothing; nothing, if the current buffer was kept. */
    ghost predicate Handed(was: seq<View>, now: seq<View>, kept: bool)
      reads this`delivered
    {
      if kept then delivered == was && |was| < |now| else delivered == was || delivered == now
    }

    /** Wait for a buffer with the writer unlocked. */
    method WaitForBuffer() returns (ok: bool)
      requires Resting() && buffer == null
      modifies this`fragments, this`buffer, this`used, this`bufSeq, this`delivered, source
      ensures Owned() && (ok <==> buffer != null)
      ensures ok ==> fresh(buffer) && used == BUF_HDR && Now() == old(Now()) + [FRESH]
      ensures !ok ==> Resting() && Now() == old(Now())
      ensures delivered == old(delivered) || delivered == old(Now())
      ensures source.refused == old(source.refused) + if ok then 0 else 1
    {
      hide Numbered, Handles, SizeOf, Views, Raws, Header;
      if * {
        var _ := Pull();
      }
      ghost var st, end := Contents(), used;
      ok := TakeBuffer();
      if ok {
        FreshFollows(cfg, st, buffer[..]);
        assert Contents() == st.(current := Some(buffer[..]));
        assert Views(Contents(), BUF_HDR) == Views(st, end) + [FRESH];
      }
    }

    method ParkCurrent(resetCursor: bool)
      requires buffer != null && Resting()
      modifies this`fragments, this`buffer, this`used
      ensures fragments == old(fragments) + [old(buffer)] && buffer == null && Resting() && Now() == old(Now())
    {
      hide Numbered, Views, SizeOf, Handles;
      ghost var st := Contents();
      ParkingKeepsViews(cfg, st, used, if resetCursor then 0 else used);
      PushCurrent();
      if resetCursor {
        used := 0;
      }
      assert Contents() == Store(delivered, st.parked + [st.current.value], None);
    }

    method PushCurrent()
      requires buffer != null && Dims() && Handles()
      modifies this`fragments, this`buffer
      ensures fragments == old(fragments) + [old(buffer)] && buffer == null && Dims() && Handles()
      ensures Raws(fragments) == old(Raws(fragments)) + [old(buffer[..])]
    {
      fragments := fragments + [buffer];
      buffer := null;
    }

    /** One argument: a string goes out with a 16-bit length in front. */
    method WriteArg(dst0: nat, arg: Arg, ghost m: Mark) returns (ok: bool, dst: nat)
      requires buffer != null && Recording(m, dst0)
      modifies this`fragments, this`buffer, this`used, this`bufSeq, source, buffer
      ensures Recording(m, dst) && (ok <==> buffer != null)
      ensures ok ==> fresh(buffer) || buffer == old(buffer)
      ensures ok ==> Open(Cap(), old(Views(Contents(), dst0)))
                     && Views(Contents(), dst) == Extend(Cap(), old(Views(Contents(), dst0)), ArgBytes(SentArg(arg)))
      ensures source.refused == old(source.refused) + if ok then 0 else 1
    {
      hide Extend, Views, Contents, Recording, Open, Le;
      if arg.Text? {
        var n := if |arg.text| > MAX_TEXT then MAX_TEXT else |arg.text|;
        ghost var v0 := Views(Contents(), dst0);
        ok, dst := WritePiece(dst0, Le(n, 2), m);
        if !ok { return; }
        Continue(m, dst, v0, Le(n, 2), arg.text[..n]);
        ok, dst := CopyFragmented(dst, arg.text[..n], m);
        assert SentArg(arg).text == arg.text[..n];
      } else {
        ok, dst := WritePiece(dst0, ArgBytes(arg), m);
      }
    }

    /** The variable arguments of a log record; `written` is the number of bytes they take. */
    method WriteArgs(dst0: nat, args: seq<Arg>, ghost m: Mark) returns (ok: bool, dst: nat, written: nat)
      requires buffer != null && Recording(m, dst0)
      modifies this`fragments, this`buffer, this`used, this`bufSeq, source, buffer
      ensures Recording(m, dst) && (ok <==> buffer != null)
      ensures ok ==> fresh(buffer) || buffer == old(buffer)
      ensures ok ==> Open(Cap(), old(Views(Contents(), dst0))) && written == |ArgsBytes(SentArgs(args))|
                     && Views(Contents(), dst) == Extend(Cap(), old(Views(Contents(), dst0)), ArgsBytes(SentArgs(args)))
      ensures source.refused == old(source.refused) + if ok then 0 else 1
    {
      hide Extend, Views, Contents, Recording, Open, ArgBytes, SentArg;
      RecordingBounds(m, dst0);
      ghost var v0 := Views(Contents(), dst0);
      ghost var all := ArgsBytes(SentArgs(args));
      ghost var head: seq<byte> := [];
      ExtendStep(Cap(), v0, [], 0);
      ok, dst, written := true, dst0, 0;
      var i := 0;
      assert args[0..] == args;
      while i < |args|
        invariant i <= |args| && ok && buffer != null && Recording(m, dst)
        invariant (fresh(buffer) || buffer == old(buffer)) && source.refused == old(source.refused)
        invariant Open(Cap(), v0) && Views(Contents(), dst) == Extend(Cap(), v0, head)
        invariant head + ArgsBytes(SentArgs(args[i..])) == all && written == |head|
      {
        ghost var piece := ArgBytes(SentArg(args[i]));
        Continue(m, dst, v0, head, piece);
        ArgsStep(args, i, head, all);
        ok, dst := WriteArg(dst, args[i], m);
        if !ok { return; }
        written := written + |ArgBytes(SentArg(args[i]))|;
        head := head + piece;
        i := i + 1;
      }
      assert args[i..] == [];
      assert head == all;
    }

    /** The attributes of a record, `record` bytes into it. */
    method SerializeAttrs(dst0: nat, record: nat, attrs: seq<AttrVal>, reg: seq<AttrType>, ghost m: Mark)
      returns (ok: bool, dst: nat, count: nat, bytes: nat)
      requires buffer != null && Recording(m, dst0) && attrCache <= reg
      modifies this`fragments, this`buffer, this`used, this`bufSeq, this`attrCache, source, buffer
      ensures Recording(m, dst) && (ok <==> buffer != null) && attrCache <= reg
      ensures ok ==> fresh(buffer) || buffer == old(buffer)
      ensures var plan := Plan(reg, record, 0, attrs);
              ok ==> Open(Cap(), old(Views(Contents(), dst0))) && count == |plan| && bytes == |AttrsBytes(plan)|
                     && Views(Contents(), dst) == Extend(Cap(), old(Views(Contents(), dst0)), AttrsBytes(plan))
      ensures source.refused == old(source.refused) + if ok then 0 else 1
    {
      hide Extend, Views, Contents, Recording, Open, AttrBytes, AttrsBytes, Plan, PlanOne, Planned;
      RecordingBounds(m, dst0);
      ghost var v0 := Views(Contents(), dst0);
      ghost var head: seq<Attr> := [];
      ExtendStep(Cap(), v0, [], 0);
      PlanBegins(reg, record, attrs);
      ok, dst, count, bytes := true, dst0, 0, 0;
      var i := 0;
      while i < |attrs| && count < MAX_ATTRS
        invariant i <= |attrs| && ok && buffer != null && Recording(m, dst) && attrCache <= reg
        invariant (fresh(buffer) || buffer == old(buffer)) && source.refused == old(source.refused)
        invariant Open(Cap(), v0) && Views(Contents(), dst) == Extend(Cap(), v0, AttrsBytes(head))
        invariant Planned(reg, record, attrs, i, head, count, bytes)
      {
        var fits: bool, attr: Attr;
        ok, dst, fits, attr := OneAttr(dst, record + bytes, attrs[i], reg, m);
        if !ok { return; }
        PlanNext(reg, record, attrs, i, head, count, bytes);
        if fits {
          ExtendExtend(Cap(), v0, AttrsBytes(head), AttrBytes(attr));
          AttrsBytesSnoc(head, attr);
          bytes := bytes + |AttrBytes(attr)|;
          count := count + 1;
          head := head + [attr];
        }
        i := i + 1;
      }
      PlanEnds(reg, record, attrs, i, head, count, bytes);
    }

    /** One attribute of the caller's list: unknown ids and those without room are passed over. */
    method OneAttr(dst0: nat, taken: nat, a: AttrVal, reg: seq<AttrType>, ghost m: Mark)
      returns (ok: bool, dst: nat, fits: bool, attr: Attr)
      requires buffer != null && Recording(m, dst0) && attrCache <= reg
      modifies this`fragments, this`buffer, this`used, this`bufSeq, this`attrCache, source, buffer
      ensures Recording(m, dst) && (ok <==> buffer != null) && attrCache <= reg
      ensures ok ==> fresh(buffer) || buffer == old(buffer)
      ensures PlanOne(reg, taken, a) == if fits then Some(attr) else None
      ensures ok ==> Open(Cap(), old(Views(Contents(), dst0)))
                     && Views(Contents(), dst)
                        == if fits then Extend(Cap(), old(Views(Contents(), dst0)), AttrBytes(attr))
                           else old(Views(Contents(), dst0))
      ensures source.refused == old(source.refused) + if ok then 0 else 1
    {
      hide Extend, Views, Contents, Recording, Open, AttrBytes, Plan, PlanOne;
      RecordingBounds(m, dst0);
      ok, dst, fits, attr := true, dst0, false, StrAttr(0, []);
      var known := LookupAttr(a.id, reg);
      if known {
        fits, attr := FitAttr(attrCache[a.id], taken, a, reg);
        if fits {
          ok, dst := WriteAttr(dst, attr, m);
        }
      } else {
        PlanUnknown(reg, taken, a);
      }
    }

    /** Is `id` a registered attribute? An id the cache has not seen yet is looked up in the registry. */
    method LookupAttr(id: i32, reg: seq<AttrType>) returns (known: bool)
      requires attrCache <= reg
      modifies this`attrCache
      ensures attrCache <= reg && (known <==> 0 <= id < |reg|) && (known ==> id < |attrCache|)
    {
      if id < 0 {
        return false;
      }
      if id >= |attrCache| {
        SyncAttrCache(reg);
      }
      known := id < |attrCache|;
    }

    method SyncAttrCache(reg: seq<AttrType>)
      requires attrCache <= reg
      modifies this`attrCache
      ensures attrCache == reg
    {
      while |attrCache| < |reg|
        invariant attrCache <= reg
      {
        attrCache := attrCache + [reg[|attrCache|]];
      }
    }

    /** What of `a` goes into a record that already has `taken` bytes: a string is cut to the room left, a number
        without room is skipped. */
    method FitAttr(ty: AttrType, taken: nat, a: AttrVal, ghost reg: seq<AttrType>) returns (fits: bool, attr: Attr)
      requires 0 <= a.id < |reg| && reg[a.id] == ty
      ensures PlanOne(reg, taken, a) == if fits then Some(attr) else None
    {
      hide Utf8.CutAt, AttrBytes;
      attr := NumAttr(a.id, a.num);
      var room := if taken < MAX_RECORD then MAX_RECORD - taken else 0;
      if ty.AttrStr? {
        fits := room >= 6;
        if fits {
          var len := |a.str|;
          if len > room - 6 {
            len := Utf8.CutUtf8(a.str, room - 6);
          }
          assert a.str[..|a.str|] == a.str;
          attr := StrAttr(a.id, a.str[..len]);
        }
      } else {
        fits := room >= 12;
      }
    }

    /** One attribute: stored in place when it fits the buffer, else copied field by field across buffers. */
    method WriteAttr(dst0: nat, attr: Attr, ghost m: Mark) returns (ok: bool, dst: nat)
      requires buffer != null && Recording(m, dst0)
      modifies this`fragments, this`buffer, this`used, this`bufSeq, source, buffer
      ensures Recording(m, dst) && (ok <==> buffer != null)
      ensures ok ==> fresh(buffer) || buffer == old(buffer)
      ensures ok ==> Open(Cap(), old(Views(Contents(), dst0)))
                     && Views(Contents(), dst) == Extend(Cap(), old(Views(Contents(), dst0)), AttrBytes(attr))
      ensures source.refused == old(source.refused) + if ok then 0 else 1
    {
      hide Extend, Append, Views, Contents, Recording, Open, Le;
      RecordingBounds(m, dst0);
      ghost var v0 := Views(Contents(), dst0);
      if |AttrBytes(attr)| <= cfg.bufMax - dst0 {
        ExtendFits(Cap(), v0, AttrBytes(attr));
        PutCurrent(dst0, AttrBytes(attr), m);
        return true, dst0 + |AttrBytes(attr)|;
      }
      ok, dst := CopyFragmented(dst0, Le(attr.id, 4), m);
      if !ok { return; }
      ghost var head: seq<byte> := Le(attr.id, 4);
      if attr.StrAttr? {
        Continue(m, dst, v0, head, Le(|attr.text|, 2));
        ok, dst := CopyFragmented(dst, Le(|attr.text|, 2), m);
        if !ok { return; }
        head := head + Le(|attr.text|, 2);
      }
      ghost var value := if attr.StrAttr? then attr.text else Le(attr.num, 8);
      Continue(m, dst, v0, head, value);
      ok, dst := CopyFragmented(dst, if attr.StrAttr? then attr.text else Le(attr.num, 8), m);
      assert head + value == AttrBytes(attr);
    }

    /** Bytes already in the current buffer become part of the record unwritten: structure and tail padding. */
    lemma SkipBytes(m: Mark, end: nat, k: nat)
      requires buffer != null && Recording(m, end) && end + k <= cfg.bufMax
      ensures Recording(m, end + k) && Open(Cap(), Views(Contents(), end))
      ensures Views(Contents(), end + k) == Extend(Cap(), Views(Contents(), end), buffer[end..end + k])
    {
      RecordingBounds(m, end);
      EndMoves(cfg, Contents(), end, k);
      hide Numbered, Views, Append, Extend;
      ExtendFits(Cap(), Views(Contents(), end), buffer[end..end + k]);
    }

    /** What a record that starts now must leave alone. */
    ghost function MarkHere(): (m: Mark)
      requires buffer != null && Owned() && BUF_HDR <= used <= cfg.bufMax
      reads this`fragments, this`buffer, this`bufSeq, this`delivered, this`used, source`lent, fragments, buffer
      ensures m.frags == fragments && m.raws == Raws(fragments) && m.first == buffer && m.keep == buffer[4..used]
      ensures Recording(m, used)
    {
      hide Handles, Numbered;
      Mark(fragments, Raws(fragments), buffer, buffer[4..used])
    }

    /** The header of a record, with sizes and counts still open. The place must be remembered for a rollback. */
    method StartRecord(r0: Record, ghost v0: seq<View>) returns (dst: nat, ghost m: Mark, ghost head: seq<byte>)
      requires buffer != null && Owned() && !r0.End?
      requires BUF_HDR <= used && used + 40 <= cfg.bufMax && Now() == v0
      modifies buffer
      ensures m.frags == fragments && m.raws == old(Raws(fragments)) && m.first == buffer
      ensures m.keep == old(buffer[4..used])
      ensures Recording(m, dst) && dst == used + 40
      ensures |head| == 40 && head[..HeadLen(r0)] == FirstHead(r0)
      ensures Open(Cap(), v0) && |v0[|v0| - 1].payload| == used - BUF_HDR
              && Views(Contents(), dst) == Extend(Cap(), v0, head)
    {
      hide Extend, Views, Contents, Open, Owned, Recording, FirstHead, Append;
      m := MarkHere();
      RecordingBounds(m, used);
      ghost var h0 := FirstHead(r0);
      ExtendFits(Cap(), v0, h0);
      PutCurrent(used, FirstHead(r0), m);
      ghost var end := used + |h0|;
      RecordingBounds(m, end);
      SkipBytes(m, end, 40 - |h0|);
      head := h0 + buffer[end..used + 40];
      Continue(m, end, v0, h0, buffer[end..used + 40]);
      dst := used + 40;
    }

    /** Arguments, then attributes. */
    method WriteBody(dst0: nat, rawArgs: seq<Arg>, attrs: seq<AttrVal>, reg: seq<AttrType>, ghost m: Mark)
      returns (ok: bool, dst: nat, argsSize: nat, count: nat, size: nat)
      requires buffer != null && Recording(m, dst0) && attrCache <= reg
      modifies this`fragments, this`buffer, this`used, this`bufSeq, this`attrCache, source, buffer
      ensures Recording(m, dst) && (ok <==> buffer != null) && attrCache <= reg
      ensures ok ==> fresh(buffer) || buffer == old(buffer)
      ensures var args := ArgsBytes(SentArgs(rawArgs));
              var plan := Plan(reg, 40 + |args|, 0, attrs);
              ok ==> Open(Cap(), old(Views(Contents(), dst0)))
                     && argsSize == |args| && count == |plan| && size == 40 + |args + AttrsBytes(plan)|
                     && Views(Contents(), dst) == Extend(Cap(), old(Views(Contents(), dst0)), args + AttrsBytes(plan))
      ensures source.refused == old(source.refused) + if ok then 0 else 1
    {
      hide Extend, Views, Contents, Recording, Open, Plan, ArgsBytes, AttrsBytes;
      ghost var v0 := Views(Contents(), dst0);
      count, size := 0, 0;
      ok, dst, argsSize := WriteArgs(dst0, rawArgs, m);
      if !ok { return; }
      ghost var plan := Plan(reg, 40 + argsSize, 0, attrs);
      Continue(m, dst, v0, ArgsBytes(SentArgs(rawArgs)), AttrsBytes(plan));
      var attrsSize: nat;
      ok, dst, count, attrsSize := SerializeAttrs(dst, 40 + argsSize, attrs, reg, m);
      size := 40 + argsSize + attrsSize;
    }

    /** Pad the record to 8 bytes, complete its header and the size field of the buffer it ends in. */
    method FinishRecord(dst0: nat, ghost r: Record, r0: Record, argsSize: nat, count: nat, size: nat,
                        first: array<byte>, base: nat, ghost m: Mark, ghost v0: seq<View>, ghost head: seq<byte>)
      returns (ghost bytes: seq<byte>)
      requires buffer != null && Recording(m, dst0) && first == m.first && base == 4 + |m.keep|
               && base + 40 <= cfg.bufMax
      requires !r0.End? && !r.End? && r == r0.(attrs := r.attrs) && count == |r.attrs| <= MAX_ATTRS
      requires (r.Log? ==> argsSize == |ArgsBytes(r.args)|) && size == 40 + |Body(r)|
      requires |head| == 40 && head[..HeadLen(r0)] == FirstHead(r0)
      requires Ready(Cap(), v0, blocks, 40) && |v0| == |delivered| + |m.frags| + 1
      requires Open(Cap(), v0) && |v0[|v0| - 1].payload| == base - BUF_HDR
      requires Views(Contents(), dst0) == Extend(Cap(), v0, head + Body(r))
      modifies this`used, first, buffer
      ensures Resting() && Now() == Extend(Cap(), v0, bytes) && Encodes(r, bytes)
    {
      hide Extend, Views, Contents, Recording, Open, Ready, Body, FirstHead, Encodes, ArgsBytes, Patch, Now, Resting,
           LogSizes, Le, PatchBytes;
      RecordingBounds(m, dst0);
      var pad := AlignUp8(size) - size;
      PadRecord(m, dst0, v0, head, Body(r), pad);
      var dst := dst0 + pad;
      ghost var rest := Body(r) + buffer[dst0..dst];

      var len := size + pad;
      var at := if r0.Log? then 30 else 16;
      var p := if r0.Log? then LogSizes(argsSize % 0x1_0000, len % 0x1_0000, r0.modId, count)
               else Le(len % 0x1_0000, 2) + [ItemKind(r0.isAsync), count];
      PatchIs(r0, r, argsSize, count, len);
      CompleteHeader(Cap(), v0, head, rest, at, p);
      Assemble(r0, r, head, Body(r), buffer[dst0..dst]);
      bytes := (head[..at] + p + head[at + |p|..]) + rest;
      PatchFirst(dst, base + at, p, first, m);
      StoreSize(dst, m);
    }

    /** The pad bytes are whatever the buffer holds there, and they never reach past its end. */
    lemma PadRecord(m: Mark, dst: nat, v0: seq<View>, head: seq<byte>, body: seq<byte>, pad: nat)
      requires buffer != null && Recording(m, dst)
      requires Ready(Cap(), v0, blocks, 40) && Open(Cap(), v0)
      requires Views(Contents(), dst) == Extend(Cap(), v0, head + body)
      requires pad < 8 && (|head + body| + pad) % 8 == 0
      ensures dst + pad <= cfg.bufMax == buffer.Length && Recording(m, dst + pad)
      ensures Views(Contents(), dst + pad) == Extend(Cap(), v0, head + (body + buffer[dst..dst + pad]))
    {
      hide Extend, Views, Contents, Recording, Open, Ready;
      RecordingBounds(m, dst);
      PadFits(Cap(), v0, blocks, 40, head + body, pad);
      SkipBytes(m, dst, pad);
      Continue(m, dst, v0, head + body, buffer[dst..dst + pad]);
      assert head + body + buffer[dst..dst + pad] == head + (body + buffer[dst..dst + pad]);
    }

    method StoreSize(dst: nat, ghost m: Mark)
      requires buffer != null && Recording(m, dst)
      modifies this`used, buffer
      ensures Resting() && Now() == old(Views(Contents(), dst)) && used == dst
    {
      RecordingBounds(m, dst);
      hide Handles, Numbered, Views, SizeOf, Raws, Splice, Le;
      ghost var st := Contents();
      SizeStored(cfg, st, dst);
      used := dst;
      PutOverCurrent(2, Le(used, 2));
    }

    /** A log or span-begin record into the current buffer and as many more as it takes. `r0` carries everything but
        the attributes; `v0` are the buffers when it starts. A record that finds no buffer to go on in leaves no
        trace: the writer has the buffers of before it, and the core has all others back. */
    method WriteRecord(r0: Record, rawArgs: seq<Arg>, attrs: seq<AttrVal>, reg: seq<AttrType>, ghost v0: seq<View>)
      returns (ok: bool, ghost bytes: seq<byte>)
      requires buffer != null && Owned() && attrCache <= reg
      requires BUF_HDR <= used && used + 40 <= cfg.bufMax && Now() == v0
      requires !r0.End? && r0.attrs == [] && (if r0.Log? then r0.args == SentArgs(rawArgs) else rawArgs == [])
      requires Ready(Cap(), v0, blocks, 40)
      modifies this`fragments, this`buffer, this`used, this`bufSeq, this`attrCache, source, buffer
      ensures attrCache <= reg && Resting() && Open(Cap(), v0)
      ensures ok ==> buffer != null && Now() == Extend(Cap(), v0, bytes)
      ensures ok ==> Encodes(r0.(attrs := Plan(reg, 40 + |ArgsBytes(SentArgs(rawArgs))|, 0, attrs)), bytes)
      ensures !ok ==> Now() == if old(used) == BUF_HDR then v0[..|v0| - 1] else v0
      ensures buffer == null || fresh(buffer) || buffer == old(buffer)
      ensures source.refused == old(source.refused) + if ok then 0 else 1
    {
      hide Extend, Recording, Open, Plan, Encodes, Owned, Resting, Contents, Now, Ready, ArgsBytes, AttrsBytes,
           FirstHead, SizeOf, Views, Raws;
      var first, base, commit := buffer, used, |fragments|;
      ViewsBefore(v0);
      var dst: nat;
      ghost var m: Mark, head: seq<byte>;
      dst, m, head := StartRecord(r0, v0);
      var argsSize: nat, count: nat, size: nat;
      ok, dst, argsSize, count, size := WriteBody(dst, rawArgs, attrs, reg, m);
      if !ok {
        bytes := [];
        Discard(commit, base, dst, m);
        RolledBack(m, v0, base);
        return;
      }
      ghost var r := r0.(attrs := Plan(reg, 40 + |ArgsBytes(SentArgs(rawArgs))|, 0, attrs));
      BodyIs(r, rawArgs);
      ExtendExtend(Cap(), v0, head, Body(r));
      bytes := FinishRecord(dst, r, r0, argsSize, count, size, first, base, m, v0, head);
    }

    lemma ViewsBefore(v0: seq<View>)
      requires buffer != null && Owned() && BUF_HDR <= used <= cfg.bufMax && Now() == v0 && Ready(Cap(), v0, blocks, 40)
      ensures used <= buffer.Length
      ensures v0 == delivered + ReadViews(Raws(fragments)) + [View(false, buffer[4..used][12..])]
    {
      hide Handles, Numbered, Boundary, HasHeader, Off, Bnd;
      assert buffer[..][BUF_HDR..used] == buffer[4..used][12..];
      assert v0[|v0| - 1] == RawView(buffer[..], used);
    }

    lemma RolledBack(m: Mark, v0: seq<View>, base: nat)
      requires Owned() && Raws(fragments) == m.raws && 12 <= |m.keep| && base == 4 + |m.keep| <= cfg.bufMax
      requires v0 == delivered + ReadViews(m.raws) + [View(false, m.keep[12..])]
      requires if base == BUF_HDR then buffer == null && used == 0
               else buffer != null && used == base && SizeOf(buffer[..]) == used
                    && Views(Contents(), used) == delivered + ReadViews(m.raws) + [View(false, m.keep[12..])]
      ensures Resting() && Now() == if base == BUF_HDR then v0[..|v0| - 1] else v0
    {
      hide Handles, Numbered, SizeOf;
    }

    /** A log or span-begin record, from the buffer check to the commit. */
    method PutRecord(r0: Record, rawArgs: seq<Arg>, attrs: seq<AttrVal>, reg: seq<AttrType>, needed: nat, reset: bool)
      returns (ok: bool, ghost open: bool)
      requires Valid() && attrCache <= reg && 40 <= needed <= 72
      requires !r0.End? && r0.attrs == [] && (if r0.Log? then r0.args == SentArgs(rawArgs) else rawArgs == [])
      modifies this`fragments, this`buffer, this`used, this`bufSeq, this`attrCache, this`delivered, this`blocks,
               this`sent, source, buffer
      ensures Valid() && attrCache <= reg
      ensures ok ==> sent == old(sent) + [r0.(attrs := Plan(reg, 40 + |ArgsBytes(SentArgs(rawArgs))|, 0, attrs))]
      ensures ok ==> buffer != null && Appended(old(Now()), open, old(blocks), Now())
      ensures Handed(old(delivered), old(Now()), ok && open)
      ensures buffer == null || fresh(buffer) || buffer == old(buffer)
      ensures !ok ==> sent == old(sent) && blocks == old(blocks) && Now() == old(Now())
      ensures source.refused == old(source.refused) + if ok then 0 else 1
      ensures ok ==> (open <==> old(buffer) != null && cfg.bufMax - old(used) >= needed)
    {
      hide Bounded, Extend, Encodes, ArgsBytes, Plan, Resting, Owned, Now, Holds, Appended, CanStart, Open, Start,
           Ready, Views, Contents;
      ghost var vs := Now();
      ok, open := EnsureBuffer(needed, reset);
      if ok {
        OpenCursor(vs, open, 40);
        ghost var bytes: seq<byte>;
        ok, bytes := WriteRecord(r0, rawArgs, attrs, reg, Start(vs, open));
        if ok {
          ghost var r := r0.(attrs := Plan(reg, 40 + |ArgsBytes(SentArgs(rawArgs))|, 0, attrs));
          PlansBounded(r, rawArgs, reg, attrs);
          Commit(vs, open, r, bytes);
        }
      }
    }

    /** cp8_log::send. `resolved` tells whether the core knows the descriptor; a record below the verbosity threshold
        is refused without being counted, every other failure is counted as a dropped log. */
    method SendLog(level: u8, minLevel: u8, resolved: bool, hash: u64, now: u64, traceId: u64, modId: u16,
                   args: seq<Arg>, attrs: seq<AttrVal>, reg: seq<AttrType>)
      returns (ok: bool, ghost open: bool)
      requires Valid() && attrCache <= reg
      modifies this, source, buffer
      ensures Valid() && attrCache <= reg && droppedTraces == old(droppedTraces)
      ensures ok ==> level >= minLevel && resolved && droppedLogs == old(droppedLogs)
      ensures ok ==> var plan := Plan(reg, 40 + |ArgsBytes(SentArgs(args))|, 0, attrs);
                     sent == old(sent) + [Log(hash, now, traceId, cfg.threadId, level, modId, SentArgs(args), plan)]
      ensures ok ==> Appended(old(Now()), open, old(blocks), Now())
      ensures Handed(old(delivered), old(Now()), ok && open)
      ensures buffer == null || fresh(buffer) || buffer == old(buffer)
      ensures !ok ==> sent == old(sent) && blocks == old(blocks) && Now() == old(Now())
      ensures !ok ==> droppedLogs == old(droppedLogs) + if level < minLevel then 0 else 1
      ensures source.refused == old(source.refused) + if ok || level < minLevel || !resolved then 0 else 1
      ensures ok ==> (open <==> old(buffer) != null && cfg.bufMax - old(used) >= 72)
      ensures ok ==> buffer == null || cfg.bufMax - used >= 32
    {
      hide ArgsBytes, Plan, Resting, Now, Holds, Appended;
      ok, open := false, false;
      if level < minLevel {
        return;
      }
      if resolved {
        var r0 := Log(hash, now, traceId, cfg.threadId, level, modId, SentArgs(args), []);
        ok, open := PutRecord(r0, args, attrs, reg, 32 + 40, false);
      }
      if !ok {
        droppedLogs := droppedLogs + 1;
      } else if cfg.bufMax - used < 32 {
        ParkCurrent(true);
      }
    }

    /** cp8_trc::write_begin, from the descriptor check on. */
    method WriteBegin(resolved: bool, hash: u64, now: u64, spanId: u64, isAsync: bool, parentId: u64,
                      attrs: seq<AttrVal>, reg: seq<AttrType>)
      returns (ok: bool, ghost open: bool)
      requires Valid() && attrCache <= reg
      modifies this, source, buffer
      ensures Valid() && attrCache <= reg && droppedLogs == old(droppedLogs)
      ensures ok ==> resolved && droppedTraces == old(droppedTraces)
      ensures ok ==> sent == old(sent)
                     + [Begin(now, spanId, isAsync, cfg.threadId, hash, parentId, Plan(reg, 40, 0, attrs))]
      ensures ok ==> Appended(old(Now()), open, old(blocks), Now())
      ensures Handed(old(delivered), old(Now()), ok && open)
      ensures buffer == null || fresh(buffer) || buffer == old(buffer)
      ensures !ok ==> sent == old(sent) && blocks == old(blocks) && Now() == old(Now())
      ensures !ok ==> droppedTraces == old(droppedTraces) + 1
      ensures source.refused == old(source.refused) + if ok || !resolved then 0 else 1
      ensures ok ==> (open <==> old(buffer) != null && cfg.bufMax - old(used) >= 40)
    {
      hide Plan, Resting, Now, Holds, Appended;
      ok, open := false, false;
      if resolved {
        var r0 := Begin(now, spanId, isAsync, cfg.threadId, hash, parentId, []);
        ok, open := PutRecord(r0, [], attrs, reg, 40, true);
      }
      if !ok {
        droppedTraces := droppedTraces + 1;
      }
    }

    /** cp8_trc::write_end: a record of fixed size, always inside one buffer. */
    method WriteEnd(now: u64, spanId: u64) returns (ok: bool, ghost open: bool)
      requires Valid()
      modifies this, source, buffer
      ensures Valid() && attrCache == old(attrCache) && droppedLogs == old(droppedLogs)
      ensures ok ==> droppedTraces == old(droppedTraces) && sent == old(sent) + [End(now, spanId, cfg.threadId)]
      ensures ok ==> Appended(old(Now()), open, old(blocks), Now())
      ensures Handed(old(delivered), old(Now()), ok && open)
      ensures buffer == null || fresh(buffer) || buffer == old(buffer)
      ensures !ok ==> sent == old(sent) && blocks == old(blocks) && Now() == old(Now())
      ensures !ok ==> droppedTraces == old(droppedTraces) + 1
      ensures source.refused == old(source.refused) + if ok then 0 else 1
      ensures ok ==> (open <==> old(buffer) != null && cfg.bufMax - old(used) >= 24)
    {
      hide Bounded, Extend, Encodes, Resting, Owned, Now, Holds, Appended, CanStart, Open, TrcHead, Start, Ready,
           Views, Contents;
      ghost var vs := Now();
      ok, open := EnsureBuffer(24, true);
      if !ok {
        droppedTraces := droppedTraces + 1;
        return;
      }
      ghost var r := End(now, spanId, cfg.threadId);
      var bytes := TrcHead(now, spanId, 24, ITEM_END, 0, cfg.threadId);
      EndEncodes(now, spanId, cfg.threadId);
      EndBounded(r);
      OpenCursor(vs, open, 24);
      StoreFixed(bytes, Start(vs, open));
      Commit(vs, open, r, bytes);
    }

    method StoreFixed(bytes: seq<byte>, ghost v0: seq<View>)
      requires buffer != null && Owned() && BUF_HDR <= used && used + |bytes| <= cfg.bufMax && Now() == v0
      modifies this`used, buffer
      ensures Resting() && Open(Cap(), v0) && Now() == Extend(Cap(), v0, bytes)
    {
      hide Extend, Views, Contents, Open, Owned, Recording, Append, Resting;
      ghost var m := MarkHere();
      RecordingBounds(m, used);
      ExtendFits(Cap(), v0, bytes);
      PutCurrent(used, bytes, m);
      StoreSize(used + |bytes|, m);
    }

    /** A buffer that was kept holds a record already; one just taken is empty. */
    lemma OpenCursor(vs: seq<View>, open: bool, fixed: nat)
      requires buffer != null && Owned() && BUF_HDR <= used && used + fixed <= cfg.bufMax && 0 < fixed
      requires Holds(vs) && Now() == Start(vs, open) && (!open ==> used == BUF_HDR)
      ensures CanStart(Cap(), vs, open, fixed) && Ready(Cap(), Start(vs, open), blocks, fixed)
      ensures vs == if used == BUF_HDR then Start(vs, open)[..|Start(vs, open)| - 1] else Start(vs, open)
    {
      hide Handles, Numbered, Off, Bnd, HasHeader, Boundary, Encodes, Ready, Join, Concat;
      var v0 := Start(vs, open);
      assert v0[|v0| - 1] == RawView(buffer[..], used);
      StartReady(Cap(), vs, open, blocks, fixed);
    }

    /** A record behind the others keeps the layout and the joined payload in step. */
    ghost method Commit(vs: seq<View>, open: bool, r: Record, bytes: seq<byte>)
      requires Holds(vs) && CanStart(Cap(), vs, open, Fixed(r)) && Open(Cap(), Start(vs, open))
      requires Resting() && Encodes(r, bytes) && Bounded(r) && Now() == Extend(Cap(), Start(vs, open), bytes)
      modifies this`blocks, this`sent
      ensures Valid() && sent == old(sent) + [r] && Appended(vs, open, old(blocks), Now())
    {
      hide Shape, Extend, Views, Contents, Resting, Start, Head, Body, Concat, Join, Bounded;
      Joined(vs, open, r, bytes);
      blocks, sent := blocks + [Block(Fixed(r), bytes)], sent + [r];
    }

    lemma Joined(vs: seq<View>, open: bool, r: Record, bytes: seq<byte>)
      requires Holds(vs) && CanStart(Cap(), vs, open, Fixed(r)) && Open(Cap(), Start(vs, open))
      requires Encodes(r, bytes)
      ensures Shape(Cap(), Extend(Cap(), Start(vs, open), bytes), blocks + [Block(Fixed(r), bytes)])
      ensures Join(Extend(Cap(), Start(vs, open), bytes)) == Concat(BlockBytes(blocks + [Block(Fixed(r), bytes)]))
    {
      hide Shape, Extend, Head, Body;
      CommitBlock(Cap(), vs, open, blocks, Block(Fixed(r), bytes));
    }

    /** What a successful call leaves behind, without reference to how it is kept. */
    lemma LastBlock(vs: seq<View>, open: bool, bs: seq<Block>, before: seq<Record>, r: Record)
      requires Valid() && Appended(vs, open, bs, Now()) && sent == before + [r] && |before| == |bs|
      ensures |blocks| == |bs| + 1 && blocks == bs + [blocks[|bs|]]
      ensures blocks[|bs|].fixed == Fixed(r) && Encodes(r, blocks[|bs|].bytes) && Bounded(r)
    {
      hide Resting, Now, Shape, Join, Concat, Encodes, Extend, CanStart, Open;
      assert sent[|before|] == r;
      assert WellSent(sent[|before|], blocks[|bs|]);
    }

    /** The buffers took one more record, starting in the current buffer or in a fresh one. */
    ghost predicate Appended(vs: seq<View>, open: bool, bs: seq<Block>, now: seq<View>)
      reads this`blocks
    {
      && |blocks| == |bs| + 1 && bs == blocks[..|bs|]
      && CanStart(Cap(), vs, open, blocks[|bs|].fixed) && Open(Cap(), Start(vs, open))
      && now == Extend(Cap(), Start(vs, open), blocks[|bs|].bytes)
    }
  }

  /** The bytes stored over the header are those of the finished record. */
  lemma {:induction false} PatchIs(r0: Record, r: Record, argsSize: nat, count: nat, len: nat)
    requires !r0.End? && !r.End? && r == r0.(attrs := r.attrs) && count == |r.attrs| <= MAX_ATTRS
    requires r.Log? ==> argsSize == |ArgsBytes(r.args)|
    ensures PatchAt(r) == if r0.Log? then 30 else 16
    ensures PatchBytes(r, len)
            == if r0.Log? then LogSizes(argsSize % 0x1_0000, len % 0x1_0000, r0.modId, count)
               else Le(len % 0x1_0000, 2) + [ItemKind(r0.isAsync), count]
  {
    hide ArgsBytes, LogSizes, Le;
  }

  lemma {:induction false} EndBounded(r: Record)
    requires r.End?
    ensures Bounded(r)
  {
  }

  lemma {:induction false} EndEncodes(now: u64, spanId: u64, threadId: u32)
    ensures Encodes(End(now, spanId, threadId), TrcHead(now, spanId, 24, ITEM_END, 0, threadId))
  {
    hide Le;
    var b := TrcHead(now, spanId, 24, ITEM_END, 0, threadId);
    assert b[..24] == b;
  }

  lemma {:induction false} PlansBounded(r: Record, rawArgs: seq<Arg>, reg: seq<AttrType>, attrs: seq<AttrVal>)
    requires !r.End? && (if r.Log? then r.args == SentArgs(rawArgs) else rawArgs == [])
    requires r.attrs == Plan(reg, 40 + |ArgsBytes(SentArgs(rawArgs))|, 0, attrs)
    ensures Bounded(r)
  {
    hide Plan, Bounded;
    PlanBounded(r, reg, attrs);
  }

  lemma {:induction false} BodyIs(r: Record, rawArgs: seq<Arg>)
    requires !r.End? && (if r.Log? then r.args == SentArgs(rawArgs) else rawArgs == [])
    ensures Body(r) == ArgsBytes(SentArgs(rawArgs)) + AttrsBytes(r.attrs)
  {
  }

  lemma HandOver(w: TlsWriter)
    requires w.Resting()
    ensures |w.Now()| == w.bufSeq && w.Now() == w.delivered + ReadViews(Raws(w.Held()))
  {
    hide SizeOf;
    var st := w.Contents();
    if w.buffer != null {
      assert Raws(w.Held()) == st.parked + [st.current.value];
      ParkingKeepsViews(w.cfg, st, w.used, 0);
    }
  }

  lemma AllDelivered(w: TlsWriter)
    requires w.fragments == [] && w.buffer == null && w.source.lent == {} && w.source.size == w.cfg.bufMax
    requires w.cfg.bufMax % 8 == 0 && 88 <= w.cfg.bufMax <= 65535 && w.bufSeq == |w.delivered|
    ensures w.Resting() && w.Now() == w.delivered
  {
  }

  lemma KeptBelow(a: seq<byte>, b: seq<byte>, pos: nat, n: nat)
    requires 4 + n <= pos <= |a| == |b| && a[..pos] == b[..pos]
    ensures a[4..4 + n] == b[4..4 + n]
  {
    assert a[4..4 + n] == a[..pos][4..4 + n];
    assert b[4..4 + n] == b[..pos][4..4 + n];
  }

  lemma KeptPayload(raw: Raw, keep: seq<byte>)
    requires 12 <= |keep| && 4 + |keep| <= |raw| && raw[4..4 + |keep|] == keep
    ensures raw[BUF_HDR..4 + |keep|] == keep[12..]
  {
    assert raw[BUF_HDR..4 + |keep|] == raw[4..4 + |keep|][12..];
  }

  lemma {:induction false} ArgsStep(args: seq<Arg>, i: nat, head: seq<byte>, all: seq<byte>)
    requires i < |args| && head + ArgsBytes(SentArgs(args[i..])) == all
    ensures head + ArgBytes(SentArg(args[i])) + ArgsBytes(SentArgs(args[i + 1..])) == all
  {
    hide ArgBytes, SentArg;
    var s := SentArgs(args[i..]);
    assert args[i..][1..] == args[i + 1..];
    assert s[1..] == SentArgs(args[i + 1..]);
    assert s[0] == SentArg(args[i]);
  }

  /** After `i` attributes of the caller's list: `head` was written, `count` of them with `bytes` bytes, and the rest of
      the plan is the plan for the rest. */
  ghost predicate Planned(reg: seq<AttrType>, record: nat, attrs: seq<AttrVal>, i: nat, head: seq<Attr>, count: nat,
                          bytes: nat)
  {
    && i <= |attrs| && count == |head| && bytes == |AttrsBytes(head)|
    && head + Plan(reg, record + bytes, count, attrs[i..]) == Plan(reg, record, 0, attrs)
  }

  lemma {:induction false} PlanBegins(reg: seq<AttrType>, record: nat, attrs: seq<AttrVal>)
    ensures Planned(reg, record, attrs, 0, [], 0, 0) && AttrsBytes([]) == []
  {
    hide Plan;
    assert attrs[0..] == attrs;
  }

  lemma {:induction false} PlanNext(reg: seq<AttrType>, record: nat, attrs: seq<AttrVal>, i: nat, head: seq<Attr>,
                                    count: nat, bytes: nat)
    requires Planned(reg, record, attrs, i, head, count, bytes) && i < |attrs| && count < MAX_ATTRS
    ensures match PlanOne(reg, record + bytes, attrs[i])
            case None => Planned(reg, record, attrs, i + 1, head, count, bytes)
            case Some(a) => Planned(reg, record, attrs, i + 1, head + [a], count + 1, bytes + |AttrBytes(a)|)
  {
    hide PlanOne, AttrBytes, Plan, AttrsBytes;
    PlanStep(reg, record + bytes, count, attrs, i, head, Plan(reg, record, 0, attrs));
    if PlanOne(reg, record + bytes, attrs[i]).Some? {
      AttrsBytesSnoc(head, PlanOne(reg, record + bytes, attrs[i]).value);
    }
  }

  lemma {:induction false} PlanEnds(reg: seq<AttrType>, record: nat, attrs: seq<AttrVal>, i: nat, head: seq<Attr>,
                                    count: nat, bytes: nat)
    requires Planned(reg, record, attrs, i, head, count, bytes) && (i == |attrs| || count >= MAX_ATTRS)
    ensures head == Plan(reg, record, 0, attrs) && count == |head| && bytes == |AttrsBytes(head)|
  {
    hide Plan, AttrsBytes;
    PlanDone(reg, record + bytes, count, attrs, i);
  }

  lemma {:induction false} PlanUnfold(reg: seq<AttrType>, taken: nat, count: nat, attrs: seq<AttrVal>)
    requires attrs != [] && count < MAX_ATTRS
    ensures Plan(reg, taken, count, attrs) ==
            match PlanOne(reg, taken, attrs[0])
            case None => Plan(reg, taken, count, attrs[1..])
            case Some(a) => [a] + Plan(reg, taken + |AttrBytes(a)|, count + 1, attrs[1..])
  {
    hide PlanOne, AttrBytes, AttrOf, AttrsBytes;
  }

  lemma {:induction false} PlanStep(reg: seq<AttrType>, taken: nat, count: nat, attrs: seq<AttrVal>, i: nat,
                                    head: seq<Attr>, all: seq<Attr>)
    requires i < |attrs| && count < MAX_ATTRS && head + Plan(reg, taken, count, attrs[i..]) == all
    ensures match PlanOne(reg, taken, attrs[i])
            case None => head + Plan(reg, taken, count, attrs[i + 1..]) == all
            case Some(a) => head + [a] + Plan(reg, taken + |AttrBytes(a)|, count + 1, attrs[i + 1..]) == all
  {
    hide *;
    assert attrs[i..][1..] == attrs[i + 1..] && attrs[i..][0] == attrs[i];
    PlanUnfold(reg, taken, count, attrs[i..]);
  }

  lemma {:induction false} PlanUnknown(reg: seq<AttrType>, taken: nat, a: AttrVal)
    requires !(0 <= a.id < |reg|)
    ensures PlanOne(reg, taken, a) == None
  {
  }

  lemma {:induction false} PlanDone(reg: seq<AttrType>, taken: nat, count: nat, attrs: seq<AttrVal>, i: nat)
    requires i <= |attrs| && (i == |attrs| || count >= MAX_ATTRS)
    ensures Plan(reg, taken, count, attrs[i..]) == []
  {
  }

  lemma {:induction false} AttrsBytesSnoc(attrs: seq<Attr>, a: Attr)
    ensures AttrsBytes(attrs + [a]) == AttrsBytes(attrs) + AttrBytes(a)
    decreases |attrs|
  {
    hide AttrBytes;
    if attrs != [] {
      AttrsBytesSnoc(attrs[1..], a);
      assert (attrs + [a])[1..] == attrs[1..] + [a];
    }
  }
}

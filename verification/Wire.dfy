/** Log and trace records on the wire (api/p8_protocol.h) and the decoder that reads a joined record stream. */
module Wire {
  import opened Bytes
  import Utf8

  const MAX_RECORD: nat := 65528        // P8_MAX_RECORD_SIZE
  const MAX_ATTRS: nat := 255
  const MAX_TEXT: nat := 65535          // largest 16-bit length

  type u128 = x: int | 0 <= x < 0x1_0000_0000_0000_0000_0000_0000_0000_0000

  /** How a format argument is serialized: a length-prefixed string, 8 bytes, or 16 bytes (long double). */
  datatype ArgKind = StrKind | WordKind | LongKind

  /** The strings of span descriptors, each sent once. */
  datatype StrType = FileName | FuncName | SpanName

  datatype Arg = Text(text: seq<byte>) | Word(word: u64) | Long(long: u128)

  datatype AttrType = AttrStr | AttrF64 | AttrI64 | AttrU64

  /** An attribute as the caller passes it; which of `num` and `str` counts is decided by the registered type. */
  datatype AttrVal = AttrVal(id: i32, num: u64, str: seq<byte>)

  /** An attribute as it is sent. */
  datatype Attr = StrAttr(id: u32, text: seq<byte>) | NumAttr(id: u32, num: u64)

  datatype Record =
    | Log(hash: u64, timestamp: u64, traceId: u64, threadId: u32, level: u8, modId: u16,
          args: seq<Arg>, attrs: seq<Attr>)
    | Begin(timestamp: u64, spanId: u64, isAsync: bool, threadId: u32, hash: u64, parentId: u64, attrs: seq<Attr>)
    | End(timestamp: u64, spanId: u64, threadId: u32)

  const ITEM_BEGIN: byte := 1
  const ITEM_BEGIN_ASYNC: byte := 2
  const ITEM_END: byte := 3

  // ---------------------------------------------------------------------------------------------------------------
  // Encoding

  function ArgBytes(a: Arg): seq<byte> {
    match a
    case Text(t) => Le(|t|, 2) + t
    case Word(w) => Le(w, 8)
    case Long(l) => Le(l, 16)
  }

  function ArgsBytes(args: seq<Arg>): seq<byte> {
    if args == [] then [] else ArgBytes(args[0]) + ArgsBytes(args[1..])
  }

  /** A string argument is sent up to the largest length its 16-bit prefix can hold. */
  function SentArg(a: Arg): (r: Arg)
    ensures a.Text? <==> r.Text?
    ensures a.Text? ==> r.text <= a.text && (|a.text| <= 65535 ==> r == a) && (|a.text| > 65535 ==> |r.text| == 65535)
    ensures !a.Text? ==> r == a
  {
    if a.Text? && |a.text| > MAX_TEXT then Text(a.text[..MAX_TEXT]) else a
  }

  function SentArgs(args: seq<Arg>): (r: seq<Arg>)
    ensures |r| == |args| && forall i :: 0 <= i < |args| ==> r[i] == SentArg(args[i])
  {
    if args == [] then [] else [SentArg(args[0])] + SentArgs(args[1..])
  }

  function AttrBytes(a: Attr): seq<byte> {
    match a
    case StrAttr(id, t) => Le(id, 4) + Le(|t|, 2) + t
    case NumAttr(id, v) => Le(id, 4) + Le(v, 8)
  }

  function AttrsBytes(attrs: seq<Attr>): seq<byte> {
    if attrs == [] then [] else AttrBytes(attrs[0]) + AttrsBytes(attrs[1..])
  }

  /** Size of the record structure: the part that must lie in one buffer. */
  function Fixed(r: Record): nat {
    match r
    case Log(_, _, _, _, _, _, _, _) => 40
    case Begin(_, _, _, _, _, _, _) => 40
    case End(_, _, _) => 24
  }

  function Body(r: Record): seq<byte> {
    match r
    case Log(_, _, _, _, _, _, args, attrs) => ArgsBytes(args) + AttrsBytes(attrs)
    case Begin(_, _, _, _, _, _, attrs) => AttrsBytes(attrs)
    case End(_, _, _) => []
  }

  function LogHead(hash: u64, timestamp: u64, traceId: u64, threadId: u32, level: u8, modId: u16,
                   argsSize: u16, size: u16, count: u8): (s: seq<byte>)
    ensures |s| == 38
  {
    LogIds(hash, timestamp, traceId, threadId, level) + LogSizes(argsSize, size, modId, count)
  }

  function LogIds(hash: u64, timestamp: u64, traceId: u64, threadId: u32, level: u8): (s: seq<byte>)
    ensures |s| == 30
  {
    Le(hash, 8) + Le(timestamp, 8) + Le(traceId, 8) + Le(threadId, 4) + [level, 0]
  }

  function LogSizes(argsSize: u16, size: u16, modId: u16, count: u8): (s: seq<byte>)
    ensures |s| == 8
  {
    Le(argsSize, 2) + Le(size, 2) + Le(modId, 2) + [count, 0]
  }

  function TrcHead(timestamp: u64, spanId: u64, size: u16, kind: byte, count: u8, threadId: u32): (s: seq<byte>)
    ensures |s| == 24
  {
    Le(timestamp, 8) + Le(spanId, 8) + Le(size, 2) + [kind, count] + Le(threadId, 4)
  }

  /** The defined bytes of the record structure; a log structure ends with two bytes of unspecified padding. The sizes
      are stored in 16 bits, whatever their value. */
  function Head(r: Record, len: nat): (s: seq<byte>)
    requires !r.End? ==> |r.attrs| <= MAX_ATTRS
    ensures |s| == HeadLen(r)
  {
    var size := len % 0x1_0000;
    match r
    case Log(hash, ts, trace, thread, level, mod, args, attrs) =>
      LogHead(hash, ts, trace, thread, level, mod, |ArgsBytes(args)| % 0x1_0000, size, |attrs|)
    case Begin(ts, span, isAsync, thread, hash, parent, attrs) =>
      TrcHead(ts, span, size, ItemKind(isAsync), |attrs|, thread)
      + Le(hash, 8) + Le(parent, 8)
    case End(ts, span, thread) =>
      TrcHead(ts, span, size, ITEM_END, 0, thread)
  }

  function ItemKind(isAsync: bool): byte {
    if isAsync then ITEM_BEGIN_ASYNC else ITEM_BEGIN
  }

  /** The header as it is first stored, before sizes and counts are known. */
  function FirstHead(r: Record): (s: seq<byte>)
    requires !r.End?
    ensures |s| == HeadLen(r)
  {
    match r
    case Log(hash, ts, trace, thread, level, mod, _, _) =>
      LogIds(hash, ts, trace, thread, level) + LogSizes(0, 0, mod, 0)
    case Begin(ts, span, isAsync, thread, hash, parent, _) =>
      TrcHead(ts, span, 40, ItemKind(isAsync), 0, thread) + Le(hash, 8) + Le(parent, 8)
  }

  /** Where in the header the sizes and counts go, ... */
  function PatchAt(r: Record): nat
    requires !r.End?
  {
    if r.Log? then 30 else 16
  }

  /** ... and what is stored there once the record of `len` bytes is complete. */
  function PatchBytes(r: Record, len: nat): (s: seq<byte>)
    requires !r.End? && |r.attrs| <= MAX_ATTRS
    ensures PatchAt(r) + |s| <= HeadLen(r)
  {
    match r
    case Log(_, _, _, _, _, mod, args, attrs) =>
      LogSizes(|ArgsBytes(args)| % 0x1_0000, len % 0x1_0000, mod, |attrs|)
    case Begin(_, _, isAsync, _, _, _, attrs) =>
      Le(len % 0x1_0000, 2) + [ItemKind(isAsync), |attrs|]
  }

  function HeadLen(r: Record): nat {
    if r.Log? then 38 else Fixed(r)
  }

  /** `b` is a serialization of `r`, padded to a multiple of 8; pad bytes may be anything. */
  ghost predicate Encodes(r: Record, b: seq<byte>) {
    && (!r.End? ==> |r.attrs| <= MAX_ATTRS)
    && |b| % 8 == 0 && Fixed(r) + |Body(r)| <= |b| < Fixed(r) + |Body(r)| + 8
    && b[..HeadLen(r)] == Head(r, |b|)
    && b[Fixed(r)..Fixed(r) + |Body(r)|] == Body(r)
  }

  // ---------------------------------------------------------------------------------------------------------------
  // Decoding

  function U128At(s: seq<byte>, i: nat): u128
    requires i + 16 <= |s|
  {
    Pow256Values();
    UnLe(s[i..i + 16])
  }

  /** Arguments are self-delimiting once the descriptor gives their kinds. */
  function DecodeArgs(kinds: seq<ArgKind>, s: seq<byte>): Option<seq<Arg>> {
    if kinds == [] then (if s == [] then Some([]) else None)
    else match DecodeArg(kinds[0], s)
      case None => None
      case Some(a) =>
        match DecodeArgs(kinds[1..], s[|ArgBytes(a)|..])
        case None => None
        case Some(rest) => Some([a] + rest)
  }

  function DecodeArg(kind: ArgKind, s: seq<byte>): (a: Option<Arg>)
    ensures a.Some? ==> |ArgBytes(a.value)| <= |s|
  {
    match kind
    case StrKind =>
      if |s| < 2 || |s| < 2 + U16At(s, 0) then None else Some(Text(s[2..2 + U16At(s, 0)]))
    case WordKind => if |s| < 8 then None else Some(Word(U64At(s, 0)))
    case LongKind => if |s| < 16 then None else Some(Long(U128At(s, 0)))
  }

  function DecodeAttr(reg: seq<AttrType>, s: seq<byte>): (a: Option<Attr>)
    ensures a.Some? ==> |AttrBytes(a.value)| <= |s|
  {
    if |s| < 4 || U32At(s, 0) >= |reg| then None
    else if reg[U32At(s, 0)].AttrStr? then
      if |s| < 6 || |s| < 6 + U16At(s, 4) then None
      else Some(StrAttr(U32At(s, 0), s[6..6 + U16At(s, 4)]))
    else
      if |s| < 12 then None else Some(NumAttr(U32At(s, 0), U64At(s, 4)))
  }

  /** The first `count` attributes of `s`; what follows them is padding. */
  function DecodeAttrs(reg: seq<AttrType>, count: nat, s: seq<byte>): Option<seq<Attr>> {
    if count == 0 then Some([])
    else match DecodeAttr(reg, s)
      case None => None
      case Some(a) =>
        match DecodeAttrs(reg, count - 1, s[|AttrBytes(a)|..])
        case None => None
        case Some(rest) => Some([a] + rest)
  }

  /** What a decoder knows from the service stream: argument kinds per log descriptor, types per attribute. */
  datatype Known = Known(descs: map<u64, seq<ArgKind>>, reg: seq<AttrType>)

  datatype Stream = Logs | Traces

  function SizeAt(k: Stream): nat {
    if k.Logs? then 32 else 16
  }

  function DecodeLog(known: Known, b: seq<byte>): Option<Record>
    requires |b| >= 40
  {
    var argsSize := U16At(b, 30);
    if U64At(b, 0) !in known.descs || 40 + argsSize > |b| then None
    else match DecodeArgs(known.descs[U64At(b, 0)], b[40..40 + argsSize])
      case None => None
      case Some(args) =>
        match DecodeAttrs(known.reg, b[36], b[40 + argsSize..])
        case None => None
        case Some(attrs) =>
          Some(Log(U64At(b, 0), U64At(b, 8), U64At(b, 16), U32At(b, 24), b[28], U16At(b, 34), args, attrs))
  }

  function DecodeTrace(known: Known, b: seq<byte>): Option<Record>
    requires |b| >= 24
  {
    if b[18] == ITEM_END then Some(End(U64At(b, 0), U64At(b, 8), U32At(b, 20)))
    else if (b[18] != ITEM_BEGIN && b[18] != ITEM_BEGIN_ASYNC) || |b| < 40 then None
    else match DecodeAttrs(known.reg, b[19], b[40..])
      case None => None
      case Some(attrs) =>
        Some(Begin(U64At(b, 0), U64At(b, 8), b[18] == ITEM_BEGIN_ASYNC, U32At(b, 20), U64At(b, 24), U64At(b, 32),
                   attrs))
  }

  function DecodeRecord(k: Stream, known: Known, b: seq<byte>): Option<Record> {
    match k
    case Logs => if |b| < 40 then None else DecodeLog(known, b)
    case Traces => if |b| < 24 then None else DecodeTrace(known, b)
  }

  /** A joined payload is walked record by record: each record says its own size. */
  function DecodeStream(k: Stream, known: Known, s: seq<byte>): Option<seq<Record>>
    decreases |s|
  {
    if s == [] then Some([])
    else if |s| < SizeAt(k) + 2 then None
    else
      var n := U16At(s, SizeAt(k));
      if n == 0 || n > |s| then None
      else match DecodeRecord(k, known, s[..n])
        case None => None
        case Some(r) =>
          match DecodeStream(k, known, s[n..])
          case None => None
          case Some(rest) => Some([r] + rest)
  }

  // ---------------------------------------------------------------------------------------------------------------
  // Records a writer may send

  predicate ArgOf(kind: ArgKind, a: Arg) {
    match kind
    case StrKind => a.Text? && |a.text| <= MAX_TEXT
    case WordKind => a.Word?
    case LongKind => a.Long?
  }

  predicate ArgsOf(kinds: seq<ArgKind>, args: seq<Arg>) {
    |kinds| == |args| && forall i :: 0 <= i < |args| ==> ArgOf(kinds[i], args[i])
  }

  predicate AttrOf(reg: seq<AttrType>, a: Attr) {
    a.id < |reg| && (if reg[a.id].AttrStr? then a.StrAttr? && |a.text| <= MAX_TEXT else a.NumAttr?)
  }

  /** `r` agrees with the descriptors: the decoder's knowledge may be that of a later moment, it only grows. */
  predicate Describes(k: Stream, known: Known, r: Record) {
    && (k.Logs? <==> r.Log?)
    && (r.Log? ==> r.hash in known.descs && ArgsOf(known.descs[r.hash], r.args))
    && (!r.End? ==> |r.attrs| <= MAX_ATTRS && forall i :: 0 <= i < |r.attrs| ==> AttrOf(known.reg, r.attrs[i]))
  }

  /** The padded size fits the 16-bit size field. */
  predicate Fits(r: Record) {
    Fixed(r) + |Body(r)| <= MAX_RECORD
  }

  // ---------------------------------------------------------------------------------------------------------------
  // Round trips

  lemma {:induction false} ArgRoundTrip(kind: ArgKind, a: Arg, s: seq<byte>)
    requires ArgOf(kind, a) && ArgBytes(a) <= s
    ensures DecodeArg(kind, s) == Some(a)
  {
    match a
    case Text(t) =>
      assert s[0..2] == ArgBytes(a)[0..2] == Le(|t|, 2);
      Read16(s, 0, |t|);
      assert s[2..2 + |t|] == ArgBytes(a)[2..2 + |t|] == t;
    case Word(w) =>
      assert s[0..8] == ArgBytes(a);
      Read64(s, 0, w);
    case Long(l) =>
      assert s[0..16] == ArgBytes(a);
      Pow256Values();
      UnLeLe(l, 16);
  }

  /** Decoding serialized arguments with their kinds gives the arguments back. */
  lemma {:induction false} ArgsRoundTrip(kinds: seq<ArgKind>, args: seq<Arg>)
    requires ArgsOf(kinds, args)
    ensures DecodeArgs(kinds, ArgsBytes(args)) == Some(args)
    decreases |args|
  {
    hide DecodeArg, ArgBytes, ArgOf;
    if args != [] {
      var s := ArgsBytes(args);
      ArgRoundTrip(kinds[0], args[0], s);
      ArgsRoundTrip(kinds[1..], args[1..]);
      assert s[|ArgBytes(args[0])|..] == ArgsBytes(args[1..]);
      assert [args[0]] + args[1..] == args;
    }
  }

  lemma {:induction false} ArgsSound(kinds: seq<ArgKind>, s: seq<byte>)
    requires DecodeArgs(kinds, s).Some?
    ensures |ArgsBytes(DecodeArgs(kinds, s).value)| == |s|
    decreases |kinds|
  {
    hide DecodeArg, ArgBytes;
    if kinds != [] {
      var a := DecodeArg(kinds[0], s).value;
      ArgsSound(kinds[1..], s[|ArgBytes(a)|..]);
      var rest := DecodeArgs(kinds[1..], s[|ArgBytes(a)|..]).value;
      assert ([a] + rest)[1..] == rest;
    }
  }

  lemma {:induction false} PartOf(s: seq<byte>, b: seq<byte>, i: nat, j: nat)
    requires b <= s && i <= j <= |b|
    ensures s[i..j] == b[i..j]
  {
  }

  lemma {:induction false} AttrRoundTrip(reg: seq<AttrType>, a: Attr, s: seq<byte>)
    requires AttrOf(reg, a) && AttrBytes(a) <= s
    ensures DecodeAttr(reg, s) == Some(a)
  {
    hide Le, UnLe;
    var b := AttrBytes(a);
    PartOf(s, b, 0, 4);
    assert b[0..4] == Le(a.id, 4);
    Read32(s, 0, a.id);
    match a
    case StrAttr(id, t) =>
      PartOf(s, b, 4, 6);
      assert b[4..6] == Le(|t|, 2);
      Read16(s, 4, |t|);
      PartOf(s, b, 6, 6 + |t|);
      assert b[6..6 + |t|] == t;
    case NumAttr(id, v) =>
      PartOf(s, b, 4, 12);
      assert b[4..12] == Le(v, 8);
      Read64(s, 4, v);
  }

  lemma {:induction false} AttrsRoundTrip(reg: seq<AttrType>, attrs: seq<Attr>, s: seq<byte>)
    requires forall i :: 0 <= i < |attrs| ==> AttrOf(reg, attrs[i])
    requires AttrsBytes(attrs) <= s
    ensures DecodeAttrs(reg, |attrs|, s) == Some(attrs)
    decreases |attrs|
  {
    hide DecodeAttr, AttrBytes, AttrOf;
    if attrs != [] {
      var all := AttrsBytes(attrs);
      var n := |AttrBytes(attrs[0])|;
      assert AttrBytes(attrs[0]) == all[..n] == s[..n];
      AttrRoundTrip(reg, attrs[0], s);
      assert AttrsBytes(attrs[1..]) == all[n..] == s[n..|all|];
      AttrsRoundTrip(reg, attrs[1..], s[n..]);
      assert [attrs[0]] + attrs[1..] == attrs;
    }
  }

  lemma {:induction false} AttrsSound(reg: seq<AttrType>, count: nat, s: seq<byte>)
    requires DecodeAttrs(reg, count, s).Some?
    ensures |AttrsBytes(DecodeAttrs(reg, count, s).value)| <= |s|
    decreases count
  {
    hide DecodeAttr, AttrBytes;
    if count != 0 {
      var a := DecodeAttr(reg, s).value;
      AttrsSound(reg, count - 1, s[|AttrBytes(a)|..]);
      var rest := DecodeAttrs(reg, count - 1, s[|AttrBytes(a)|..]).value;
      assert ([a] + rest)[1..] == rest;
    }
  }

  lemma {:induction false} LogIdsFields(h: u64, ts: u64, tr: u64, th: u32, lv: u8, b: seq<byte>)
    requires LogIds(h, ts, tr, th, lv) <= b
    ensures U64At(b, 0) == h && U64At(b, 8) == ts && U64At(b, 16) == tr && U32At(b, 24) == th && b[28] == lv
  {
    hide U64At, U32At;
    var a := LogIds(h, ts, tr, th, lv);
    assert forall i :: 0 <= i < 30 ==> b[i] == a[i];
    assert b[0..8] == a[0..8] == Le(h, 8);
    assert b[8..16] == a[8..16] == Le(ts, 8);
    assert b[16..24] == a[16..24] == Le(tr, 8);
    assert b[24..28] == a[24..28] == Le(th, 4);
    Read64(b, 0, h);
    Read64(b, 8, ts);
    Read64(b, 16, tr);
    Read32(b, 24, th);
  }

  lemma {:induction false} LogSizesFields(az: u16, sz: u16, md: u16, ct: u8, b: seq<byte>)
    requires |b| >= 38 && b[30..38] == LogSizes(az, sz, md, ct)
    ensures U16At(b, 30) == az && U16At(b, 32) == sz && U16At(b, 34) == md && b[36] == ct
  {
    hide U16At;
    var t := LogSizes(az, sz, md, ct);
    assert forall i :: 0 <= i < 8 ==> b[30 + i] == b[30..38][i] == t[i];
    assert b[30..32] == t[0..2] == Le(az, 2);
    assert b[32..34] == t[2..4] == Le(sz, 2);
    assert b[34..36] == t[4..6] == Le(md, 2);
    Read16(b, 30, az);
    Read16(b, 32, sz);
    Read16(b, 34, md);
  }

  lemma {:induction false} LogHeadFields(h: u64, ts: u64, tr: u64, th: u32, lv: u8, md: u16, az: u16, sz: u16,
                                         ct: u8, b: seq<byte>)
    requires LogHead(h, ts, tr, th, lv, md, az, sz, ct) <= b
    ensures U64At(b, 0) == h && U64At(b, 8) == ts && U64At(b, 16) == tr && U32At(b, 24) == th && b[28] == lv
    ensures U16At(b, 30) == az && U16At(b, 32) == sz && U16At(b, 34) == md && b[36] == ct
  {
    hide U64At, U32At, U16At, LogIds, LogSizes;
    var s := LogHead(h, ts, tr, th, lv, md, az, sz, ct);
    assert b[..30] == s[..30] == LogIds(h, ts, tr, th, lv);
    assert b[30..38] == s[30..38] == LogSizes(az, sz, md, ct);
    LogIdsFields(h, ts, tr, th, lv, b);
    LogSizesFields(az, sz, md, ct, b);
  }

  lemma {:induction false} TrcHeadFields(ts: u64, sp: u64, sz: u16, kind: byte, ct: u8, th: u32, b: seq<byte>)
    requires TrcHead(ts, sp, sz, kind, ct, th) <= b
    ensures U64At(b, 0) == ts && U64At(b, 8) == sp && U16At(b, 16) == sz && b[18] == kind && b[19] == ct
    ensures U32At(b, 20) == th
  {
    hide U64At, U32At, U16At;
    var s := TrcHead(ts, sp, sz, kind, ct, th);
    assert forall i :: 0 <= i < 24 ==> b[i] == s[i];
    assert b[0..8] == s[0..8] == Le(ts, 8);
    assert b[8..16] == s[8..16] == Le(sp, 8);
    assert b[16..18] == s[16..18] == Le(sz, 2);
    assert b[20..24] == s[20..24] == Le(th, 4);
    Read64(b, 0, ts);
    Read64(b, 8, sp);
    Read16(b, 16, sz);
    Read32(b, 20, th);
  }

  /** The size field holds the padded size modulo 2^16. */
  lemma {:induction false} SizeField(k: Stream, r: Record, b: seq<byte>)
    requires Encodes(r, b) && (k.Logs? <==> r.Log?)
    ensures U16At(b, SizeAt(k)) == |b| % 0x1_0000
  {
    hide U64At, U32At, U16At, LogHead, TrcHead, ArgsBytes, AttrsBytes;
    var size := |b| % 0x1_0000;
    match r
    case Log(h, ts, tr, th, lv, md, args, attrs) =>
      LogHeadFields(h, ts, tr, th, lv, md, |ArgsBytes(args)| % 0x1_0000, size, |attrs|, b);
    case Begin(ts, sp, isAsync, th, h, pr, attrs) =>
      var kind := ItemKind(isAsync);
      assert TrcHead(ts, sp, size, kind, |attrs|, th) == b[..24];
      TrcHeadFields(ts, sp, size, kind, |attrs|, th, b);
    case End(ts, sp, th) =>
      TrcHeadFields(ts, sp, size, ITEM_END, 0, th, b);
  }

  lemma {:induction false} SizeFits(r: Record, b: seq<byte>)
    requires Encodes(r, b)
    ensures Fits(r) ==> |b| <= MAX_RECORD && |b| % 0x1_0000 == |b|
    ensures !Fits(r) ==> |b| % 0x1_0000 < Fixed(r) + |Body(r)|
  {
    hide Head, Body;
    Wraps(|b|, Fixed(r) + |Body(r)|);
  }

  lemma {:induction false} Wraps(padded: nat, size: nat)
    requires padded % 8 == 0 && size <= padded < size + 8
    ensures size <= MAX_RECORD ==> padded <= MAX_RECORD
    ensures size > MAX_RECORD ==> padded % 0x1_0000 < size
  {
    var q := padded / 8;
    assert padded == 8 * q;
  }

  lemma {:induction false} LogDecodes(known: Known, r: Record, size: u16, b: seq<byte>)
    requires r.Log? && Describes(Logs, known, r) && |ArgsBytes(r.args)| < 0x1_0000
    requires LogHead(r.hash, r.timestamp, r.traceId, r.threadId, r.level, r.modId,
                     |ArgsBytes(r.args)|, size, |r.attrs|) <= b
    requires 40 <= |b| && ArgsBytes(r.args) + AttrsBytes(r.attrs) <= b[40..]
    ensures DecodeLog(known, b) == Some(r)
  {
    hide LogHead, U64At, U32At, U16At, DecodeArgs, DecodeAttrs, ArgsBytes, AttrsBytes, ArgOf, AttrOf;
    var az := |ArgsBytes(r.args)|;
    LogHeadFields(r.hash, r.timestamp, r.traceId, r.threadId, r.level, r.modId, az, size, |r.attrs|, b);
    SplitAt(b, 40, ArgsBytes(r.args), AttrsBytes(r.attrs));
    ArgsRoundTrip(known.descs[r.hash], r.args);
    AttrsRoundTrip(known.reg, r.attrs, b[40 + az..]);
  }

  lemma {:induction false} SplitAt(b: seq<byte>, i: nat, x: seq<byte>, y: seq<byte>)
    requires i <= |b| && x + y <= b[i..]
    ensures i + |x| <= |b| && b[i..i + |x|] == x && y <= b[i + |x|..]
  {
    assert b[i..i + |x|] == b[i..][..|x|] == (x + y)[..|x|];
    assert b[i + |x|..] == b[i..][|x|..];
    assert (x + y)[|x|..] == y;
  }

  lemma {:induction false} BeginDecodes(known: Known, r: Record, size: u16, b: seq<byte>)
    requires r.Begin? && Describes(Traces, known, r)
    requires 40 <= |b| && AttrsBytes(r.attrs) <= b[40..]
    requires TrcHead(r.timestamp, r.spanId, size, ItemKind(r.isAsync), |r.attrs|, r.threadId) == b[..24]
    requires b[24..32] == Le(r.hash, 8) && b[32..40] == Le(r.parentId, 8)
    ensures DecodeTrace(known, b) == Some(r)
  {
    hide TrcHead, U64At, U32At, U16At, DecodeAttrs, AttrsBytes, AttrOf;
    var kind := ItemKind(r.isAsync);
    TrcHeadFields(r.timestamp, r.spanId, size, kind, |r.attrs|, r.threadId, b);
    Read64(b, 24, r.hash);
    Read64(b, 32, r.parentId);
    AttrsRoundTrip(known.reg, r.attrs, b[40..]);
  }

  /** A record whose padded size fits 16 bits says its own length and decodes to itself. */
  lemma {:induction false} RecordRoundTrip(k: Stream, known: Known, r: Record, b: seq<byte>)
    requires Describes(k, known, r) && Fits(r) && Encodes(r, b)
    ensures U16At(b, SizeAt(k)) == |b| && DecodeRecord(k, known, b) == Some(r)
  {
    hide U64At, U32At, U16At, LogHead, DecodeLog, ArgsBytes, AttrsBytes, ArgOf, AttrOf, DecodeAttrs;
    SizeField(k, r, b);
    SizeFits(r, b);
    BodyFollows(r, b);
    var h := Head(r, |b|);
    match r
    case Log(_, _, _, _, _, _, _, _) =>
      LogDecodes(known, r, |b|, b);
    case Begin(_, _, _, _, _, _, _) =>
      assert b[..24] == b[..40][..24] == h[..24];
      assert b[24..32] == b[..40][24..32] == h[24..32];
      assert b[32..40] == b[..40][32..40] == h[32..40];
      BeginDecodes(known, r, |b|, b);
    case End(ts, sp, th) =>
      TrcHeadFields(ts, sp, |b|, ITEM_END, 0, th, b);
  }

  lemma {:induction false} BodyFollows(r: Record, b: seq<byte>)
    requires Encodes(r, b)
    ensures Fixed(r) <= |b| && Body(r) <= b[Fixed(r)..]
  {
    hide Body, Head;
    assert b[Fixed(r)..][..|Body(r)|] == b[Fixed(r)..Fixed(r) + |Body(r)|];
  }

  /** A decoded record is no longer than the bytes it was decoded from. */
  lemma {:induction false} RecordSound(k: Stream, known: Known, b: seq<byte>)
    requires DecodeRecord(k, known, b).Some?
    ensures var r := DecodeRecord(k, known, b).value; Fixed(r) + |Body(r)| <= |b|
  {
    hide U64At, U32At, U16At, DecodeArgs, DecodeAttrs, ArgsBytes, AttrsBytes;
    if k.Logs? {
      var az := U16At(b, 30);
      ArgsSound(known.descs[U64At(b, 0)], b[40..40 + az]);
      AttrsSound(known.reg, b[36], b[40 + az..]);
    } else if b[18] != ITEM_END {
      AttrsSound(known.reg, b[19], b[40..]);
    }
  }

  predicate AllFit(rs: seq<Record>) {
    forall i :: 0 <= i < |rs| ==> Fits(rs[i])
  }

  /** The joined payload decodes to exactly the records written, in order, if and only if every one of them fits the
      16-bit size field. */
  lemma {:induction false} StreamRoundTrip(k: Stream, known: Known, rs: seq<Record>, bs: seq<seq<byte>>)
    requires |rs| == |bs|
    requires forall i :: 0 <= i < |rs| ==> Describes(k, known, rs[i]) && Encodes(rs[i], bs[i])
    ensures DecodeStream(k, known, Concat(bs)) == Some(rs) <==> AllFit(rs)
    decreases |rs|
  {
    hide Encodes, Describes, Fits;
    if rs != [] {
      ConcatHead(bs);
      if Fits(rs[0]) {
        StreamRoundTrip(k, known, rs[1..], bs[1..]);
        FirstFits(k, known, rs, bs);
      } else {
        FirstOverflows(k, known, rs, bs[0], Concat(bs));
      }
    }
  }

  lemma {:induction false} FirstFits(k: Stream, known: Known, rs: seq<Record>, bs: seq<seq<byte>>)
    requires |rs| == |bs| > 0 && Describes(k, known, rs[0]) && Encodes(rs[0], bs[0]) && Fits(rs[0])
    requires Concat(bs) == bs[0] + Concat(bs[1..])
    requires DecodeStream(k, known, Concat(bs[1..])) == Some(rs[1..]) <==> AllFit(rs[1..])
    ensures DecodeStream(k, known, Concat(bs)) == Some(rs) <==> AllFit(rs)
  {
    hide Encodes, Describes, Fits, Concat, DecodeRecord, UnLe;
    var s, b := Concat(bs), bs[0];
    RecordRoundTrip(k, known, rs[0], b);
    SizeCovered(k, known, rs[0], b);
    SameField(k, s, b);
    assert s[..|b|] == b && s[|b|..] == Concat(bs[1..]);
    var rest := DecodeStream(k, known, s[|b|..]);
    assert [rs[0]] + rs[1..] == rs;
    if rest.Some? {
      assert ([rs[0]] + rest.value)[1..] == rest.value;
    }
    assert AllFit(rs) <==> AllFit(rs[1..]) by {
      assert forall i :: 1 <= i < |rs| ==> rs[i] == rs[1..][i - 1];
    }
  }

  lemma {:induction false} SizeCovered(k: Stream, known: Known, r: Record, b: seq<byte>)
    requires Describes(k, known, r) && Encodes(r, b)
    ensures |b| >= SizeAt(k) + 2
  {
    hide Head, Body, AttrOf, ArgsOf;
  }

  lemma {:induction false} SameField(k: Stream, s: seq<byte>, b: seq<byte>)
    requires |b| >= SizeAt(k) + 2 && b <= s
    ensures U16At(s, SizeAt(k)) == U16At(b, SizeAt(k))
  {
    hide UnLe;
    assert s[SizeAt(k)..SizeAt(k) + 2] == b[SizeAt(k)..SizeAt(k) + 2];
  }

  /** A record that does not fit wraps its size field: whatever is decoded in its place is shorter than it. */
  lemma {:induction false} FirstOverflows(k: Stream, known: Known, rs: seq<Record>, b: seq<byte>, s: seq<byte>)
    requires rs != [] && Describes(k, known, rs[0]) && !Fits(rs[0]) && Encodes(rs[0], b) && b <= s
    ensures DecodeStream(k, known, s) != Some(rs) && !AllFit(rs)
  {
    hide Head, Body, U16At, DecodeRecord, AttrOf, ArgsOf;
    SizeField(k, rs[0], b);
    SameField(k, s, b);
    var n := U16At(s, SizeAt(k));
    SizeFits(rs[0], b);
    if n <= |s| && DecodeRecord(k, known, s[..n]) == Some(rs[0]) {
      RecordSound(k, known, s[..n]);
      assert false;
    }
  }

  /** The first header with sizes and counts stored over it is the header. */
  lemma {:induction false} HeadPatched(r0: Record, r: Record, len: nat)
    requires !r0.End? && !r.End? && r == r0.(attrs := r.attrs) && |r.attrs| <= MAX_ATTRS
    ensures var h, at, p := FirstHead(r0), PatchAt(r), PatchBytes(r, len);
            h[..at] + p + h[at + |p|..] == Head(r, len)
  {
    hide Le, ArgsBytes;
    var h, at, p := FirstHead(r0), PatchAt(r), PatchBytes(r, len);
    if r.Log? {
      assert h[..30] == LogIds(r.hash, r.timestamp, r.traceId, r.threadId, r.level);
    } else {
      assert h[..16] == Le(r.timestamp, 8) + Le(r.spanId, 8);
      assert h[20..] == Le(r.threadId, 4) + Le(r.hash, 8) + Le(r.parentId, 8);
    }
  }

  /** A patched header, the two unspecified bytes of a log structure, the body and the padding make up the record. */
  lemma {:induction false} Assemble(r0: Record, r: Record, h40: seq<byte>, body: seq<byte>, pad: seq<byte>)
    requires !r0.End? && !r.End? && r == r0.(attrs := r.attrs) && |r.attrs| <= MAX_ATTRS
    requires |h40| == 40 && h40[..HeadLen(r)] == FirstHead(r0) && body == Body(r)
    requires |pad| < 8 && (40 + |body| + |pad|) % 8 == 0
    ensures var len, at := 40 + |body| + |pad|, PatchAt(r);
            var p := PatchBytes(r, len);
            Encodes(r, (h40[..at] + p + h40[at + |p|..]) + (body + pad))
  {
    hide Body, FirstHead, Head, PatchBytes;
    var len, at := 40 + |body| + |pad|, PatchAt(r);
    var p := PatchBytes(r, len);
    var h' := h40[..at] + p + h40[at + |p|..];
    var b := h' + (body + pad);
    HeadPatched(r0, r, len);
    var h := FirstHead(r0);
    assert h40[..at] == h40[..HeadLen(r)][..at] && h40[at + |p|..HeadLen(r)] == h40[..HeadLen(r)][at + |p|..];
    assert h'[..HeadLen(r)] == h[..at] + p + h[at + |p|..];
    assert b[..HeadLen(r)] == h'[..HeadLen(r)];
    assert b[40..40 + |body|] == body;
  }

  // ---------------------------------------------------------------------------------------------------------------
  // Which attributes are sent

  /** A string attribute takes the room left, cut on a UTF-8 boundary. */
  function CutText(str: seq<byte>, room: nat): (t: seq<byte>)
    ensures |t| <= room && t <= str
  {
    if |str| > room then str[..Utf8.CutAt(str, room)] else str
  }

  function Room(used: nat): nat {
    if used < MAX_RECORD then MAX_RECORD - used else 0
  }

  /** What of attribute `a` goes into a record of which `used` bytes are taken: nothing for an unknown id or one
      without room. */
  function PlanOne(reg: seq<AttrType>, used: nat, a: AttrVal): (r: Option<Attr>)
    ensures r.Some? ==> AttrOf(reg, r.value) && used + |AttrBytes(r.value)| <= MAX_RECORD
  {
    if !(0 <= a.id < |reg|) then None
    else if reg[a.id].AttrStr? then
      if Room(used) < 6 then None else Some(StrAttr(a.id, CutText(a.str, Room(used) - 6)))
    else
      if Room(used) < 12 then None else Some(NumAttr(a.id, a.num))
  }

  /** The attributes sent after `used` bytes and `count` attributes of the record. */
  function Plan(reg: seq<AttrType>, used: nat, count: nat, attrs: seq<AttrVal>): (r: seq<Attr>)
    ensures count <= MAX_ATTRS ==> count + |r| <= MAX_ATTRS
    ensures used <= MAX_RECORD ==> used + |AttrsBytes(r)| <= MAX_RECORD
    ensures used > MAX_RECORD ==> r == []
    ensures forall i :: 0 <= i < |r| ==> AttrOf(reg, r[i])
    decreases |attrs|
  {
    if attrs == [] || count >= MAX_ATTRS then []
    else match PlanOne(reg, used, attrs[0])
      case None => Plan(reg, used, count, attrs[1..])
      case Some(a) =>
        var rest := Plan(reg, used + |AttrBytes(a)|, count + 1, attrs[1..]);
        assert ([a] + rest)[1..] == rest;
        [a] + rest
  }

  /** Bytes left of the longest record behind `used` bytes and these attributes. */
  function Left(used: nat, sent: seq<Attr>): int {
    65528 - used - |AttrsBytes(sent)|
  }

  /** `t` is `s` if that is within the limit, else the part of `s` up to the last character that starts within it. */
  predicate CutWithin(s: seq<byte>, t: seq<byte>, limit: int) {
    && t <= s && |t| <= limit
    && (|s| <= limit ==> t == s)
    && (|s| > limit ==> (t == [] || !Utf8.Tail(s[|t|])) && forall m :: |t| < m <= limit ==> Utf8.Tail(s[m]))
    && (Utf8.WellFormed(s) ==> Utf8.WellFormed(t))
    && (Utf8.WellFormed(s) ==> forall m :: |t| < m <= limit && m <= |s| ==> !Utf8.WellFormed(s[..m]))
  }

  /** The attribute sent is the caller's: its id and its number, or as much of its string as there is room for. */
  predicate IsCallers(reg: seq<AttrType>, a: AttrVal, left: int, r: Attr) {
    && 0 <= a.id < |reg|
    && (if reg[a.id].AttrStr? then left >= 6 && r.StrAttr? && r.id == a.id && CutWithin(a.str, r.text, left - 6)
        else left >= 12 && r == NumAttr(a.id, a.num))
  }

  /** The only reasons to pass over an attribute: it is not registered, 255 are there, or its fixed part has no room. */
  predicate NoPlace(reg: seq<AttrType>, a: AttrVal, left: int, taken: nat) {
    || !(0 <= a.id < |reg|) || taken >= 255
    || left < (if reg[a.id].AttrStr? then 6 else 12)
  }

  predicate PassedOver(reg: seq<AttrType>, used: nat, count: nat, attrs: seq<AttrVal>, sent: seq<Attr>, i: nat, k: nat)
    requires i < |attrs| && k <= |sent|
  {
    NoPlace(reg, attrs[i], Left(used, sent[..k]), count + k)
  }

  /** Attribute `k` sent is the caller's attribute `idx[k]`, in the caller's order, and every attribute between two of
      them had no place behind the first. */
  predicate Chosen(reg: seq<AttrType>, used: nat, count: nat, attrs: seq<AttrVal>, sent: seq<Attr>, idx: seq<nat>) {
    && |idx| == |sent|
    && (forall k :: 0 <= k < |idx| ==> idx[k] < |attrs|)
    && (forall j, k :: 0 <= j < k < |idx| ==> idx[j] < idx[k])
    && (forall k :: 0 <= k < |idx| ==> IsCallers(reg, attrs[idx[k]], Left(used, sent[..k]), sent[k]))
    && (forall i: nat, k: nat :: i < |attrs| && k <= |idx| && (k > 0 ==> idx[k - 1] < i) && (k < |idx| ==> i < idx[k])
          ==> PassedOver(reg, used, count, attrs, sent, i, k))
  }

  /** The attributes of a record are the caller's, in the caller's order, each left out only without a place. */
  lemma {:induction false} PlanIsCallers(reg: seq<AttrType>, used: nat, count: nat, attrs: seq<AttrVal>)
    requires count <= MAX_ATTRS
    ensures exists idx :: Chosen(reg, used, count, attrs, Plan(reg, used, count, attrs), idx)
    decreases |attrs|
  {
    hide Plan, PlanOne, Chosen, NoPlace, IsCallers, Left, AttrBytes;
    var p := Plan(reg, used, count, attrs);
    PlanSplit(reg, used, count, attrs);
    if attrs == [] || count >= MAX_ATTRS {
      NoneChosen(reg, used, count, attrs);
    } else {
      var first := PlanOne(reg, used, attrs[0]);
      if first.None? {
        PlanIsCallers(reg, used, count, attrs[1..]);
        var idx :| Chosen(reg, used, count, attrs[1..], p, idx);
        OnePassed(reg, used, attrs[0]);
        ChosenLater(reg, used, count, attrs, p, idx);
      } else {
        var used' := used + |AttrBytes(first.value)|;
        PlanIsCallers(reg, used', count + 1, attrs[1..]);
        var idx :| Chosen(reg, used', count + 1, attrs[1..], p[1..], idx);
        OneIsCallers(reg, used, attrs[0]);
        ChosenFirst(reg, used, count, attrs, first.value, p[1..], idx);
        assert Chosen(reg, used, count, attrs, p, Behind(idx));
      }
    }
  }

  lemma {:induction false} PlanSplit(reg: seq<AttrType>, used: nat, count: nat, attrs: seq<AttrVal>)
    ensures var p := Plan(reg, used, count, attrs);
            if attrs == [] || count >= 255 then p == []
            else match PlanOne(reg, used, attrs[0])
              case None => p == Plan(reg, used, count, attrs[1..])
              case Some(a) => p == [a] + p[1..] && |p| > 0
                              && p[1..] == Plan(reg, used + |AttrBytes(a)|, count + 1, attrs[1..])
  {
    hide PlanOne;
  }

  lemma {:induction false} NoneChosen(reg: seq<AttrType>, used: nat, count: nat, attrs: seq<AttrVal>)
    requires attrs == [] || count >= 255
    ensures Chosen(reg, used, count, attrs, [], [])
  {
  }

  lemma {:induction false} OnePassed(reg: seq<AttrType>, used: nat, a: AttrVal)
    requires PlanOne(reg, used, a).None?
    ensures forall taken: nat :: NoPlace(reg, a, Left(used, []), taken)
  {
  }

  lemma {:induction false} OneIsCallers(reg: seq<AttrType>, used: nat, a: AttrVal)
    requires PlanOne(reg, used, a).Some?
    ensures IsCallers(reg, a, Left(used, []), PlanOne(reg, used, a).value)
  {
    hide AttrBytes, Utf8.WellFormed, Utf8.CutAt;
    assert AttrsBytes([]) == [];
    if reg[a.id].AttrStr? {
      var limit := 65528 - used - 6;
      if |a.str| > limit && Utf8.WellFormed(a.str) {
        Utf8.CutIsLongest(a.str, limit);
      }
    }
  }

  /** The caller's first attribute was passed over. */
  lemma {:induction false} ChosenLater(reg: seq<AttrType>, used: nat, count: nat, attrs: seq<AttrVal>, p: seq<Attr>,
                                       idx: seq<nat>)
    requires attrs != [] && Chosen(reg, used, count, attrs[1..], p, idx)
    requires NoPlace(reg, attrs[0], Left(used, []), count)
    ensures exists next :: Chosen(reg, used, count, attrs, p, next)
  {
    hide IsCallers, NoPlace, Left;
    var next: seq<nat> := seq(|idx|, k requires 0 <= k < |idx| => idx[k] + 1);
    forall i: nat, k: nat | i < |attrs| && k <= |next| && (k > 0 ==> next[k - 1] < i) && (k < |next| ==> i < next[k])
      ensures PassedOver(reg, used, count, attrs, p, i, k)
    {
      assert i > 0 ==> PassedOver(reg, used, count, attrs[1..], p, i - 1, k);
      assert k == 0 ==> p[..k] == [];
    }
    assert Chosen(reg, used, count, attrs, p, next);
  }

  /** The places of a list with one more attribute in front. */
  function Behind(idx: seq<nat>): (r: seq<nat>)
    ensures |r| == |idx| + 1 && r[0] == 0 && forall k :: 0 < k < |r| ==> r[k] == idx[k - 1] + 1
  {
    [0] + seq(|idx|, k requires 0 <= k < |idx| => idx[k] + 1)
  }

  /** The caller's first attribute was sent. */
  lemma {:induction false} ChosenFirst(reg: seq<AttrType>, used: nat, count: nat, attrs: seq<AttrVal>, a: Attr,
                                       rest: seq<Attr>, idx: seq<nat>)
    requires attrs != [] && Chosen(reg, used + |AttrBytes(a)|, count + 1, attrs[1..], rest, idx)
    requires IsCallers(reg, attrs[0], Left(used, []), a)
    ensures Chosen(reg, used, count, attrs, [a] + rest, Behind(idx))
  {
    hide IsCallers, NoPlace, Left, AttrBytes, PassedOver, Behind;
    var p, next := [a] + rest, Behind(idx);
    forall k | 0 <= k < |next| ensures IsCallers(reg, attrs[next[k]], Left(used, p[..k]), p[k]) {
      PickedBehind(reg, used, count, attrs, a, rest, idx, k);
    }
    forall i: nat, k: nat | i < |attrs| && k <= |next| && (k > 0 ==> next[k - 1] < i) && (k < |next| ==> i < next[k])
      ensures PassedOver(reg, used, count, attrs, p, i, k)
    {
      PassedBehind(reg, used, count, attrs, a, rest, idx, i, k);
    }
  }

  lemma {:induction false} PickedBehind(reg: seq<AttrType>, used: nat, count: nat, attrs: seq<AttrVal>, a: Attr,
                                        rest: seq<Attr>, idx: seq<nat>, k: nat)
    requires attrs != [] && Chosen(reg, used + |AttrBytes(a)|, count + 1, attrs[1..], rest, idx)
    requires IsCallers(reg, attrs[0], Left(used, []), a) && k <= |idx|
    ensures Behind(idx)[k] < |attrs|
    ensures IsCallers(reg, attrs[Behind(idx)[k]], Left(used, ([a] + rest)[..k]), ([a] + rest)[k])
  {
    hide IsCallers, NoPlace, Left, AttrBytes, PassedOver, Behind;
    if k > 0 {
      LeftBehind(used, a, rest, k);
      assert IsCallers(reg, attrs[1..][idx[k - 1]], Left(used + |AttrBytes(a)|, rest[..k - 1]), rest[k - 1]);
    } else {
      assert ([a] + rest)[..k] == [];
    }
  }

  lemma {:induction false} PassedBehind(reg: seq<AttrType>, used: nat, count: nat, attrs: seq<AttrVal>, a: Attr,
                                        rest: seq<Attr>, idx: seq<nat>, i: nat, k: nat)
    requires attrs != [] && Chosen(reg, used + |AttrBytes(a)|, count + 1, attrs[1..], rest, idx)
    requires var next := Behind(idx);
             i < |attrs| && k <= |next| && (k > 0 ==> next[k - 1] < i) && (k < |next| ==> i < next[k])
    ensures PassedOver(reg, used, count, attrs, [a] + rest, i, k)
  {
    hide IsCallers, NoPlace, Left, AttrBytes, Behind;
    LeftBehind(used, a, rest, k);
    assert PassedOver(reg, used + |AttrBytes(a)|, count + 1, attrs[1..], rest, i - 1, k - 1);
  }

  lemma {:induction false} LeftBehind(used: nat, a: Attr, rest: seq<Attr>, k: nat)
    requires 0 < k <= |rest| + 1
    ensures Left(used, ([a] + rest)[..k]) == Left(used + |AttrBytes(a)|, rest[..k - 1])
  {
    hide AttrBytes;
    var s := ([a] + rest)[..k];
    assert s[0] == a && s[1..] == rest[..k - 1];
  }

  /** A log fits exactly when its structure and arguments do: attributes never push it over the limit. */
  lemma {:induction false} LogFits(r: Record, reg: seq<AttrType>, attrs: seq<AttrVal>)
    requires r.Log? && r.attrs == Plan(reg, 40 + |ArgsBytes(r.args)|, 0, attrs)
    ensures Fits(r) <==> 40 + |ArgsBytes(r.args)| <= MAX_RECORD
  {
  }

  /** A span record always fits. */
  lemma {:induction false} TraceFits(r: Record, reg: seq<AttrType>, attrs: seq<AttrVal>)
    requires r.Begin? ==> r.attrs == Plan(reg, 40, 0, attrs)
    requires !r.Log?
    ensures Fits(r)
  {
  }

  /** What a caller can tell beforehand: a log's structure and arguments are within the limit. A span needs nothing. */
  predicate ArgsFit(r: Record) {
    r.Log? ==> 40 + |ArgsBytes(r.args)| <= MAX_RECORD
  }

  predicate AllArgsFit(rs: seq<Record>) {
    forall i :: 0 <= i < |rs| ==> ArgsFit(rs[i])
  }

  /** Attributes take no record over the limit, and one that is over it has none. */
  predicate Bounded(r: Record) {
    if ArgsFit(r) then Fits(r) else r.attrs == []
  }

  /** The attributes a writer chooses keep every record bounded. */
  lemma {:induction false} PlanBounded(r: Record, reg: seq<AttrType>, attrs: seq<AttrVal>)
    requires r.Log? ==> r.attrs == Plan(reg, 40 + |ArgsBytes(r.args)|, 0, attrs)
    requires r.Begin? ==> r.attrs == Plan(reg, 40, 0, attrs)
    ensures Bounded(r)
  {
    hide Plan, Fits, ArgsBytes;
    if r.Log? {
      LogFits(r, reg, attrs);
    } else {
      TraceFits(r, reg, attrs);
    }
  }

  /** Bounded records one after the other decode to exactly those records if and only if the arguments of every log fit;
      spans always do. */
  lemma {:induction false} BoundedStream(k: Stream, known: Known, rs: seq<Record>, bs: seq<seq<byte>>)
    requires |rs| == |bs|
    requires forall i :: 0 <= i < |rs| ==> Describes(k, known, rs[i]) && Encodes(rs[i], bs[i]) && Bounded(rs[i])
    ensures DecodeStream(k, known, Concat(bs)) == Some(rs) <==> AllArgsFit(rs)
    ensures k.Traces? ==> DecodeStream(k, known, Concat(bs)) == Some(rs)
  {
    hide Encodes, DecodeStream, Fits, ArgsBytes, ArgsOf, AttrOf, Concat;
    StreamRoundTrip(k, known, rs, bs);
    forall i | 0 <= i < |rs| ensures (Fits(rs[i]) <==> ArgsFit(rs[i])) && (k.Traces? ==> ArgsFit(rs[i])) {
      OverIsOver(rs[i]);
    }
  }

  lemma {:induction false} OverIsOver(r: Record)
    requires Bounded(r)
    ensures Fits(r) <==> ArgsFit(r)
  {
  }

  /** The first `n` records of a payload, whatever follows them. */
  function DecodeFirst(k: Stream, known: Known, s: seq<byte>, n: nat): Option<seq<Record>> {
    if n == 0 then Some([])
    else if |s| < SizeAt(k) + 2 then None
    else
      var m := U16At(s, SizeAt(k));
      if m > |s| then None
      else match DecodeRecord(k, known, s[..m])
        case None => None
        case Some(r) =>
          match DecodeFirst(k, known, s[m..], n - 1)
          case None => None
          case Some(rest) => Some([r] + rest)
  }

  /** How far a stream with an oversize log can be read: its first `n` records decode if and only if none of them is
      one, so everything before the first oversize log is there, and nothing from it on. */
  lemma {:induction false} PrefixDecodes(k: Stream, known: Known, rs: seq<Record>, bs: seq<seq<byte>>, n: nat)
    requires |rs| == |bs| && n <= |rs|
    requires forall i :: 0 <= i < |rs| ==> Describes(k, known, rs[i]) && Encodes(rs[i], bs[i]) && Bounded(rs[i])
    ensures DecodeFirst(k, known, Concat(bs), n) == Some(rs[..n]) <==> AllArgsFit(rs[..n])
    decreases n
  {
    hide Encodes, Describes, Fits, Bounded, ArgsFit, DecodeFirst, Concat;
    if n == 0 {
      NoneDecoded(k, known, Concat(bs));
    } else {
      ConcatHead(bs);
      OverIsOver(rs[0]);
      if Fits(rs[0]) {
        PrefixDecodes(k, known, rs[1..], bs[1..], n - 1);
        OneFits(k, known, rs, bs[0], Concat(bs), Concat(bs[1..]), n);
      } else {
        OneOverflows(k, known, rs, bs[0], Concat(bs), n);
      }
    }
  }

  lemma {:induction false} NoneDecoded(k: Stream, known: Known, s: seq<byte>)
    ensures DecodeFirst(k, known, s, 0) == Some([])
  {
  }

  lemma {:induction false} OneFits(k: Stream, known: Known, rs: seq<Record>, b: seq<byte>, s: seq<byte>, t: seq<byte>,
                                   n: nat)
    requires 0 < n <= |rs| && Describes(k, known, rs[0]) && Encodes(rs[0], b) && Fits(rs[0]) && ArgsFit(rs[0])
    requires s == b + t && (DecodeFirst(k, known, t, n - 1) == Some(rs[1..][..n - 1]) <==> AllArgsFit(rs[1..][..n - 1]))
    ensures DecodeFirst(k, known, s, n) == Some(rs[..n]) <==> AllArgsFit(rs[..n])
  {
    hide Encodes, Describes, Fits, DecodeRecord, UnLe, ArgsFit;
    RecordRoundTrip(k, known, rs[0], b);
    SizeCovered(k, known, rs[0], b);
    SameField(k, s, b);
    assert s[..|b|] == b && s[|b|..] == t;
    var rest := DecodeFirst(k, known, t, n - 1);
    assert [rs[0]] + rs[1..][..n - 1] == rs[..n];
    if rest.Some? {
      assert ([rs[0]] + rest.value)[1..] == rest.value;
    }
    assert AllArgsFit(rs[..n]) <==> AllArgsFit(rs[1..][..n - 1]) by {
      assert forall i :: 1 <= i < n ==> rs[..n][i] == rs[1..][..n - 1][i - 1];
      assert rs[..n][0] == rs[0];
    }
  }

  lemma {:induction false} OneOverflows(k: Stream, known: Known, rs: seq<Record>, b: seq<byte>, s: seq<byte>, n: nat)
    requires 0 < n <= |rs| && Describes(k, known, rs[0]) && !Fits(rs[0]) && !ArgsFit(rs[0]) && Encodes(rs[0], b)
    requires b <= s
    ensures DecodeFirst(k, known, s, n) != Some(rs[..n]) && !AllArgsFit(rs[..n])
  {
    hide Head, Body, U16At, DecodeRecord, AttrOf, ArgsOf, ArgsFit;
    SizeField(k, rs[0], b);
    SameField(k, s, b);
    var m := U16At(s, SizeAt(k));
    SizeFits(rs[0], b);
    assert rs[..n][0] == rs[0];
    if m <= |s| && DecodeRecord(k, known, s[..m]) == Some(rs[0]) {
      RecordSound(k, known, s[..m]);
      assert false;
    }
  }

  /** A log whose one string argument is as long as its length prefix allows. */
  function LongestLog(): Record {
    Log(7, 0, 0, 0, 0, 0, [Text(seq(MAX_TEXT, _ => 0x41))], [])
  }

  /** That log is described like any other and can be serialized, but no serialization of it can be decoded: its size
      wraps. */
  lemma {:induction false} LongestLogIsLost()
    ensures var known := Known(map[7 := [StrKind]], []);
            && Describes(Logs, known, LongestLog())
            && (exists b :: Encodes(LongestLog(), b))
            && (forall b :: Encodes(LongestLog(), b) ==> DecodeStream(Logs, known, b) != Some([LongestLog()]))
  {
    hide Encodes, DecodeStream, FirstHead, PatchBytes;
    var r := LongestLog();
    var known := Known(map[7 := [StrKind]], []);
    assert |ArgsBytes(r.args)| >= MAX_TEXT by { LongArgs(r.args[0]); }
    assert !Fits([r][0]);
    var pad: seq<byte> := seq(AlignUp8(40 + |Body(r)|) - 40 - |Body(r)|, _ => 0);
    Assemble(r, r, FirstHead(r) + [0, 0], Body(r), pad);
    forall b | Encodes(r, b) ensures DecodeStream(Logs, known, b) != Some([r]) {
      StreamRoundTrip(Logs, known, [r], [b]);
      assert Concat([b]) == b by { ConcatHead([b]); }
    }
  }

  lemma {:induction false} LongArgs(a: Arg)
    requires a.Text?
    ensures |ArgsBytes([a])| >= |a.text|
  {
    assert ArgsBytes([a]) == ArgBytes(a) + ArgsBytes([a][1..]);
  }
}

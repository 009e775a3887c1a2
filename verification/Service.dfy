/** The service stream (engine/p8_core.cpp, api/p8_protocol.h): descriptors and strings as self-delimiting entries
    packed into service buffers. */
module ServiceWire {
  import opened Bytes
  import opened FormatParser
  import Utf8
  import Wire

  const PACKET_SERVICE: byte := 4
  const STR_MAX: nat := 1024          // P8_SVC_STR_MAX_LEN
  const MAX_ARGS: nat := 32           // P8_LOG_MAX_ARGS

  const T_LOG: byte := 1
  const T_ATTR: byte := 2
  const T_SPAN: byte := 4
  const T_METRIC: byte := 5
  const T_MODULE: byte := 6

  datatype Entry =
    | Attr(id: u32, ty: u8, name: seq<byte>)
    | Module(mod: u16, verb: u8, name: seq<byte>)
    | LogDesc(line: u32, hash: u64, file: seq<byte>, func: seq<byte>, format: seq<byte>, args: seq<Varg>)
    | Str(kind: Wire.StrType, hash: u64, text: seq<byte>)
    | SpanDesc(line: u32, hash: u64, fileHash: u64, funcHash: u64, nameHash: u64)
    | Metric(id: u32, min: u64, max: u64, flags: u8, name: seq<byte>, desc: seq<byte>, unit: seq<byte>,
             attrs: seq<Wire.Attr>)

  function TypeOf(e: Entry): byte {
    match e
    case Attr(_, _, _) => T_ATTR
    case Module(_, _, _) => T_MODULE
    case LogDesc(_, _, _, _, _, _) => T_LOG
    case Str(FileName, _, _) => 7
    case Str(FuncName, _, _) => 8
    case Str(SpanName, _, _) => 9
    case SpanDesc(_, _, _, _, _) => T_SPAN
    case Metric(_, _, _, _, _, _, _, _) => T_METRIC
  }

  /** Strings are cut to the limit on a UTF-8 boundary, arguments to the most a descriptor can hold. */
  function Cut(s: seq<byte>): (t: seq<byte>)
    ensures |t| <= STR_MAX && t <= s
  {
    Wire.CutText(s, STR_MAX)
  }

  function CutArgs(args: seq<Varg>): (r: seq<Varg>)
    ensures |r| <= MAX_ARGS && r <= args
  {
    if |args| > MAX_ARGS then args[..MAX_ARGS] else args
  }

  function Sent(e: Entry): Entry {
    match e
    case Attr(id, ty, name) => Attr(id, ty, Cut(name))
    case Module(mod, verb, name) => Module(mod, verb, Cut(name))
    case LogDesc(line, hash, file, func, format, args) =>
      LogDesc(line, hash, Cut(file), Cut(func), Cut(format), CutArgs(args))
    case Str(kind, hash, text) => Str(kind, hash, Cut(text))
    case SpanDesc(_, _, _, _, _) => e
    case Metric(id, min, max, flags, name, desc, unit, attrs) =>
      Metric(id, min, max, flags, Cut(name), Cut(desc), Cut(unit), attrs)
  }

  /** Each string of `c` is that of `e`, or as much of it as fits 1024 bytes, and its arguments are the first 32. */
  predicate SentFrom(e: Entry, c: Entry) {
    match e
    case Attr(id, ty, name) => c.Attr? && c.id == id && c.ty == ty && Wire.CutWithin(name, c.name, 1024)
    case Module(mod, verb, name) => c.Module? && c.mod == mod && c.verb == verb && Wire.CutWithin(name, c.name, 1024)
    case LogDesc(line, hash, file, func, format, args) =>
      && c.LogDesc? && c.line == line && c.hash == hash
      && Wire.CutWithin(file, c.file, 1024) && Wire.CutWithin(func, c.func, 1024)
      && Wire.CutWithin(format, c.format, 1024)
      && c.args <= args && |c.args| == if |args| > 32 then 32 else |args|
    case Str(kind, hash, text) => c.Str? && c.kind == kind && c.hash == hash && Wire.CutWithin(text, c.text, 1024)
    case SpanDesc(_, _, _, _, _) => c == e
    case Metric(id, min, max, flags, name, desc, unit, attrs) =>
      && c.Metric? && c.id == id && c.min == min && c.max == max && c.flags == flags && c.attrs == attrs
      && Wire.CutWithin(name, c.name, 1024) && Wire.CutWithin(desc, c.desc, 1024) && Wire.CutWithin(unit, c.unit, 1024)
  }

  lemma {:induction false} CutIsWithin(s: seq<byte>)
    ensures Wire.CutWithin(s, Cut(s), 1024)
  {
    hide Utf8.WellFormed, Utf8.CutAt;
    if |s| > 1024 && Utf8.WellFormed(s) {
      Utf8.CutIsLongest(s, 1024);
    }
  }

  /** What goes into the service stream is the caller's entry, field by field. */
  lemma {:induction false} SentFields(e: Entry)
    ensures SentFrom(e, Sent(e))
  {
    hide Wire.CutWithin, Cut;
    forall s ensures Wire.CutWithin(s, Cut(s), 1024) {
      CutIsWithin(s);
    }
  }

  /** What the source guarantees of an entry's fields: C strings hold no NUL, and a metric has at most 255 attributes of
      registered types. */
  predicate Proper(e: Entry, reg: seq<Wire.AttrType>) {
    match e
    case Attr(_, _, name) => 0 !in name
    case Module(_, _, name) => 0 !in name
    case Metric(_, _, _, _, _, _, _, attrs) =>
      |attrs| <= 255 && forall i :: 0 <= i < |attrs| ==> Wire.AttrOf(reg, attrs[i])
    case _ => true
  }

  /** The strings are within the limit. */
  predicate Short(e: Entry) {
    match e
    case Attr(_, _, name) => |name| <= STR_MAX
    case Module(_, _, name) => |name| <= STR_MAX
    case LogDesc(_, _, file, func, format, args) =>
      |file| <= STR_MAX && |func| <= STR_MAX && |format| <= STR_MAX && |args| <= MAX_ARGS
    case Str(_, _, text) => |text| <= STR_MAX
    case SpanDesc(_, _, _, _, _) => true
    case Metric(_, _, _, _, name, desc, unit, attrs) =>
      |name| <= STR_MAX && |desc| <= STR_MAX && |unit| <= STR_MAX && |attrs| <= 255
  }

  lemma {:induction false} SentIsShort(e: Entry, reg: seq<Wire.AttrType>)
    requires Proper(e, reg)
    ensures Short(Sent(e)) && Proper(Sent(e), reg)
  {
    hide Wire.CutText, Wire.AttrOf;
  }

  // ---------------------------------------------------------------------------------------------------------------
  // Encoding

  function VargBytes(args: seq<Varg>): (s: seq<byte>)
    ensures |s| == 2 * |args|
  {
    if args == [] then [] else [args[0].ty, args[0].size] + VargBytes(args[1..])
  }

  /** An entry behind its 4-byte header, without the padding. */
  function Body(e: Entry): seq<byte>
    requires Short(e)
  {
    match e
    case Attr(id, ty, name) => Le(id, 4) + [ty, 0, 0, 0] + name + [0]
    case Module(mod, verb, name) => Le(mod, 2) + [verb, 0] + name + [0]
    case LogDesc(line, hash, file, func, format, args) =>
      Le(line, 4) + Le(hash, 8) + (Le(|format|, 2) + Le(|file|, 2) + Le(|func|, 2) + [|args|, 0])
      + (file + func + format + VargBytes(args))
    case Str(_, hash, text) => Le(|text|, 2) + [0, 0] + Le(hash, 8) + text
    case SpanDesc(line, hash, f, g, n) => Le(line, 4) + Le(hash, 8) + Le(f, 8) + Le(g, 8) + Le(n, 8)
    case Metric(id, min, max, flags, name, desc, unit, attrs) =>
      Le(id, 4) + Le(min, 8) + Le(max, 8) + ([flags, |attrs|] + Le(|name|, 2) + Le(|desc|, 2) + Le(|unit|, 2))
      + (name + desc + unit + Wire.AttrsBytes(attrs))
  }

  function Size(e: Entry): (n: nat)
    requires Short(e)
    ensures n % 8 == 0 && n > 0
  {
    AlignUp8(4 + |Body(e)|)
  }

  function Head(e: Entry): (s: seq<byte>)
    requires Short(e)
    ensures |s| == 4
  {
    [PACKET_SERVICE, TypeOf(e)] + Le(Size(e) % 0x1_0000, 2)
  }

  function Zeros(n: nat): (s: seq<byte>)
    ensures |s| == n && forall i :: 0 <= i < n ==> s[i] == 0
  {
    seq(n, _ => 0)
  }

  /** A whole entry, zero-padded to a multiple of 8. */
  function Encode(e: Entry): (s: seq<byte>)
    requires Short(e)
    ensures |s| == Size(e)
  {
    Head(e) + Body(e) + Zeros(Size(e) - 4 - |Body(e)|)
  }

  // ---------------------------------------------------------------------------------------------------------------
  // Decoding

  function DecodeVargs(s: seq<byte>, n: nat): Option<seq<Varg>> {
    if n == 0 then Some([])
    else if |s| < 2 then None
    else match DecodeVargs(s[2..], n - 1)
      case None => None
      case Some(rest) => Some([Varg(s[0], s[1])] + rest)
  }

  /** Up to the first NUL. */
  function UpToNul(s: seq<byte>): Option<seq<byte>> {
    if s == [] then None
    else if s[0] == 0 then Some([])
    else match UpToNul(s[1..])
      case None => None
      case Some(rest) => Some([s[0]] + rest)
  }

  /** Three texts one behind the other, and what follows them. */
  datatype Texts = Texts(first: seq<byte>, second: seq<byte>, third: seq<byte>, rest: seq<byte>)

  function DecodeTexts(b: seq<byte>, i: nat, x: nat, y: nat, z: nat): Option<Texts> {
    if |b| < i + x + y + z then None
    else Some(Texts(b[i..i + x], b[i + x..i + x + y], b[i + x + y..i + x + y + z], b[i + x + y + z..]))
  }

  function DecodeLog(b: seq<byte>): Option<Entry> {
    if |b| < 24 then None
    else
      match DecodeTexts(b, 24, U16At(b, 18), U16At(b, 20), U16At(b, 16))
      case None => None
      case Some(t) =>
        match DecodeVargs(t.rest, b[22])
        case None => None
        case Some(args) => Some(LogDesc(U32At(b, 4), U64At(b, 8), t.first, t.second, t.third, args))
  }

  function DecodeMetric(b: seq<byte>, reg: seq<Wire.AttrType>): Option<Entry> {
    if |b| < 32 then None
    else
      match DecodeTexts(b, 32, U16At(b, 26), U16At(b, 28), U16At(b, 30))
      case None => None
      case Some(t) =>
        match Wire.DecodeAttrs(reg, b[25], t.rest)
        case None => None
        case Some(attrs) =>
          Some(Metric(U32At(b, 4), U64At(b, 8), U64At(b, 16), b[24], t.first, t.second, t.third, attrs))
  }

  function DecodeStr(b: seq<byte>): Option<Entry> {
    if |b| < 16 || |b| < 16 + U16At(b, 4) then None
    else Some(Str(if b[1] == 7 then Wire.FileName else if b[1] == 8 then Wire.FuncName else Wire.SpanName, U64At(b, 8),
                  b[16..16 + U16At(b, 4)]))
  }

  function DecodeNamed(b: seq<byte>): Option<Entry> {
    if b == [] || |b| < 8 then None
    else if b[1] == T_ATTR then
      if |b| < 12 then None
      else match UpToNul(b[12..]) case None => None case Some(name) => Some(Attr(U32At(b, 4), b[8], name))
    else match UpToNul(b[8..]) case None => None case Some(name) => Some(Module(U16At(b, 4), b[6], name))
  }

  function Decode(b: seq<byte>, reg: seq<Wire.AttrType>): Option<Entry> {
    if |b| < 4 || b[0] != PACKET_SERVICE then None
    else if b[1] == T_ATTR || b[1] == T_MODULE then DecodeNamed(b)
    else if b[1] == T_LOG then DecodeLog(b)
    else if b[1] == T_METRIC then DecodeMetric(b, reg)
    else if 7 <= b[1] <= 9 then DecodeStr(b)
    else if b[1] == T_SPAN then
      (if |b| < 40 then None else Some(SpanDesc(U32At(b, 4), U64At(b, 8), U64At(b, 16), U64At(b, 24), U64At(b, 32))))
    else None
  }

  /** A service buffer is walked entry by entry: each says its own size. */
  function Walk(s: seq<byte>): Option<seq<seq<byte>>>
    decreases |s|
  {
    if s == [] then Some([])
    else if |s| < 4 then None
    else
      var n := U16At(s, 2);
      if n == 0 || n > |s| then None
      else match Walk(s[n..])
        case None => None
        case Some(rest) => Some([s[..n]] + rest)
  }

  // ---------------------------------------------------------------------------------------------------------------
  // Round trips

  lemma {:induction false} VargsBack(args: seq<Varg>, s: seq<byte>)
    requires VargBytes(args) <= s
    ensures DecodeVargs(s, |args|) == Some(args)
    decreases |args|
  {
    if args != [] {
      var v := VargBytes(args);
      assert v[2..] == VargBytes(args[1..]);
      assert v[..|v|][2..] == s[2..|v|] && s[0] == v[0] && s[1] == v[1];
      VargsBack(args[1..], s[2..]);
      assert [args[0]] + args[1..] == args;
    }
  }

  lemma {:induction false} NameBack(name: seq<byte>, s: seq<byte>)
    requires 0 !in name && name + [0] <= s
    ensures UpToNul(s) == Some(name)
    decreases |name|
  {
    var t := name + [0];
    assert forall i :: 0 <= i < |t| ==> s[i] == t[i];
    if name != [] {
      assert t[1..] == name[1..] + [0];
      assert s[1..][..|name|] == s[1..|t|] == t[1..];
      NameBack(name[1..], s[1..]);
      assert [name[0]] + name[1..] == name;
    }
  }

  /** The bytes of `x` lie at `i`. */
  predicate Has(b: seq<byte>, i: nat, x: seq<byte>) {
    i + |x| <= |b| && b[i..i + |x|] == x
  }

  /** A part of a concatenation lies behind the parts before it. */
  lemma {:induction false} HasSplit(b: seq<byte>, i: nat, x: seq<byte>, y: seq<byte>)
    requires Has(b, i, x + y)
    ensures Has(b, i, x) && Has(b, i + |x|, y)
  {
    var xy := x + y;
    assert b[i..i + |x|] == b[i..i + |xy|][..|x|] == x;
    assert b[i + |x|..i + |xy|] == b[i..i + |xy|][|x|..] == y;
  }

  lemma {:induction false} EncodedParts(e: Entry)
    requires Short(e)
    ensures var b := Encode(e);
            && Has(b, 0, [PACKET_SERVICE, TypeOf(e)]) && Has(b, 2, Le(Size(e) % 0x1_0000, 2)) && Has(b, 4, Body(e))
  {
    hide *;
    assert Encode(e) == Head(e) + Body(e) + Zeros(Size(e) - 4 - |Body(e)|) by { WholeEntry(e); }
    var b, h, body := Encode(e), Head(e), Body(e);
    assert b[0..2] == h[..2] && b[2..4] == h[2..] by { WholeHead(e); }
    assert b[4..4 + |body|] == body;
    WholeHead(e);
    MakeHas(b, 0, [PACKET_SERVICE, TypeOf(e)]);
    MakeHas(b, 2, Le(Size(e) % 0x1_0000, 2));
    MakeHas(b, 4, body);
  }

  lemma {:induction false} MakeHas(b: seq<byte>, i: nat, x: seq<byte>)
    requires i + |x| <= |b| && b[i..i + |x|] == x
    ensures Has(b, i, x)
  {
  }

  lemma {:induction false} WholeEntry(e: Entry)
    requires Short(e)
    ensures Size(e) >= 4 + |Body(e)| && Encode(e) == Head(e) + Body(e) + Zeros(Size(e) - 4 - |Body(e)|)
  {
    hide Body;
  }

  lemma {:induction false} WholeHead(e: Entry)
    requires Short(e)
    ensures Head(e)[..2] == [PACKET_SERVICE, TypeOf(e)] && Head(e)[2..] == Le(Size(e) % 0x1_0000, 2)
  {
    hide Body, TypeOf, Le;
  }

  lemma {:induction false} Field16(b: seq<byte>, i: nat, v: nat)
    requires Has(b, i, Le(v, 2)) && v < 0x1_0000
    ensures i + 2 <= |b| && U16At(b, i) == v
  {
    Read16(b, i, v);
  }

  lemma {:induction false} Field32(b: seq<byte>, i: nat, v: nat)
    requires Has(b, i, Le(v, 4)) && v < 0x1_0000_0000
    ensures i + 4 <= |b| && U32At(b, i) == v
  {
    Read32(b, i, v);
  }

  lemma {:induction false} Field64(b: seq<byte>, i: nat, v: nat)
    requires Has(b, i, Le(v, 8)) && v < 0x1_0000_0000_0000_0000
    ensures i + 8 <= |b| && U64At(b, i) == v
  {
    Read64(b, i, v);
  }

  lemma {:induction false} FirstOf(b: seq<byte>, i: nat, x: seq<byte>)
    requires Has(b, i, x) && x != []
    ensures i + |x| <= |b| && b[i] == x[0]
  {
    assert b[i] == b[i..i + |x|][0];
  }

  lemma {:induction false} NameAt(b: seq<byte>, i: nat, name: seq<byte>)
    requires Has(b, i, name + [0]) && 0 !in name
    ensures i <= |b| && UpToNul(b[i..]) == Some(name)
  {
    hide UpToNul;
    Rest(b, i, name + [0]);
    NameBack(name, b[i..]);
  }

  lemma {:induction false} AttrBack(b: seq<byte>, e: Entry)
    requires e.Attr? && Short(e) && 0 !in e.name && Has(b, 4, Body(e)) && b[1] == T_ATTR
    ensures DecodeNamed(b) == Some(e)
  {
    hide U32At, Le, UpToNul, Has;
    var idb: seq<byte> := Le(e.id, 4);
    assert Body(e) == (idb + [e.ty, 0, 0, 0]) + (e.name + [0]);
    HasSplit(b, 4, idb + [e.ty, 0, 0, 0], e.name + [0]);
    HasSplit(b, 4, idb, [e.ty, 0, 0, 0]);
    Field32(b, 4, e.id);
    FirstOf(b, 8, [e.ty, 0, 0, 0]);
    NameAt(b, 12, e.name);
  }

  lemma {:induction false} ModuleBack(b: seq<byte>, e: Entry)
    requires e.Module? && Short(e) && 0 !in e.name && Has(b, 4, Body(e)) && b[1] == T_MODULE
    ensures DecodeNamed(b) == Some(e)
  {
    hide U16At, Le, UpToNul, Has;
    var idb: seq<byte> := Le(e.mod, 2);
    assert Body(e) == (idb + [e.verb, 0]) + (e.name + [0]);
    HasSplit(b, 4, idb + [e.verb, 0], e.name + [0]);
    HasSplit(b, 4, idb, [e.verb, 0]);
    Field16(b, 4, e.mod);
    FirstOf(b, 6, [e.verb, 0]);
    NameAt(b, 8, e.name);
  }

  /** The fields of a log descriptor, ... */
  lemma {:induction false} LogNumbers(b: seq<byte>, e: Entry)
    requires e.LogDesc? && Short(e) && Has(b, 4, Body(e))
    ensures |b| >= 24 && U32At(b, 4) == e.line && U64At(b, 8) == e.hash && b[22] == |e.args|
    ensures U16At(b, 16) == |e.format| && U16At(b, 18) == |e.file| && U16At(b, 20) == |e.func|
    ensures Has(b, 24, e.file + e.func + e.format + VargBytes(e.args))
  {
    hide U16At, U32At, U64At, Le, VargBytes;
    var l, h: seq<byte> := Le(e.line, 4), Le(e.hash, 8);
    var n: seq<byte> := Le(|e.format|, 2) + Le(|e.file|, 2) + Le(|e.func|, 2) + [|e.args|, 0];
    HasSplit(b, 4, l + h + n, e.file + e.func + e.format + VargBytes(e.args));
    HasSplit(b, 4, l + h, n);
    HasSplit(b, 4, l, h);
    Field32(b, 4, e.line);
    Field64(b, 8, e.hash);
    Lengths(b, 16, |e.format|, |e.file|, |e.func|, [|e.args|, 0]);
    assert b[22] == b[22..24][0] == |e.args|;
  }

  /** ... and its texts and arguments behind them. */
  lemma {:induction false} LogBack(b: seq<byte>, e: Entry)
    requires e.LogDesc? && Short(e) && Has(b, 4, Body(e))
    ensures DecodeLog(b) == Some(e)
  {
    LogNumbers(b, e);
    hide U16At, U32At, U64At, DecodeVargs, DecodeTexts, VargBytes, Body, Short, Has;
    TextsBack(b, 24, e.file, e.func, e.format, VargBytes(e.args));
    VargsBack(e.args, DecodeTexts(b, 24, |e.file|, |e.func|, |e.format|).value.rest);
  }

  lemma {:induction false} TextsBack(b: seq<byte>, i: nat, x: seq<byte>, y: seq<byte>, z: seq<byte>, rest: seq<byte>)
    requires Has(b, i, x + y + z + rest)
    ensures var t := DecodeTexts(b, i, |x|, |y|, |z|);
            t.Some? && t.value.first == x && t.value.second == y && t.value.third == z && rest <= t.value.rest
  {
    SplitTexts(b, i, x, y, z, rest);
    Rest(b, i + |x| + |y| + |z|, rest);
  }

  lemma {:induction false} Rest(b: seq<byte>, at: nat, x: seq<byte>)
    requires Has(b, at, x)
    ensures at <= |b| && x <= b[at..]
  {
    assert b[at..][..|x|] == b[at..at + |x|];
  }

  lemma {:induction false} Lengths(b: seq<byte>, i: nat, x: nat, y: nat, z: nat, rest: seq<byte>)
    requires x < 0x1_0000 && y < 0x1_0000 && z < 0x1_0000 && Has(b, i, Le(x, 2) + Le(y, 2) + Le(z, 2) + rest)
    ensures i + 6 + |rest| <= |b| && U16At(b, i) == x && U16At(b, i + 2) == y && U16At(b, i + 4) == z
    ensures Has(b, i + 6, rest)
  {
    hide U16At, Le;
    HasSplit(b, i, Le(x, 2) + Le(y, 2) + Le(z, 2), rest);
    HasSplit(b, i, Le(x, 2) + Le(y, 2), Le(z, 2));
    HasSplit(b, i, Le(x, 2), Le(y, 2));
    Field16(b, i, x);
    Field16(b, i + 2, y);
    Field16(b, i + 4, z);
  }

  lemma {:induction false} SplitTexts(b: seq<byte>, i: nat, x: seq<byte>, y: seq<byte>, z: seq<byte>, rest: seq<byte>)
    requires Has(b, i, x + y + z + rest)
    ensures Has(b, i, x) && Has(b, i + |x|, y) && Has(b, i + |x| + |y|, z) && Has(b, i + |x| + |y| + |z|, rest)
  {
    HasSplit(b, i, x + y + z, rest);
    HasSplit(b, i, x + y, z);
    HasSplit(b, i, x, y);
  }

  lemma {:induction false} StrBack(b: seq<byte>, e: Entry)
    requires e.Str? && Short(e) && Has(b, 4, Body(e)) && b[1] == TypeOf(e)
    ensures DecodeStr(b) == Some(e)
  {
    hide U16At, U64At, Le;
    var n: seq<byte> := Le(|e.text|, 2);
    var h: seq<byte> := Le(e.hash, 8);
    HasSplit(b, 4, n + [0, 0] + h, e.text);
    HasSplit(b, 4, n + [0, 0], h);
    HasSplit(b, 4, n, [0, 0]);
    Field16(b, 4, |e.text|);
    Field64(b, 8, e.hash);
  }

  lemma {:induction false} SpanBack(b: seq<byte>, e: Entry)
    requires e.SpanDesc? && Has(b, 4, Body(e))
    ensures |b| >= 40 && Some(SpanDesc(U32At(b, 4), U64At(b, 8), U64At(b, 16), U64At(b, 24), U64At(b, 32))) == Some(e)
  {
    hide U32At, U64At, Le;
    var l, h: seq<byte> := Le(e.line, 4), Le(e.hash, 8);
    var f, g, n: seq<byte> := Le(e.fileHash, 8), Le(e.funcHash, 8), Le(e.nameHash, 8);
    HasSplit(b, 4, l + h + f + g, n);
    HasSplit(b, 4, l + h + f, g);
    HasSplit(b, 4, l + h, f);
    HasSplit(b, 4, l, h);
    Field32(b, 4, e.line);
    Field64(b, 8, e.hash);
    Field64(b, 16, e.fileHash);
    Field64(b, 24, e.funcHash);
    Field64(b, 32, e.nameHash);
  }

  lemma {:induction false} MetricNumbers(b: seq<byte>, e: Entry)
    requires e.Metric? && Short(e) && Has(b, 4, Body(e))
    ensures |b| >= 32 && U32At(b, 4) == e.id && U64At(b, 8) == e.min && U64At(b, 16) == e.max
    ensures b[24] == e.flags && b[25] == |e.attrs|
    ensures U16At(b, 26) == |e.name| && U16At(b, 28) == |e.desc| && U16At(b, 30) == |e.unit|
    ensures Has(b, 32, e.name + e.desc + e.unit + Wire.AttrsBytes(e.attrs))
  {
    hide U16At, U32At, U64At, Le, Wire.AttrsBytes;
    var i4, lo, hi: seq<byte> := Le(e.id, 4), Le(e.min, 8), Le(e.max, 8);
    var n: seq<byte> := [e.flags, |e.attrs|] + Le(|e.name|, 2) + Le(|e.desc|, 2) + Le(|e.unit|, 2);
    HasSplit(b, 4, i4 + lo + hi + n, e.name + e.desc + e.unit + Wire.AttrsBytes(e.attrs));
    HasSplit(b, 4, i4 + lo + hi, n);
    HasSplit(b, 4, i4 + lo, hi);
    HasSplit(b, 4, i4, lo);
    Field32(b, 4, e.id);
    Field64(b, 8, e.min);
    Field64(b, 16, e.max);
    MetricLengths(b, e.flags, |e.attrs|, |e.name|, |e.desc|, |e.unit|);
  }

  lemma {:induction false} MetricBack(b: seq<byte>, e: Entry, reg: seq<Wire.AttrType>)
    requires e.Metric? && Short(e) && Proper(e, reg) && Has(b, 4, Body(e))
    ensures DecodeMetric(b, reg) == Some(e)
  {
    MetricNumbers(b, e);
    hide U16At, U32At, U64At, DecodeTexts, Wire.DecodeAttrs, Wire.AttrsBytes, Wire.AttrOf, Body, Short, Has;
    TextsBack(b, 32, e.name, e.desc, e.unit, Wire.AttrsBytes(e.attrs));
    Wire.AttrsRoundTrip(reg, e.attrs, DecodeTexts(b, 32, |e.name|, |e.desc|, |e.unit|).value.rest);
  }

  lemma {:induction false} MetricLengths(b: seq<byte>, flags: u8, k: u8, x: nat, y: nat, z: nat)
    requires x < 0x1_0000 && y < 0x1_0000 && z < 0x1_0000
    requires Has(b, 24, [flags, k] + Le(x, 2) + Le(y, 2) + Le(z, 2))
    ensures |b| >= 32 && b[24] == flags && b[25] == k
    ensures U16At(b, 26) == x && U16At(b, 28) == y && U16At(b, 30) == z
  {
    hide U16At, Le;
    HasSplit(b, 24, [flags, k] + Le(x, 2) + Le(y, 2), Le(z, 2));
    HasSplit(b, 24, [flags, k] + Le(x, 2), Le(y, 2));
    HasSplit(b, 24, [flags, k], Le(x, 2));
    assert b[24] == b[24..26][0] && b[25] == b[24..26][1];
    Field16(b, 26, x);
    Field16(b, 28, y);
    Field16(b, 30, z);
  }

  /** Every entry decodes to the fields it was made from, strings and argument lists cut to their limits. */
  lemma {:induction false} EntryRoundTrip(e: Entry, reg: seq<Wire.AttrType>)
    requires Proper(e, reg)
    ensures Short(Sent(e)) && Decode(Encode(Sent(e)), reg) == Some(Sent(e))
  {
    SentIsShort(e, reg);
    hide *;
    EncodedParts(Sent(e));
    DecodeBack(Encode(Sent(e)), Sent(e), reg);
  }

  lemma {:induction false} DecodeBack(b: seq<byte>, e: Entry, reg: seq<Wire.AttrType>)
    requires Short(e) && Proper(e, reg) && Has(b, 0, [PACKET_SERVICE, TypeOf(e)]) && Has(b, 4, Body(e))
    ensures Decode(b, reg) == Some(e)
  {
    hide Body, DecodeNamed, DecodeLog, DecodeMetric, DecodeStr, U32At, U64At, Short, Le, Wire.AttrOf;
    assert b[0..2][0] == b[0] && b[0..2][1] == b[1];
    match e
    case Attr(_, _, _) => AttrBack(b, e);
    case Module(_, _, _) => ModuleBack(b, e);
    case LogDesc(_, _, _, _, _, _) => LogBack(b, e);
    case Str(_, _, _) => StrBack(b, e);
    case SpanDesc(_, _, _, _, _) => SpanBack(b, e);
    case Metric(_, _, _, _, _, _, _, _) => MetricBack(b, e, reg);
  }

  /** An entry that says its own size. */
  predicate Sized(b: seq<byte>) {
    8 <= |b| < 0x1_0000 && |b| % 8 == 0 && U16At(b, 2) == |b|
  }

  lemma {:induction false} EncodedSized(e: Entry)
    requires Short(e) && Size(e) < 0x1_0000
    ensures Sized(Encode(e))
  {
    hide *;
    EncodedParts(e);
    SizedWhen(Encode(e), Size(e));
  }

  lemma {:induction false} SizedWhen(b: seq<byte>, n: nat)
    requires |b| == n < 0x1_0000 && n % 8 == 0 && n > 0 && Has(b, 2, Le(n % 0x1_0000, 2))
    ensures Sized(b)
  {
    hide U16At, Le;
    Field16(b, 2, n);
  }

  predicate AllSized(bs: seq<seq<byte>>) {
    forall i :: 0 <= i < |bs| ==> Sized(bs[i])
  }

  /** Walking a service buffer by the size fields visits exactly the entries written, in order. */
  lemma {:induction false} WalkVisits(bs: seq<seq<byte>>)
    requires AllSized(bs)
    ensures Walk(Concat(bs)) == Some(bs)
    decreases |bs|
  {
    hide Sized, U16At, Concat;
    if bs == [] {
      assert Concat(bs) == [] by { ConcatEmpty(); }
    } else {
      ConcatHead(bs);
      assert AllSized(bs[1..]);
      WalkVisits(bs[1..]);
      var s := Concat(bs);
      WalkStep(s, bs[0], bs);
    }
  }

  lemma {:induction false} ConcatEmpty()
    ensures Concat([]) == []
  {
  }

  lemma {:induction false} WalkStep(s: seq<byte>, b: seq<byte>, bs: seq<seq<byte>>)
    requires Sized(b) && bs != [] && bs[0] == b && s == b + Concat(bs[1..]) && Walk(Concat(bs[1..])) == Some(bs[1..])
    ensures Walk(s) == Some(bs)
  {
    hide Concat, UnLe;
    assert s[2..4] == b[2..4];
    assert s[|b|..] == Concat(bs[1..]) && s[..|b|] == b;
    assert [b] + bs[1..] == bs;
  }
}

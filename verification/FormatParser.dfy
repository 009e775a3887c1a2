/** The format-string parser (engine/p8_log.cpp) on a 64-bit host other than Windows: which variable arguments a format
    takes, and how each is serialized. */
module FormatParser {
  import opened Bytes
  import Wire

  datatype PrefixKind = I64 | I32 | LL | L | HH | H | SizeT | W | J | UpperL

  datatype Prefix = Prefix(text: string, kind: PrefixKind)

  /** Longer prefixes come before their own prefixes. */
  const PREFIXES: seq<Prefix> := [
    Prefix("I64", I64), Prefix("I32", I32), Prefix("ll", LL), Prefix("hh", HH), Prefix("h", H), Prefix("l", L),
    Prefix("L", UpperL), Prefix("I", SizeT), Prefix("z", SizeT), Prefix("t", SizeT), Prefix("w", W), Prefix("j", J)]

  /** One argument of a descriptor: its type code, and its size or, for a string, whether a width was given. */
  datatype Varg = Varg(ty: byte, size: byte)

  const TYPE_CHAR: byte := 0x01         // also 8-bit integers
  const TYPE_INT16: byte := 0x03
  const TYPE_INT32: byte := 0x04
  const TYPE_INT64: byte := 0x05
  const TYPE_DOUBLE: byte := 0x06
  const TYPE_PVOID: byte := 0x07
  const TYPE_USTR16: byte := 0x08
  const TYPE_STRA: byte := 0x09
  const TYPE_USTR8: byte := 0x0A
  const TYPE_USTR32: byte := 0x0B
  const TYPE_CHAR32: byte := 0x0C
  const TYPE_INTMAX: byte := 0x0D
  const TYPE_LDOUBLE: byte := 0x0E

  /** Arguments take whole 8-byte slots. */
  const SLOT: byte := 8
  const SLOT_LDOUBLE: byte := 16

  // ---------------------------------------------------------------------------------------------------------------
  // Length prefixes

  /** The first entry of the table from `i` on that `s` begins with. */
  function FirstMatch(s: string, i: nat): (k: Option<nat>)
    requires i <= |PREFIXES|
    ensures k.Some? ==> i <= k.value < |PREFIXES| && PREFIXES[k.value].text <= s
    ensures forall j :: i <= j < (if k.Some? then k.value else |PREFIXES|) ==> !(PREFIXES[j].text <= s)
    decreases |PREFIXES| - i
  {
    if i == |PREFIXES| then None
    else if PREFIXES[i].text <= s then Some(i)
    else FirstMatch(s, i + 1)
  }

  method FindPrefix(s: string) returns (k: Option<nat>)
    ensures k == FirstMatch(s, 0)
    ensures k.Some? ==> k.value < |PREFIXES| && PREFIXES[k.value].text <= s
    ensures k.None? ==> forall j :: 0 <= j < |PREFIXES| ==> !(PREFIXES[j].text <= s)
  {
    var i := 0;
    while i < |PREFIXES|
      invariant i <= |PREFIXES| && FirstMatch(s, i) == FirstMatch(s, 0)
    {
      if PREFIXES[i].text <= s {
        return Some(i);
      }
      i := i + 1;
    }
    k := None;
  }

  /** The order of the table makes the first match the longest one. */
  lemma {:induction false} FirstIsLongest(s: string, j: nat)
    requires j < |PREFIXES| && PREFIXES[j].text <= s
    ensures FirstMatch(s, 0).Some? && |PREFIXES[j].text| <= |PREFIXES[FirstMatch(s, 0).value].text|
  {
    hide FirstMatch;
    LongestFirst(FirstMatch(s, 0).value, j);
  }

  lemma {:induction false} LongestFirst(i: nat, j: nat)
    requires i <= j < |PREFIXES|
    ensures |PREFIXES[i].text| >= |PREFIXES[j].text|
  {
    assert forall m :: 0 <= m < 2 ==> |PREFIXES[m].text| == 3;
    assert forall m :: 2 <= m < 4 ==> |PREFIXES[m].text| == 2;
    assert forall m :: 4 <= m < |PREFIXES| ==> |PREFIXES[m].text| == 1;
  }

  predicate PrefixLetter(c: char) {
    c in "IlhwzjtL"
  }

  // ---------------------------------------------------------------------------------------------------------------
  // The parser as a state machine over characters

  datatype Mode = Plain | Conv(prefix: Option<PrefixKind>, width: bool)

  predicate IntLetter(c: char) {
    c in "diouxXbB"
  }

  predicate RealLetter(c: char) {
    c in "eEfFgGaA"
  }

  function IntArg(p: Option<PrefixKind>): Varg {
    match p
    case None => Varg(TYPE_INT32, SLOT)
    case Some(LL) => Varg(TYPE_INT64, SLOT)
    case Some(I64) => Varg(TYPE_INT64, SLOT)
    case Some(H) => Varg(TYPE_INT16, SLOT)
    case Some(HH) => Varg(TYPE_CHAR, SLOT)
    case Some(L) => Varg(TYPE_INT64, SLOT)
    case Some(I32) => Varg(TYPE_INT32, SLOT)
    case Some(SizeT) => Varg(TYPE_INT64, SLOT)
    case Some(J) => Varg(TYPE_INTMAX, SLOT)
    case Some(_) => Varg(TYPE_INT32, SLOT)
  }

  function StrArg(upper: bool, p: Option<PrefixKind>, width: bool): Varg {
    var flag := if width then 1 else 0;
    if p == Some(H) then Varg(TYPE_STRA, flag)
    else if upper || p == Some(L) then Varg(TYPE_USTR32, flag)
    else Varg(TYPE_USTR8, flag)
  }

  /** The argument a conversion letter stands for. */
  function Converts(c: char, p: Option<PrefixKind>, width: bool): Option<Varg> {
    if IntLetter(c) then Some(IntArg(p))
    else if c == 's' || c == 'S' then Some(StrArg(c == 'S', p, width))
    else if c == 'p' then Some(Varg(TYPE_PVOID, SLOT))
    else if RealLetter(c) then
      Some(if p == Some(UpperL) then Varg(TYPE_LDOUBLE, SLOT_LDOUBLE) else Varg(TYPE_DOUBLE, SLOT))
    else if c == 'c' || c == 'C' then Some(Varg(if p == Some(L) then TYPE_CHAR32 else TYPE_CHAR, SLOT))
    else None
  }

  predicate Digit(c: char) {
    '0' <= c <= '9'
  }

  datatype Turn = Turn(mode: Mode, arg: Option<Varg>, len: nat)

  /** One turn of the loop: the next mode, the argument found, and the characters consumed. A prefix of several
      characters is looked ahead for; if it ends in a digit, the width flag is set although no width was given. */
  function Next(s: string, mode: Mode): (t: Turn)
    requires s != []
    ensures 1 <= t.len <= |s|
  {
    var c := s[0];
    match mode
    case Plain => Turn(if c == '%' then Conv(None, false) else Plain, None, 1)
    case Conv(p, w) =>
      if c == '*' then Turn(Conv(p, true), Some(Varg(TYPE_INT32, SLOT)), 1)
      else if PrefixLetter(c) && FirstMatch(s, 0).Some? then
        var e := PREFIXES[FirstMatch(s, 0).value];
        MatchIsNotEmpty(s);
        Turn(Conv(Some(e.kind), w || Digit(e.text[|e.text| - 1])), None, |e.text|)
      else if Converts(c, p, w).Some? then Turn(Plain, Converts(c, p, w), 1)
      else if c == '%' then Turn(Plain, None, 1)
      else Turn(Conv(p, w || Digit(c)), None, 1)
  }

  lemma {:induction false} MatchIsNotEmpty(s: string)
    requires FirstMatch(s, 0).Some?
    ensures 1 <= |PREFIXES[FirstMatch(s, 0).value].text| <= 3
  {
    assert forall m :: 0 <= m < |PREFIXES| ==> 1 <= |PREFIXES[m].text| <= 3;
  }

  function List(a: Option<Varg>): seq<Varg> {
    if a.Some? then [a.value] else []
  }

  /** Every argument of a format. */
  function Parse(s: string, mode: Mode): seq<Varg>
    decreases |s|
  {
    if s == [] then [] else var t := Next(s, mode); List(t.arg) + Parse(s[t.len..], t.mode)
  }

  /** The mode the parser is in behind `s`. */
  function End(s: string, mode: Mode): Mode
    decreases |s|
  {
    if s == [] then mode else var t := Next(s, mode); End(s[t.len..], t.mode)
  }

  function Min(a: nat, b: nat): nat {
    if a < b then a else b
  }

  function ModeOf(percent: bool, prefix: Option<PrefixKind>, width: bool): Mode {
    if percent then Conv(prefix, width) else Plain
  }

  /** The body of the parser's loop. */
  method TakeTurn(s: string, percent: bool, prefix: Option<PrefixKind>, width: bool)
    returns (percent': bool, prefix': Option<PrefixKind>, width': bool, arg: Option<Varg>, len: nat)
    requires s != []
    ensures Turn(ModeOf(percent', prefix', width'), arg, len) == Next(s, ModeOf(percent, prefix, width))
  {
    hide FirstMatch, PREFIXES, IntArg, StrArg;
    percent', prefix', width', arg, len := percent, prefix, width, None, 1;
    var c := s[0];
    if !percent {
      if c == '%' {
        percent', prefix', width' := true, None, false;
      }
      return;
    }
    if c == '*' {
      arg, width' := Some(Varg(TYPE_INT32, SLOT)), true;
    } else if PrefixLetter(c) {
      var k := FindPrefix(s);
      if k.Some? {
        MatchIsNotEmpty(s);
        prefix' := Some(PREFIXES[k.value].kind);
        len := |PREFIXES[k.value].text|;
      }
    } else {
      arg := Converts(c, prefix, width);
      if arg.Some? || c == '%' {
        percent' := false;
      }
    }
    // the look-ahead has moved on to the last character of the prefix
    assert s[len - 1] == if len > 1 then PREFIXES[FirstMatch(s, 0).value].text[len - 1] else c;
    if percent' && Digit(s[len - 1]) {
      width' := true;
    }
  }

  /** parse_format_string: fills `out` with at most `max` arguments. Whatever the limit, these are the first arguments
      of the whole format. */
  method ParseFormat(out: array?<Varg>, max: nat, format: Option<string>) returns (count: nat)
    requires out != null ==> max <= out.Length
    modifies out
    ensures out == null || format.None? ==> count == 0
    ensures out != null && format.Some? ==>
              && count == Min(max, |Parse(format.value, Plain)|) && out[..count] == Parse(format.value, Plain)[..count]
              && out[count..] == old(out[count..])
  {
    hide Next, Parse;
    count := 0;
    if format.None? || out == null || max == 0 {
      return;
    }
    var s := format.value;
    var percent, prefix, width := false, None, false;
    ghost var all := Parse(s, Plain);
    while s != []
      invariant count <= max && count <= |all| && out[..count] == all[..count]
      invariant all[count..] == Parse(s, ModeOf(percent, prefix, width))
      invariant out[count..] == old(out[..])[count..]
      decreases |s|
    {
      Unfold(s, ModeOf(percent, prefix, width));
      var arg, len;
      percent, prefix, width, arg, len := TakeTurn(s, percent, prefix, width);
      ghost var rest := Parse(s[len..], ModeOf(percent, prefix, width));
      assert all[count..] == List(arg) + rest;
      if arg.Some? {
        if count >= max {
          return;
        }
        assert all[count] == all[count..][0] == arg.value;
        out[count] := arg.value;
        assert all[count + 1..] == all[count..][1..] == rest;
        count := count + 1;
      }
      s := s[len..];
    }
    NothingParsed(ModeOf(percent, prefix, width));
  }

  // ---------------------------------------------------------------------------------------------------------------
  // Formats one after the other

  /** A prefix that ends within `a` is found with anything behind `a`. */
  lemma {:induction false} SameMatch(a: string, b: string)
    requires FirstMatch(a + b, 0).Some? ==> |PREFIXES[FirstMatch(a + b, 0).value].text| <= |a|
    ensures FirstMatch(a + b, 0) == FirstMatch(a, 0)
  {
    hide FirstMatch, PREFIXES;
    var k, m := FirstMatch(a + b, 0), FirstMatch(a, 0);
    if k.Some? {
      var e := PREFIXES[k.value].text;
      assert e == (a + b)[..|e|] == a[..|e|];
    }
    if m.Some? {
      var e := PREFIXES[m.value].text;
      assert e == a[..|e|] == (a + b)[..|e|];
    }
  }

  /** A turn that does not look past the end of `a` is the same with anything behind `a`. */
  lemma {:induction false} SameTurn(a: string, b: string, mode: Mode)
    requires a != [] && (FirstMatch(a + b, 0).Some? ==> |PREFIXES[FirstMatch(a + b, 0).value].text| <= |a|)
    ensures Next(a + b, mode) == Next(a, mode)
  {
    hide FirstMatch, PREFIXES, Converts;
    SameMatch(a, b);
    assert (a + b)[0] == a[0];
  }

  lemma {:induction false} LongTexts(k: nat)
    requires k < |PREFIXES| && |PREFIXES[k].text| >= 2
    ensures PREFIXES[k].text in {"I64", "I32", "ll", "hh"}
  {
    assert forall m :: 4 <= m < |PREFIXES| ==> |PREFIXES[m].text| == 1;
    assert PREFIXES[0].text == "I64" && PREFIXES[1].text == "I32" && PREFIXES[2].text == "ll"
           && PREFIXES[3].text == "hh";
  }

  lemma {:induction false} Beginnings(e: string, n: nat)
    requires e in {"I64", "I32", "ll", "hh"} && 1 <= n < |e|
    ensures e[..n] in {"I", "I6", "I3", "l", "h"}
  {
    assert "I64"[..1] == "I" && "I64"[..2] == "I6" && "I32"[..1] == "I" && "I32"[..2] == "I3";
    assert "ll"[..1] == "l" && "hh"[..1] == "h";
  }

  /** A prefix cut off by the end of `a` leaves the parser inside the conversion. */
  lemma {:induction false} CutPrefix(a: string, b: string, p: Option<PrefixKind>, w: bool)
    requires a != [] && FirstMatch(a + b, 0).Some? && |PREFIXES[FirstMatch(a + b, 0).value].text| > |a|
    ensures End(a, Conv(p, w)).Conv?
  {
    hide FirstMatch, PREFIXES, Next;
    var k := FirstMatch(a + b, 0).value;
    var e := PREFIXES[k].text;
    assert a == (a + b)[..|a|] == e[..|a|];
    LongTexts(k);
    Beginnings(e, |a|);
    if |a| == 1 {
      OneLetter(a, Conv(p, w));
    } else {
      SizePrefix(a, p, w);
      var t := Next(a, Conv(p, w));
      assert a[1..] == [a[1]];
      OneLetter(a[1..], t.mode);
    }
  }

  lemma {:induction false} SizePrefix(a: string, p: Option<PrefixKind>, w: bool)
    requires a == "I6" || a == "I3"
    ensures Next(a, Conv(p, w)).len == 1 && Next(a, Conv(p, w)).mode.Conv?
  {
    hide FirstMatch, PREFIXES, Converts;
    TwoLetters(a);
    SizeEntry();
    assert PrefixLetter(a[0]) && a[0] != '*';
  }

  lemma {:induction false} SizeEntry()
    ensures |PREFIXES| > 7 && PREFIXES[7].text == "I"
  {
  }

  lemma {:induction false} TwoLetters(a: string)
    requires a == "I6" || a == "I3"
    ensures FirstMatch(a, 0) == Some(7)
  {
    hide FirstMatch;
    assert PREFIXES[7].text == "I" && PREFIXES[7].text <= a;
    assert PREFIXES[2].text[0] == 'l' && PREFIXES[3].text[0] == 'h' && PREFIXES[4].text[0] == 'h'
           && PREFIXES[5].text[0] == 'l' && PREFIXES[6].text[0] == 'L';
    assert |PREFIXES[0].text| == 3 && |PREFIXES[1].text| == 3;
    forall j | 0 <= j < 7 ensures !(PREFIXES[j].text <= a) {
      if j >= 2 {
        assert PREFIXES[j].text[0] != a[0];
      }
    }
  }

  lemma {:induction false} OneLetter(a: string, mode: Mode)
    requires |a| == 1 && mode.Conv? && a[0] in "I63lh"
    ensures End(a, mode).Conv?
  {
    OneLetterStays(a, mode);
    hide *;
    Unfold(a, mode);
    assert a[1..] == [];
    NothingParsed(Next(a, mode).mode);
  }

  lemma {:induction false} OneLetterStays(a: string, mode: Mode)
    requires |a| == 1 && mode.Conv? && a[0] in "I63lh"
    ensures Next(a, mode).len == 1 && Next(a, mode).mode.Conv?
  {
    hide FirstMatch, PREFIXES, Converts, PrefixLetter;
    NoConversion(a[0], mode.prefix, mode.width);
    if FirstMatch(a, 0).Some? {
      MatchIsNotEmpty(a);
    }
  }

  lemma {:induction false} NoConversion(c: char, p: Option<PrefixKind>, w: bool)
    requires c in "I63lh"
    ensures Converts(c, p, w).None? && c != '*' && c != '%'
  {
    assert c == 'I' || c == '6' || c == '3' || c == 'l' || c == 'h';
  }

  lemma {:induction false} NothingParsed(mode: Mode)
    ensures Parse([], mode) == [] && End([], mode) == mode
  {
  }

  lemma {:induction false} Unfold(s: string, mode: Mode)
    requires s != []
    ensures var t := Next(s, mode);
            Parse(s, mode) == List(t.arg) + Parse(s[t.len..], t.mode) && End(s, mode) == End(s[t.len..], t.mode)
  {
    hide Next;
  }

  /** When `a` ends outside a conversion, the arguments of `a` followed by `b` are those of `a` and those of `b`. */
  lemma {:induction false} ParseJoins(a: string, b: string, mode: Mode)
    requires End(a, mode).Plain?
    ensures Parse(a + b, mode) == Parse(a, mode) + Parse(b, Plain) && End(a + b, mode) == End(b, Plain)
    decreases |a|
  {
    hide *;
    if a == [] {
      assert a + b == b;
      NothingParsed(mode);
    } else {
      SameStart(a, b, mode);
      Unfold(a, mode);
      Unfold(a + b, mode);
      var t := Next(a, mode);
      ParseJoins(a[t.len..], b, t.mode);
      assert (a + b)[t.len..] == a[t.len..] + b;
    }
  }

  lemma {:induction false} SameStart(a: string, b: string, mode: Mode)
    requires a != [] && End(a, mode).Plain?
    ensures Next(a + b, mode) == Next(a, mode)
  {
    hide *;
    var k := FirstMatch(a + b, 0);
    if mode.Plain? {
      PlainTurn(a, b);
    } else {
      if k.Some? && |PREFIXES[k.value].text| > |a| {
        CutPrefix(a, b, mode.prefix, mode.width);
        assert false;
      }
      SameTurn(a, b, mode);
    }
  }

  lemma {:induction false} PlainTurn(a: string, b: string)
    requires a != []
    ensures Next(a + b, Plain) == Next(a, Plain)
  {
    assert (a + b)[0] == a[0];
  }

  /** Ending outside a conversion is exactly what `a` needs for this, whatever follows it. */
  lemma {:induction false} JoinsExactlyWhenOutside(a: string)
    ensures (forall b :: Parse(a + b, Plain) == Parse(a, Plain) + Parse(b, Plain)) <==> End(a, Plain).Plain?
  {
    if End(a, Plain).Plain? {
      forall b ensures Parse(a + b, Plain) == Parse(a, Plain) + Parse(b, Plain) {
        ParseJoins(a, b, Plain);
      }
    } else {
      OpenConversion(a, Plain);
      assert Next("d", Plain) == Turn(Plain, None, 1);
      assert "d"[1..] == [];
      assert Parse("d", Plain) == [];
      assert |Parse(a + "d", Plain)| != |Parse(a, Plain) + Parse("d", Plain)|;
    }
  }

  /** An open conversion takes a following "d" as its letter. */
  lemma {:induction false} OpenConversion(a: string, mode: Mode)
    requires End(a, mode).Conv?
    ensures |Parse(a + "d", mode)| == |Parse(a, mode)| + 1
    decreases |a|
  {
    hide *;
    var ad := a + "d";
    NothingParsed(mode);
    if a == [] {
      assert ad == "d";
      JustD(mode);
    } else {
      NoPrefixEndsInD(a);
      SameTurn(a, "d", mode);
      Unfold(a, mode);
      Unfold(ad, mode);
      var t := Next(a, mode);
      OpenConversion(a[t.len..], t.mode);
      assert ad[t.len..] == a[t.len..] + "d";
    }
  }

  lemma {:induction false} JustD(mode: Mode)
    requires mode.Conv?
    ensures |Parse("d", mode)| == 1
  {
    assert "d"[1..] == [];
    assert Next("d", mode).arg.Some? && Next("d", mode).len == 1;
  }

  lemma {:induction false} NoPrefixEndsInD(a: string)
    ensures var k := FirstMatch(a + "d", 0); k.Some? ==> |PREFIXES[k.value].text| <= |a|
  {
    hide FirstMatch;
    var k := FirstMatch(a + "d", 0);
    if k.Some? {
      NoTextEndsInD(k.value);
      var e := PREFIXES[k.value].text;
      assert e[|e| - 1] == (a + "d")[|e| - 1];
    }
  }

  lemma {:induction false} NoTextEndsInD(k: nat)
    requires k < |PREFIXES|
    ensures var e := PREFIXES[k].text; e != [] && e[|e| - 1] != 'd'
  {
    assert forall m :: 0 <= m < |PREFIXES| ==>
      PREFIXES[m].text != [] && PREFIXES[m].text[|PREFIXES[m].text| - 1] in "42lhLIztwj";
  }

  // ---------------------------------------------------------------------------------------------------------------
  // What each conversion takes

  predicate IsPrefix(p: string) {
    p in {"I64", "I32", "ll", "hh", "h", "l", "L", "I", "z", "t", "w", "j"}
  }

  predicate Letter(c: char) {
    c in "diouxXbBsSpeEfFgGaAcC"
  }

  /** Flags, width and precision: no prefix, no letter and no percent sign. */
  predicate Flags(f: string) {
    forall i :: 0 <= i < |f| ==> f[i] != '%' && f[i] !in "IlhwzjtL" && !Letter(f[i])
  }

  /** Every asterisk takes a 32-bit argument. */
  function Stars(f: string): seq<Varg> {
    if f == [] then [] else (if f[0] == '*' then [Varg(0x04, 8)] else []) + Stars(f[1..])
  }

  predicate HasWidth(f: string) {
    exists i :: 0 <= i < |f| && (f[i] == '*' || '0' <= f[i] <= '9')
  }

  /** The argument a conversion with this prefix text, or none, takes. */
  function Taken(p: string, c: char, width: bool): Option<Varg> {
    Converts(c, KindOrNone(p), width)
  }

  function KindNamed(p: string): PrefixKind
    requires IsPrefix(p)
  {
    if p == "I64" then I64 else if p == "I32" then I32 else if p == "ll" then LL else if p == "hh" then HH
    else if p == "h" then H else if p == "l" then L else if p == "L" then UpperL else if p == "w" then W
    else if p == "j" then J else SizeT
  }

  /** The table names its kinds. */
  lemma {:induction false} TableNames(k: nat)
    requires k < |PREFIXES|
    ensures IsPrefix(PREFIXES[k].text) && KindNamed(PREFIXES[k].text) == PREFIXES[k].kind
  {
    assert k == 0 || k == 1 || k == 2 || k == 3 || k == 4 || k == 5 || k == 6 || k == 7 || k == 8 || k == 9 || k == 10
           || k == 11;
  }

  lemma {:induction false} InTable(p: string) returns (k: nat)
    requires IsPrefix(p)
    ensures k < |PREFIXES| && PREFIXES[k].text == p
  {
    k := if p == "I64" then 0 else if p == "I32" then 1 else if p == "ll" then 2 else if p == "hh" then 3
         else if p == "h" then 4 else if p == "l" then 5 else if p == "L" then 6 else if p == "I" then 7
         else if p == "z" then 8 else if p == "t" then 9 else if p == "w" then 10 else 11;
  }

  /** `t` does not make a longer prefix of `p`. */
  predicate Clear(p: string, t: string) {
    && (t != [] ==> !PrefixLetter(t[0]))
    && (p == "I" ==> !("64" <= t) && !("32" <= t))
  }

  lemma {:induction false} LongerPrefix(p: string, e: string)
    requires IsPrefix(p) && IsPrefix(e) && p <= e && |p| < |e|
    ensures (p == "l" && e == "ll") || (p == "h" && e == "hh") || (p == "I" && e in {"I64", "I32"})
  {
    Ends(p);
    assert e[0] == p[0];
  }

  /** A prefix is found whole when no longer one is there. */
  lemma {:induction false} PrefixFound(p: string, t: string)
    requires IsPrefix(p) && Clear(p, t)
    ensures var k := FirstMatch(p + t, 0); k.Some? && PREFIXES[k.value].text == p
  {
    hide FirstMatch, PREFIXES, IsPrefix, PrefixLetter;
    var j := InTable(p);
    var s := p + t;
    FirstIsLongest(s, j);
    var k := FirstMatch(s, 0).value;
    TableNames(k);
    var e := PREFIXES[k].text;
    assert e == s[..|e|] && p == s[..|p|];
    if |e| > |p| {
      assert e[..|p|] == p;
      assert e[|p|..] == t[..|e| - |p|];
      NoLonger(p, e, t);
      assert false;
    }
  }

  lemma {:induction false} NoLonger(p: string, e: string, t: string)
    requires IsPrefix(p) && IsPrefix(e) && p <= e && |p| < |e|
    requires e[|p|..] <= t
    ensures !Clear(p, t)
  {
    hide IsPrefix, PrefixLetter;
    LongerPrefix(p, e);
    PrefixCharacter('l');
    PrefixCharacter('h');
    assert t[0] == e[|p|..][0] == e[|p|];
    if p == "I" {
      assert e[1..] == if e == "I64" then "64" else "32";
    }
  }

  lemma {:induction false} Ends(p: string)
    requires IsPrefix(p)
    ensures p != [] && p[0] in {'I', 'l', 'h', 'L', 'z', 't', 'w', 'j'}
    ensures p[|p| - 1] in {'4', '2', 'I', 'l', 'h', 'L', 'z', 't', 'w', 'j'}
    ensures p[|p| - 1] in {'4', '2'} <==> p in {"I64", "I32"}
  {
    assert "I64"[2] == '4' && "I32"[2] == '2' && "ll"[1] == 'l' && "hh"[1] == 'h';
  }

  lemma {:induction false} PrefixCharacter(c: char)
    requires c in {'4', '2', 'I', 'l', 'h', 'L', 'z', 't', 'w', 'j'}
    ensures !Letter(c) && (Digit(c) <==> c in {'4', '2'})
    ensures c !in {'4', '2'} ==> PrefixLetter(c)
  {
  }

  lemma {:induction false} NotALetter(p: string)
    requires IsPrefix(p)
    ensures p != [] && !Letter(p[|p| - 1]) && PrefixLetter(p[0]) && p[0] != '*' && p[0] != '%'
    ensures Digit(p[|p| - 1]) <==> p in {"I64", "I32"}
  {
    hide IsPrefix, Letter, PrefixLetter, Digit;
    Ends(p);
    PrefixCharacter(p[|p| - 1]);
    PrefixCharacter(p[0]);
  }

  /** The last prefix is the one that counts. */
  lemma {:induction false} PrefixTurn(p: string, t: string, q: Option<PrefixKind>, w: bool)
    requires IsPrefix(p) && Clear(p, t)
    ensures Next(p + t, Conv(q, w)) == Turn(Conv(Some(KindNamed(p)), w || p in {"I64", "I32"}), None, |p|)
  {
    hide FirstMatch, PREFIXES, Letter, IsPrefix, Converts, KindNamed, Digit, PrefixLetter, Clear;
    PrefixFound(p, t);
    NotALetter(p);
    TableNames(FirstMatch(p + t, 0).value);
    assert (p + t)[0] == p[0];
  }

  lemma {:induction false} LetterConverts(c: char, p: Option<PrefixKind>, w: bool)
    requires Letter(c)
    ensures Converts(c, p, w).Some?
  {
    hide StrArg, IntArg;
  }

  lemma {:induction false} LetterIsNoPrefix(c: char)
    requires Letter(c)
    ensures !PrefixLetter(c) && c != '*'
  {
  }

  lemma {:induction false} LetterTurn(c: char, p: Option<PrefixKind>, w: bool)
    requires Letter(c)
    ensures Next([c], Conv(p, w)) == Turn(Plain, Converts(c, p, w), 1) && Converts(c, p, w).Some?
  {
    hide FirstMatch, PREFIXES, Converts, Letter, PrefixLetter;
    LetterConverts(c, p, w);
    LetterIsNoPrefix(c);
  }

  lemma {:induction false} FlagTurn(s: string, p: Option<PrefixKind>, w: bool)
    requires s != [] && Flags([s[0]])
    ensures var c := s[0];
            Next(s, Conv(p, w)) == Turn(Conv(p, w || c == '*' || '0' <= c <= '9'),
                                        if c == '*' then Some(Varg(0x04, 8)) else None, 1)
  {
    hide FirstMatch, PREFIXES, StrArg, IntArg;
    assert Flags([s[0]]) && [s[0]][0] == s[0];
  }

  lemma {:induction false} FlagTurns(f: string, t: string, p: Option<PrefixKind>, w: bool)
    requires Flags(f)
    ensures Parse(f + t, Conv(p, w)) == Stars(f) + Parse(t, Conv(p, w || HasWidth(f)))
    ensures End(f + t, Conv(p, w)) == End(t, Conv(p, w || HasWidth(f)))
    decreases |f|
  {
    hide Parse, End, Next, Letter, FirstMatch, PREFIXES;
    if f == [] {
      assert f + t == t;
    } else {
      var s := f + t;
      assert s[0] == f[0] && s[1..] == f[1..] + t && f == [f[0]] + f[1..];
      FlagTurn(s, p, w);
      Unfold(s, Conv(p, w));
      FlagTurns(f[1..], t, p, w || f[0] == '*' || '0' <= f[0] <= '9');
      WidthBehind(f);
    }
  }

  lemma {:induction false} WidthBehind(f: string)
    requires f != []
    ensures HasWidth(f) <==> f[0] == '*' || '0' <= f[0] <= '9' || HasWidth(f[1..])
  {
    assert forall i :: 1 <= i < |f| ==> f[i] == f[1..][i - 1];
  }

  lemma {:induction false} PercentTurn(s: string)
    ensures Parse("%" + s, Plain) == Parse(s, Conv(None, false)) && End("%" + s, Plain) == End(s, Conv(None, false))
  {
    hide FirstMatch, PREFIXES;
    Unfold("%" + s, Plain);
    assert ("%" + s)[1..] == s;
    assert Next("%" + s, Plain) == Turn(Conv(None, false), None, 1);
  }

  /** A conversion: flags, a prefix, if any, more flags, and a letter. */
  predicate Conversion(f: string, p: string, g: string, c: char) {
    Flags(f) && (p == "" || IsPrefix(p)) && Flags(g) && (p == "I" ==> !("64" <= g) && !("32" <= g)) && Letter(c)
  }

  predicate WidthGiven(f: string, p: string, g: string) {
    HasWidth(f) || HasWidth(g) || p in {"I64", "I32"}
  }

  lemma {:induction false} ConversionTakes(f: string, p: string, g: string, c: char)
    requires Conversion(f, p, g, c)
    ensures var w := WidthGiven(f, p, g);
            && Taken(p, c, w).Some?
            && Parse("%" + f + p + g + [c], Plain) == Stars(f) + Stars(g) + [Taken(p, c, w).value]
            && End("%" + f + p + g + [c], Plain) == Plain
  {
    hide *;
    ConversionParts(f, p, g, c);
    var t := g + [c];
    assert "%" + f + p + g + [c] == "%" + (f + (p + t));
    PercentTurn(f + (p + t));
    FlagTurns(f, p + t, None, false);
    PrefixTakes(p, t, HasWidth(f));
    var w := HasWidth(f) || p in {"I64", "I32"};
    FlagTurns(g, [c], KindOrNone(p), w);
    LetterTakes(p, c, w || HasWidth(g));
    SameWidth(f, p, g);
    assert Stars(f) + (Stars(g) + [Taken(p, c, w || HasWidth(g)).value])
           == Stars(f) + Stars(g) + [Taken(p, c, w || HasWidth(g)).value];
  }

  lemma {:induction false} ConversionParts(f: string, p: string, g: string, c: char)
    requires Conversion(f, p, g, c)
    ensures Flags(f) && (p == "" || IsPrefix(p)) && Flags(g) && Letter(c) && Clear(p, g + [c])
  {
    hide IsPrefix;
    var t := g + [c];
    assert t[0] == if g == [] then c else g[0];
    if "64" <= t {
      assert t[0] == '6' && t[1] == '4' && t[1] == (if |g| == 1 then c else g[1]);
      assert g[..2] == "64";
    }
    if "32" <= t {
      assert t[0] == '3' && t[1] == '2' && t[1] == (if |g| == 1 then c else g[1]);
      assert g[..2] == "32";
    }
  }

  lemma {:induction false} SameWidth(f: string, p: string, g: string)
    ensures WidthGiven(f, p, g) == (HasWidth(f) || p in {"I64", "I32"} || HasWidth(g))
            == (false || HasWidth(f) || p in {"I64", "I32"} || HasWidth(g))
  {
  }

  function KindOrNone(p: string): Option<PrefixKind> {
    if IsPrefix(p) then Some(KindNamed(p)) else None
  }

  lemma {:induction false} PrefixTakes(p: string, t: string, w: bool)
    requires (p == "" || IsPrefix(p)) && Clear(p, t)
    ensures var mode := Conv(KindOrNone(p), w || p in {"I64", "I32"});
            Parse(p + t, Conv(None, w)) == Parse(t, mode) && End(p + t, Conv(None, w)) == End(t, mode)
  {
    hide Next, Parse, End, FirstMatch, PREFIXES, KindNamed, Clear;
    if p != "" {
      NotALetter(p);
      PrefixTurn(p, t, None, w);
      Unfold(p + t, Conv(None, w));
      assert (p + t)[|p|..] == t;
    } else {
      assert p + t == t;
      NoPrefix();
    }
  }

  lemma {:induction false} LetterTakes(p: string, c: char, w: bool)
    requires Letter(c)
    ensures Taken(p, c, w).Some?
    ensures Parse([c], Conv(KindOrNone(p), w)) == [Taken(p, c, w).value] && End([c], Conv(KindOrNone(p), w)) == Plain
  {
    hide Next, Parse, End, Letter, FirstMatch, PREFIXES, Converts, KindNamed;
    var mode := Conv(KindOrNone(p), w);
    LetterTurn(c, mode.prefix, mode.width);
    Unfold([c], mode);
    assert [c][1..] == [];
    NothingParsed(Plain);
  }

  lemma {:induction false} NoPrefix()
    ensures !IsPrefix("")
  {
  }

  /** The code of an integer: 64 bits for ll, I64, l, I, z and t, 16 for h, 8 for hh, the largest for j, else 32. */
  function IntegerCode(p: string): byte {
    if p in {"ll", "I64", "l", "I", "z", "t"} then 0x05
    else if p == "h" then 0x03
    else if p == "hh" then 0x01
    else if p == "j" then 0x0D
    else 0x04
  }

  lemma {:induction false} TakenInteger(p: string, c: char, w: bool)
    requires c in "diouxXbB" && (p == "" || IsPrefix(p))
    ensures Taken(p, c, w) == Some(Varg(IntegerCode(p), 8)) && KindOf(Varg(IntegerCode(p), 8)) == Some(Wire.WordKind)
  {
  }

  /** Integers always take 8 bytes. */
  lemma {:induction false} IntegerConversion(f: string, p: string, g: string, c: char)
    requires Conversion(f, p, g, c) && c in "diouxXbB"
    ensures Parse("%" + f + p + g + [c], Plain) == Stars(f) + Stars(g) + [Varg(IntegerCode(p), 8)]
    ensures KindOf(Varg(IntegerCode(p), 8)) == Some(Wire.WordKind)
  {
    hide *;
    ConversionParts(f, p, g, c);
    ConversionTakes(f, p, g, c);
    TakenInteger(p, c, WidthGiven(f, p, g));
  }

  /** Strings: narrow for h, wide for S and l, else UTF-8; the size says whether a width was given, and for I64 and I32,
      which end in a digit, it says so always. */
  lemma {:induction false} StringConversion(f: string, p: string, g: string, c: char)
    requires Conversion(f, p, g, c) && c in "sS"
    ensures var ty := if p == "h" then 0x09 else if c == 'S' || p == "l" then 0x0B else 0x0A;
            var size := if WidthGiven(f, p, g) then 1 else 0;
            && Parse("%" + f + p + g + [c], Plain) == Stars(f) + Stars(g) + [Varg(ty, size)]
            && KindOf(Varg(ty, size)) == Some(Wire.StrKind)
  {
    hide Parse, Stars, WidthGiven, Flags;
    ConversionTakes(f, p, g, c);
  }

  /** Floating point: a double of 8 bytes, or with L a long double of 16. */
  lemma {:induction false} RealConversion(f: string, p: string, g: string, c: char)
    requires Conversion(f, p, g, c) && c in "eEfFgGaA"
    ensures var v := if p == "L" then Varg(0x0E, 16) else Varg(0x06, 8);
            && Parse("%" + f + p + g + [c], Plain) == Stars(f) + Stars(g) + [v]
            && KindOf(v) == Some(if p == "L" then Wire.LongKind else Wire.WordKind)
  {
    hide Parse, Stars, WidthGiven, Flags;
    ConversionTakes(f, p, g, c);
  }

  /** Characters, wide with l, and pointers. */
  lemma {:induction false} OtherConversion(f: string, p: string, g: string, c: char)
    requires Conversion(f, p, g, c) && c in "cCp"
    ensures var ty := if c == 'p' then 0x07 else if p == "l" then 0x0C else 0x01;
            && Parse("%" + f + p + g + [c], Plain) == Stars(f) + Stars(g) + [Varg(ty, 8)]
            && KindOf(Varg(ty, 8)) == Some(Wire.WordKind)
  {
    hide Parse, Stars, WidthGiven, Flags;
    ConversionTakes(f, p, g, c);
  }

  /** A second percent sign ends a conversion without an argument of its own, ... */
  lemma {:induction false} PercentEnds(f: string)
    requires Flags(f)
    ensures Parse("%" + f + "%", Plain) == Stars(f) && End("%" + f + "%", Plain) == Plain
  {
    hide Parse, End, Stars, FirstMatch, PREFIXES, HasWidth;
    assert "%" + f + "%" == "%" + (f + "%");
    PercentTurn(f + "%");
    FlagTurns(f, "%", None, false);
    var mode: Mode := Conv(None, HasWidth(f));
    Unfold("%", mode);
    assert Next("%", mode) == Turn(Plain, None, 1) && "%"[1..] == [];
    NothingParsed(Plain);
  }

  /** ... and text outside conversions takes none. */
  lemma {:induction false} TextTakesNothing(f: string)
    requires '%' !in f
    ensures Parse(f, Plain) == [] && End(f, Plain) == Plain
  {
    hide FirstMatch, PREFIXES;
    if f != [] {
      TextTakesNothing(f[1..]);
    }
  }

  // ---------------------------------------------------------------------------------------------------------------
  // From the descriptor to the wire

  predicate IsText(ty: byte) {
    ty == TYPE_USTR8 || ty == TYPE_USTR16 || ty == TYPE_USTR32 || ty == TYPE_STRA
  }

  /** How send serializes an argument of this description: it skips one whose size it does not know. */
  function KindOf(v: Varg): Option<Wire.ArgKind> {
    if IsText(v.ty) then Some(Wire.StrKind)
    else if v.size == 8 then Some(Wire.WordKind)
    else if v.ty == TYPE_LDOUBLE then Some(Wire.LongKind)
    else None
  }

  /** Every argument the parser finds is one that send serializes. */
  lemma {:induction false} ParsedAreKnown(s: string, mode: Mode)
    ensures forall i :: 0 <= i < |Parse(s, mode)| ==> KindOf(Parse(s, mode)[i]).Some?
    decreases |s|
  {
    if s != [] {
      var t := Next(s, mode);
      ParsedAreKnown(s[t.len..], t.mode);
      assert t.arg.Some? ==> KindOf(t.arg.value).Some?;
    }
  }

  /** The argument kinds a decoder reads from a descriptor with the first `k` arguments of `s`. */
  function Kinds(s: string, k: nat): (r: seq<Wire.ArgKind>)
  {
    var vs := Parse(s, Plain);
    ParsedAreKnown(s, Plain);
    seq(Min(k, |vs|), i requires 0 <= i < Min(k, |vs|) => KindOf(vs[i]).value)
  }

  predicate ShapeOf(kind: Wire.ArgKind, a: Wire.Arg) {
    match kind
    case StrKind => a.Text?
    case WordKind => a.Word?
    case LongKind => a.Long?
  }

  /** Whatever the format and the limit: arguments passed as the format asks, serialized and decoded with the parsed
      descriptor, come back, strings cut to what their 16-bit length can say. */
  lemma {:induction false} ParsedArgsRoundTrip(s: string, k: nat, args: seq<Wire.Arg>)
    requires |args| == |Kinds(s, k)| && forall i :: 0 <= i < |args| ==> ShapeOf(Kinds(s, k)[i], args[i])
    ensures Wire.DecodeArgs(Kinds(s, k), Wire.ArgsBytes(Wire.SentArgs(args))) == Some(Wire.SentArgs(args))
  {
    var kinds := Kinds(s, k);
    hide Kinds;
    assert Wire.ArgsOf(kinds, Wire.SentArgs(args)) by {
      forall i | 0 <= i < |args| ensures Wire.ArgOf(kinds[i], Wire.SentArgs(args)[i]) {
        assert ShapeOf(kinds[i], args[i]);
      }
    }
    Wire.ArgsRoundTrip(kinds, Wire.SentArgs(args));
  }
}

/** Bytes and little-endian integers, as a 64-bit little-endian host stores them. */
module Bytes {
  type byte = x: int | 0 <= x < 256
  type u8 = x: int | 0 <= x < 0x100
  type u16 = x: int | 0 <= x < 0x1_0000
  type u32 = x: int | 0 <= x < 0x1_0000_0000
  type i32 = x: int | -0x8000_0000 <= x < 0x8000_0000
  type u64 = x: int | 0 <= x < 0x1_0000_0000_0000_0000

  const WORD: nat := 0x1_0000_0000_0000_0000

  datatype Option<+T> = None | Some(value: T)

  function Pow256(n: nat): (p: nat)
    ensures p > 0
  {
    if n == 0 then 1 else 256 * Pow256(n - 1)
  }

  /** The low `n` bytes of `v`, least significant first. */
  function Le(v: nat, n: nat): (s: seq<byte>)
    ensures |s| == n
    decreases n, v
  {
    if n == 0 then [] else [v % 256] + Le(v / 256, n - 1)
  }

  function UnLe(s: seq<byte>): (v: nat)
    ensures v < Pow256(|s|)
  {
    if s == [] then 0 else s[0] + 256 * UnLe(s[1..])
  }

  lemma {:induction false} UnLeLe(v: nat, n: nat)
    requires v < Pow256(n)
    ensures UnLe(Le(v, n)) == v
    decreases n
  {
    if n > 0 {
      UnLeLe(v / 256, n - 1);
      assert Le(v, n)[1..] == Le(v / 256, n - 1);
    }
  }

  lemma {:induction false} Pow256Values()
    ensures Pow256(1) == 0x100 && Pow256(2) == 0x1_0000 && Pow256(4) == 0x1_0000_0000
    ensures Pow256(8) == 0x1_0000_0000_0000_0000
    ensures Pow256(16) == 0x1_0000_0000_0000_0000_0000_0000_0000_0000
  {
    assert Pow256(3) == 0x100_0000;
    assert Pow256(6) == 0x1_0000_0000_0000;
    assert Pow256(10) == 0x1_0000_0000_0000_0000_0000;
    assert Pow256(12) == 0x1_0000_0000_0000_0000_0000_0000;
    assert Pow256(14) == 0x1_0000_0000_0000_0000_0000_0000_0000;
  }

  function U16At(s: seq<byte>, i: nat): u16
    requires i + 2 <= |s|
  {
    Pow256Values();
    UnLe(s[i..i + 2])
  }

  function U32At(s: seq<byte>, i: nat): u32
    requires i + 4 <= |s|
  {
    Pow256Values();
    UnLe(s[i..i + 4])
  }

  function U64At(s: seq<byte>, i: nat): u64
    requires i + 8 <= |s|
  {
    Pow256Values();
    UnLe(s[i..i + 8])
  }

  lemma {:induction false} Read16(s: seq<byte>, i: nat, v: nat)
    requires i + 2 <= |s| && v < 0x1_0000 && s[i..i + 2] == Le(v, 2)
    ensures U16At(s, i) == v
  {
    Pow256Values();
    UnLeLe(v, 2);
  }

  lemma {:induction false} Read32(s: seq<byte>, i: nat, v: nat)
    requires i + 4 <= |s| && v < 0x1_0000_0000 && s[i..i + 4] == Le(v, 4)
    ensures U32At(s, i) == v
  {
    Pow256Values();
    UnLeLe(v, 4);
  }

  lemma {:induction false} Read64(s: seq<byte>, i: nat, v: nat)
    requires i + 8 <= |s| && v < 0x1_0000_0000_0000_0000 && s[i..i + 8] == Le(v, 8)
    ensures U64At(s, i) == v
  {
    Pow256Values();
    UnLeLe(v, 8);
  }

  function AlignUp8(n: nat): (r: nat)
    ensures n <= r < n + 8 && r % 8 == 0
  {
    if n % 8 == 0 then n else n + (8 - n % 8)
  }

  lemma {:induction false} Multiples(x: nat, y: nat)
    requires x % 8 == 0 && y % 8 == 0
    ensures (x - y) % 8 == 0 && (x + y) % 8 == 0
  {
    var a, b := x / 8, y / 8;
    assert x == 8 * a && y == 8 * b;
    var d, e := a - b, a + b;
    assert x - y == 8 * d && x + y == 8 * e;
  }

  function Concat(bs: seq<seq<byte>>): seq<byte> {
    if bs == [] then [] else Concat(bs[..|bs| - 1]) + bs[|bs| - 1]
  }

  lemma {:induction false} ConcatAppend(a: seq<seq<byte>>, b: seq<seq<byte>>)
    ensures Concat(a + b) == Concat(a) + Concat(b)
    decreases |b|
  {
    if b == [] {
      assert a + b == a;
    } else {
      var n := |b| - 1;
      ConcatAppend(a, b[..n]);
      assert (a + b)[..|a + b| - 1] == a + b[..n];
    }
  }

  lemma {:induction false} ConcatHead(bs: seq<seq<byte>>)
    requires bs != []
    ensures Concat(bs) == bs[0] + Concat(bs[1..])
  {
    ConcatAppend([bs[0]], bs[1..]);
    assert bs == [bs[0]] + bs[1..];
    assert Concat([bs[0]]) == Concat([]) + bs[0];
  }
}

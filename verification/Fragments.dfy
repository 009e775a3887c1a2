/** A writer's buffers as a decoder sees them, and what appending bytes piece by piece does to them.

    A writer fills a buffer to its last byte, flags it FRAGMENT and goes on in a fresh one. `Extend` is that rule on
    buffer views; the lemmas show that piece boundaries, buffer boundaries and the late patch of a record header leave
    no trace in the joined payload, and `Shape` says where records, buffer ends and flags may lie.
 */
module Fragments {
  import opened Bytes

  const BUF_HDR: nat := 16

  /** One data buffer of a writer: its FRAGMENT flag and the bytes after the buffer header. A writer's buffers form a
      sequence, and the number of a buffer is its index there. */
  datatype View = View(fragment: bool, payload: seq<byte>)

  /** A committed record: its bytes, and how many of them are the fixed header. */
  datatype Block = Block(fixed: nat, bytes: seq<byte>)

  function BlockBytes(bs: seq<Block>): (r: seq<seq<byte>>)
    ensures |r| == |bs| && forall i :: 0 <= i < |bs| ==> r[i] == bs[i].bytes
  {
    seq(|bs|, i requires 0 <= i < |bs| => bs[i].bytes)
  }

  function Join(vs: seq<View>): seq<byte> {
    if vs == [] then [] else Join(vs[..|vs| - 1]) + vs[|vs| - 1].payload
  }

  const FRESH: View := View(false, [])

  ghost predicate Open(cap: nat, vs: seq<View>) {
    vs != [] && |vs[|vs| - 1].payload| <= cap
  }

  function Append(vs: seq<View>, src: seq<byte>): seq<View>
    requires vs != []
  {
    var last := vs[|vs| - 1];
    vs[|vs| - 1 := last.(payload := last.payload + src)]
  }

  /** The full last buffer is flagged and followed by a fresh one. */
  function Rotate(vs: seq<View>): seq<View>
    requires vs != []
  {
    vs[|vs| - 1 := vs[|vs| - 1].(fragment := true)] + [FRESH]
  }

  function Extend(cap: nat, vs: seq<View>, src: seq<byte>): (r: seq<View>)
    requires 0 < cap && Open(cap, vs)
    ensures Open(cap, r) && |vs| <= |r|
    decreases |src|, if vs != [] then |vs[|vs| - 1].payload| else 0
  {
    if src == [] then vs else
    var room := cap - |vs[|vs| - 1].payload|;
    if room == 0 then Extend(cap, Rotate(vs), src) else
    var k := if |src| < room then |src| else room;
    Extend(cap, Append(vs, src[..k]), src[k..])
  }

  /** One round of the copy loop: rotate a full buffer, or fill what is left of the current one. */
  lemma {:induction false} ExtendStep(cap: nat, vs: seq<View>, src: seq<byte>, k: nat)
    requires 0 < cap && Open(cap, vs)
    ensures src == [] ==> Extend(cap, vs, src) == vs
    ensures src != [] && |vs[|vs| - 1].payload| == cap ==> Extend(cap, vs, src) == Extend(cap, Rotate(vs), src)
    ensures src != [] && |vs[|vs| - 1].payload| < cap
            && k == (if |src| < cap - |vs[|vs| - 1].payload| then |src| else cap - |vs[|vs| - 1].payload|)
            ==> Open(cap, Append(vs, src[..k])) && Extend(cap, vs, src) == Extend(cap, Append(vs, src[..k]), src[k..])
  {
  }

  lemma {:induction false} ExtendFits(cap: nat, vs: seq<View>, src: seq<byte>)
    requires 0 < cap && Open(cap, vs) && |vs[|vs| - 1].payload| + |src| <= cap
    ensures Extend(cap, vs, src) == Append(vs, src)
  {
    var last := vs[|vs| - 1];
    if src == [] {
      assert last.payload + src == last.payload;
    } else {
      assert src[..|src|] == src && src[|src|..] == [];
    }
  }

  lemma {:induction false} JoinLast(vs: seq<View>)
    requires vs != []
    ensures Join(vs) == Join(vs[..|vs| - 1]) + vs[|vs| - 1].payload
  {
  }

  lemma {:induction false} JoinNothing()
    ensures Join([]) == []
  {
  }

  lemma {:induction false} JoinAppendLast(vs: seq<View>, w: seq<View>)
    ensures Join(vs + w) == Join(vs) + Join(w)
    decreases |w|
  {
    hide *;
    if w == [] {
      assert vs + w == vs;
      JoinNothing();
    } else {
      JoinAppendLast(vs, w[..|w| - 1]);
      JoinLast(vs + w);
      JoinLast(w);
      assert (vs + w)[..|vs + w| - 1] == vs + w[..|w| - 1];
    }
  }

  lemma {:induction false} JoinAppend(vs: seq<View>, src: seq<byte>)
    requires vs != []
    ensures Join(Append(vs, src)) == Join(vs) + src
  {
    assert Append(vs, src)[..|vs| - 1] == vs[..|vs| - 1];
  }

  lemma {:induction false} JoinRotate(vs: seq<View>)
    requires vs != []
    ensures Join(Rotate(vs)) == Join(vs)
  {
    var flagged := vs[|vs| - 1 := vs[|vs| - 1].(fragment := true)];
    assert flagged[..|vs| - 1] == vs[..|vs| - 1];
    assert Rotate(vs)[..|vs|] == flagged;
  }

  /** Buffer boundaries are invisible: the joined payload grows by exactly the bytes written. */
  lemma {:induction false} JoinExtend(cap: nat, vs: seq<View>, src: seq<byte>)
    requires 0 < cap && Open(cap, vs)
    ensures Join(Extend(cap, vs, src)) == Join(vs) + src
    decreases |src|, |vs[|vs| - 1].payload|
  {
    hide Join;
    if src != [] {
      var room := cap - |vs[|vs| - 1].payload|;
      if room == 0 {
        JoinRotate(vs);
        JoinExtend(cap, Rotate(vs), src);
      } else {
        var k := if |src| < room then |src| else room;
        JoinAppend(vs, src[..k]);
        JoinExtend(cap, Append(vs, src[..k]), src[k..]);
        assert src[..k] + src[k..] == src;
      }
    }
  }

  /** Piece boundaries are invisible: two pieces leave the buffers that one write of both would. */
  lemma {:induction false} ExtendExtend(cap: nat, vs: seq<View>, a: seq<byte>, b: seq<byte>)
    requires 0 < cap && Open(cap, vs)
    ensures Extend(cap, Extend(cap, vs, a), b) == Extend(cap, vs, a + b)
    decreases |a|, |vs[|vs| - 1].payload|
  {
    if a == [] {
      assert a + b == b;
    } else {
      var room := cap - |vs[|vs| - 1].payload|;
      if room == 0 {
        ExtendExtend(cap, Rotate(vs), a, b);
      } else if |a| < room {
        ExtendJoinsInPlace(cap, vs, a, b);
      } else {
        assert (a + b)[..room] == a[..room];
        assert (a + b)[room..] == a[room..] + b;
        ExtendExtend(cap, Append(vs, a[..room]), a[room..], b);
      }
    }
  }

  lemma {:induction false} ExtendJoinsInPlace(cap: nat, vs: seq<View>, a: seq<byte>, b: seq<byte>)
    requires 0 < cap && Open(cap, vs)
    requires 0 < |a| < cap - |vs[|vs| - 1].payload|
    ensures Extend(cap, Extend(cap, vs, a), b) == Extend(cap, vs, a + b)
  {
    var va := Append(vs, a);
    assert a[..|a|] == a && a[|a|..] == [];
    assert Extend(cap, vs, a) == va;
    if b == [] {
      assert a + b == a;
    } else {
      var room := cap - |vs[|vs| - 1].payload|;
      var k := if |b| < room - |a| then |b| else room - |a|;
      assert (a + b)[..|a| + k] == a + b[..k];
      assert (a + b)[|a| + k..] == b[k..];
      assert vs[|vs| - 1].payload + (a + b[..k]) == (vs[|vs| - 1].payload + a) + b[..k];
      assert Append(va, b[..k]) == Append(vs, a + b[..k]);
    }
  }

  /** `p` written over the bytes of buffer `i` from payload offset `off` on. */
  function Patch(vs: seq<View>, i: nat, off: nat, p: seq<byte>): seq<View>
    requires i < |vs| && off + |p| <= |vs[i].payload|
  {
    var old_ := vs[i].payload;
    vs[i := vs[i].(payload := old_[..off] + p + old_[off + |p|..])]
  }

  /** A record header may be completed after the rest of the record was written: patching it then leaves the buffers
      that writing it complete at the start would have left. */
  lemma {:induction false} ExtendPatch(cap: nat, vs: seq<View>, i: nat, off: nat, p: seq<byte>, src: seq<byte>)
    requires 0 < cap && Open(cap, vs)
    requires i < |vs| && off + |p| <= |vs[i].payload|
    ensures var r := Extend(cap, vs, src);
            && i < |r| && off + |p| <= |r[i].payload|
            && Open(cap, Patch(vs, i, off, p))
            && Patch(r, i, off, p) == Extend(cap, Patch(vs, i, off, p), src)
    decreases |src|, |vs[|vs| - 1].payload|
  {
    if src != [] {
      var room := cap - |vs[|vs| - 1].payload|;
      var vp := Patch(vs, i, off, p);
      if room == 0 {
        ExtendPatch(cap, Rotate(vs), i, off, p, src);
        assert Patch(Rotate(vs), i, off, p) == Rotate(vp);
      } else {
        var k := if |src| < room then |src| else room;
        var va := Append(vs, src[..k]);
        ExtendPatch(cap, va, i, off, p, src[k..]);
        PatchAppend(vs, i, off, p, src[..k]);
      }
    }
  }

  lemma {:induction false} PatchAppend(vs: seq<View>, i: nat, off: nat, p: seq<byte>, src: seq<byte>)
    requires i < |vs| && off + |p| <= |vs[i].payload|
    ensures off + |p| <= |Append(vs, src)[i].payload|
    ensures Patch(Append(vs, src), i, off, p) == Append(Patch(vs, i, off, p), src)
  {
    var o := vs[i].payload;
    if i == |vs| - 1 {
      assert (o + src)[..off] == o[..off];
      assert (o + src)[off + |p|..] == o[off + |p|..] + src;
      assert Patch(Append(vs, src), i, off, p)[i] == Append(Patch(vs, i, off, p), src)[i];
    }
    assert Patch(Append(vs, src), i, off, p) == Append(Patch(vs, i, off, p), src);
  }

  /** Completing a record header that lies in one buffer, after the rest of the record was written. */
  lemma {:induction false} CompleteHeader(cap: nat, v0: seq<View>, head: seq<byte>, rest: seq<byte>, at: nat,
                                          p: seq<byte>)
    requires 0 < cap && Open(cap, v0) && |v0[|v0| - 1].payload| + |head| <= cap && at + |p| <= |head|
    ensures var v, i, off := Extend(cap, v0, head + rest), |v0| - 1, |v0[|v0| - 1].payload| + at;
            && i < |v| && off + |p| <= |v[i].payload|
            && Patch(v, i, off, p) == Extend(cap, v0, (head[..at] + p + head[at + |p|..]) + rest)
  {
    hide Extend, Append, Patch;
    var i, off := |v0| - 1, |v0[|v0| - 1].payload| + at;
    var head' := head[..at] + p + head[at + |p|..];
    ExtendExtend(cap, v0, head, rest);
    ExtendFits(cap, v0, head);
    PatchInAppended(v0, head, at, p);
    ExtendOpen(cap, v0, head);
    ExtendPatch(cap, Append(v0, head), i, off, p, rest);
    ExtendFits(cap, v0, head');
    ExtendExtend(cap, v0, head', rest);
  }

  lemma {:induction false} ExtendOpen(cap: nat, vs: seq<View>, src: seq<byte>)
    requires 0 < cap && Open(cap, vs)
    ensures Open(cap, Extend(cap, vs, src))
  {
  }

  lemma {:induction false} PatchInAppended(v0: seq<View>, head: seq<byte>, at: nat, p: seq<byte>)
    requires v0 != [] && at + |p| <= |head|
    ensures var i, off := |v0| - 1, |v0[|v0| - 1].payload| + at;
            && off + |p| <= |Append(v0, head)[i].payload| && |Append(v0, head)| == |v0|
            && Patch(Append(v0, head), i, off, p) == Append(v0, head[..at] + p + head[at + |p|..])
  {
    var o := v0[|v0| - 1].payload;
    assert (o + head)[..|o| + at] == o + head[..at];
    assert (o + head)[|o| + at + |p|..] == head[at + |p|..];
    assert (o + head[..at]) + p + head[at + |p|..] == o + (head[..at] + p + head[at + |p|..]);
  }

  // ---------------------------------------------------------------------------------------------------------------
  // Where buffers and records begin

  /** Payload bytes before buffer `i`. */
  function Off(vs: seq<View>, i: nat): nat
    requires i <= |vs|
  {
    if i == 0 then 0 else Off(vs, i - 1) + |vs[i - 1].payload|
  }

  /** Payload bytes before record `k`. */
  function Bnd(bs: seq<Block>, k: nat): nat
    requires k <= |bs|
  {
    if k == 0 then 0 else Bnd(bs, k - 1) + |bs[k - 1].bytes|
  }

  lemma {:induction false} OffPrefix(a: seq<View>, b: seq<View>, i: nat)
    requires i <= |a| && i <= |b| && a[..i] == b[..i]
    ensures Off(a, i) == Off(b, i)
  {
    if i > 0 {
      assert a[..i - 1] == a[..i][..i - 1];
      assert b[..i - 1] == b[..i][..i - 1];
      assert a[i - 1] == a[..i][i - 1] && b[i - 1] == b[..i][i - 1];
      OffPrefix(a, b, i - 1);
    }
  }

  lemma {:induction false} BndPrefix(bs: seq<Block>, b: Block, k: nat)
    requires k <= |bs|
    ensures Bnd(bs + [b], k) == Bnd(bs, k)
  {
    if k > 0 {
      BndPrefix(bs, b, k - 1);
    }
  }

  lemma {:induction false} BndMonotone(bs: seq<Block>, j: nat, k: nat)
    requires j <= k <= |bs|
    ensures Bnd(bs, j) <= Bnd(bs, k)
    decreases k
  {
    if j < k {
      BndMonotone(bs, j, k - 1);
    }
  }

  ghost predicate Boundary(bs: seq<Block>, x: nat) {
    exists k :: 0 <= k <= |bs| && Bnd(bs, k) == x
  }

  /** Buffer `i` holds the whole fixed header of record `k`, 8-aligned. */
  ghost predicate HeaderAt(vs: seq<View>, bs: seq<Block>, k: nat, i: nat)
    requires k < |bs|
  {
    && i < |vs|
    && Off(vs, i) <= Bnd(bs, k)
    && Bnd(bs, k) + bs[k].fixed <= Off(vs, i + 1)
    && (Bnd(bs, k) - Off(vs, i)) % 8 == 0
  }

  ghost predicate HasHeader(vs: seq<View>, bs: seq<Block>, k: nat)
    requires k < |bs|
  {
    exists i: nat :: HeaderAt(vs, bs, k, i)
  }

  /** How buffers, flags and records fit together after any number of records.
      - FRAGMENT is set exactly on the buffers whose successor starts inside a record, and those are full;
      - every record starts 8-aligned with its fixed header inside one buffer. */
  ghost predicate Shape(cap: nat, vs: seq<View>, bs: seq<Block>) {
    && cap % 8 == 0
    && (forall i :: 0 <= i < |vs| ==> 0 < |vs[i].payload| <= cap)
    && (forall k :: 0 <= k < |bs| ==> 0 < bs[k].fixed <= |bs[k].bytes| && |bs[k].bytes| % 8 == 0)
    && Off(vs, |vs|) == Bnd(bs, |bs|)
    && (forall i :: 0 <= i < |vs| ==> (vs[i].fragment <==> i + 1 < |vs| && !Boundary(bs, Off(vs, i + 1))))
    && (forall i :: 0 <= i < |vs| && vs[i].fragment ==> |vs[i].payload| == cap)
    && (forall k :: 0 <= k < |bs| ==> HasHeader(vs, bs, k))
  }

  /** Every buffer starts at a multiple of 8 of the joined payload, so the padding of a record (fewer than 8 bytes up
      to a multiple of 8) never crosses a buffer end. */
  lemma {:induction false} BuffersAligned(cap: nat, vs: seq<View>, bs: seq<Block>, i: nat)
    requires Shape(cap, vs, bs) && i <= |vs|
    ensures Off(vs, i) % 8 == 0
  {
    if i > 0 {
      if vs[i - 1].fragment {
        BuffersAligned(cap, vs, bs, i - 1);
        Multiples(Off(vs, i - 1), cap);
      } else if i == |vs| {
        BoundsAligned(bs, |bs|);
      } else {
        var k :| 0 <= k <= |bs| && Bnd(bs, k) == Off(vs, i);
        BoundsAligned(bs, k);
      }
    }
  }

  lemma {:induction false} BoundsAligned(bs: seq<Block>, k: nat)
    requires k <= |bs| && forall j :: 0 <= j < |bs| ==> |bs[j].bytes| % 8 == 0
    ensures Bnd(bs, k) % 8 == 0
  {
    if k > 0 {
      BoundsAligned(bs, k - 1);
    }
  }

  /** What extending `vs` to `r` changes: earlier buffers stay, every buffer left behind is full and flagged, every
      buffer added is not empty. */
  ghost predicate Facts(cap: nat, vs: seq<View>, r: seq<View>) {
    0 < |vs| <= |r| &&
    var n := |vs|;
    && (forall i :: 0 <= i < n - 1 ==> r[i] == vs[i])
    && |vs[n - 1].payload| <= |r[n - 1].payload|
    && (|r| == n ==> r[n - 1].fragment == vs[n - 1].fragment)
    && (forall i :: n - 1 <= i < |r| - 1 ==> r[i].fragment && |r[i].payload| == cap)
    && (forall i :: n <= i < |r| ==> 0 < |r[i].payload| <= cap)
    && (n < |r| ==> !r[|r| - 1].fragment)
  }

  lemma {:induction false} ExtendFacts(cap: nat, vs: seq<View>, src: seq<byte>)
    requires 0 < cap && Open(cap, vs)
    ensures Facts(cap, vs, Extend(cap, vs, src))
    decreases |src|, |vs[|vs| - 1].payload|
  {
    hide Facts;
    if src == [] {
      NoFacts(cap, vs);
    } else {
      var room := cap - |vs[|vs| - 1].payload|;
      if room == 0 {
        ExtendFacts(cap, Rotate(vs), src);
        ExtendNotEmpty(cap, Rotate(vs), src);
        RotateFacts(cap, vs, Extend(cap, Rotate(vs), src));
      } else {
        var k := if |src| < room then |src| else room;
        ExtendFacts(cap, Append(vs, src[..k]), src[k..]);
        AppendFacts(cap, vs, src[..k], Extend(cap, Append(vs, src[..k]), src[k..]));
      }
    }
  }

  lemma {:induction false} NoFacts(cap: nat, vs: seq<View>)
    requires vs != []
    ensures Facts(cap, vs, vs)
  {
  }

  lemma {:induction false} RotateFacts(cap: nat, vs: seq<View>, r: seq<View>)
    requires vs != [] && |vs[|vs| - 1].payload| == cap && Facts(cap, Rotate(vs), r) && |r| > |vs|
    requires |r[|vs|].payload| > 0 && Open(cap, r)
    ensures Facts(cap, vs, r)
  {
    var v1, n := Rotate(vs), |vs|;
    assert r[n - 1] == v1[n - 1];
    assert |r[n].payload| <= cap;
    assert forall i :: 0 <= i < n - 1 ==> v1[i] == vs[i];
  }

  lemma {:induction false} AppendFacts(cap: nat, vs: seq<View>, src: seq<byte>, r: seq<View>)
    requires vs != [] && Facts(cap, Append(vs, src), r)
    ensures Facts(cap, vs, r)
  {
    assert forall i :: 0 <= i < |vs| - 1 ==> Append(vs, src)[i] == vs[i];
  }

  lemma {:induction false} ExtendNotEmpty(cap: nat, vs: seq<View>, src: seq<byte>)
    requires 0 < cap && Open(cap, vs) && src != []
    ensures var r := Extend(cap, vs, src);
            0 < |r[|r| - 1].payload| && (|vs[|vs| - 1].payload| < cap ==> 0 < |r[|vs| - 1].payload|)
    decreases |src|, |vs[|vs| - 1].payload|
  {
    var room := cap - |vs[|vs| - 1].payload|;
    if room == 0 {
      ExtendNotEmpty(cap, Rotate(vs), src);
    } else {
      var k := if |src| < room then |src| else room;
      var v1 := Append(vs, src[..k]);
      if src[k..] != [] {
        ExtendNotEmpty(cap, v1, src[k..]);
      }
      ExtendFacts(cap, v1, src[k..]);
    }
  }

  lemma {:induction false} OffMonotone(vs: seq<View>, i: nat, j: nat)
    requires i <= j <= |vs|
    ensures Off(vs, i) <= Off(vs, j)
    ensures i < j && 0 < |vs[i].payload| ==> Off(vs, i) < Off(vs, j)
    decreases j
  {
    if i < j {
      OffMonotone(vs, i, j - 1);
    }
  }

  lemma {:induction false} OffIsJoin(vs: seq<View>, i: nat)
    requires i <= |vs|
    ensures Off(vs, i) == |Join(vs[..i])|
  {
    if i > 0 {
      OffIsJoin(vs, i - 1);
      assert vs[..i][..i - 1] == vs[..i - 1];
    }
  }

  /** The buffers in which the next record starts: the current one, or a fresh one behind the parked ones. */
  function Start(vs: seq<View>, open: bool): (r: seq<View>)
    ensures !open ==> r == vs + [FRESH]
  {
    if open then vs else vs + [FRESH]
  }

  ghost predicate CanStart(cap: nat, vs: seq<View>, open: bool, fixed: nat) {
    && 0 < fixed <= cap
    && (open ==> vs != [] && |vs[|vs| - 1].payload| + fixed <= cap)
  }

  /** `r` is `v0` with `len` more payload bytes: the summary of `Extend` that the shape needs. */
  ghost predicate Grown(cap: nat, v0: seq<View>, r: seq<View>, len: nat) {
    && 0 < |v0| <= |r|
    && (forall i :: 0 <= i < |v0| - 1 ==> r[i] == v0[i])
    && (forall i :: 0 <= i < |v0| ==> Off(r, i) == Off(v0, i))
    && Off(r, |r|) == Off(v0, |v0|) + len
    && |v0[|v0| - 1].payload| <= |r[|v0| - 1].payload| <= cap
    && (forall i :: |v0| - 1 <= i < |r| - 1 ==> r[i].fragment && |r[i].payload| == cap)
    && (forall i :: |v0| <= i < |r| ==> 0 < |r[i].payload| <= cap)
    && (if |r| == |v0| then r[|v0| - 1].fragment == v0[|v0| - 1].fragment else !r[|r| - 1].fragment)
  }

  lemma {:induction false} ExtendGrows(cap: nat, v0: seq<View>, src: seq<byte>)
    requires 0 < cap && Open(cap, v0)
    ensures Grown(cap, v0, Extend(cap, v0, src), |src|)
  {
    hide Extend;
    var r := Extend(cap, v0, src);
    var n := |v0|;
    ExtendFacts(cap, v0, src);
    forall i | 0 <= i < n ensures Off(r, i) == Off(v0, i) {
      OffPrefix(r, v0, i);
    }
    JoinExtend(cap, v0, src);
    OffIsJoin(r, |r|);
    OffIsJoin(v0, n);
    assert r[..|r|] == r && v0[..n] == v0;
  }

  /** With no gaps left at buffer ends, the padding of a record fits the buffer its last byte went to. */
  lemma {:induction false} PadFits(cap: nat, v0: seq<View>, bs: seq<Block>, fixed: nat, src: seq<byte>, pad: nat)
    requires Ready(cap, v0, bs, fixed) && pad < 8 && (|src| + pad) % 8 == 0
    ensures Open(cap, v0)
    ensures var r := Extend(cap, v0, src); |r[|r| - 1].payload| + pad <= cap
  {
    hide HasHeader, Boundary, Bnd, Extend;
    var r := Extend(cap, v0, src);
    ExtendGrows(cap, v0, src);
    BoundsAligned(bs, |bs|);
    FullBuffersAligned(cap, r, |v0| - 1, |r| - 1);
    PadArithmetic(cap, Off(v0, |v0|), |src|, pad, Off(r, |r| - 1), |r[|r| - 1].payload|);
  }

  lemma {:induction false} FullBuffersAligned(cap: nat, r: seq<View>, i: nat, j: nat)
    requires cap % 8 == 0 && i <= j <= |r| && Off(r, i) % 8 == 0
    requires forall k :: i <= k < j ==> |r[k].payload| == cap
    ensures Off(r, j) % 8 == 0
    decreases j
  {
    if i < j {
      FullBuffersAligned(cap, r, i, j - 1);
      Multiples(Off(r, j - 1), cap);
    }
  }

  lemma {:induction false} PadArithmetic(cap: nat, before: nat, len: nat, pad: nat, off: nat, last: nat)
    requires cap % 8 == 0 && before % 8 == 0 && off % 8 == 0 && (len + pad) % 8 == 0 && pad < 8
    requires off + last == before + len && last <= cap
    ensures last + pad <= cap
  {
    Multiples(before, len + pad);
    Multiples(before + (len + pad), off);
    var a, b := (last + pad) / 8, cap / 8;
    assert last + pad == 8 * a && cap == 8 * b;
  }

  /** The buffers about to take a record: complete up to here, with room for its fixed header in the last one. */
  ghost predicate Ready(cap: nat, v0: seq<View>, bs: seq<Block>, fixed: nat) {
    && cap % 8 == 0 && v0 != [] && 0 < fixed
    && (forall i :: 0 <= i < |v0| - 1 ==> 0 < |v0[i].payload| <= cap)
    && |v0[|v0| - 1].payload| + fixed <= cap
    && (forall k :: 0 <= k < |bs| ==> 0 < bs[k].fixed <= |bs[k].bytes| && |bs[k].bytes| % 8 == 0)
    && Off(v0, |v0|) == Bnd(bs, |bs|)
    && Off(v0, |v0| - 1) % 8 == 0
    && (forall i :: 0 <= i < |v0| - 1 ==> (v0[i].fragment <==> !Boundary(bs, Off(v0, i + 1))))
    && (forall i :: 0 <= i < |v0| && v0[i].fragment ==> |v0[i].payload| == cap)
    && !v0[|v0| - 1].fragment
    && (forall k :: 0 <= k < |bs| ==> HasHeader(v0, bs, k))
  }

  lemma {:induction false} StartReady(cap: nat, vs: seq<View>, open: bool, bs: seq<Block>, fixed: nat)
    requires Shape(cap, vs, bs) && CanStart(cap, vs, open, fixed)
    ensures Ready(cap, Start(vs, open), bs, fixed)
  {
    hide Ready, Shape;
    if open {
      StartInCurrent(cap, vs, bs, fixed);
    } else {
      StartInFresh(cap, vs, bs, fixed);
    }
  }

  lemma {:induction false} StartInCurrent(cap: nat, vs: seq<View>, bs: seq<Block>, fixed: nat)
    requires Shape(cap, vs, bs) && CanStart(cap, vs, true, fixed)
    ensures Ready(cap, vs, bs, fixed)
  {
    BuffersAligned(cap, vs, bs, |vs| - 1);
    hide HasHeader, Boundary, Off, Bnd;
  }

  lemma {:induction false} StartInFresh(cap: nat, vs: seq<View>, bs: seq<Block>, fixed: nat)
    requires Shape(cap, vs, bs) && CanStart(cap, vs, false, fixed)
    ensures Ready(cap, vs + [FRESH], bs, fixed)
  {
    var v0 := vs + [FRESH];
    BuffersAligned(cap, vs, bs, |vs|);
    assert Boundary(bs, Bnd(bs, |bs|));
    FreshOffsets(vs);
    hide Boundary, Bnd, Off;
    forall k | 0 <= k < |bs| ensures HasHeader(v0, bs, k) {
      assert HasHeader(vs, bs, k);
      var i: nat :| HeaderAt(vs, bs, k, i);
      assert v0[i] == vs[i];
      KeepsHeader(vs, v0, bs, bs, k, i);
    }
    forall i | 0 <= i < |vs| ensures v0[i] == vs[i] && Off(v0, i + 1) == Off(vs, i + 1) {}
  }

  /** A fresh buffer at the end moves no other. */
  lemma {:induction false} FreshOffsets(vs: seq<View>)
    ensures forall i :: 0 <= i <= |vs| ==> Off(vs + [FRESH], i) == Off(vs, i)
    ensures Off(vs + [FRESH], |vs| + 1) == Off(vs, |vs|)
  {
    var v0 := vs + [FRESH];
    forall i | 0 <= i <= |vs| ensures Off(v0, i) == Off(vs, i) {
      assert v0[..i] == vs[..i];
      OffPrefix(v0, vs, i);
    }
  }

  /** One committed record keeps the shape. */
  lemma {:induction false} ShapeCommit(cap: nat, vs: seq<View>, open: bool, bs: seq<Block>, b: Block)
    requires Shape(cap, vs, bs) && CanStart(cap, vs, open, b.fixed)
    requires b.fixed <= |b.bytes| && |b.bytes| % 8 == 0
    ensures Open(cap, Start(vs, open)) && Shape(cap, Extend(cap, Start(vs, open), b.bytes), bs + [b])
  {
    var v0 := Start(vs, open);
    StartReady(cap, vs, open, bs, b.fixed);
    ExtendGrows(cap, v0, b.bytes);
    ExtendNotEmpty(cap, v0, b.bytes);
    GrownShape(cap, v0, Extend(cap, v0, b.bytes), bs, b);
  }

  /** A record behind the others: the joined payload is still the records one after the other. */
  lemma {:induction false} CommitBlock(cap: nat, vs: seq<View>, open: bool, bs: seq<Block>, b: Block)
    requires Shape(cap, vs, bs) && Join(vs) == Concat(BlockBytes(bs)) && CanStart(cap, vs, open, b.fixed)
    requires b.fixed <= |b.bytes| && |b.bytes| % 8 == 0
    ensures Open(cap, Start(vs, open))
    ensures var vs' := Extend(cap, Start(vs, open), b.bytes);
            Shape(cap, vs', bs + [b]) && Join(vs') == Concat(BlockBytes(bs + [b]))
  {
    hide Shape, Extend;
    var v0 := Start(vs, open);
    ShapeCommit(cap, vs, open, bs, b);
    JoinExtend(cap, v0, b.bytes);
    if !open {
      assert v0[..|vs|] == vs;
    }
    assert BlockBytes(bs + [b]) == BlockBytes(bs) + [b.bytes];
    ConcatAppend(BlockBytes(bs), [b.bytes]);
  }

  lemma {:induction false} GrownShape(cap: nat, v0: seq<View>, r: seq<View>, bs: seq<Block>, b: Block)
    requires Ready(cap, v0, bs, b.fixed) && b.fixed <= |b.bytes| && |b.bytes| % 8 == 0
    requires Grown(cap, v0, r, |b.bytes|) && 0 < |r[|v0| - 1].payload|
    ensures Shape(cap, r, bs + [b])
  {
    var bs' := bs + [b];
    BndPrefix(bs, b, |bs|);
    forall i | 0 <= i < |r|
      ensures r[i].fragment <==> i + 1 < |r| && !Boundary(bs', Off(r, i + 1))
    {
      GrownFlag(cap, v0, r, bs, b, i);
    }
    forall k | 0 <= k < |bs'| ensures HasHeader(r, bs', k) {
      GrownHeader(cap, v0, r, bs, b, k);
    }
  }

  lemma {:induction false} GrownFlag(cap: nat, v0: seq<View>, r: seq<View>, bs: seq<Block>, b: Block, i: nat)
    requires Ready(cap, v0, bs, b.fixed) && b.fixed <= |b.bytes|
    requires Grown(cap, v0, r, |b.bytes|) && i < |r|
    ensures r[i].fragment <==> i + 1 < |r| && !Boundary(bs + [b], Off(r, i + 1))
  {
    hide HasHeader, Bnd, Boundary;
    var n := |v0|;
    if i + 1 < n {
      // an earlier buffer: same flag, same end, same boundaries up to there
      assert r[i] == v0[i] && Off(r, i + 1) == Off(v0, i + 1);
      OffMonotone(v0, i + 1, n);
      EarlierBoundaries(bs, b, Off(v0, i + 1));
    } else if i + 1 < |r| {
      // a buffer this record filled: its end lies strictly inside the record
      assert Off(r, n) == Off(r, n - 1) + cap;
      OffMonotone(r, n, i + 1);
      OffMonotone(r, i + 1, |r|);
      InsideLast(bs, b, Off(r, i + 1));
    }
  }

  lemma {:induction false} EarlierBoundaries(bs: seq<Block>, b: Block, x: nat)
    requires x <= Bnd(bs, |bs|) && 0 < |b.bytes|
    ensures Boundary(bs + [b], x) <==> Boundary(bs, x)
  {
    var bs' := bs + [b];
    if Boundary(bs', x) {
      var k :| 0 <= k <= |bs'| && Bnd(bs', k) == x;
      BndPrefix(bs, b, |bs|);
      if k <= |bs| {
        BndPrefix(bs, b, k);
        assert Bnd(bs, k) == x;
      }
    }
    if Boundary(bs, x) {
      var k :| 0 <= k <= |bs| && Bnd(bs, k) == x;
      BndPrefix(bs, b, k);
      assert Bnd(bs', k) == x;
    }
  }

  lemma {:induction false} InsideLast(bs: seq<Block>, b: Block, x: nat)
    requires Bnd(bs, |bs|) < x < Bnd(bs, |bs|) + |b.bytes|
    ensures !Boundary(bs + [b], x)
  {
    var bs' := bs + [b];
    BndPrefix(bs, b, |bs|);
    forall k | 0 <= k <= |bs'| ensures Bnd(bs', k) != x {
      if k <= |bs| {
        BndPrefix(bs, b, k);
        BndMonotone(bs, k, |bs|);
      }
    }
  }

  lemma {:induction false} GrownHeader(cap: nat, v0: seq<View>, r: seq<View>, bs: seq<Block>, b: Block, k: nat)
    requires Ready(cap, v0, bs, b.fixed) && b.fixed <= |b.bytes|
    requires Grown(cap, v0, r, |b.bytes|) && k <= |bs|
    ensures HasHeader(r, bs + [b], k)
  {
    hide Boundary, Bnd, Off;
    var bs' := bs + [b];
    BndPrefix(bs, b, k);
    if k < |bs| {
      assert HasHeader(v0, bs, k);
      var i: nat :| HeaderAt(v0, bs, k, i);
      assert |v0[i].payload| <= |r[i].payload|;
      KeepsHeader(v0, r, bs, bs', k, i);
    } else {
      NewHeader(cap, v0, r, bs, b);
    }
  }

  lemma {:induction false} KeepsHeader(v0: seq<View>, r: seq<View>, bs: seq<Block>, bs': seq<Block>, k: nat, i: nat)
    requires k < |bs| && k < |bs'| && bs[k] == bs'[k] && Bnd(bs, k) == Bnd(bs', k)
    requires HeaderAt(v0, bs, k, i) && i < |r| && Off(r, i) == Off(v0, i) && |v0[i].payload| <= |r[i].payload|
    ensures HasHeader(r, bs', k)
  {
    assert Off(r, i + 1) == Off(r, i) + |r[i].payload|;
    assert Off(v0, i + 1) == Off(v0, i) + |v0[i].payload|;
    assert HeaderAt(r, bs', k, i);
  }

  lemma {:induction false} NewHeader(cap: nat, v0: seq<View>, r: seq<View>, bs: seq<Block>, b: Block)
    requires Ready(cap, v0, bs, b.fixed) && b.fixed <= |b.bytes|
    requires Grown(cap, v0, r, |b.bytes|)
    ensures HasHeader(r, bs + [b], |bs|)
  {
    var bs' := bs + [b];
    var n := |v0|;
    BndPrefix(bs, b, |bs|);
    BoundsAligned(bs, |bs|);
    assert Off(r, n) == Off(r, n - 1) + |r[n - 1].payload|;
    assert Off(v0, n) == Off(v0, n - 1) + |v0[n - 1].payload|;
    assert Off(r, n - 1) == Off(v0, n - 1);
    assert Bnd(bs', |bs|) == Bnd(bs, |bs|) == Off(v0, n);
    NewHeaderAt(r, bs', |bs|, n - 1);
  }

  lemma {:induction false} NewHeaderAt(r: seq<View>, bs: seq<Block>, k: nat, i: nat)
    requires k < |bs| && i < |r|
    requires Off(r, i) <= Bnd(bs, k) && Bnd(bs, k) + bs[k].fixed <= Off(r, i + 1)
    requires Off(r, i) % 8 == 0 && Bnd(bs, k) % 8 == 0
    ensures HasHeader(r, bs, k)
  {
    Multiples(Bnd(bs, k), Off(r, i));
    assert HeaderAt(r, bs, k, i);
  }
}

/** Service buffers (engine/p8_core.cpp): entries are appended to the last of a list of buffers, and the worker takes
    the whole list. */
module ServiceBuffers {
  import opened Bytes
  import opened ServiceWire
  import RawBuffers
  import Utf8
  import Wire

  function Flatten(es: seq<seq<Entry>>): seq<Entry> {
    if es == [] then [] else Flatten(es[..|es| - 1]) + es[|es| - 1]
  }

  /** An entry whose size the header can hold. */
  predicate Storable(e: Entry) {
    Short(e) && Size(e) < 0x1_0000
  }

  predicate AllStorable(es: seq<Entry>) {
    forall e :: e in es ==> Storable(e)
  }

  predicate AllProper(es: seq<Entry>, reg: seq<Wire.AttrType>) {
    forall e :: e in es ==> Proper(e, reg)
  }

  function Image(e: Entry): (b: seq<byte>)
    requires Storable(e)
  {
    Encode(e)
  }

  function Images(es: seq<Entry>): (bs: seq<seq<byte>>)
    requires AllStorable(es)
    ensures |bs| == |es| && forall i :: 0 <= i < |es| ==> bs[i] == Image(es[i])
  {
    seq(|es|, i requires 0 <= i < |es| => Image(es[i]))
  }

  /** The length of a service string, cut on a UTF-8 boundary. */
  method CutStr(s: seq<byte>) returns (t: seq<byte>)
    ensures t == Cut(s)
  {
    var len := |s|;
    if len > STR_MAX {
      len := Utf8.CutUtf8(s, STR_MAX);
    }
    t := s[..len];
  }

  method CutEntry(e: Entry) returns (c: Entry)
    ensures c == Sent(e)
  {
    hide Cut;
    match e
    case Attr(id, ty, name) =>
      var n := CutStr(name);
      c := Attr(id, ty, n);
    case Module(mod, verb, name) =>
      var n := CutStr(name);
      c := Module(mod, verb, n);
    case LogDesc(line, hash, file, func, format, args) =>
      var f := CutStr(file);
      var g := CutStr(func);
      var t := CutStr(format);
      c := LogDesc(line, hash, f, g, t, if |args| > MAX_ARGS then args[..MAX_ARGS] else args);
    case Str(kind, hash, text) =>
      var t := CutStr(text);
      c := Str(kind, hash, t);
    case SpanDesc(_, _, _, _, _) => c := e;
    case Metric(id, min, max, flags, name, desc, unit, attrs) =>
      var n := CutStr(name);
      var d := CutStr(desc);
      var u := CutStr(unit);
      c := Metric(id, min, max, flags, n, d, u, attrs);
  }

  /** Zero `padded` bytes from `pos` on, then store the entry at their start. */
  method Fill(buf: array<byte>, pos: nat, entry: seq<byte>, padded: nat)
    requires |entry| <= padded && pos + padded <= buf.Length
    modifies buf
    ensures buf[..pos + padded] == old(buf[..pos]) + (entry + Zeros(padded - |entry|))
  {
    RawBuffers.Put(buf, pos, Zeros(padded));
    ghost var mid := buf[..];
    assert mid[..pos] == old(buf[..pos]);
    RawBuffers.Put(buf, pos, entry);
    ghost var end := pos + |entry|;
    assert buf[..pos] == buf[..][..pos] == mid[..pos];
    assert buf[pos..end] == buf[..][pos..end] == entry;
    assert buf[end..pos + padded] == buf[..][end..][..padded - |entry|] == mid[end..][..padded - |entry|];
    assert mid[end..][..padded - |entry|] == mid[pos..pos + padded][|entry|..] == Zeros(padded - |entry|);
    assert buf[..pos + padded] == buf[..pos] + (buf[pos..end] + buf[end..pos + padded]);
  }

  class ServiceBuffers {
    const capacity: nat
    /** The attribute types, as registered in the end. */
    const reg: seq<Wire.AttrType>
    var bufs: seq<array<byte>>
    var used: seq<nat>
    var dropped: nat

    /** How often a call here asked for a buffer and there was none. */
    ghost var refused: nat
    /** The entries in each buffer of the list, those of the buffers the worker took, and all in the order written. */
    ghost var held: seq<seq<Entry>>
    ghost var drained: seq<seq<Entry>>
    ghost var log: seq<Entry>

    constructor (capacity: nat, reg: seq<Wire.AttrType>)
      requires capacity % 8 == 0 && capacity < 0x1_0000
      ensures Valid() && log == [] && this.capacity == capacity && this.reg == reg && fresh(this)
      ensures dropped == refused == 0
    {
      this.capacity, this.reg := capacity, reg;
      bufs, used, dropped := [], [], 0;
      held, drained, log := [], [], [];
      refused := 0;
    }

    /** A buffer holds whole entries and nothing else. */
    ghost predicate Holds(buf: array<byte>, n: nat, es: seq<Entry>)
      reads buf
    {
      && n <= buf.Length == capacity
      && AllStorable(es) && AllProper(es, reg)
      && buf[..n] == Concat(Images(es))
    }

    /** A reader of a buffer walks by the size fields, visits exactly its entries, in order, each at a multiple of 8 and
        all within the bytes used, and decodes each to what was sent. */
    ghost predicate Reads(buf: array<byte>, n: nat, es: seq<Entry>)
      reads buf
    {
      n <= capacity == buf.Length && n % 8 == 0 &&
      var visited := Walk(buf[..n]);
      && visited.Some? && |visited.value| == |es|
      && forall j :: 0 <= j < |es| ==> |visited.value[j]| % 8 == 0 && Decode(visited.value[j], reg) == Some(es[j])
    }

    lemma HoldsReads(buf: array<byte>, n: nat, es: seq<Entry>)
      requires Holds(buf, n, es)
      ensures Reads(buf, n, es)
    {
      hide Decode, Image, Storable, Proper, Walk, Sized, Concat;
      ImagesSized(es);
      WalkVisits(Images(es));
      SizedConcat(Images(es));
      forall j | 0 <= j < |es|
        ensures |Images(es)[j]| % 8 == 0 && Decode(Images(es)[j], reg) == Some(es[j])
      {
        StoredBack(es[j], reg);
        SizedEight(Images(es)[j]);
      }
    }

    ghost predicate Shape()
      reads this
    {
      && capacity % 8 == 0 && capacity < 0x1_0000
      && |used| == |bufs| == |held|
      && (forall i, j :: 0 <= i < j < |bufs| ==> bufs[i] != bufs[j])
      && log == Flatten(drained + held)
    }

    ghost predicate Valid()
      reads this, bufs
    {
      Shape() && forall i :: 0 <= i < |bufs| ==> Holds(bufs[i], used[i], held[i])
    }

    /** Whatever was registered and drained before, every service buffer reads as exactly its entries. */
    lemma WalksExactly(i: nat)
      requires Valid() && i < |bufs|
      ensures Reads(bufs[i], used[i], held[i]) && log == Flatten(drained + held)
    {
      hide Holds, Reads;
      HoldsReads(bufs[i], used[i], held[i]);
    }

    /** A new buffer at the end of the list, if there is one. */
    method TryNew() returns (ok: bool)
      requires Valid()
      modifies this`bufs, this`used, this`held
      ensures Valid() && log == old(log) && drained == old(drained)
      ensures ok ==> |bufs| == |old(bufs)| + 1 && bufs[..|old(bufs)|] == old(bufs) && fresh(bufs[|old(bufs)|])
                     && used == old(used) + [0]
      ensures !ok ==> bufs == old(bufs) && used == old(used)
    {
      hide Holds, Concat;
      ok := false;
      if * {
        var b := new byte[capacity];
        EmptyHolds(b);
        NothingFlat(drained, held);
        bufs, used, held := bufs + [b], used + [0], held + [[]];
        ok := true;
      }
    }

    /** svc_acquire_new: without a buffer an entry is counted as dropped. */
    method AcquireNew() returns (ok: bool)
      requires Valid()
      modifies this`bufs, this`used, this`dropped, this`held, this`refused
      ensures Valid() && log == old(log) && drained == old(drained)
      ensures ok ==> |bufs| == |old(bufs)| + 1 && bufs[..|old(bufs)|] == old(bufs) && fresh(bufs[|old(bufs)|])
                     && used == old(used) + [0] && dropped == old(dropped) && refused == old(refused)
      ensures !ok ==> bufs == old(bufs) && used == old(used)
                      && dropped == old(dropped) + 1 && refused == old(refused) + 1
    {
      hide Holds, Flatten;
      ok := TryNew();
      if !ok {
        dropped, refused := dropped + 1, refused + 1;
      }
    }

    lemma EmptyHolds(b: array<byte>)
      requires b.Length == capacity
      ensures Holds(b, 0, [])
    {
    }

    /** There is room behind the entries of the last buffer. */
    predicate HasRoom(padded: nat)
      reads this
    {
      bufs != [] && |used| == |bufs| && used[|bufs| - 1] + padded <= capacity
    }

    /** An entry not larger than a buffer fails only when a buffer was asked for and there was none. */
    function Refusals(ok: bool, padded: nat): nat {
      if ok || padded > capacity then 0 else 1
    }

    /** svc_reserve up to the reservation itself: a last buffer with room. With `wait` the lock is released meanwhile,
        and the worker and other threads may come in. */
    method MakeRoom(padded: nat, wait: bool) returns (ok: bool)
      requires Valid()
      modifies this`bufs, this`used, this`dropped, this`held, this`drained, this`log, this`refused, bufs
      ensures Valid() && old(log) <= log && (!wait ==> log == old(log))
      ensures ok ==> bufs != [] && used[|bufs| - 1] + padded <= capacity
      ensures old(HasRoom(padded)) ==> ok && bufs == old(bufs) && log == old(log) && dropped == old(dropped)
      ensures refused == old(refused) + Refusals(ok, padded) && dropped >= old(dropped) + Refusals(ok, padded)
      ensures !wait ==> dropped == old(dropped) + Refusals(ok, padded)
      ensures padded > capacity ==> !ok && bufs == old(bufs)
      ensures forall i :: 0 <= i < |bufs| ==> bufs[i] in old(bufs) || fresh(bufs[i])
    {
      hide Holds, Flatten;
      if padded > capacity {
        return false;
      }
      while |bufs| == 0 || used[|bufs| - 1] + padded > capacity
        invariant Valid() && old(log) <= log && (!wait ==> log == old(log))
        invariant old(HasRoom(padded)) ==> bufs == old(bufs) && used == old(used) && log == old(log)
        invariant refused == old(refused) && dropped >= old(dropped)
        invariant !wait || old(HasRoom(padded)) ==> dropped == old(dropped)
        invariant forall i :: 0 <= i < |bufs| ==> bufs[i] in old(bufs) || fresh(bufs[i])
        decreases |bufs| == 0 || used[|bufs| - 1] + padded > capacity
      {
        if wait {
          Unlocked();
        }
        ok := AcquireNew();
        if !ok {
          return;
        }
      }
      ok := true;
    }

    /** What may happen to the service buffers while a thread waits without the lock: the worker takes them, or other
        threads append entries to them, any number of times. */
    method Unlocked()
      requires Valid()
      modifies this`bufs, this`used, this`dropped, this`held, this`drained, this`log, bufs
      ensures Valid() && old(log) <= log && dropped >= old(dropped)
      ensures forall i :: 0 <= i < |bufs| ==> bufs[i] in old(bufs) || fresh(bufs[i])
    {
      hide Holds, Flatten;
      var rounds: nat := *;
      while rounds > 0
        invariant Valid() && old(log) <= log && dropped >= old(dropped)
        invariant forall i :: 0 <= i < |bufs| ==> bufs[i] in old(bufs) || fresh(bufs[i])
      {
        if * {
          var _, _ := Drain();
        } else if * {
          var ok := TryNew();
          dropped := dropped + if ok then 0 else 1;
        } else if |bufs| > 0 {
          var e: Entry := *;
          if Short(e) && Proper(e, reg) && Size(e) <= capacity - used[|bufs| - 1] {
            Append(e);
          }
        }
        rounds := rounds - 1;
      }
    }

    /** The worker takes every service buffer. None of them holds part of an entry only, and each reads as exactly its
        entries. */
    method Drain() returns (out: seq<array<byte>>, sizes: seq<nat>)
      requires Valid()
      modifies this`bufs, this`used, this`held, this`drained
      ensures Valid() && bufs == [] && log == old(log) && out == old(bufs) && sizes == old(used)
      ensures |out| == |sizes| == |old(held)| && drained == old(drained) + old(held)
      ensures forall i :: 0 <= i < |out| ==>
                Holds(out[i], sizes[i], old(held)[i]) && Reads(out[i], sizes[i], old(held)[i])
    {
      hide Holds, Reads, Flatten;
      ghost var h := held;
      forall i | 0 <= i < |bufs| ensures Reads(bufs[i], used[i], h[i]) {
        HoldsReads(bufs[i], used[i], h[i]);
      }
      out, sizes := TakeAll();
      drained, held := drained + h, [];
      assert drained + held == old(drained) + old(held);
    }

    /** Move every buffer of the list, first to last. */
    method TakeAll() returns (out: seq<array<byte>>, sizes: seq<nat>)
      requires |bufs| == |used|
      modifies this`bufs, this`used
      ensures out == old(bufs) && sizes == old(used) && bufs == [] && used == []
    {
      out, sizes := [], [];
      while |bufs| > 0
        invariant out + bufs == old(bufs) && sizes + used == old(used) && |out| == |sizes| && |bufs| == |used|
      {
        out, sizes := out + [bufs[0]], sizes + [used[0]];
        bufs, used := bufs[1..], used[1..];
      }
    }

    /** An entry at the end of the last buffer. */
    method Append(e: Entry)
      requires Valid() && Short(e) && Proper(e, reg) && bufs != [] && used[|bufs| - 1] + Size(e) <= capacity
      modifies this`used, this`held, this`log, bufs[|bufs| - 1]
      ensures Valid() && log == old(log) + [e] && bufs == old(bufs)
    {
      hide Concat, Flatten, Short, Size, Head, Body, Encode, Images, Proper;
      var last := |bufs| - 1;
      var buf, pos := bufs[last], used[last];
      ghost var es := held[last];
      assert Holds(buf, pos, es);
      WholeEntry(e);
      Fill(buf, pos, Head(e) + Body(e), Size(e));
      AppendImage(es, e);
      AppendFlat(drained, held, e);
      used := used[last := pos + Size(e)];
      held, log := held[last := es + [e]], log + [e];
      assert Holds(buf, used[last], held[last]);
    }

    /** serialize_*: the entry with its strings cut, or nothing at all. An entry larger than a buffer is dropped, and
        so is one that finds no buffer. */
    method Serialize(e: Entry, wait: bool) returns (ok: bool)
      requires Valid() && Proper(e, reg)
      modifies this`bufs, this`used, this`dropped, this`held, this`drained, this`log, this`refused, bufs
      ensures Valid() && old(log) <= log
      ensures ok ==> |log| > |old(log)| && log[|log| - 1] == Sent(e) && old(log) <= log[..|log| - 1]
      ensures !wait ==> log == if ok then old(log) + [Sent(e)] else old(log)
      ensures Short(Sent(e)) && (Size(Sent(e)) > capacity ==> !ok && bufs == old(bufs))
      ensures old(HasRoom(Size(Sent(e)))) ==> ok && bufs == old(bufs) && log == old(log) + [Sent(e)]
      ensures refused == old(refused) + Refusals(ok, Size(Sent(e)))
      ensures dropped >= old(dropped) + Refusals(ok, Size(Sent(e)))
      ensures !wait ==> dropped == old(dropped) + Refusals(ok, Size(Sent(e)))
      ensures forall i :: 0 <= i < |bufs| ==> bufs[i] in old(bufs) || fresh(bufs[i])
    {
      hide Holds, Flatten, Sent, Encode, Size, Short, Proper;
      SentIsShort(e, reg);
      var c := CutEntry(e);
      ok := MakeRoom(Size(c), wait);
      if ok {
        Append(c);
      }
    }
  }

  lemma {:induction false} SizedConcat(es: seq<seq<byte>>)
    requires AllSized(es)
    ensures |Concat(es)| % 8 == 0
    decreases |es|
  {
    hide U16At;
    if es != [] {
      var n := |es| - 1;
      SizedConcat(es[..n]);
      assert Sized(es[n]);
      Multiples(|Concat(es[..n])|, |es[n]|);
    }
  }

  lemma {:induction false} SizedEight(b: seq<byte>)
    requires Sized(b)
    ensures |b| % 8 == 0
  {
  }

  lemma {:induction false} ImagesSized(es: seq<Entry>)
    requires AllStorable(es)
    ensures AllSized(Images(es))
  {
    hide Sized, Encode, Short, Size;
    forall i | 0 <= i < |es| ensures Sized(Images(es)[i]) {
      assert Storable(es[i]);
      EncodedSized(es[i]);
    }
  }

  lemma {:induction false} StoredBack(e: Entry, reg: seq<Wire.AttrType>)
    requires Storable(e) && Proper(e, reg)
    ensures Decode(Image(e), reg) == Some(e)
  {
    hide Encode, Decode, Proper, Short, Size;
    EncodedParts(e);
    DecodeBack(Encode(e), e, reg);
  }

  lemma {:induction false} AppendImage(es: seq<Entry>, e: Entry)
    requires AllStorable(es) && Storable(e)
    ensures AllStorable(es + [e]) && Concat(Images(es + [e])) == Concat(Images(es)) + Image(e)
  {
    hide Encode, Storable;
    var bs := Images(es + [e]);
    assert bs[..|es|] == Images(es);
  }

  lemma {:induction false} NothingFlat(drained: seq<seq<Entry>>, held: seq<seq<Entry>>)
    ensures Flatten(drained + (held + [[]])) == Flatten(drained + held)
  {
    var all := drained + (held + [[]]);
    assert all[..|all| - 1] == drained + held;
  }

  lemma {:induction false} AppendFlat(drained: seq<seq<Entry>>, held: seq<seq<Entry>>, e: Entry)
    requires held != []
    ensures var n := |held| - 1; Flatten(drained + held[n := held[n] + [e]]) == Flatten(drained + held) + [e]
  {
    var n := |held| - 1;
    var all, all' := drained + held, drained + held[n := held[n] + [e]];
    assert all'[..|all'| - 1] == all[..|all| - 1];
    assert all[|all| - 1] == held[n] && all'[|all'| - 1] == held[n] + [e];
  }
}

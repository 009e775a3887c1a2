/** Spans (engine/p8_trc.cpp): the stack of open spans of a thread, and identifiers handed out in blocks. */
module Spans {
  import opened Bytes

  const ASYNC_BIT: nat := 0x8000_0000_0000_0000
  const BLOCK: nat := 65536
  const NO_SPAN: u64 := 0             // no parent, and no span at all

  predicate IsAsync(id: u64) {
    id >= ASYNC_BIT
  }

  function SetAsync(id: u64): u64 {
    if IsAsync(id) then id else id + ASYNC_BIT
  }

  /** What write_begin met: no descriptor, no buffer, or success. An identifier is used up unless the descriptor was the
      trouble. */
  datatype Outcome = NoDescriptor | NoBuffer | Written

  // ---------------------------------------------------------------------------------------------------------------
  // One thread

  /** The open spans, innermost last, and the rest of the thread's block of identifiers. */
  datatype Thread = Thread(open: seq<u64>, next: u64, end: u64)

  function Innermost(open: seq<u64>): u64 {
    if open == [] then NO_SPAN else open[|open| - 1]
  }

  /** pop_span: the spans up to the one below `id`; a span that is not open changes nothing. */
  function Pop(open: seq<u64>, id: u64): seq<u64> {
    if open == [] || open[|open| - 1] == id then (if open == [] then [] else open[..|open| - 1])
    else if id in open then Pop(open[..|open| - 1], id)
    else open
  }

  /** Take an identifier; `counter` is the core's, and moves on when the block is used up. */
  function TakeId(t: Thread, counter: u64): (Thread, u64, u64) {
    if t.next == t.end then
      (t.(next := (counter + 1) % WORD, end := (counter + BLOCK) % WORD), (counter + BLOCK) % WORD, counter)
    else (t.(next := (t.next + 1) % WORD), counter, t.next)
  }

  class SpanCore {
    var counter: u64

    constructor ()
      ensures counter == 1
    {
      counter := 1;
    }

    method ReserveSpanIds() returns (first: u64)
      modifies this
      ensures first == old(counter) && counter == (old(counter) + BLOCK) % WORD
    {
      first := counter;
      counter := (counter + BLOCK) % WORD;
    }
  }

  class SpanWriter {
    const core: SpanCore
    var open: seq<u64>
    var next: u64
    var end: u64

    constructor (core: SpanCore)
      ensures this.core == core && Abs() == Thread([], 0, 0)
    {
      this.core := core;
      open, next, end := [], 0, 0;
    }

    function Abs(): Thread
      reads this
    {
      Thread(open, next, end)
    }

    method NewId() returns (id: u64)
      modifies this, core
      ensures (Abs(), core.counter, id) == TakeId(old(Abs()), old(core.counter))
      ensures open == old(open) && next == (id + 1) % 0x1_0000_0000_0000_0000
      ensures old(next) != old(end) ==> id == old(next) && end == old(end) && core.counter == old(core.counter)
      ensures old(next) == old(end) ==> id == old(core.counter) && end == core.counter
      ensures old(next) == old(end) ==> core.counter == (old(core.counter) + 65536) % 0x1_0000_0000_0000_0000
    {
      if next == end {
        next := core.ReserveSpanIds();
        end := (next + BLOCK) % WORD;
      }
      id := next;
      next := (next + 1) % WORD;
    }

    /** begin: the parent is the innermost open span; a span that could not be written is not opened. */
    method Begin(outcome: Outcome) returns (id: u64, parent: u64)
      modifies this, core
      ensures parent == Innermost(old(open))
      ensures outcome.NoDescriptor? ==> Abs() == old(Abs()) && core.counter == old(core.counter) && id == NO_SPAN
      ensures !outcome.NoDescriptor? ==>
                var (t, counter, x) := TakeId(old(Abs()), old(core.counter));
                && core.counter == counter && id == (if outcome.Written? then x else NO_SPAN)
                && Abs() == if outcome.Written? && x != NO_SPAN then t.(open := t.open + [x]) else t
    {
      parent := if |open| > 0 then open[|open| - 1] else NO_SPAN;
      id := WriteBegin(false, outcome);
      if id != NO_SPAN {
        open := open + [id];
      }
    }

    method WriteBegin(isAsync: bool, outcome: Outcome) returns (id: u64)
      modifies this, core
      ensures outcome.NoDescriptor? ==> Abs() == old(Abs()) && core.counter == old(core.counter) && id == NO_SPAN
      ensures !outcome.NoDescriptor? ==>
                var (t, counter, x) := TakeId(old(Abs()), old(core.counter));
                && Abs() == t && core.counter == counter
                && id == if outcome.Written? then (if isAsync then SetAsync(x) else x) else NO_SPAN
    {
      if outcome.NoDescriptor? {
        return NO_SPAN;
      }
      id := NewId();
      if isAsync {
        id := SetAsync(id);
      }
      if outcome.NoBuffer? {
        id := NO_SPAN;
      }
    }

    /** end: an async span is never on the stack. */
    method End(id: u64) returns (written: bool)
      modifies this`open
      ensures open == if id == NO_SPAN || IsAsync(id) then old(open) else Pop(old(open), id)
      ensures written <==> id != NO_SPAN
    {
      written := id != NO_SPAN;
      if written && !IsAsync(id) {
        PopSpan(id);
      }
    }

    method PopSpan(id: u64)
      modifies this`open
      ensures open == Pop(old(open), id)
    {
      if |open| == 0 {
        return;
      }
      if open[|open| - 1] == id {
        open := open[..|open| - 1];
        return;
      }
      var depth := 1;
      while depth < |open|
        invariant 1 <= depth <= |open| && open == old(open)
        invariant id !in open[|open| - depth..]
      {
        assert open[|open| - depth - 1..] == [open[|open| - depth - 1]] + open[|open| - depth..];
        depth := depth + 1;
        if open[|open| - depth] == id {
          PopAbove(open, |open| - depth, id);
          PullLast(depth);
          return;
        }
      }
      assert open[|open| - depth..] == open;
      PopMissing(open, id);
    }

    method PullLast(depth: nat)
      requires depth <= |open|
      modifies this`open
      ensures open == old(open)[..|old(open)| - depth]
    {
      var left := depth;
      while left > 0
        invariant 0 <= left <= depth && open == old(open)[..|old(open)| - (depth - left)]
      {
        open := open[..|open| - 1];
        left := left - 1;
      }
    }
  }

  lemma {:induction false} PopAbove(open: seq<u64>, i: nat, id: u64)
    requires i < |open| && open[i] == id && id !in open[i + 1..]
    ensures Pop(open, id) == open[..i]
    decreases |open|
  {
    var n := |open| - 1;
    if i < n {
      assert open[n] == open[i + 1..][n - i - 1];
      assert open[..n][i + 1..] == open[i + 1..][..n - i - 1];
      PopAbove(open[..n], i, id);
      assert open[..n][..i] == open[..i];
    }
  }

  lemma {:induction false} PopMissing(open: seq<u64>, id: u64)
    requires id !in open
    ensures Pop(open, id) == open
  {
  }

  // ---------------------------------------------------------------------------------------------------------------
  // The stack against the set of open spans

  predicate Increasing(s: seq<u64>) {
    forall i, j :: 0 <= i < j < |s| ==> s[i] < s[j]
  }

  ghost function Elements(s: seq<u64>): set<u64> {
    set x | x in s
  }

  /** Closing `id` closes everything opened inside it; one that is not open closes nothing. */
  ghost function Closed(open: set<u64>, id: u64): set<u64> {
    if id in open then set x | x in open && x < id else open
  }

  lemma {:induction false} PopCloses(open: seq<u64>, id: u64)
    requires Increasing(open)
    ensures Increasing(Pop(open, id)) && Elements(Pop(open, id)) == Closed(Elements(open), id) && Pop(open, id) <= open
    decreases |open|
  {
    if open != [] {
      var n := |open| - 1;
      BelowLast(open);
      if open[n] != id && id in open {
        hide Increasing;
        PopCloses(open[..n], id);
        CloseBelow(Elements(open[..n]), open[n], id);
      }
    }
  }

  lemma {:induction false} BelowLast(open: seq<u64>)
    requires Increasing(open) && open != []
    ensures var n := |open| - 1;
            && Increasing(open[..n]) && (forall x :: x in open[..n] ==> x < open[n])
            && Elements(open) == Elements(open[..n]) + {open[n]}
  {
    var n := |open| - 1;
    assert open == open[..n] + [open[n]];
  }

  lemma {:induction false} CloseBelow(open: set<u64>, last: u64, id: u64)
    requires (forall x :: x in open ==> x < last) && id in open
    ensures Closed(open + {last}, id) == Closed(open, id)
  {
  }

  lemma {:induction false} InnermostIsLatest(open: seq<u64>)
    requires Increasing(open)
    ensures if open == [] then Innermost(open) == NO_SPAN
            else Innermost(open) in open && forall x :: x in open ==> x <= Innermost(open)
  {
  }

  // ---------------------------------------------------------------------------------------------------------------
  // All threads

  /** `ids` are the identifiers used up so far, in order, `spans` those that begin calls returned, and `tree` is the
      reference: the open spans of each thread as a set. `parents` is what the begin records of sync spans say. */
  datatype State = State(counter: u64, threads: seq<Thread>, ids: seq<u64>, spans: seq<u64>, parents: map<u64, u64>,
                         tree: seq<set<u64>>)

  datatype Step =
    | NewThread
    | Begin(t: nat, isAsync: bool, outcome: Outcome)
    | End(t: nat, id: u64)

  predicate Enabled(s: State, step: Step) {
    match step
    case NewThread => true
    case Begin(t, _, _) => t < |s.threads| && t < |s.tree|
    case End(t, id) => t < |s.threads| && t < |s.tree|
  }

  /** A span that was written: a sync one is open from now on. */
  ghost function Opened(s: State, t: nat, isAsync: bool, x: u64): State
    requires t < |s.threads| && t < |s.tree|
  {
    if isAsync then s.(spans := s.spans + [SetAsync(x)])
    else if x == NO_SPAN then s
    else s.(threads := s.threads[t := s.threads[t].(open := s.threads[t].open + [x])], spans := s.spans + [x],
            parents := s.parents[x := Innermost(s.threads[t].open)], tree := s.tree[t := s.tree[t] + {x}])
  }

  ghost function Taken(s: State, t: nat): State
    requires t < |s.threads|
  {
    var (th, counter, x) := TakeId(s.threads[t], s.counter);
    s.(counter := counter, threads := s.threads[t := th], ids := s.ids + [x])
  }

  ghost function Apply(s: State, step: Step): State
    requires Enabled(s, step)
  {
    match step
    case NewThread => s.(threads := s.threads + [Thread([], 0, 0)], tree := s.tree + [{}])
    case Begin(t, isAsync, outcome) =>
      if outcome.NoDescriptor? then s
      else if outcome.NoBuffer? then Taken(s, t)
      else Opened(Taken(s, t), t, isAsync, TakeId(s.threads[t], s.counter).2)
    case End(t, id) =>
      if id == NO_SPAN || IsAsync(id) then s
      else s.(threads := s.threads[t := s.threads[t].(open := Pop(s.threads[t].open, id))],
              tree := s.tree[t := Closed(s.tree[t], id)])
  }

  /** A run in which the counter never passes 2^63. */
  ghost predicate Run(states: seq<State>, steps: seq<Step>) {
    && |states| == |steps| + 1 && states[0] == State(1, [], [], [], map[], [])
    && (forall i :: 0 <= i < |steps| ==> Enabled(states[i], steps[i]) && states[i + 1] == Apply(states[i], steps[i]))
    && (forall i :: 0 <= i < |states| ==> states[i].counter <= ASYNC_BIT)
  }

  /** The identifier without the async bit. */
  function Raw(id: u64): u64 {
    if IsAsync(id) then id - ASYNC_BIT else id
  }

  ghost predicate ThreadOk(th: Thread, open: set<u64>, counter: u64) {
    && th.next <= th.end <= counter && Increasing(th.open) && open == Elements(th.open)
    && forall i :: 0 <= i < |th.open| ==> 1 <= th.open[i] < th.next
  }

  /** The parent of every open span is the one below it on the stack, or none. */
  predicate Nested(open: seq<u64>, parents: map<u64, u64>) {
    forall k :: 0 <= k < |open| ==> NestedAt(open, parents, k)
  }

  predicate NestedAt(open: seq<u64>, parents: map<u64, u64>, k: nat)
    requires k < |open|
  {
    open[k] in parents && parents[open[k]] == if k == 0 then NO_SPAN else open[k - 1]
  }

  predicate Apart(a: Thread, b: Thread) {
    a.next == a.end || b.next == b.end || a.end <= b.next || b.end <= a.next
  }

  /** An identifier that is used up lies in no thread's block. */
  predicate UsedUp(x: u64, counter: u64, threads: seq<Thread>) {
    1 <= x < counter && forall t :: 0 <= t < |threads| ==> !(threads[t].next <= x < threads[t].end)
  }

  ghost predicate Inv(s: State) {
    && 1 <= s.counter && |s.tree| == |s.threads|
    && (forall t :: 0 <= t < |s.threads| ==> ThreadOk(s.threads[t], s.tree[t], s.counter))
    && (forall t :: 0 <= t < |s.threads| && s.threads[t].next < s.threads[t].end ==> 1 <= s.threads[t].next)
    && (forall t, u :: 0 <= t < u < |s.threads| ==> Apart(s.threads[t], s.threads[u]))
    && (forall i :: 0 <= i < |s.ids| ==> UsedUp(s.ids[i], s.counter, s.threads))
    && (forall i, j :: 0 <= i < j < |s.ids| ==> s.ids[i] != s.ids[j])
    && (forall i :: 0 <= i < |s.spans| ==> Raw(s.spans[i]) in s.ids)
    && (forall i, j :: 0 <= i < j < |s.spans| ==> Raw(s.spans[i]) != Raw(s.spans[j]))
    && (forall t :: 0 <= t < |s.threads| ==> Nested(s.threads[t].open, s.parents))
    && (forall x :: x in s.parents ==> x in s.ids)
  }

  /** A new identifier was in the thread's own block, or in the one it just got. */
  lemma {:induction false} TakeKeeps(s: State, t: nat)
    requires Inv(s) && t < |s.threads| && s.counter <= ASYNC_BIT && Taken(s, t).counter <= ASYNC_BIT
    ensures var x := TakeId(s.threads[t], s.counter).2;
            var s' := Taken(s, t);
            && Inv(s') && x !in s.ids && 1 <= x < ASYNC_BIT && x == s'.ids[|s.ids|]
            && x < s'.threads[t].next && s'.threads[t].open == s.threads[t].open
            && forall i :: 0 <= i < |s.threads[t].open| ==> s.threads[t].open[i] < x
  {
    TakeFresh(s, t);
    TakeApart(s, t);
    var s' := Taken(s, t);
    hide UsedUp, Apart;
    forall u | 0 <= u < |s'.threads| ensures ThreadOk(s'.threads[u], s'.tree[u], s'.counter) {
      assert ThreadOk(s.threads[u], s.tree[u], s.counter);
    }
    forall i | 0 <= i < |s'.ids| ensures UsedUp(s'.ids[i], s'.counter, s'.threads) {
      TakeUses(s, t, i);
    }
  }

  lemma {:induction false} TakeFresh(s: State, t: nat)
    requires Inv(s) && t < |s.threads| && s.counter <= ASYNC_BIT && Taken(s, t).counter <= ASYNC_BIT
    ensures var (th, counter, x) := TakeId(s.threads[t], s.counter);
            && x !in s.ids && 1 <= x < ASYNC_BIT && x < th.next <= th.end <= counter
            && th.open == s.threads[t].open && s.counter <= counter && s.threads[t].next <= th.next
            && forall i :: 0 <= i < |th.open| ==> th.open[i] < x
  {
    var x := TakeId(s.threads[t], s.counter).2;
    assert ThreadOk(s.threads[t], s.tree[t], s.counter);
    forall i | 0 <= i < |s.ids| ensures s.ids[i] != x {
      assert UsedUp(s.ids[i], s.counter, s.threads);
    }
  }

  lemma {:induction false} TakeApart(s: State, t: nat)
    requires Inv(s) && t < |s.threads| && s.counter <= ASYNC_BIT && Taken(s, t).counter <= ASYNC_BIT
    ensures forall u, v :: 0 <= u < v < |s.threads| ==> Apart(Taken(s, t).threads[u], Taken(s, t).threads[v])
  {
    var s' := Taken(s, t);
    forall u, v | 0 <= u < v < |s.threads| ensures Apart(s'.threads[u], s'.threads[v]) {
      assert Apart(s.threads[u], s.threads[v]);
      assert ThreadOk(s.threads[u], s.tree[u], s.counter) && ThreadOk(s.threads[v], s.tree[v], s.counter);
    }
  }

  lemma {:induction false} TakeUses(s: State, t: nat, i: nat)
    requires Inv(s) && t < |s.threads| && i <= |s.ids| && s.counter <= ASYNC_BIT && Taken(s, t).counter <= ASYNC_BIT
    ensures var s' := Taken(s, t); UsedUp(s'.ids[i], s'.counter, s'.threads)
  {
    var s' := Taken(s, t);
    if i < |s.ids| {
      assert UsedUp(s.ids[i], s.counter, s.threads);
      assert s'.ids[i] == s.ids[i];
    }
    assert ThreadOk(s.threads[t], s.tree[t], s.counter);
    forall u | 0 <= u < |s'.threads| ensures !(s'.threads[u].next <= s'.ids[i] < s'.threads[u].end) {
      assert ThreadOk(s.threads[u], s.tree[u], s.counter);
      if u < t {
        assert Apart(s.threads[u], s.threads[t]);
      } else if t < u {
        assert Apart(s.threads[t], s.threads[u]);
      }
    }
  }

  /** A span just written: its identifier is the last one taken, and later than all open ones. */
  lemma {:induction false} OpenKeeps(s: State, t: nat, isAsync: bool, x: u64, old_: nat)
    requires Inv(s) && t < |s.threads| && |s.ids| == old_ + 1 && s.ids[old_] == x && 1 <= x < ASYNC_BIT
    requires x < s.threads[t].next && forall i :: 0 <= i < |s.threads[t].open| ==> s.threads[t].open[i] < x
    requires (forall i :: 0 <= i < |s.spans| ==> Raw(s.spans[i]) != x) && x !in s.parents
    ensures Inv(Opened(s, t, isAsync, x))
  {
    var s' := Opened(s, t, isAsync, x);
    assert Raw(s'.spans[|s.spans|]) == x;
    if !isAsync {
      SameBlocks(s, s');
      OpenStacks(s, t, x);
      hide ThreadOk, Nested, Apart, UsedUp;
    } else {
      hide ThreadOk, Nested, Apart, UsedUp;
    }
  }

  lemma {:induction false} OpenStacks(s: State, t: nat, x: u64)
    requires Inv(s) && t < |s.threads| && 1 <= x < s.threads[t].next && x !in s.parents
    requires forall i :: 0 <= i < |s.threads[t].open| ==> s.threads[t].open[i] < x
    ensures var s' := Opened(s, t, false, x);
            forall u :: 0 <= u < |s'.threads| ==>
              Nested(s'.threads[u].open, s'.parents) && ThreadOk(s'.threads[u], s'.tree[u], s'.counter)
  {
    hide Elements, Increasing, Nested, Apart, UsedUp;
    var s' := Opened(s, t, false, x);
    StackGrows(s.threads[t].open, x);
    forall u | 0 <= u < |s'.threads|
      ensures Nested(s'.threads[u].open, s'.parents) && ThreadOk(s'.threads[u], s'.tree[u], s'.counter)
    {
      assert ThreadOk(s.threads[u], s.tree[u], s.counter) && Nested(s.threads[u].open, s.parents);
      NestedGrows(s.threads[u].open, s.parents, x);
      NestedKept(s.threads[u].open, s.parents, x, Innermost(s.threads[t].open));
    }
  }

  lemma {:induction false} StackGrows(open: seq<u64>, x: u64)
    ensures Elements(open + [x]) == Elements(open) + {x}
    ensures Increasing(open) && (forall i :: 0 <= i < |open| ==> open[i] < x) ==> Increasing(open + [x])
  {
  }

  /** A new innermost span is nested, ... */
  lemma {:induction false} NestedGrows(open: seq<u64>, parents: map<u64, u64>, x: u64)
    requires Nested(open, parents) && x !in parents
    ensures Nested(open + [x], parents[x := Innermost(open)])
  {
    var o, q := open + [x], parents[x := Innermost(open)];
    forall k | 0 <= k < |o| ensures NestedAt(o, q, k) {
      if k < |open| {
        assert NestedAt(open, parents, k);
      }
    }
  }

  /** ... and everyone else's stay so. */
  lemma {:induction false} NestedKept(open: seq<u64>, parents: map<u64, u64>, x: u64, p: u64)
    requires Nested(open, parents) && x !in parents
    ensures Nested(open, parents[x := p])
  {
    var q := parents[x := p];
    forall k | 0 <= k < |open| ensures NestedAt(open, q, k) {
      assert NestedAt(open, parents, k);
    }
  }

  lemma {:induction false} NestedPrefix(open: seq<u64>, part: seq<u64>, parents: map<u64, u64>)
    requires Nested(open, parents) && part <= open
    ensures Nested(part, parents)
  {
    forall k | 0 <= k < |part| ensures NestedAt(part, parents, k) {
      assert NestedAt(open, parents, k);
    }
  }

  lemma {:induction false} EndKeeps(s: State, t: nat, id: u64)
    requires Inv(s) && Enabled(s, End(t, id))
    ensures Inv(Apply(s, End(t, id)))
  {
    var s' := Apply(s, End(t, id));
    if s' != s {
      var open := s.threads[t].open;
      assert ThreadOk(s.threads[t], s.tree[t], s.counter);
      PopCloses(open, id);
      NestedPrefix(open, Pop(open, id), s.parents);
      hide Pop, Increasing, Elements, Closed, Nested;
      forall i | 0 <= i < |Pop(open, id)| ensures Pop(open, id)[i] == open[i] {
      }
      SameBlocks(s, s');
    }
  }

  /** Opening and closing spans moves no block of identifiers. */
  lemma {:induction false} SameBlocks(s: State, s': State)
    requires Inv(s) && |s'.threads| == |s.threads| && s'.counter == s.counter && s'.ids == s.ids
    requires forall t :: 0 <= t < |s.threads| ==>
               s'.threads[t].next == s.threads[t].next && s'.threads[t].end == s.threads[t].end
    ensures forall u, v :: 0 <= u < v < |s'.threads| ==> Apart(s'.threads[u], s'.threads[v])
    ensures forall i :: 0 <= i < |s'.ids| ==> UsedUp(s'.ids[i], s'.counter, s'.threads)
  {
    forall u, v | 0 <= u < v < |s.threads| ensures Apart(s'.threads[u], s'.threads[v]) {
      assert Apart(s.threads[u], s.threads[v]);
    }
    forall i | 0 <= i < |s.ids| ensures UsedUp(s'.ids[i], s'.counter, s'.threads) {
      assert UsedUp(s.ids[i], s.counter, s.threads);
    }
  }

  lemma {:induction false} NewThreadKeeps(s: State)
    requires Inv(s)
    ensures Inv(Apply(s, NewThread))
  {
    var s' := Apply(s, NewThread);
    assert Elements([]) == {};
    forall i | 0 <= i < |s.ids| ensures UsedUp(s'.ids[i], s'.counter, s'.threads) {
      assert UsedUp(s.ids[i], s.counter, s.threads);
    }
    forall u, v | 0 <= u < v < |s'.threads| ensures Apart(s'.threads[u], s'.threads[v]) {
      if v < |s.threads| {
        assert Apart(s.threads[u], s.threads[v]);
      }
    }
  }

  lemma {:induction false} BeginKeeps(s: State, t: nat, isAsync: bool, outcome: Outcome)
    requires Inv(s) && Enabled(s, Begin(t, isAsync, outcome))
    requires s.counter <= ASYNC_BIT && Apply(s, Begin(t, isAsync, outcome)).counter <= ASYNC_BIT
    ensures Inv(Apply(s, Begin(t, isAsync, outcome)))
  {
    hide Inv, TakeId;
    if !outcome.NoDescriptor? {
      var x := TakeId(s.threads[t], s.counter).2;
      TakeKeeps(s, t);
      if outcome.Written? {
        SpansTaken(s, x);
        assert Taken(s, t).parents == s.parents && Taken(s, t).spans == s.spans;
        OpenKeeps(Taken(s, t), t, isAsync, x, |s.ids|);
      }
    }
  }

  lemma {:induction false} SpansTaken(s: State, x: u64)
    requires Inv(s) && x !in s.ids
    ensures (forall i :: 0 <= i < |s.spans| ==> Raw(s.spans[i]) != x) && x !in s.parents
  {
  }

  lemma {:induction false} InvHolds(states: seq<State>, steps: seq<Step>, i: nat)
    requires Run(states, steps) && i < |states|
    ensures Inv(states[i])
  {
    if i > 0 {
      hide Inv, Apply, Enabled;
      InvHolds(states, steps, i - 1);
      var s := states[i - 1];
      match steps[i - 1]
      case NewThread => NewThreadKeeps(s);
      case Begin(t, isAsync, outcome) =>
        IsEnabled(s, steps[i - 1]);
        assert states[i].counter <= ASYNC_BIT && states[i] == Apply(s, Begin(t, isAsync, outcome));
        BeginKeeps(s, t, isAsync, outcome);
      case End(t, id) => EndKeeps(s, t, id);
    }
  }

  lemma {:induction false} IsEnabled(s: State, step: Step)
    requires Enabled(s, step) && step.Begin?
    ensures step.t < |s.threads| && step.t < |s.tree|
  {
  }

  /** In every run: a thread's stack is strictly increasing and holds exactly the spans the reference calls open; the
      parent recorded for each of them is the next one further out, or none. */
  lemma {:induction false} SpanTree(states: seq<State>, steps: seq<Step>, i: nat, t: nat)
    requires Run(states, steps) && i < |states| && t < |states[i].threads|
    ensures var s := states[i];
            var open := s.threads[t].open;
            && Increasing(open) && t < |s.tree| && s.tree[t] == Elements(open)
            && forall k {:trigger open[k]} :: 0 <= k < |open| ==>
                 open[k] in s.parents && s.parents[open[k]] == if k == 0 then NO_SPAN else open[k - 1]
  {
    InvHolds(states, steps, i);
    var s := states[i];
    assert ThreadOk(s.threads[t], s.tree[t], s.counter);
    var open := s.threads[t].open;
    assert Nested(open, s.parents);
    forall k {:trigger open[k]} | 0 <= k < |open|
      ensures open[k] in s.parents && s.parents[open[k]] == if k == 0 then NO_SPAN else open[k - 1]
    {
      assert NestedAt(open, s.parents, k);
    }
  }

  /** Step `i` began the sync span `x`. */
  ghost predicate BeganAt(states: seq<State>, steps: seq<Step>, i: nat, x: u64)
    requires |states| == |steps| + 1
  {
    && i < |steps| && steps[i].Begin? && !steps[i].isAsync && steps[i].outcome.Written?
    && steps[i].t < |states[i].threads| && steps[i].t < |states[i].tree| && x !in states[i].parents
    && x == TakeId(states[i].threads[steps[i].t], states[i].counter).2
  }

  /** The innermost unclosed span of a thread in the reference: the latest of the open ones, or none. */
  ghost predicate IsInnermost(open: set<u64>, p: u64) {
    if open == {} then p == NO_SPAN else p in open && forall x :: x in open ==> x <= p
  }

  /** In every run, whatever happened since: the parent on record of a sync span is the span that was the innermost
      unclosed one of its own thread when it began, or 0 if there was none. */
  lemma {:induction false} ParentWasInnermost(states: seq<State>, steps: seq<Step>, n: nat, x: u64)
    requires Run(states, steps) && n < |states| && x in states[n].parents
    ensures exists i ::
              && 0 <= i < n && BeganAt(states, steps, i, x)
              && IsInnermost(states[i].tree[steps[i].t], states[n].parents[x])
  {
    var s, step := states[n - 1], steps[n - 1];
    if x in s.parents {
      ParentWasInnermost(states, steps, n - 1, x);
      InvHolds(states, steps, n - 1);
      ParentsStay(s, step, states[n], x);
      var i :| 0 <= i < n - 1 && BeganAt(states, steps, i, x) && IsInnermost(states[i].tree[steps[i].t], s.parents[x]);
      assert BeganAt(states, steps, i, x);
    } else {
      InvHolds(states, steps, n - 1);
      NewParent(s, step, x);
      assert BeganAt(states, steps, n - 1, x);
    }
  }

  lemma {:induction false} ParentsStay(s: State, step: Step, s': State, x: u64)
    requires Inv(s) && Enabled(s, step) && s' == Apply(s, step) && x in s.parents
    requires s.counter <= ASYNC_BIT && s'.counter <= ASYNC_BIT
    ensures x in s'.parents && s'.parents[x] == s.parents[x]
  {
    if step.Begin? && !step.outcome.NoDescriptor? {
      TakeFresh(s, step.t);
    }
  }

  lemma {:induction false} NewParent(s: State, step: Step, x: u64)
    requires Inv(s) && Enabled(s, step) && x !in s.parents && x in Apply(s, step).parents
    ensures step.Begin? && !step.isAsync && step.outcome.Written? && x == TakeId(s.threads[step.t], s.counter).2
    ensures IsInnermost(s.tree[step.t], Apply(s, step).parents[x])
  {
    hide TakeId;
    var t := step.t;
    assert ThreadOk(s.threads[t], s.tree[t], s.counter);
    KeepsOpen(s.threads[t], s.counter);
    InnermostIsLatest(s.threads[t].open);
    if s.threads[t].open != [] {
      assert Innermost(s.threads[t].open) in s.tree[t];
    }
  }

  lemma {:induction false} KeepsOpen(th: Thread, counter: u64)
    ensures TakeId(th, counter).0.open == th.open
  {
  }

  /** In every run: ending a span closes it and everything opened inside it on its thread; the end of an async span,
      of a span of another thread or of one already closed leaves every stack alone. */
  lemma {:induction false} EndClosesExactly(states: seq<State>, steps: seq<Step>, i: nat, u: nat)
    requires Run(states, steps) && i < |steps| && steps[i].End? && u < |states[i].threads|
    ensures var t, id := steps[i].t, steps[i].id;
            var before, after := states[i].threads, states[i + 1].threads;
            && |after| == |before|
            && (u != t || id !in before[u].open ==> after[u] == before[u])
            && (u == t && id in before[u].open ==>
                  Elements(after[u].open) == set x | x in before[u].open && x < id)
  {
    InvHolds(states, steps, i);
    var s, t, id := states[i], steps[i].t, steps[i].id;
    assert ThreadOk(s.threads[u], s.tree[u], s.counter);
    if u == t {
      PopCloses(s.threads[u].open, id);
      if id !in s.threads[u].open {
        PopMissing(s.threads[u].open, id);
      } else {
        assert s.threads[u].next <= s.counter <= ASYNC_BIT;
      }
    }
  }

  /** In every run: the identifiers begin calls returned are all different, ... */
  lemma {:induction false} IdsDistinct(states: seq<State>, steps: seq<Step>, i: nat, j: nat, k: nat)
    requires Run(states, steps) && i < |states| && j < k < |states[i].spans|
    ensures states[i].spans[j] != states[i].spans[k]
  {
    InvHolds(states, steps, i);
  }

  /** ... and none is 0. */
  lemma {:induction false} IdsNotZero(states: seq<State>, steps: seq<Step>, i: nat, j: nat)
    requires Run(states, steps) && i < |states| && j < |states[i].spans|
    ensures states[i].spans[j] != NO_SPAN
  {
    InvHolds(states, steps, i);
    var s := states[i];
    assert Raw(s.spans[j]) in s.ids;
  }

  /** In every run a begin returns one identifier if it was written, and that has its top bit exactly for an async
      span; without the bit it is the next of the thread's block, or of a new one once that is used up. An identifier
      is used up whether the span was written or not, unless there was no descriptor. */
  lemma {:induction false} AsyncTells(states: seq<State>, steps: seq<Step>, i: nat)
    requires Run(states, steps) && i < |steps| && steps[i].Begin?
    ensures steps[i].t < |states[i].threads| && steps[i].t < |states[i + 1].threads|
    ensures var th, th' := states[i].threads[steps[i].t], states[i + 1].threads[steps[i].t];
            if steps[i].outcome.NoDescriptor? then states[i + 1] == states[i]
            else th'.next == 1 + if th.next != th.end then th.next else states[i].counter
    ensures var was, now := states[i].spans, states[i + 1].spans;
            if !steps[i].outcome.Written? then now == was
            else
              && |now| == |was| + 1 && now[..|was|] == was
              && (now[|was|] >= 0x8000_0000_0000_0000 <==> steps[i].isAsync)
              && var th := states[i].threads[steps[i].t];
                 now[|was|] % 0x8000_0000_0000_0000 == if th.next != th.end then th.next else states[i].counter
  {
    InvHolds(states, steps, i);
    var s, step := states[i], steps[i];
    IsEnabled(s, step);
    if !step.outcome.NoDescriptor? {
      assert states[i + 1].counter <= ASYNC_BIT && states[i + 1] == Apply(s, step);
      TakeKeeps(s, step.t);
      hide Inv;
    }
  }

  // ---------------------------------------------------------------------------------------------------------------
  // The class takes these steps

  /** The object `w` is thread `t` of the machine. */
  predicate Shows(w: SpanWriter, s: State, t: nat)
    reads w, w.core
  {
    t < |s.threads| && t < |s.tree| && s.threads[t] == w.Abs() && s.counter == w.core.counter
  }

  /** A sync begin is a Begin step, and the parent it returns for its record is the one the machine files. */
  method SyncBegin(w: SpanWriter, outcome: Outcome, ghost s: State, ghost t: nat) returns (id: u64, parent: u64)
    requires Shows(w, s, t)
    modifies w, w.core
    ensures Shows(w, Apply(s, Begin(t, false, outcome)), t)
    ensures id != NO_SPAN ==>
              var s' := Apply(s, Begin(t, false, outcome));
              s'.spans == s.spans + [id] && s'.parents == s.parents[id := parent]
  {
    id, parent := w.Begin(outcome);
  }

  method AsyncBegin(w: SpanWriter, outcome: Outcome, ghost s: State, ghost t: nat) returns (id: u64)
    requires Shows(w, s, t)
    modifies w, w.core
    ensures Shows(w, Apply(s, Begin(t, true, outcome)), t)
    ensures outcome.Written? ==> Apply(s, Begin(t, true, outcome)).spans == s.spans + [id]
  {
    id := w.WriteBegin(true, outcome);
  }

  method EndSpan(w: SpanWriter, id: u64, ghost s: State, ghost t: nat) returns (written: bool)
    requires Shows(w, s, t)
    modifies w
    ensures Shows(w, Apply(s, End(t, id)), t)
  {
    written := w.End(id);
  }
}

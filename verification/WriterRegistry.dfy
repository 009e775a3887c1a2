/** The registry of live writers (engine/p8_core.cpp): a doubly linked list through the writers themselves, new ones in
    front. The collection protocol uses the sequence it stands for. */
module WriterRegistry {
  import Collection

  const ID_MOD: nat := 0x1_0000_0000

  class Node {
    var prev: Node?
    var next: Node?
    var id: nat

    constructor ()
      ensures prev == null && next == null
    {
      prev, next, id := null, null, 0;
    }
  }

  /** As long as the numbers have not wrapped, no two writers share one. */
  ghost predicate Unique(ids: seq<nat>, total: nat) {
    && (forall i :: 0 <= i < |ids| ==> 1 <= ids[i] <= total)
    && (forall i, j :: 0 <= i < j < |ids| ==> ids[i] != ids[j])
  }

  lemma {:induction false} NextNumber(ids: seq<nat>, total: nat)
    requires total < ID_MOD ==> Unique(ids, total)
    ensures (total % ID_MOD + 1) % ID_MOD == (total + 1) % ID_MOD
    ensures total + 1 < ID_MOD ==> Unique([(total + 1) % ID_MOD] + ids, total + 1)
  {
  }

  lemma {:induction false} NumberGone(ids: seq<nat>, k: nat, total: nat)
    requires k < |ids| && (total < ID_MOD ==> Unique(ids, total))
    ensures total < ID_MOD ==> Unique(ids[..k] + ids[k + 1..], total)
    ensures total < ID_MOD ==> ids[..k] + ids[k + 1..] == Collection.Without(ids, ids[k])
  {
    hide *;
    if total < ID_MOD {
      UniqueCut(ids, k, total);
      UnlinkIsWithout(ids, k);
    }
  }

  lemma {:induction false} UniqueCut(ids: seq<nat>, k: nat, total: nat)
    requires k < |ids| && Unique(ids, total)
    ensures Unique(ids[..k] + ids[k + 1..], total)
    ensures forall i, j :: 0 <= i < j < |ids| ==> ids[i] != ids[j]
  {
  }

  function After(list: seq<Node>, i: nat): Node? {
    if i + 1 < |list| then list[i + 1] else null
  }

  function BeforeIt(list: seq<Node>, i: nat): Node? {
    if 0 < i <= |list| then list[i - 1] else null
  }

  /** The neighbours in a list with entry `k` taken out. */
  lemma {:induction false} Neighbours(was: seq<Node>, k: nat, i: nat)
    requires k < |was| && i < |was| - 1
    ensures var list, x := was[..k] + was[k + 1..], if i < k then i else i + 1;
            && list[i] == was[x]
            && After(list, i) == (if x + 1 == k then After(was, k) else After(was, x))
            && BeforeIt(list, i) == (if x == k + 1 then BeforeIt(was, k) else BeforeIt(was, x))
  {
  }

  lemma {:induction false} StillDistinct(was: seq<Node>, k: nat)
    requires k < |was| && forall i, j :: 0 <= i < j < |was| ==> was[i] != was[j]
    ensures var list := was[..k] + was[k + 1..]; forall i, j :: 0 <= i < j < |list| ==> list[i] != list[j]
  {
  }

  lemma {:induction false} FirstOf(was: seq<Node>, k: nat)
    requires k < |was|
    ensures var list := was[..k] + was[k + 1..];
            (if list == [] then null else list[0]) == if k == 0 then After(was, 0) else was[0]
  {
  }

  class Registry {
    var head: Node?
    var count: nat
    var lastId: nat

    /** The writers from the head on, and their numbers. */
    ghost var list: seq<Node>
    ghost var ids: seq<nat>
    /** How many writers ever came. */
    ghost var total: nat

    constructor ()
      ensures Valid() && list == [] && ids == [] && lastId == 0 && total == 0
    {
      head, count, lastId, list, ids, total := null, 0, 0, [], [], 0;
    }

    ghost predicate Distinct()
      reads this`list
    {
      forall i, j :: 0 <= i < j < |list| ==> list[i] != list[j]
    }

    ghost predicate Linked()
      reads this`list, list
    {
      forall i :: 0 <= i < |list| ==> list[i].next == After(list, i) && list[i].prev == BeforeIt(list, i)
    }

    ghost predicate Valid()
      reads this, list
    {
      && count == |list| == |ids| && Distinct() && Linked() && head == BeforeHead()
      && (forall i :: 0 <= i < |list| ==> list[i].id == ids[i])
      && lastId == total % ID_MOD && (total < ID_MOD ==> Unique(ids, total))
    }

    ghost function BeforeHead(): Node?
      reads this`list
    {
      if list == [] then null else list[0]
    }

    method Register(n: Node)
      requires Valid() && n !in list
      modifies this, n, (if head == null then {} else {head})`prev
      ensures Valid() && list == [n] + old(list) && total == old(total) + 1
      ensures lastId == (old(lastId) + 1) % ID_MOD && n.id == lastId && ids == [lastId] + old(ids)
    {
      hide Linked, After, BeforeIt, Distinct, Unique;
      ghost var was, wasIds := list, ids;
      AllDistinct();
      lastId := (lastId + 1) % ID_MOD;
      n.id := lastId;
      LinkFront(n);
      count := count + 1;
      list, ids, total := [n] + list, [lastId] + ids, total + 1;
      NextNumber(wasIds, total - 1);
      FrontLinked(was, wasIds, n);
    }

    /** `n` in front of the old head. */
    method LinkFront(n: Node)
      requires Distinct() && Linked() && head == BeforeHead() && n !in list
      modifies this`head, n`prev, n`next, (if head == null then {} else {head})`prev
      ensures head == n && n.prev == null && n.next == old(BeforeHead())
      ensures forall i :: 0 <= i < |list| ==>
                list[i].next == After(list, i) && list[i].prev == if i == 0 then n else BeforeIt(list, i)
    {
      n.prev := null;
      n.next := head;
      if head != null {
        head.prev := n;
      }
      head := n;
    }

    lemma FrontLinked(was: seq<Node>, wasIds: seq<nat>, n: Node)
      requires list == [n] + was && |was| == |wasIds| && ids == [n.id] + wasIds && n !in was && head == n
      requires forall i, j :: 0 <= i < j < |was| ==> was[i] != was[j]
      requires n.prev == null && n.next == if was == [] then null else was[0]
      requires forall i :: 0 <= i < |was| ==>
                 was[i].next == After(was, i) && was[i].prev == if i == 0 then n else BeforeIt(was, i)
      requires forall i :: 0 <= i < |was| ==> was[i].id == wasIds[i]
      ensures Distinct() && Linked() && head == BeforeHead() && forall i :: 0 <= i < |list| ==> list[i].id == ids[i]
    {
      forall i | 0 <= i < |list|
        ensures list[i].next == After(list, i) && list[i].prev == BeforeIt(list, i) && list[i].id == ids[i]
      {
        if i > 0 {
          assert list[i] == was[i - 1] && ids[i] == wasIds[i - 1];
        }
      }
    }

    /** unregister_writer; `k` is the place of `n` in the list. */
    method Unregister(n: Node, ghost k: nat)
      requires Valid() && k < |list| && list[k] == n
      modifies this, n`prev, n`next
      modifies (if n.prev == null then {} else {n.prev})`next, (if n.next == null then {} else {n.next})`prev
      ensures Valid() && list == old(list)[..k] + old(list)[k + 1..] && lastId == old(lastId) && total == old(total)
      ensures ids == old(ids)[..k] + old(ids)[k + 1..]
      ensures total < ID_MOD ==> ids == Collection.Without(old(ids), n.id)
    {
      hide Linked, After, BeforeIt, Distinct, Unique;
      ghost var was := list;
      AllDistinct();
      Unlink(n, k);
      count := count - 1;
      list, ids := list[..k] + list[k + 1..], ids[..k] + ids[k + 1..];
      Relinked(was, k);
      NumberGone(old(ids), k, total);
    }

    lemma AllDistinct()
      requires Distinct()
      ensures forall i, j :: 0 <= i < j < |list| ==> list[i] != list[j]
    {
    }

    lemma Relinked(was: seq<Node>, k: nat)
      requires k < |was| == |ids| + 1 && list == was[..k] + was[k + 1..]
      requires forall i, j :: 0 <= i < j < |was| ==> was[i] != was[j]
      requires forall i :: 0 <= i < |was| && i != k ==>
                && was[i].next == (if i + 1 == k then After(was, k) else After(was, i))
                && was[i].prev == (if i == k + 1 then BeforeIt(was, k) else BeforeIt(was, i))
      requires forall i {:trigger was[i]} :: 0 <= i < |was| && i != k ==>
                 was[i].id == if i < k then ids[i] else ids[i - 1]
      requires head == if k == 0 then After(was, 0) else was[0]
      ensures Distinct() && Linked() && head == BeforeHead() && forall i :: 0 <= i < |list| ==> list[i].id == ids[i]
    {
      hide After, BeforeIt;
      forall i | 0 <= i < |list|
        ensures list[i].next == After(list, i) && list[i].prev == BeforeIt(list, i) && list[i].id == ids[i]
      {
        Neighbours(was, k, i);
        var x := if i < k then i else i + 1;
        assert was[x].id == if x < k then ids[x] else ids[x - 1];
      }
      StillDistinct(was, k);
      assert head == BeforeHead() by {
        FirstOf(was, k);
      }
    }

    /** The neighbours of `n` are linked to each other. */
    method Unlink(n: Node, ghost k: nat)
      requires Valid() && k < |list| && list[k] == n
      modifies this`head, n`prev, n`next
      modifies (if n.prev == null then {} else {n.prev})`next, (if n.next == null then {} else {n.next})`prev
      ensures forall i :: 0 <= i < |list| && i != k ==>
                && list[i].next == (if i + 1 == k then After(list, k) else After(list, i))
                && list[i].prev == (if i == k + 1 then BeforeIt(list, k) else BeforeIt(list, i))
      ensures head == if k == 0 then After(list, 0) else list[0]
    {
      assert n.next == After(list, k) && n.prev == BeforeIt(list, k);
      if n.prev != null {
        n.prev.next := n.next;
      } else {
        head := n.next;
      }
      if n.next != null {
        n.next.prev := n.prev;
      }
      n.next := null;
      n.prev := null;
    }

    /** The walk of the worker over the writers. */
    method Visit() returns (visited: seq<nat>)
      requires Valid()
      ensures visited == ids
    {
      hide Distinct, Unique;
      visited := [];
      var cur := head;
      while cur != null
        invariant |visited| <= |list| && visited == ids[..|visited|]
        invariant cur == if |visited| < |list| then list[|visited|] else null
        decreases |list| - |visited|
      {
        visited := visited + [cur.id];
        cur := cur.next;
      }
    }
  }

  /** Unlinking one writer is what the collection protocol takes it to be. */
  lemma {:induction false} UnlinkIsWithout(ids: seq<nat>, k: nat)
    requires k < |ids| && forall i, j :: 0 <= i < j < |ids| ==> ids[i] != ids[j]
    ensures ids[..k] + ids[k + 1..] == Collection.Without(ids, ids[k])
    decreases |ids|
  {
    if k > 0 {
      UnlinkIsWithout(ids[1..], k - 1);
      assert ids[..k] + ids[k + 1..] == [ids[0]] + (ids[1..][..k - 1] + ids[1..][k..]);
    }
  }
}

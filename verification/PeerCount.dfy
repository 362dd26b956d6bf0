/** The count of connections per peer, a singly linked list that is changed through a pointer to the
    link in front of an item. src/filter_frontend_net.cpp:971-1035. */
module PeerCount {

  // ---------- the list as a value ----------

  datatype Entry = Entry(peer: string, cnt: nat)

  function Count(list: seq<Entry>, peer: string): nat {
    if list == [] then 0 else if list[0].peer == peer then list[0].cnt else Count(list[1..], peer)
  }

  predicate Has(list: seq<Entry>, peer: string) {
    list != [] && (list[0].peer == peer || Has(list[1..], peer))
  }

  /** One more connection of a peer that is in the list. */
  function Bumped(list: seq<Entry>, peer: string): (r: seq<Entry>)
    requires Has(list, peer)
  {
    if list[0].peer == peer then [Entry(peer, list[0].cnt + 1)] + list[1..] else [list[0]] + Bumped(list[1..], peer)
  }

  function Added(list: seq<Entry>, peer: string): seq<Entry> {
    if Has(list, peer) then Bumped(list, peer) else [Entry(peer, 1)] + list
  }

  function Removed(list: seq<Entry>, peer: string): seq<Entry> {
    if list == [] then []
    else if list[0].peer == peer then
      if list[0].cnt <= 1 then list[1..] else [Entry(peer, list[0].cnt - 1)] + list[1..]
    else [list[0]] + Removed(list[1..], peer)
  }

  /** No peer stands twice, and no count is zero. */
  ghost predicate Proper(list: seq<Entry>) {
    list != [] ==> list[0].cnt > 0 && !Has(list[1..], list[0].peer) && Proper(list[1..])
  }

  lemma {:induction false} CountAbsent(list: seq<Entry>, p: string)
    requires Proper(list)
    ensures Has(list, p) <==> Count(list, p) > 0
  {
    if list != [] && list[0].peer != p { CountAbsent(list[1..], p); }
  }

  lemma {:induction false} BumpedCounts(list: seq<Entry>, peer: string, p: string)
    requires Proper(list) && Has(list, peer)
    ensures Proper(Bumped(list, peer)) && (Has(Bumped(list, peer), p) <==> Has(list, p))
    ensures Count(Bumped(list, peer), p) == Count(list, p) + if p == peer then 1 else 0
  {
    var after := Bumped(list, peer);
    if list[0].peer == peer {
      assert after[1..] == list[1..];
    } else {
      assert after[1..] == Bumped(list[1..], peer);
      BumpedCounts(list[1..], peer, p);
      BumpedCounts(list[1..], peer, list[0].peer);
    }
  }

  lemma AddedCounts(list: seq<Entry>, peer: string, p: string)
    requires Proper(list)
    ensures Proper(Added(list, peer))
    ensures Count(Added(list, peer), p) == Count(list, p) + if p == peer then 1 else 0
  {
    if Has(list, peer) {
      BumpedCounts(list, peer, p);
    } else {
      assert Added(list, peer)[1..] == list;
      CountAbsent(list, peer);
    }
  }

  lemma {:induction false} RemovedCounts(list: seq<Entry>, peer: string, p: string)
    requires Proper(list)
    ensures Proper(Removed(list, peer)) && (Has(Removed(list, peer), p) ==> Has(list, p))
    ensures Count(Removed(list, peer), p) == if p == peer && Count(list, p) > 0 then Count(list, p) - 1 else Count(list, p)
  {
    if list != [] {
      var after := Removed(list, peer);
      if list[0].peer != peer {
        assert after[1..] == Removed(list[1..], peer);
        RemovedCounts(list[1..], peer, p);
        RemovedCounts(list[1..], peer, list[0].peer);
      } else if list[0].cnt > 1 {
        assert after[1..] == list[1..];
      } else {
        CountAbsent(list[1..], peer);
      }
    }
  }

  /** Position k is where the peer stands first, or the end. */
  ghost predicate FirstAt(list: seq<Entry>, peer: string, k: nat) {
    k <= |list| && (k < |list| ==> list[k].peer == peer) && forall i :: 0 <= i < k ==> list[i].peer != peer
  }

  lemma FirstAtTail(list: seq<Entry>, peer: string, k: nat)
    requires FirstAt(list, peer, k) && k > 0
    ensures FirstAt(list[1..], peer, k - 1) && list[0].peer != peer
  {
    assert forall i :: 0 <= i < k - 1 ==> list[1..][i] == list[i + 1];
  }

  lemma {:induction false} FoundAt(list: seq<Entry>, peer: string, k: nat)
    requires FirstAt(list, peer, k)
    ensures Has(list, peer) <==> k < |list|
    ensures Count(list, peer) == if k < |list| then list[k].cnt else 0
    ensures k < |list| ==> Bumped(list, peer) == list[k := Entry(peer, list[k].cnt + 1)]
    decreases k
  {
    if k > 0 {
      FirstAtTail(list, peer, k);
      FoundAt(list[1..], peer, k - 1);
      assert list == [list[0]] + list[1..];
    } else if list != [] {
      assert list[0 := Entry(peer, list[0].cnt + 1)] == [Entry(peer, list[0].cnt + 1)] + list[1..];
    }
  }

  lemma ConsCut(list: seq<Entry>, k: nat, e: Entry)
    requires 0 < k < |list|
    ensures [list[0]] + (list[1..][..k - 1] + list[1..][k..]) == list[..k] + list[k + 1..]
    ensures [list[0]] + list[1..][k - 1 := e] == list[k := e]
  {
    var (x, y) := (list[1..][..k - 1], list[1..][k..]);
    assert y == list[k + 1..] && [list[0]] + x == list[..k];
    assert [list[0]] + (x + y) == ([list[0]] + x) + y;
  }

  lemma {:induction false} RemovedAt(list: seq<Entry>, peer: string, k: nat)
    requires FirstAt(list, peer, k)
    ensures Removed(list, peer) ==
      if k == |list| then list
      else if list[k].cnt <= 1 then list[..k] + list[k + 1..]
      else list[k := Entry(peer, list[k].cnt - 1)]
    decreases k
  {
    if k > 0 {
      FirstAtTail(list, peer, k);
      hide FirstAt;
      RemovedAt(list[1..], peer, k - 1);
      if k < |list| {
        ConsCut(list, k, Entry(peer, if list[k].cnt > 1 then list[k].cnt - 1 else 0));
      } else {
        assert list == [list[0]] + list[1..];
      }
    } else if list != [] {
      assert list[..0] + list[1..] == list[1..];
      if list[0].cnt > 1 {
        assert list[0 := Entry(peer, list[0].cnt - 1)] == [Entry(peer, list[0].cnt - 1)] + list[1..];
      }
    }
  }

  lemma CutUpdated(list: seq<Entry>, k: nat, e: Entry)
    requires k < |list|
    ensures list[k := e][..k] + list[k := e][k + 1..] == list[..k] + list[k + 1..]
  {
    assert list[k := e][..k] == list[..k] && list[k := e][k + 1..] == list[k + 1..];
  }

  lemma {:induction false} PositiveAt(list: seq<Entry>, k: nat)
    requires Proper(list) && k < |list|
    ensures list[k].cnt > 0
    decreases k
  {
    if k > 0 { PositiveAt(list[1..], k - 1); }
  }

  /** What adding means for the entry at position k. */
  lemma AddPlan(list: seq<Entry>, peer: string, k: nat)
    requires Proper(list) && FirstAt(list, peer, k)
    ensures k <= |list| && Proper(Added(list, peer)) && Count(Added(list, peer), peer) == if k < |list| then list[k].cnt + 1 else 1
    ensures Added(list, peer) == if k < |list| then list[k := Entry(list[k].peer, list[k].cnt + 1)] else [Entry(peer, 1)] + list
  {
    hide Proper, Count, Has, Bumped;
    AddedCounts(list, peer, peer);
    FoundAt(list, peer, k);
  }

  /** What removing means for it; an entry whose count reaches zero is cut out. */
  lemma RemovePlan(list: seq<Entry>, peer: string, k: nat)
    requires Proper(list) && FirstAt(list, peer, k)
    ensures k <= |list| && Proper(Removed(list, peer))
    ensures if k == |list| then Removed(list, peer) == list && Count(list, peer) == 0
            else
              var counted := list[k := Entry(list[k].peer, if list[k].cnt > 0 then list[k].cnt - 1 else 0)];
              list[k].cnt > 0 && Count(Removed(list, peer), peer) == list[k].cnt - 1
              && Removed(list, peer) == if counted[k].cnt == 0 then counted[..k] + counted[k + 1..] else counted
  {
    hide Proper, Count, Has, Removed;
    RemovedCounts(list, peer, peer);
    FoundAt(list, peer, k);
    RemovedAt(list, peer, k);
    if k < |list| {
      PositiveAt(list, k);
      CutUpdated(list, k, Entry(peer, list[k].cnt - 1));
    }
  }

  datatype Op = Add(peer: string) | Remove(peer: string)

  /** The multiset: removing an absent peer does nothing. */
  function Bag(ops: seq<Op>): multiset<string> {
    if ops == [] then multiset{}
    else
      var (before, op) := (Bag(ops[..|ops| - 1]), ops[|ops| - 1]);
      if op.Add? then before + multiset{op.peer} else before - multiset{op.peer}
  }

  function ListOf(ops: seq<Op>): seq<Entry> {
    if ops == [] then []
    else
      var (before, op) := (ListOf(ops[..|ops| - 1]), ops[|ops| - 1]);
      if op.Add? then Added(before, op.peer) else Removed(before, op.peer)
  }

  /** Over every sequence of operations the list counts the multiset. */
  lemma {:induction false} ListCountsBag(ops: seq<Op>, p: string)
    ensures Proper(ListOf(ops)) && Count(ListOf(ops), p) == Bag(ops)[p]
  {
    hide Proper, Added, Removed, Count;
    if ops == [] {
      EmptyCounts(p);
    } else {
      var (before, op) := (ops[..|ops| - 1], ops[|ops| - 1]);
      ListCountsBag(before, p);
      if op.Add? { AddedCounts(ListOf(before), op.peer, p); } else { RemovedCounts(ListOf(before), op.peer, p); }
    }
  }

  lemma EmptyCounts(p: string)
    ensures Proper([]) && Count([], p) == 0
  {
  }

  // ---------- the list as it is linked ----------

  class Item {
    const peer: string
    var cnt: nat
    var next: Item?

    constructor (peer: string, cnt: nat, next: Item?)
      ensures this.peer == peer && this.cnt == cnt && this.next == next
    {
      this.peer, this.cnt, this.next := peer, cnt, next;
    }
  }

  class PeerStat {
    var items: Item?
    ghost var spine: seq<Item>  // the items in the order of the list
    ghost var list: seq<Entry>  // what they say

    /** The item at a position, or the end. */
    static ghost function ItemAt(spine: seq<Item>, k: nat): Item? {
      if k < |spine| then spine[k] else null
    }

    /** The links lead along the spine, which has no cycle, to the end. */
    ghost predicate Linked()
      reads this, spine
    {
      && items == ItemAt(spine, 0)
      && (forall i, j :: 0 <= i < j < |spine| ==> spine[i] != spine[j])
      && forall k :: 0 <= k < |spine| ==> spine[k].next == ItemAt(spine, k + 1)
    }

    ghost predicate Shown()
      reads this, spine
    {
      |list| == |spine| && forall k :: 0 <= k < |spine| ==> list[k] == Entry(spine[k].peer, spine[k].cnt)
    }

    ghost predicate Valid()
      reads this, spine
    {
      Linked() && Shown() && Proper(list)
    }

    constructor ()
      ensures Valid() && list == []
    {
      items, spine, list := null, [], [];
    }

    /** The walk along the list; prev is the item whose link np points to, if it is not the head. */
    method Walk(peer: string) returns (prev: Item?, n: Item?, ghost k: nat)
      requires Valid()
      ensures k <= |spine| && n == ItemAt(spine, k) && prev == if k == 0 then null else ItemAt(spine, k - 1)
      ensures FirstAt(list, peer, k)
    {
      hide Proper;
      prev, n, k := null, items, 0;
      while n != null
        invariant k <= |spine| && n == ItemAt(spine, k) && prev == if k == 0 then null else ItemAt(spine, k - 1)
        invariant forall i :: 0 <= i < k ==> list[i].peer != peer
        decreases |spine| - k
      {
        if peer == n.peer {
          break;
        }
        prev, n := n, n.next;
        k := k + 1;
      }
    }

    method Get(peer: string) returns (cnt: nat)
      requires Valid()
      ensures cnt == Count(list, peer)
    {
      hide Proper;
      var _, n, k := Walk(peer);
      FoundAt(list, peer, k);
      if n != null {
        return n.cnt;
      }
      return 0;
    }

    /** The count of item k is set. */
    method SetCount(n: Item, cnt: nat, ghost k: nat)
      requires Linked() && Shown() && k < |spine| && n == spine[k]
      modifies this`list, n`cnt
      ensures Linked() && Shown() && n.cnt == cnt && list == old(list)[k := Entry(n.peer, cnt)]
    {
      n.cnt := cnt;
      list := list[k := Entry(n.peer, cnt)];
    }

    /** A new item in front. */
    method Prepend(peer: string, cnt: nat)
      requires Linked() && Shown()
      modifies this
      ensures Linked() && Shown() && fresh(items) && spine == [items] + old(spine) && list == [Entry(peer, cnt)] + old(list)
    {
      var n := new Item(peer, cnt, items);
      ghost var was := spine;
      items, spine, list := n, [n] + spine, [Entry(peer, cnt)] + list;
      assert forall i :: 0 < i < |spine| ==> spine[i] == was[i - 1];
    }

    /** *np = n->next: item k is taken out through the link in front of it. */
    method Unlink(prev: Item?, n: Item, ghost k: nat)
      requires Linked() && Shown() && k < |spine| && n == spine[k] && prev == if k == 0 then null else ItemAt(spine, k - 1)
      modifies this, prev
      ensures Linked() && Shown() && list == old(list)[..k] + old(list)[k + 1..]
      ensures forall x :: x in spine ==> x in old(spine)
    {
      if prev == null {
        items := n.next;
      } else {
        prev.next := n.next;
      }
      spine, list := spine[..k] + spine[k + 1..], list[..k] + list[k + 1..];
      Unlinked(k);
    }

    twostate lemma Unlinked(k: nat)
      requires old(Linked() && Shown()) && k < |old(spine)|
      requires spine == old(spine)[..k] + old(spine)[k + 1..] && list == old(list)[..k] + old(list)[k + 1..]
      requires items == if k == 0 then old(spine[k].next) else old(items)
      requires forall i :: 0 <= i < |old(spine)| ==>
        old(spine)[i].cnt == old(spine[i].cnt)
        && old(spine)[i].next == if i + 1 == k then old(spine[k].next) else old(spine[i].next)
      ensures Linked() && Shown()
    {
      var was := old(spine);
      forall i | 0 <= i < |spine| ensures spine[i] == was[if i < k then i else i + 1] && list[i] == old(list)[if i < k then i else i + 1] { }
      forall i | 0 <= i < |spine| ensures spine[i].next == ItemAt(spine, i + 1) {
        assert was[if i < k then i else i + 1] == spine[i];
      }
    }

    method Add(peer: string) returns (cnt: nat)
      requires Valid()
      modifies this, spine
      ensures Valid() && list == Added(old(list), peer) && cnt == Count(list, peer)
      ensures forall x :: x in spine ==> x in old(spine) || fresh(x)
    {
      hide Proper, Linked, Shown, Count, Added, FirstAt;
      var _, n, k := Walk(peer);
      AddPlan(list, peer, k);
      Sizes();
      if n != null {
        SetCount(n, n.cnt + 1, k);
        return n.cnt;
      }
      Prepend(peer, 1);
      return 1;
    }

    lemma Sizes()
      requires Shown()
      ensures |list| == |spine| && forall k :: 0 <= k < |spine| ==> list[k] == Entry(spine[k].peer, spine[k].cnt)
    {
    }

    method Remove(peer: string) returns (cnt: nat)
      requires Valid()
      modifies this, spine
      ensures Valid() && list == Removed(old(list), peer) && cnt == Count(list, peer)
      ensures forall x :: x in spine ==> x in old(spine)
    {
      hide Proper, Linked, Shown, Count, Removed, FirstAt;
      var prev, n, k := Walk(peer);
      RemovePlan(list, peer, k);
      Sizes();
      if n == null {
        return 0;
      }
      SetCount(n, n.cnt - 1, k);
      if n.cnt == 0 {
        Unlink(prev, n, k);
        return 0;
      }
      return n.cnt;
    }
  }
}

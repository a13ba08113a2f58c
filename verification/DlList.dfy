// The circular doubly linked list with a head of its own, linked in place.
module DlList {
  class Link {
    var next: Link?
    var prev: Link?
    // The list entry this link is part of.
    const entry: nat

    constructor (entry: nat)
      ensures next == null && prev == null && this.entry == entry
    {
      next, prev, this.entry := null, null, entry;
    }
  }

  // ring is the head and then the items, in order; following next, or prev backwards, goes round it.
  ghost predicate Distinct(ring: seq<Link>) {
    forall i, j :: 0 <= i < j < |ring| ==> ring[i] != ring[j]
  }

  ghost predicate Forward(ring: seq<Link>)
    reads ring`next
  {
    ring != [] && ring[|ring| - 1].next == ring[0]
    && forall i, j :: 0 <= i && j == i + 1 && j < |ring| ==> ring[i].next == ring[j]
  }

  ghost predicate Backward(ring: seq<Link>)
    reads ring`prev
  {
    ring != [] && ring[0].prev == ring[|ring| - 1]
    && forall i, j :: 0 <= i && j == i + 1 && j < |ring| ==> ring[j].prev == ring[i]
  }

  ghost predicate Ring(ring: seq<Link>)
    reads ring
  {
    Distinct(ring) && Forward(ring) && Backward(ring)
  }

  ghost function After(ring: seq<Link>, k: nat): Link
    requires k < |ring|
  {
    if k + 1 == |ring| then ring[0] else ring[k + 1]
  }

  ghost function Before(ring: seq<Link>, k: nat): Link
    requires k < |ring|
  {
    if k == 0 then ring[|ring| - 1] else ring[k - 1]
  }

  lemma Neighbours(ring: seq<Link>, k: nat)
    requires Ring(ring) && k < |ring|
    ensures ring[k].next == After(ring, k) && ring[k].prev == Before(ring, k)
  {}

  method Init(list: Link)
    modifies list
    ensures Ring([list])
  {
    list.next := list;
    list.prev := list;
  }

  // ---- insertion -------------------------------------------------------------------------

  ghost function Inserted(ring: seq<Link>, k: nat, item: Link): seq<Link>
    requires k < |ring|
  {
    ring[..k + 1] + [item] + ring[k + 1..]
  }

  method LinkForward(ghost ring: seq<Link>, ghost k: nat, list: Link, item: Link)
    requires Distinct(ring) && Forward(ring) && k < |ring| && ring[k] == list && item !in ring
    requires item.next == After(ring, k)
    modifies list`next
    ensures Forward(Inserted(ring, k, item))
  {
    list.next := item;
    ghost var now := Inserted(ring, k, item);
    forall i, j | 0 <= i && j == i + 1 && j < |now| ensures now[i].next == now[j] {
      if j <= k { assert now[i] == ring[i] && now[j] == ring[j]; }
      else if i > k + 1 { assert now[i] == ring[i - 1] && now[j] == ring[j - 1]; }
    }
  }

  method LinkBackward(ghost ring: seq<Link>, ghost k: nat, after: Link, item: Link)
    requires Distinct(ring) && Backward(ring) && k < |ring| && After(ring, k) == after && item !in ring
    requires item.prev == ring[k]
    modifies after`prev
    ensures Backward(Inserted(ring, k, item))
  {
    after.prev := item;
    ghost var now := Inserted(ring, k, item);
    forall i, j | 0 <= i && j == i + 1 && j < |now| ensures now[j].prev == now[i] {
      if j <= k { assert now[i] == ring[i] && now[j] == ring[j]; }
      else if i > k + 1 { assert now[i] == ring[i - 1] && now[j] == ring[j - 1]; }
    }
  }

  lemma InsertedDistinct(ring: seq<Link>, k: nat, item: Link)
    requires Distinct(ring) && k < |ring| && item !in ring
    ensures Distinct(Inserted(ring, k, item))
  {}

  // The item goes right after list, which may be the head or any item.
  method Add(ghost ring: seq<Link>, ghost k: nat, list: Link, item: Link)
    requires Ring(ring) && k < |ring| && ring[k] == list && item !in ring
    modifies item, list`next, After(ring, k)`prev
    ensures Ring(Inserted(ring, k, item))
  {
    hide Distinct, Forward, Backward, Inserted;
    Neighbours(ring, k);
    item.next := list.next;
    item.prev := list;
    LinkBackward(ring, k, list.next, item);
    assert Backward(Inserted(ring, k, item));
    LinkForward(ring, k, list, item);
    InsertedDistinct(ring, k, item);
    assert Backward(Inserted(ring, k, item));
  }

  method AddTail(ghost ring: seq<Link>, list: Link, item: Link)
    requires Ring(ring) && ring[0] == list && item !in ring
    modifies item, ring
    ensures Ring(ring + [item])
  {
    hide Distinct, Forward, Backward;
    RingSome(ring);
    Neighbours(ring, 0);
    Add(ring, |ring| - 1, list.prev, item);
    assert Inserted(ring, |ring| - 1, item) == ring + [item];
  }

  lemma RingSome(ring: seq<Link>)
    requires Ring(ring)
    ensures ring != []
  {}

  // ---- removal ---------------------------------------------------------------------------

  ghost function Removed(ring: seq<Link>, k: nat): seq<Link>
    requires k < |ring|
  {
    ring[..k] + ring[k + 1..]
  }

  method UnlinkBackward(ghost ring: seq<Link>, ghost k: nat, item: Link, after: Link)
    requires Distinct(ring) && Backward(ring) && 0 < k < |ring| && ring[k] == item && After(ring, k) == after
    modifies after`prev
    ensures Backward(Removed(ring, k))
  {
    after.prev := item.prev;
    ghost var now := Removed(ring, k);
    forall i, j | 0 <= i && j == i + 1 && j < |now| ensures now[j].prev == now[i] {
      if j < k { assert now[i] == ring[i] && now[j] == ring[j]; }
      else if i >= k { assert now[i] == ring[i + 1] && now[j] == ring[j + 1]; }
      else { assert now[i] == ring[k - 1] && now[j] == ring[k + 1]; }
    }
  }

  method UnlinkForward(ghost ring: seq<Link>, ghost k: nat, item: Link, before: Link)
    requires Distinct(ring) && Forward(ring) && 0 < k < |ring| && ring[k] == item && Before(ring, k) == before
    modifies before`next
    ensures Forward(Removed(ring, k))
  {
    before.next := item.next;
    ghost var now := Removed(ring, k);
    forall i, j | 0 <= i && j == i + 1 && j < |now| ensures now[i].next == now[j] {
      if j < k { assert now[i] == ring[i] && now[j] == ring[j]; }
      else if i >= k { assert now[i] == ring[i + 1] && now[j] == ring[j + 1]; }
      else { assert now[i] == ring[k - 1] && now[j] == ring[k + 1]; }
    }
  }

  lemma RemovedDistinct(ring: seq<Link>, k: nat)
    requires Distinct(ring) && k < |ring|
    ensures Distinct(Removed(ring, k)) && ring[k] !in Removed(ring, k)
    ensures forall x :: x in Removed(ring, k) ==> x in ring
  {}

  method Del(ghost ring: seq<Link>, ghost k: nat, item: Link)
    requires Ring(ring) && 0 < k < |ring| && ring[k] == item
    modifies item, After(ring, k)`prev, Before(ring, k)`next
    ensures Ring(Removed(ring, k)) && item !in Removed(ring, k) && item.next == null && item.prev == null
  {
    hide Distinct, Forward, Backward, Removed;
    Neighbours(ring, k);
    var before, after := item.prev, item.next;
    UnlinkBackward(ring, k, item, after);
    assert Backward(Removed(ring, k));
    UnlinkForward(ring, k, item, before);
    RemovedDistinct(ring, k);
    assert Backward(Removed(ring, k));
    item.next := null;
    item.prev := null;
    assert Forward(Removed(ring, k)) && Backward(Removed(ring, k));
  }

  ghost predicate Apart(a: seq<Link>, b: seq<Link>) { forall l :: l in a ==> l !in b }

  lemma NeighboursIn(ring: seq<Link>, k: nat)
    requires k < |ring|
    ensures After(ring, k) in ring && Before(ring, k) in ring
  {}

  // An item is taken out of one list and appended to another.
  method Move(ghost from: seq<Link>, ghost k: nat, item: Link, ghost to: seq<Link>, list: Link)
    requires Ring(from) && 0 < k < |from| && from[k] == item && Ring(to) && to[0] == list && Apart(from, to)
    modifies from, to
    ensures Ring(Removed(from, k)) && Ring(to + [item])
  {
    hide Distinct, Forward, Backward, Ring, Removed, After, Before;
    NeighboursIn(from, k);
    assert item in from && item !in to && After(from, k) !in to && Before(from, k) !in to;
    Del(from, k, item);
    RemovedApart(from, k, to);
    label L:
    AddTail(to, list, item);
    RingStays@L(Removed(from, k));
  }

  // Links nobody touched still form the ring they formed.
  twostate lemma RingStays(ring: seq<Link>)
    requires old(Ring(ring)) && forall l :: l in ring ==> l.next == old(l.next) && l.prev == old(l.prev)
    ensures Ring(ring)
  {}

  lemma RemovedApart(ring: seq<Link>, k: nat, other: seq<Link>)
    requires k < |ring| && Apart(ring, other)
    requires Ring(Removed(ring, k))
    ensures Apart(Removed(ring, k), other) && forall l :: l in Removed(ring, k) ==> l in ring
  {
    hide Ring;
  }

  // ---- queries ---------------------------------------------------------------------------

  method Empty(ghost ring: seq<Link>, list: Link) returns (empty: bool)
    requires Ring(ring) && ring[0] == list
    ensures empty <==> |ring| == 1
  {
    Neighbours(ring, 0);
    empty := list.next == list;
  }

  method Len(ghost ring: seq<Link>, list: Link) returns (count: nat)
    requires Ring(ring) && ring[0] == list
    ensures count == |ring| - 1
  {
    count := 0;
    var item := list.next;
    Neighbours(ring, 0);
    while item != list
      invariant count < |ring| && item == After(ring, count)
      decreases |ring| - count
    {
      count := count + 1;
      Neighbours(ring, count);
      item := item.next;
    }
  }
}

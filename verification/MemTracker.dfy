// The debug allocator over its two linked lists of tracking blocks.
module MemTracker {
  import opened DlList
  import opened MemSpec

  class MemTracker {
    const usedList: Link
    const freeList: Link
    // The list links of mem_blocks and, field by field, what its blocks record.
    const links: seq<Link>
    const header: array<int>
    const length: array<nat>
    const pad: array<nat>
    var initialized: bool
    var bytes: int
    var count: int
    var max: int
    // What was passed to the underlying free, in this order.
    var freed: seq<int>
    ghost var used: seq<Slot>
    ghost var free: seq<Slot>

    constructor ()
      ensures Valid() && !initialized && Started(View())
      ensures fresh(usedList) && fresh(freeList) && fresh(links) && fresh(header) && fresh(length) && fresh(pad)
    {
      var u := new Link(MEM_BLOCK_SIZE);
      var f := new Link(MEM_BLOCK_SIZE);
      var made: seq<Link> := [];
      while |made| < MEM_BLOCK_SIZE
        invariant |made| <= MEM_BLOCK_SIZE && fresh(made) && u !in made && f !in made
        invariant forall i :: 0 <= i < |made| ==> made[i].entry == i
      {
        var l := new Link(|made|);
        made := made + [l];
      }
      usedList, freeList, links := u, f, made;
      header := new int[MEM_BLOCK_SIZE](_ => 0);
      length := new nat[MEM_BLOCK_SIZE](_ => 0);
      pad := new nat[MEM_BLOCK_SIZE](_ => 0);
      initialized, bytes, count, max, freed := false, 0, 0, 0, [];
      used, free := [], seq(MEM_BLOCK_SIZE, i requires 0 <= i < MEM_BLOCK_SIZE => i);
      new;
      StartKeeps(View());
    }

    ghost function View(): (t: Tracker)
      reads this, header, length, pad
    {
      Tracker(used, free, header[..], length[..], pad[..], bytes, count, max, freed)
    }

    ghost predicate Built() {
      && |links| == MEM_BLOCK_SIZE && (forall i :: 0 <= i < |links| ==> links[i].entry == i)
      && usedList != freeList && usedList !in links && freeList !in links
      && header.Length == MEM_BLOCK_SIZE && length.Length == MEM_BLOCK_SIZE && pad.Length == MEM_BLOCK_SIZE
        && length != pad
    }

    ghost predicate Valid()
      reads this, usedList, freeList, links, header, length, pad
    {
      && Built() && Inv(View())
      && (if initialized then Ring(RingOf(links, usedList, used)) && Ring(RingOf(links, freeList, free))
        else Started(View()))
    }

    method Initialize()
      requires Valid() && !initialized
      modifies this`initialized, usedList, freeList, links
      ensures Valid() && initialized && View() == old(View())
    {
      hide Ring, Inv;
      ghost var all := free;
      Init(usedList);
      Init(freeList);
      assert RingOf(links, usedList, used) == [usedList];
      assert RingOf(links, freeList, all[..0]) == [freeList];
      var i := 0;
      while i < MEM_BLOCK_SIZE
        invariant 0 <= i <= MEM_BLOCK_SIZE
        invariant Ring(RingOf(links, usedList, used)) && Ring(RingOf(links, freeList, all[..i]))
      {
        ghost var ring := RingOf(links, freeList, all[..i]);
        Outside(links, freeList, all[..i], i);
        DisjointRings(links, usedList, freeList, used, all[..i]);
        AddTail(ring, freeList, links[i]);
        assert all[..i + 1] == all[..i] + [i];
        RingGrows(links, freeList, all[..i], i);
        i := i + 1;
      }
      assert all[..MEM_BLOCK_SIZE] == all;
      initialized := true;
    }

    // buf is what malloc returned, 0 for nothing.
    method Alloc(size: nat, buf: nat) returns (p: nat)
      requires Valid() && (buf != 0 ==> Fresh(View(), buf))
      modifies this, usedList, freeList, links, header, length, pad
      ensures Valid() && initialized && (View(), p) == MemSpec.Alloc(old(View()), size, buf)
    {
      hide Ring, Inv;
      if !initialized { Initialize(); }
      ghost var t := View();
      AllocKeeps(t, size, buf);
      InvGives(t);
      if buf == 0 { return 0; }
      var empty := Empty(RingOf(links, freeList, free), freeList);
      if empty {
        freed := freed + [buf];
        return 0;
      }
      Track(size, 4 - size % 4, buf);
      p := buf + PATTERN;
    }

    // The first free block is taken for the allocation.
    method Track(size: nat, padLen: nat, buf: nat)
      requires Built() && Partition(View()) && free != [] && padLen == PadLen(size) && buf != 0
      requires Ring(RingOf(links, usedList, used)) && Ring(RingOf(links, freeList, free))
      modifies this, usedList, freeList, links, header, length, pad
      ensures Ring(RingOf(links, usedList, used)) && Ring(RingOf(links, freeList, free))
        && initialized == old(initialized)
      ensures View() == MemSpec.Alloc(old(View()), size, buf).0
    {
      hide Ring, Partition;
      ghost var freeRing := RingOf(links, freeList, free);
      Neighbours(freeRing, 0);
      var item := freeList.next;
      MoveToUsed(item, item.entry);
      Register(item.entry, size, padLen, buf);
    }

    // The counters and what the block records.
    method Register(x: Slot, size: nat, padLen: nat, buf: nat)
      requires Built()
      modifies this`bytes, this`count, this`max, header, length, pad
      ensures header[..] == old(header[..])[x := buf] && length[..] == old(length[..])[x := size]
      ensures pad[..] == old(pad[..])[x := padLen]
      ensures bytes == old(bytes) + size + PATTERN + PATTERN + padLen && count == old(count) + 1
      ensures max == if bytes > old(max) then bytes else old(max)
    {
      bytes := bytes + (size + PATTERN + PATTERN + padLen);
      count := count + 1;
      if bytes > max { max := bytes; }
      pad[x] := padLen;
      length[x] := size;
      header[x] := buf;
    }

    // The first free block goes to the end of the used list.
    method MoveToUsed(item: Link, ghost x: Slot)
      requires Built() && Partition(View()) && free != [] && x == free[0] && item == links[x]
      requires Ring(RingOf(links, usedList, used)) && Ring(RingOf(links, freeList, free))
      modifies this`used, this`free, usedList, freeList, links
      ensures Ring(RingOf(links, usedList, used)) && Ring(RingOf(links, freeList, free))
      ensures used == old(used) + [x] && free == old(free[1..])
    {
      hide Ring;
      ghost var usedRing, freeRing := RingOf(links, usedList, used), RingOf(links, freeList, free);
      DisjointRings(links, freeList, usedList, free, used);
      Move(freeRing, 1, item, usedRing, usedList);
      RingDrops(links, freeList, free, 0);
      RingGrows(links, usedList, used, x);
      used, free := used + [x], free[..0] + free[1..];
    }

    method Free(p: int)
      requires Valid() && initialized
      modifies this, usedList, freeList, links
      ensures Valid() && initialized && View() == MemSpec.Free(old(View()), p)
    {
      hide Ring, Inv;
      ghost var t := View();
      FreeKeeps(t, p);
      InvGives(t);
      var ptn := p - PATTERN;
      var found, item;
      ghost var k;
      found, item, k := FindUsed(ptn);
      if found {
        var x := item.entry;
        MoveToFree(item, x, k);
        bytes := bytes - (length[x] + PATTERN + PATTERN + pad[x]);
        count := count - 1;
        freed := freed + [ptn];
      }
    }

    // Goes through the used list for a block with this header.
    method FindUsed(ptn: int) returns (found: bool, item: Link, ghost k: nat)
      requires Valid() && initialized
      ensures Shaped(View()) && k == Find(View(), ptn, 0) && (found <==> Find(View(), ptn, 0) < |used|)
      ensures found ==> item == links[used[Find(View(), ptn, 0)]]
    {
      hide Ring, Inv, Find, Partition;
      ghost var t := View();
      InvGives(t);
      ghost var usedRing := RingOf(links, usedList, used);
      HeadOnce(links, usedList, used);
      k := 0;
      Neighbours(usedRing, 0);
      item := usedList.next;
      while item != usedList
        invariant k <= |used| && item == After(usedRing, k)
        invariant Find(t, ptn, k) == Find(t, ptn, 0)
        decreases |used| - k
      {
        FindStep(t, ptn, k);
        if header[item.entry] == ptn { return true, item, k; }
        k := k + 1;
        Neighbours(usedRing, k);
        item := item.next;
      }
      FindStep(t, ptn, k);
      found := false;
    }

    method MoveToFree(item: Link, ghost x: Slot, ghost k: nat)
      requires Built() && Partition(View()) && k < |used| && x == used[k] && item == links[x]
      requires Ring(RingOf(links, usedList, used)) && Ring(RingOf(links, freeList, free))
      modifies this`used, this`free, usedList, freeList, links
      ensures Ring(RingOf(links, usedList, used)) && Ring(RingOf(links, freeList, free))
      ensures used == old(used[..k] + used[k + 1..]) && free == old(free) + [x]
    {
      hide Ring;
      ghost var usedRing, freeRing := RingOf(links, usedList, used), RingOf(links, freeList, free);
      DisjointRings(links, usedList, freeList, used, free);
      Move(usedRing, k + 1, item, freeRing, freeList);
      RingDrops(links, usedList, used, k);
      RingGrows(links, freeList, free, x);
      used, free := used[..k] + used[k + 1..], free + [x];
    }
  }

  // The head and the links of the blocks listed.
  ghost function RingOf(links: seq<Link>, head: Link, ids: seq<Slot>): (r: seq<Link>)
    requires |links| == MEM_BLOCK_SIZE
    ensures |r| == |ids| + 1
  {
    [head] + seq(|ids|, i requires 0 <= i < |ids| => links[ids[i]])
  }

  lemma DisjointRings(links: seq<Link>, a: Link, b: Link, xs: seq<Slot>, ys: seq<Slot>)
    requires |links| == MEM_BLOCK_SIZE && (forall i :: 0 <= i < |links| ==> links[i].entry == i)
    requires a != b && a !in links && b !in links
    requires forall x :: x in xs ==> x !in ys
    ensures Apart(RingOf(links, a, xs), RingOf(links, b, ys))
    ensures forall l :: l in RingOf(links, a, xs) ==> l == a || l in links
    ensures forall l :: l in RingOf(links, b, ys) ==> l == b || l in links
  {
    var p, q := RingOf(links, a, xs), RingOf(links, b, ys);
    forall i, j | 0 <= i < |p| && 0 <= j < |q| ensures p[i] != q[j] {
      if i > 0 { assert p[i] == links[xs[i - 1]] && xs[i - 1] in xs; }
      if j > 0 { assert q[j] == links[ys[j - 1]] && ys[j - 1] in ys; }
    }
  }

  lemma Outside(links: seq<Link>, head: Link, ids: seq<Slot>, x: Slot)
    requires |links| == MEM_BLOCK_SIZE && (forall i :: 0 <= i < |links| ==> links[i].entry == i)
    requires head !in links && x !in ids
    ensures links[x] !in RingOf(links, head, ids)
  {}

  lemma RingGrows(links: seq<Link>, head: Link, ids: seq<Slot>, x: Slot)
    requires |links| == MEM_BLOCK_SIZE
    ensures RingOf(links, head, ids + [x]) == RingOf(links, head, ids) + [links[x]]
  {}

  lemma RingDrops(links: seq<Link>, head: Link, ids: seq<Slot>, k: nat)
    requires |links| == MEM_BLOCK_SIZE && k < |ids|
    ensures RingOf(links, head, ids[..k] + ids[k + 1..]) == Removed(RingOf(links, head, ids), k + 1)
  {}

  // Only the head is the head.
  lemma HeadOnce(links: seq<Link>, head: Link, ids: seq<Slot>)
    requires |links| == MEM_BLOCK_SIZE && Ring(RingOf(links, head, ids))
    ensures forall k :: 0 <= k < |ids| ==> After(RingOf(links, head, ids), k) == links[ids[k]] != head
    ensures After(RingOf(links, head, ids), |ids|) == head
  {
    var r := RingOf(links, head, ids);
    forall k | 0 <= k < |ids| ensures After(r, k) == links[ids[k]] != head { assert r[k + 1] != r[0]; }
  }

  lemma InvGives(t: Tracker)
    requires Inv(t)
    ensures Shaped(t) && Partition(t)
  {}
}

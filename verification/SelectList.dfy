// The doubly linked list of waiting selects, linked and unlinked in place.
module SelectList {
  class SelectCb {
    var next: SelectCb?
    var prev: SelectCb?
    var semSignalled: bool
    var sem: nat

    constructor ()
      ensures next == null && prev == null && !semSignalled && sem == 0
    {
      next, prev, semSignalled, sem := null, null, false, 0;
    }
  }

  // order without its element x.
  ghost function Remove(order: seq<SelectCb>, x: SelectCb): (r: seq<SelectCb>)
    ensures x !in order ==> r == order
  {
    if order == [] then []
    else if order[0] == x then order[1..]
    else [order[0]] + Remove(order[1..], x)
  }

  lemma {:induction false} RemoveAt(order: seq<SelectCb>, j: nat)
    requires j < |order| && forall i :: 0 <= i < j ==> order[i] != order[j]
    ensures Remove(order, order[j]) == order[..j] + order[j + 1..]
  {
    if j > 0 {
      RemoveAt(order[1..], j - 1);
      assert order[1..][..j - 1] == order[1..j] && order[1..][j..] == order[j + 1..];
      assert order[..j] == [order[0]] + order[1..j];
    }
  }

  ghost predicate Forward(order: seq<SelectCb>)
    reads order`next
  {
    && (forall i, j :: 0 <= i && j == i + 1 && j < |order| ==> order[i].next == order[j])
    && (order != [] ==> order[|order| - 1].next == null)
  }

  ghost predicate Backward(order: seq<SelectCb>)
    reads order`prev
  {
    && (forall i, j :: 0 <= i && j == i + 1 && j < |order| ==> order[j].prev == order[i])
    && (order != [] ==> order[0].prev == null)
  }

  ghost predicate Distinct(order: seq<SelectCb>) {
    forall i, j :: 0 <= i < j < |order| ==> order[i] != order[j]
  }

  ghost function Dropped(order: seq<SelectCb>, j: nat): seq<SelectCb>
    requires j < |order|
  {
    order[..j] + order[j + 1..]
  }

  lemma Gone(order: seq<SelectCb>, j: nat)
    requires Distinct(order) && j < |order|
    ensures Distinct(Dropped(order, j)) && order[j] !in Dropped(order, j)
      && Dropped(order, j) == Remove(order, order[j])
    ensures |Dropped(order, j)| == |order| - 1
    ensures |order| > 1 ==> Dropped(order, j)[0] == if j == 0 then order[1] else order[0]
  {
    RemoveAt(order, j);
  }

  // The neighbours of order[j] are linked past it.
  method BypassForward(ghost order: seq<SelectCb>, ghost j: nat, cb: SelectCb, before: SelectCb?)
    requires Distinct(order) && Forward(order) && j < |order| && order[j] == cb
    requires before == if j == 0 then null else order[j - 1]
    modifies if before == null then {} else {before}`next
    ensures Forward(Dropped(order, j))
  {
    if before != null { before.next := cb.next; }
    ghost var now := Dropped(order, j);
    forall i, k | 0 <= i && k == i + 1 && k < |now| ensures now[i].next == now[k] {
      if k < j { assert now[i] == order[i] && now[k] == order[k]; }
      else if k == j { assert now[i] == order[j - 1] && now[k] == order[j + 1]; }
      else { assert now[i] == order[i + 1] && now[k] == order[k + 1]; }
    }
  }

  method BypassBackward(ghost order: seq<SelectCb>, ghost j: nat, cb: SelectCb, after: SelectCb?)
    requires Distinct(order) && Backward(order) && j < |order| && order[j] == cb
    requires after == if j + 1 == |order| then null else order[j + 1]
    modifies if after == null then {} else {after}`prev
    ensures Backward(Dropped(order, j))
  {
    if after != null { after.prev := cb.prev; }
    ghost var now := Dropped(order, j);
    forall i, k | 0 <= i && k == i + 1 && k < |now| ensures now[k].prev == now[i] {
      if k < j { assert now[i] == order[i] && now[k] == order[k]; }
      else if k == j { assert now[i] == order[j - 1] && now[k] == order[j + 1]; }
      else { assert now[i] == order[i + 1] && now[k] == order[k + 1]; }
    }
  }

  // A change of the list by another thread.
  datatype Change = Nothing | Join(cb: SelectCb) | Leave(cb: SelectCb)

  predicate Fits(order: seq<SelectCb>, c: Change) {
    match c
    case Nothing => true
    case Join(cb) => cb !in order
    case Leave(cb) => cb in order
  }

  ghost function Changed(order: seq<SelectCb>, c: Change): seq<SelectCb> {
    match c
    case Nothing => order
    case Join(cb) => [cb] + order
    case Leave(cb) => Remove(order, cb)
  }

  ghost function Touched(c: Change): set<SelectCb> { if c.Join? then {c.cb} else {} }

  ghost function AllChanged(order: seq<SelectCb>, cs: seq<Change>): seq<SelectCb> {
    if cs == [] then order else Changed(AllChanged(order, cs[..|cs| - 1]), cs[|cs| - 1])
  }

  ghost predicate AllFit(order: seq<SelectCb>, cs: seq<Change>) {
    forall k :: 0 <= k < |cs| ==> Fits(AllChanged(order, cs[..k]), cs[k])
  }

  lemma {:induction false} RemoveMembers(order: seq<SelectCb>, x: SelectCb)
    ensures forall cb :: cb in Remove(order, x) ==> cb in order
  {
    if order != [] && order[0] != x { RemoveMembers(order[1..], x); }
  }

  lemma ChangedMembers(order: seq<SelectCb>, c: Change)
    ensures forall cb :: cb in Changed(order, c) ==> cb in order || (c.Join? && cb == c.cb)
  {
    if c.Leave? { RemoveMembers(order, c.cb); }
  }

  // The semaphore is signalled at most once, and only if that was due.
  predicate Signalled(due: set<SelectCb>, cb: SelectCb, sem: nat, signalled: bool)
    reads cb
  {
    && cb.sem == sem + (if cb.semSignalled && !signalled then 1 else 0)
    && (signalled ==> cb.semSignalled) && (cb.semSignalled && !signalled ==> cb in due)
  }

  class Waiters {
    var head: SelectCb?
    var ctr: int
    ghost var order: seq<SelectCb>

    // The links spell out order, forwards and backwards.
    ghost predicate Valid()
      reads this, order
    {
      && Distinct(order)
      && head == (if order == [] then null else order[0])
      && Forward(order) && Backward(order)
    }

    constructor ()
      ensures Valid() && order == [] && ctr == 0
    {
      head, ctr, order := null, 0, [];
    }

    method Enlist(cb: SelectCb)
      requires Valid() && cb !in order && cb.prev == null
      modifies this, cb`next, (if head == null then {} else {head})`prev
      ensures Valid() && order == [cb] + old(order) && ctr == old(ctr) + 1
    {
      cb.next := head;
      if head != null { head.prev := cb; }
      head := cb;
      ctr := ctr + 1;
      order := [cb] + order;
    }

    method Delist(cb: SelectCb)
      requires Valid() && cb in order
      modifies this, (if cb.next == null then {} else {cb.next})`prev, (if cb.prev == null then {} else {cb.prev})`next
      ensures Valid() && order == Remove(old(order), cb) && cb !in order && ctr == old(ctr) + 1
    {
      hide Dropped, Remove, Distinct, Forward, Backward;
      ghost var was := order;
      ghost var j := Neighbours(cb);
      var before, after := cb.prev, cb.next;
      BypassBackward(was, j, cb, after);
      assert Backward(Dropped(was, j));
      BypassForward(was, j, cb, before);
      assert Backward(Dropped(was, j));
      if head == cb { head := after; }
      ctr := ctr + 1;
      order := Dropped(was, j);
      Gone(was, j);
    }

    ghost method Neighbours(cb: SelectCb) returns (j: nat)
      requires Valid() && cb in order
      ensures j < |order| && order[j] == cb && (head == cb <==> j == 0)
      ensures cb.prev == if j == 0 then null else order[j - 1]
      ensures cb.next == if j + 1 == |order| then null else order[j + 1]
    {
      j :| 0 <= j < |order| && order[j] == cb;
    }

    // What another thread does between two sections of a callback.
    method Interrupt(c: Change)
      requires Valid() && Fits(order, c) && (c.Join? ==> c.cb.prev == null)
      modifies this, order`next, order`prev, Touched(c)`next
      ensures Valid() && order == Changed(old(order), c) && (ctr == old(ctr) <==> c.Nothing?)
    {
      match c
      case Nothing =>
      case Join(cb) => Enlist(cb);
      case Leave(cb) =>
        ghost var j := Neighbours(cb);
        Delist(cb);
    }

    // The changes from the n-th on can still be made: who joins is not on the list.
    ghost predicate Ahead(changes: seq<Change>, n: nat, all: set<SelectCb>)
      reads this, all
    {
      && n <= |changes| && (forall cb :: cb in order ==> cb in all)
      && (forall i :: n <= i < |changes| && changes[i].Join? ==>
            changes[i].cb in all && changes[i].cb !in order && changes[i].cb.prev == null)
      && (forall i, j :: n <= i < j < |changes| && changes[i].Join? && changes[j].Join? ==>
        changes[i].cb != changes[j].cb)
    }

    // From the element just looked at to the next, or to the head if the list has changed.
    method GoOn(scb: SelectCb, changes: seq<Change>, n: nat, ghost i: nat, ghost all: set<SelectCb>)
      returns (next: SelectCb?, m: nat, ghost j: nat)
      requires Valid() && i < |order| && order[i] == scb && Ahead(changes, n, all)
      requires n < |changes| ==> Fits(order, changes[n])
      modifies this, all`next, all`prev
      ensures Valid() && Ahead(changes, m, all) && m == (if n < |changes| then n + 1 else n)
      ensures order == if n < |changes| then Changed(old(order), changes[n]) else old(order)
      ensures j <= |order| && next == (if j < |order| then order[j] else null)
      ensures j == 0 || (j == i + 1 && order == old(order))
      ensures n == |changes| ==> j == i + 1
    {
      hide Forward, Backward, Distinct, Remove;
      StillValid(i, scb);
      next, m, j := scb.next, n, i + 1;
      var last := ctr;
      if n < |changes| {
        ChangedMembers(order, changes[n]);
        Interrupt(changes[n]);
        m := n + 1;
      }
      if last != ctr { next, j := head, 0; }
    }

    lemma StillValid(i: nat, cb: SelectCb)
      requires Valid() && i < |order| && order[i] == cb
      ensures cb.next == if i + 1 < |order| then order[i + 1] else null
    {}

    // One element is looked at.
    method Look(scb: SelectCb, due: set<SelectCb>)
      modifies scb`semSignalled, scb`sem
      ensures Signalled(due, scb, old(scb.sem), old(scb.semSignalled)) && (scb in due ==> scb.semSignalled)
    {
      if !scb.semSignalled && scb in due {
        scb.semSignalled := true;
        scb.sem := scb.sem + 1;
      }
    }

    // The callback's loop: between two of its sections another thread may change the list, and it
    // starts over, and events may come and go, so that others are due.  At the end everyone listed
    // who was due all the time has been signalled, and nobody twice, or without having been due.
    method SignalDue(due: nat -> set<SelectCb>, changes: seq<Change>, ghost all: set<SelectCb>,
                     ghost always: set<SelectCb>, ghost ever: set<SelectCb>) returns (ghost k: nat)
      requires Valid() && Ahead(changes, 0, all) && AllFit(order, changes)
      requires forall i :: always <= due(i) <= ever
      modifies this, all
      ensures Valid() && k <= |changes| && order == AllChanged(old(order), changes[..k])
      ensures forall cb :: cb in order && cb in always ==> cb.semSignalled
      ensures forall cb :: cb in all ==> Signalled(ever, cb, old(cb.sem), old(cb.semSignalled))
    {
      hide Forward, Backward, Distinct, Remove, Changed, AllChanged;
      var scb := head;
      var n, sections := 0, 0;
      ghost var i := 0;
      NoChange(order, changes);
      while scb != null
        invariant Valid() && Ahead(changes, n, all) && order == AllChanged(old(order), changes[..n])
        invariant 0 <= i <= |order| && scb == (if i < |order| then order[i] else null)
        invariant forall j :: 0 <= j < i && order[j] in always ==> order[j].semSignalled
        invariant forall cb :: cb in all ==> Signalled(ever, cb, old(cb.sem), old(cb.semSignalled))
        decreases |changes| - n, |order| - i
      {
        Look(scb, due(sections));
        sections := sections + 1;
        if n < |changes| { OneChange(old(order), changes, n); }
        scb, n, i := GoOn(scb, changes, n, i, all);
      }
      k := n;
    }
  }

  lemma NoChange(order: seq<SelectCb>, cs: seq<Change>)
    ensures AllChanged(order, cs[..0]) == order
  {}

  lemma OneChange(order: seq<SelectCb>, cs: seq<Change>, n: nat)
    requires n < |cs|
    ensures AllChanged(order, cs[..n + 1]) == Changed(AllChanged(order, cs[..n]), cs[n])
  {
    assert cs[..n + 1][..n] == cs[..n];
  }
}

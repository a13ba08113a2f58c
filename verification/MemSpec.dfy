// The tracking allocator on values: which blocks of its fixed array are in use, in which order, its
// counters, and what it gives back to the allocator under it.
module MemSpec {
  const MEM_BLOCK_SIZE := 200
  // The pattern words before and after the caller's bytes.
  const PATTERN := 4

  // freed is what was given back to the underlying allocator so far.
  type Slot = x: int | 0 <= x < MEM_BLOCK_SIZE
  datatype Tracker = Tracker(used: seq<Slot>, free: seq<Slot>, header: seq<int>, length: seq<nat>, pad: seq<nat>,
                             bytes: int, count: int, max: int, freed: seq<int>)

  // One to four bytes to the next word boundary.
  function PadLen(size: nat): (r: nat)
    ensures 0 < r <= 4 && (size + r) % 4 == 0
  {
    4 - size % 4
  }

  predicate Shaped(t: Tracker) {
    |t.header| == MEM_BLOCK_SIZE && |t.length| == MEM_BLOCK_SIZE && |t.pad| == MEM_BLOCK_SIZE
  }

  function Cost(t: Tracker, x: Slot): nat
    requires Shaped(t)
  {
    t.length[x] + PATTERN + PATTERN + t.pad[x]
  }

  function Total(t: Tracker, n: nat): nat
    requires Shaped(t) && n <= |t.used|
  {
    if n == 0 then 0 else Total(t, n - 1) + Cost(t, t.used[n - 1])
  }

  // buf is what the underlying allocator returned, 0 for nothing.
  function Alloc(t: Tracker, size: nat, buf: nat): (Tracker, nat)
    requires Shaped(t)
  {
    if buf == 0 then (t, 0)
    else if t.free == [] then (t.(freed := t.freed + [buf]), 0)
    else
      var x := t.free[0];
      var bytes := t.bytes + size + PATTERN + PATTERN + PadLen(size);
      (Tracker(t.used + [x], t.free[1..], t.header[x := buf], t.length[x := size], t.pad[x := PadLen(size)],
               bytes, t.count + 1, if bytes > t.max then bytes else t.max, t.freed), buf + PATTERN)
  }

  // The first of the used blocks that carries the header h, from the k-th on.
  function Find(t: Tracker, h: int, k: nat): (r: nat)
    requires Shaped(t) && k <= |t.used|
    ensures k <= r <= |t.used| && (r < |t.used| ==> t.header[t.used[r]] == h)
    ensures forall j :: k <= j < r ==> t.header[t.used[j]] != h
    decreases |t.used| - k
  {
    if k == |t.used| then k
    else if t.header[t.used[k]] == h then k
    else Find(t, h, k + 1)
  }

  lemma FindStep(t: Tracker, h: int, k: nat)
    requires Shaped(t) && k <= |t.used|
    ensures Find(t, h, k) == if k < |t.used| && t.header[t.used[k]] != h then Find(t, h, k + 1) else k
  {}

  function Free(t: Tracker, p: int): Tracker
    requires Shaped(t)
  {
    var k := Find(t, p - PATTERN, 0);
    if k == |t.used| then t
    else
      var x := t.used[k];
      t.(used := t.used[..k] + t.used[k + 1..], free := t.free + [x], bytes := t.bytes - Cost(t, x),
        count := t.count - 1, freed := t.freed + [p - PATTERN])
  }

  // ---- what every sequence of calls keeps ------------------------------------------------

  ghost predicate Once(s: seq<Slot>) { forall i, j :: 0 <= i < j < |s| ==> s[i] != s[j] }

  // Every block is in one of the lists, and once.
  ghost predicate Partition(t: Tracker) {
    && Once(t.used) && Once(t.free) && (forall x :: x in t.used ==> x !in t.free)
    && (forall x: Slot :: x in t.used || x in t.free)
    && |t.used| + |t.free| == MEM_BLOCK_SIZE
  }

  predicate Counted(t: Tracker)
    requires Shaped(t)
  {
    t.count == |t.used| && t.bytes == Total(t, |t.used|) && t.bytes <= t.max
  }

  // No two blocks in use have the same header.
  predicate Told(t: Tracker)
    requires Shaped(t)
  {
    forall i, j :: 0 <= i < j < |t.used| ==> t.header[t.used[i]] != t.header[t.used[j]]
  }

  ghost predicate Inv(t: Tracker) { Shaped(t) && Partition(t) && Counted(t) && Told(t) }

  // The underlying allocator does not hand out memory that is in use.
  predicate Fresh(t: Tracker, buf: nat)
    requires Shaped(t)
  {
    forall i :: 0 <= i < |t.used| ==> t.header[t.used[i]] != buf
  }

  lemma {:induction false} TotalSame(t: Tracker, d: Tracker, n: nat)
    requires Shaped(t) && Shaped(d) && n <= |t.used| && n <= |d.used|
    requires forall k :: 0 <= k < n ==>
      t.used[k] == d.used[k] && t.length[t.used[k]] == d.length[d.used[k]] && t.pad[t.used[k]] == d.pad[d.used[k]]
    ensures Total(t, n) == Total(d, n)
  {
    if n > 0 { TotalSame(t, d, n - 1); }
  }

  lemma {:induction false} TotalLess(t: Tracker, d: Tracker, k: nat, n: nat)
    requires Shaped(t) && Shaped(d) && k < |t.used| && d.used == t.used[..k] + t.used[k + 1..]
    requires d.length == t.length && d.pad == t.pad && k < n <= |t.used|
    ensures Total(t, n) == Total(d, n - 1) + Cost(t, t.used[k])
  {
    if n == k + 1 {
      TotalSame(t, d, k);
    } else {
      TotalLess(t, d, k, n - 1);
      assert d.used[n - 2] == t.used[n - 1];
    }
  }

  lemma AllocKeeps(t: Tracker, size: nat, buf: nat)
    requires Inv(t) && (buf != 0 ==> Fresh(t, buf))
    ensures Inv(Alloc(t, size, buf).0)
  {
    var d := Alloc(t, size, buf).0;
    if buf != 0 && t.free != [] {
      var x := t.free[0];
      assert x in t.free;
      forall k | 0 <= k < |t.used| ensures t.used[k] != x { assert t.used[k] in t.used; }
      assert t.free == [x] + t.free[1..];
      forall y: Slot ensures y in d.used || y in d.free { assert y in t.used || y in t.free; }
      TotalSame(t, d, |t.used|);
      assert d.used[|t.used|] == x;
    } else {
      TotalSame(t, d, |t.used|);
    }
  }

  lemma FreePartition(t: Tracker, d: Tracker, k: nat)
    requires Partition(t) && k < |t.used|
    requires d.used == t.used[..k] + t.used[k + 1..] && d.free == t.free + [t.used[k]]
    ensures Partition(d) && forall y :: y in d.used ==> y in t.used && y != t.used[k]
  {
    var x := t.used[k];
    assert x in t.used;
    assert t.used == t.used[..k] + [x] + t.used[k + 1..];
    forall y | y in d.used ensures y in t.used && y != x {
      var j :| 0 <= j < |d.used| && d.used[j] == y;
      assert y == t.used[if j < k then j else j + 1];
    }
    forall j | 0 <= j < |t.free| ensures t.free[j] != x { assert t.free[j] in t.free; }
    forall y: Slot ensures y in d.used || y in d.free { assert y in t.used || y in t.free; }
  }

  lemma FreeKeeps(t: Tracker, p: int)
    requires Inv(t)
    ensures Inv(Free(t, p))
  {
    hide Partition;
    var k := Find(t, p - PATTERN, 0);
    if k < |t.used| {
      var d := Free(t, p);
      FreePartition(t, d, k);
      TotalLess(t, d, k, |t.used|);
      forall i, j | 0 <= i < j < |d.used| ensures d.header[d.used[i]] != d.header[d.used[j]] {
        assert d.used[i] == t.used[if i < k then i else i + 1] && d.used[j] == t.used[if j < k then j else j + 1];
      }
    }
  }

  datatype Op = Allocate(size: nat, buf: nat) | Release(p: int)

  function Apply(t: Tracker, op: Op): Tracker
    requires Shaped(t)
  {
    match op
    case Allocate(size, buf) => Alloc(t, size, buf).0
    case Release(p) => Free(t, p)
  }

  ghost predicate Started(t: Tracker) {
    Shaped(t) && t.used == [] && t.free == seq(MEM_BLOCK_SIZE, i => i) && t.bytes == 0 && t.count == 0 && t.max == 0
      && t.freed == []
  }

  ghost predicate IsRun(ts: seq<Tracker>, ops: seq<Op>) {
    && |ts| == |ops| + 1 && Started(ts[0])
    && forall i :: 0 <= i < |ops| && Shaped(ts[i]) ==>
         (ops[i].Allocate? && ops[i].buf != 0 ==> Fresh(ts[i], ops[i].buf)) && ts[i + 1] == Apply(ts[i], ops[i])
  }

  lemma StartKeeps(t: Tracker)
    requires Started(t)
    ensures Inv(t)
  {
    forall x: Slot ensures x in t.free { assert t.free[x] == x; }
  }

  // Whatever is allocated and freed, frees of unknown or already freed pointers included: the two
  // lists divide the block array, the counters are the length and the tracked bytes of the used
  // list, and the recorded maximum was never exceeded.
  lemma {:induction false} RunKeeps(ts: seq<Tracker>, ops: seq<Op>)
    requires IsRun(ts, ops)
    ensures Inv(ts[|ops|])
    decreases |ops|
  {
    var n := |ops|;
    if n == 0 {
      StartKeeps(ts[0]);
    } else {
      RunKeeps(ts[..n], ops[..n - 1]);
      match ops[n - 1]
      case Allocate(size, buf) => AllocKeeps(ts[n - 1], size, buf);
      case Release(p) => FreeKeeps(ts[n - 1], p);
    }
  }

  // ---- what one call undoes --------------------------------------------------------------

  // Freeing what was just allocated restores everything but the maximum and the order of the free
  // list.
  lemma FreeUndoesAlloc(t: Tracker, size: nat, buf: nat)
    requires Inv(t) && buf != 0 && Fresh(t, buf) && t.free != []
    ensures var (d, p) := Alloc(t, size, buf);
            && Shaped(d) && p == buf + PATTERN
            && var e := Free(d, p);
               e.used == t.used && e.bytes == t.bytes && e.count == t.count && e.free == t.free[1..] + [t.free[0]]
  {
    var (d, p) := Alloc(t, size, buf);
    AllocKeeps(t, size, buf);
    var n := |t.used|;
    assert d.used[n] == t.free[0];
    forall j | 0 <= j < n ensures d.header[d.used[j]] != buf {
      assert t.used[j] in t.used && t.free[0] in t.free;
    }
    assert Find(d, buf, 0) == n;
    assert d.used[..n] + d.used[n + 1..] == t.used;
  }

  // A second free of the same pointer, or a free of one that was never handed out, changes nothing.
  lemma FreeTwice(t: Tracker, p: int)
    requires Inv(t)
    ensures Shaped(Free(t, p)) && Free(Free(t, p), p) == Free(t, p)
    ensures Free(t, p) == t <==> forall i :: 0 <= i < |t.used| ==> t.header[t.used[i]] != p - PATTERN
  {
    FreeKeeps(t, p);
    var k, d := Find(t, p - PATTERN, 0), Free(t, p);
    if k < |t.used| {
      forall j | 0 <= j < |d.used| ensures d.header[d.used[j]] != p - PATTERN {
        var i := if j < k then j else j + 1;
        assert d.used[j] == t.used[i];
      }
      assert d.count != t.count;
    }
  }

  // ---- what a call answers ---------------------------------------------------------------

  // With memory and a block the answer is behind the front pattern, and the oldest free block records
  // the allocation; with memory alone that is given back; otherwise nothing changes.
  lemma AllocAnswers(t: Tracker, size: nat, buf: nat)
    requires Inv(t)
    ensures var (d, p) := Alloc(t, size, buf);
            && Shaped(d)
            && if buf != 0 && |t.used| < MEM_BLOCK_SIZE then
                 && p == buf + 4 && t.free != [] && d.used == t.used + [t.free[0]] && d.free == t.free[1..]
                 && d.header[t.free[0]] == buf && d.length[t.free[0]] == size
                 && 0 < d.bytes - t.bytes - size - 8 <= 4 && (d.bytes - t.bytes) % 4 == 0
                 && d.freed == t.freed
               else p == 0 && d == t.(freed := if buf != 0 then t.freed + [buf] else t.freed)
  {}

  // The blocks in use, by their headers.
  function Headers(t: Tracker): (r: seq<int>)
    requires Shaped(t)
    ensures |r| == |t.used| && forall i :: 0 <= i < |r| ==> r[i] == t.header[t.used[i]]
  {
    seq(|t.used|, i requires 0 <= i < |t.used| => t.header[t.used[i]])
  }

  // What the underlying allocator has handed out.
  function Handed(ops: seq<Op>): seq<int> {
    if ops == [] then []
    else
      var op := ops[|ops| - 1];
      Handed(ops[..|ops| - 1]) + (if op.Allocate? && op.buf != 0 then [op.buf] else [])
  }

  lemma AllocHands(t: Tracker, size: nat, buf: nat)
    requires Inv(t)
    ensures var d := Alloc(t, size, buf).0;
            && Shaped(d)
            && multiset(Headers(d)) + multiset(d.freed) ==
               multiset(Headers(t)) + multiset(t.freed) + if buf != 0 then multiset{buf} else multiset{}
  {
    var d := Alloc(t, size, buf).0;
    if buf != 0 && t.free != [] {
      forall i | 0 <= i < |t.used| ensures Headers(d)[i] == Headers(t)[i] {
        assert t.used[i] in t.used && t.free[0] in t.free;
      }
      assert Headers(d) == Headers(t) + [buf];
    }
  }

  lemma FreeReturns(t: Tracker, p: int)
    requires Inv(t)
    ensures var d := Free(t, p);
            Shaped(d) && multiset(Headers(d)) + multiset(d.freed) == multiset(Headers(t)) + multiset(t.freed)
  {
    hide Inv, Partition;
    InvShaped(t);
    var d, k, h := Free(t, p), Find(t, p - PATTERN, 0), Headers(t);
    if k < |t.used| {
      assert h == h[..k] + [p - PATTERN] + h[k + 1..];
      assert Headers(d) == h[..k] + h[k + 1..];
    }
  }

  lemma InvShaped(t: Tracker)
    requires Inv(t)
    ensures Shaped(t)
  {}

  // On every run whatever the underlying allocator has handed out is in use, under a block of its
  // own, or has been given back, once.
  lemma {:induction false} NothingLost(ts: seq<Tracker>, ops: seq<Op>)
    requires IsRun(ts, ops)
    ensures Shaped(ts[|ops|])
    ensures multiset(Handed(ops)) == multiset(Headers(ts[|ops|])) + multiset(ts[|ops|].freed)
    decreases |ops|
  {
    hide Inv, Alloc, Free, Headers;
    var n := |ops|;
    RunKeeps(ts, ops);
    InvShaped(ts[n]);
    if n == 0 {
      NoHeaders(ts[0]);
    } else {
      RunKeeps(ts[..n], ops[..n - 1]);
      InvShaped(ts[n - 1]);
      NothingLost(ts[..n], ops[..n - 1]);
      match ops[n - 1]
      case Allocate(size, buf) => AllocHands(ts[n - 1], size, buf);
      case Release(p) => FreeReturns(ts[n - 1], p);
    }
  }

  lemma NoHeaders(t: Tracker)
    requires Started(t)
    ensures Headers(t) == [] && t.freed == []
  {}

  // The recorded maximum is one: no state before had more bytes in use, and one had as many.
  lemma {:induction false} MaxReached(ts: seq<Tracker>, ops: seq<Op>) returns (i: nat)
    requires IsRun(ts, ops)
    ensures i <= |ops| && ts[i].bytes == ts[|ops|].max
    ensures forall j :: 0 <= j <= |ops| ==> ts[j].bytes <= ts[|ops|].max
    decreases |ops|
  {
    hide Partition, Counted, Told;
    var n := |ops|;
    i := 0;
    if n > 0 {
      RunKeeps(ts[..n], ops[..n - 1]);
      i := MaxReached(ts[..n], ops[..n - 1]);
      if ts[n].max != ts[n - 1].max { i := n; }
      RunKeeps(ts, ops);
      BelowMax(ts[n]);
    } else {
      RunKeeps(ts, ops);
    }
  }

  lemma BelowMax(t: Tracker)
    requires Inv(t)
    ensures t.bytes <= t.max
  {}
}

// What every run of the resolver keeps: each accepted request is reported once, in time, and a
// request that is still being asked is never overwritten.
module DnsRuns {
  import opened Wrappers
  import opened DnsSpec

  predicate Called(d: Dns, r: nat) { exists k :: 0 <= k < |d.calls| && d.calls[k].request == r }

  predicate AskedAt(d: Dns, i: nat, r: nat) {
    i < |d.table| && d.table[i].state.Asking? && d.table[i].request == r
  }

  ghost predicate StillAsked(d: Dns, r: nat) { exists i :: AskedAt(d, i, r) }

  // An entry that is being asked belongs to an accepted request nobody has reported on, and has
  // as many ticks left as the bound leaves it.  n tells the entries this tick has seen already.
  predicate EntryRight(d: Dns, e: Entry, now: nat)
    requires d.servers > 0
  {
    && !e.state.New?
    && (e.state.Asking? ==>
          && Running(d.servers, e) && e.request < |d.asked| && d.asked[e.request].at <= now
          && e.calls == d.asked[e.request].calls
          && Remaining(d.servers, e) + (now - d.asked[e.request].at) == Bound(d.servers)
          && !Called(d, e.request))
  }

  predicate EntriesRight(d: Dns, n: nat)
    requires d.servers > 0
  {
    forall i :: 0 <= i < |d.table| ==> EntryRight(d, d.table[i], if i < n then d.ticks + 1 else d.ticks)
  }

  ghost predicate OneEntryEach(d: Dns) {
    forall i, j, r :: AskedAt(d, i, r) && AskedAt(d, j, r) ==> i == j
  }

  predicate OneCallEach(d: Dns) {
    forall j, k :: 0 <= j < k < |d.calls| ==> d.calls[j].request != d.calls[k].request
  }

  predicate CallsKnown(d: Dns) {
    forall k :: 0 <= k < |d.calls| ==> d.calls[k].request < |d.asked| && d.asked[d.calls[k].request].calls
  }

  // Nobody is forgotten.
  ghost predicate NoneLost(d: Dns) {
    forall r :: 0 <= r < |d.asked| && d.asked[r].calls ==> StillAsked(d, r) || Called(d, r)
  }

  ghost predicate Rest(d: Dns) { OneEntryEach(d) && OneCallEach(d) && CallsKnown(d) && NoneLost(d) }
  ghost predicate Inv(d: Dns) { Shaped(d) && EntriesRight(d, 0) && Rest(d) }

  // d changes at entry i only; what was asked there goes on being asked, or is reported.
  predicate AtMost(c: Dns, d: Dns, i: nat) {
    && i < |c.table| == |d.table| && d.asked == c.asked && d.servers == c.servers && d.ticks == c.ticks
    && (forall j :: 0 <= j < |c.table| && j != i ==> d.table[j] == c.table[j])
    && (d.table[i].state.Asking? ==> c.table[i].state.Asking? && d.table[i].request == c.table[i].request)
    && (if c.table[i].state.Asking? && !d.table[i].state.Asking? && c.table[i].calls then
          |d.calls| == |c.calls| + 1 && d.calls[..|c.calls|] == c.calls
            && d.calls[|c.calls|].request == c.table[i].request
        else d.calls == c.calls)
  }

  lemma CalledGrows(c: Dns, d: Dns, i: nat, r: nat)
    requires AtMost(c, d, i)
    ensures Called(c, r) ==> Called(d, r)
    ensures Called(d, r) && !Called(c, r) ==>
      c.table[i].state.Asking? && !d.table[i].state.Asking? && c.table[i].request == r
  {
    if Called(c, r) {
      var k :| 0 <= k < |c.calls| && c.calls[k].request == r;
      assert d.calls[..|c.calls|][k] == c.calls[k];
    }
    assert |c.calls| <= |d.calls|;
    forall k | 0 <= k < |c.calls| ensures c.calls[k] == d.calls[k] {
      if d.calls != c.calls { assert d.calls[..|c.calls|][k] == d.calls[k]; }
    }
  }

  lemma AtMostKeepsCalls(c: Dns, d: Dns, i: nat)
    requires AtMost(c, d, i) && OneCallEach(c) && CallsKnown(c) && c.servers > 0
    requires c.table[i].state.Asking? ==>
      c.table[i].request < |c.asked| && c.table[i].calls == c.asked[c.table[i].request].calls
        && !Called(c, c.table[i].request)
    ensures OneCallEach(d) && CallsKnown(d)
  {
    forall j, k | 0 <= j < k < |d.calls| ensures d.calls[j].request != d.calls[k].request {
      if k < |c.calls| { assert d.calls[..|c.calls|][k] == c.calls[k]; }
      assert d.calls[..|c.calls|][j] == c.calls[j];
    }
    forall k | 0 <= k < |d.calls| ensures d.calls[k].request < |d.asked| && d.asked[d.calls[k].request].calls {
      if k < |c.calls| { assert d.calls[..|c.calls|][k] == c.calls[k]; }
    }
  }

  lemma AtMostKeepsAsked(c: Dns, d: Dns, i: nat)
    requires AtMost(c, d, i) && OneEntryEach(c) && NoneLost(c)
    requires c.table[i].state.Asking? ==>
      c.table[i].request < |c.asked| && c.table[i].calls == c.asked[c.table[i].request].calls
    ensures OneEntryEach(d) && NoneLost(d)
  {
    forall j, k, r | AskedAt(d, j, r) && AskedAt(d, k, r) ensures j == k {
      assert AskedAt(c, j, r) && AskedAt(c, k, r);
    }
    forall r | 0 <= r < |d.asked| && d.asked[r].calls ensures StillAsked(d, r) || Called(d, r) {
      CalledGrows(c, d, i, r);
      if !Called(c, r) {
        var j :| AskedAt(c, j, r);
        if j != i || d.table[i].state.Asking? {
          assert AskedAt(d, j, r);
        } else {
          assert d.calls[|c.calls|].request == r;
        }
      }
    }
  }

  lemma OthersRight(c: Dns, d: Dns, i: nat, j: nat, now: nat)
    requires AtMost(c, d, i) && OneEntryEach(c) && c.servers > 0 && j < |c.table| && j != i
    requires EntryRight(c, c.table[j], now)
    ensures EntryRight(d, d.table[j], now)
  {
    var r := c.table[j].request;
    CalledGrows(c, d, i, r);
    if c.table[j].state.Asking? {
      assert AskedAt(c, j, r);
      assert AskedAt(c, i, r) ==> i == j;
    }
  }

  // ---- one check of one entry ------------------------------------------------------------

  lemma CheckIsAtMost(d: Dns, i: nat)
    requires i < |d.table| && !d.table[i].state.New?
    ensures AtMost(d, CheckEntry(d, i), i)
  {}

  lemma CheckShaped(d: Dns, i: nat)
    requires Shaped(d) && i < |d.table|
    ensures Shaped(CheckEntry(d, i)) && CheckEntry(d, i).ticks == d.ticks
  {}

  lemma CheckKeeps(d: Dns, n: nat)
    requires n < |d.table| && Shaped(d) && EntriesRight(d, n) && Rest(d)
    ensures var c := CheckEntry(d, n);
            Shaped(c) && EntriesRight(c, n + 1) && Rest(c) && c.ticks == d.ticks
  {
    hide CheckEntry, Called, Shaped, Remaining, Bound;
    var c := CheckEntry(d, n);
    ShapedGives(d);
    CheckShaped(d, n);
    assert EntryRight(d, d.table[n], d.ticks);
    CheckIsAtMost(d, n);
    AtMostKeepsCalls(d, c, n);
    AtMostKeepsAsked(d, c, n);
    forall i | 0 <= i < |c.table| ensures EntryRight(c, c.table[i], if i < n + 1 then c.ticks + 1 else c.ticks) {
      if i == n {
        CheckedRight(d, n);
      } else {
        OthersRight(d, c, n, i, if i < n then d.ticks + 1 else d.ticks);
      }
    }
  }

  lemma ShapedGives(d: Dns)
    requires Shaped(d)
    ensures d.servers > 0 && |d.table| == DNS_TABLE_SIZE
  {}

  lemma CheckedRight(d: Dns, n: nat)
    requires n < |d.table| && d.servers > 0 && EntryRight(d, d.table[n], d.ticks)
    ensures EntryRight(CheckEntry(d, n), CheckEntry(d, n).table[n], d.ticks + 1)
  {
    hide Called, Remaining, Bound;
    var e := d.table[n];
    if e.state.Asking? {
      TickNearer(d, n);
      SameCalls(d, CheckEntry(d, n), e.request);
    }
  }

  lemma SameCalls(c: Dns, d: Dns, r: nat)
    ensures c.calls == d.calls ==> Called(c, r) == Called(d, r)
  {}

  lemma {:induction false} CheckUpToKeeps(d: Dns, n: nat)
    requires Inv(d) && n <= |d.table|
    ensures var c := CheckUpTo(d, n);
            Shaped(c) && EntriesRight(c, n) && Rest(c) && c.ticks == d.ticks
  {
    hide EntriesRight, Rest, CheckEntry, Shaped;
    if n > 0 {
      CheckUpToKeeps(d, n - 1);
      CheckKeeps(CheckUpTo(d, n - 1), n - 1);
    } else {
      InvGives(d);
    }
  }

  lemma InvGives(d: Dns)
    requires Inv(d)
    ensures Shaped(d) && EntriesRight(d, 0) && Rest(d)
  {}

  lemma TickKeeps(d: Dns)
    requires Inv(d)
    ensures Inv(Tick(d))
  {
    hide CheckUpTo, Remaining, Bound, Running;
    CheckUpToKeeps(d, DNS_TABLE_SIZE);
    NextSecond(CheckUpTo(d, DNS_TABLE_SIZE));
  }

  lemma NextSecond(d: Dns)
    requires Shaped(d) && EntriesRight(d, DNS_TABLE_SIZE) && Rest(d)
    ensures Inv(d.(ticks := d.ticks + 1))
  {
    hide Remaining, Bound, Running;
    var c := d.(ticks := d.ticks + 1);
    forall i | 0 <= i < |c.table| ensures EntryRight(c, c.table[i], c.ticks) {
      assert EntryRight(d, d.table[i], d.ticks + 1);
      SameCalls(d, c, d.table[i].request);
    }
    forall r | 0 <= r < |c.asked| && c.asked[r].calls ensures StillAsked(c, r) || Called(c, r) {
      SameCalls(d, c, r);
      if StillAsked(d, r) { var i :| AskedAt(d, i, r); assert AskedAt(c, i, r); }
    }
    forall i, j, r | AskedAt(c, i, r) && AskedAt(c, j, r) ensures i == j {
      assert AskedAt(d, i, r) && AskedAt(d, j, r);
    }
  }

  // ---- responses and new requests --------------------------------------------------------

  lemma ReceiveKeeps(d: Dns, i: nat, v: Verdict)
    requires Inv(d) && (v.Answer? ==> v.ttl < 0x1_0000_0000)
    ensures Inv(Receive(d, i, v))
    ensures Receive(d, i, v).calls ==
      if i < |d.table| && d.table[i].state.Asking? && d.table[i].calls
        then d.calls + [Call(d.table[i].request, if v.Answer? then Some(v.addr) else None)] else d.calls
  {
    hide Called, Remaining, Bound;
    var c := Receive(d, i, v);
    if i < |d.table| && d.table[i].state.Asking? {
      assert EntryRight(d, d.table[i], d.ticks);
      assert AtMost(d, c, i);
      AtMostKeepsCalls(d, c, i);
      AtMostKeepsAsked(d, c, i);
      forall j | 0 <= j < |c.table| ensures EntryRight(c, c.table[j], c.ticks) {
        if j != i { OthersRight(d, c, i, j, d.ticks); }
      }
    }
  }

  lemma FilledIs(d: Dns, i: nat, name: Name, calls: bool)
    requires i < |d.table| && Shaped(d)
    ensures var c := Filled(d, i, name, calls);
            && Shaped(c) && c.calls == d.calls && c.ticks == d.ticks && c.servers == d.servers
            && c.asked == d.asked + [Asked(d.ticks, calls)]
            && c.table[i].state.Asking? && c.table[i].request == |d.asked| && c.table[i].calls == calls
            && c.table[i].numdns == 0 && c.table[i].tmr == 1 && c.table[i].retries == 0
            && forall j :: 0 <= j < |d.table| && j != i ==> c.table[j] == d.table[j]
  {}

  lemma FilledKeeps(d: Dns, i: nat, name: Name, calls: bool)
    requires Inv(d) && i < |d.table| && !d.table[i].state.Asking?
    ensures Inv(Filled(d, i, name, calls))
  {
    hide Filled, Remaining, Bound;
    var c := Filled(d, i, name, calls);
    FilledIs(d, i, name, calls);
    forall j | 0 <= j < |c.table| ensures EntryRight(c, c.table[j], c.ticks) {
      if j != i {
        assert EntryRight(d, d.table[j], d.ticks);
      } else {
        StartRemaining(c.servers, c.table[i]);
        assert forall k :: 0 <= k < |d.calls| ==> d.calls[k].request < |d.asked|;
      }
    }
    FilledKeepsRest(d, c, i, calls);
  }

  lemma FilledKeepsRest(d: Dns, c: Dns, i: nat, calls: bool)
    requires Inv(d) && i < |d.table| == |c.table| && !d.table[i].state.Asking?
    requires c.calls == d.calls && c.asked == d.asked + [Asked(d.ticks, calls)]
    requires c.table[i].state.Asking? && c.table[i].request == |d.asked|
    requires forall j :: 0 <= j < |d.table| && j != i ==> c.table[j] == d.table[j]
    ensures Rest(c)
  {
    hide Remaining, Bound, Running;
    forall j: nat, k: nat, r: nat | AskedAt(c, j, r) && AskedAt(c, k, r) ensures j == k {
      if j != i { assert EntryRight(d, d.table[j], d.ticks); assert AskedAt(d, j, r); }
      if k != i { assert EntryRight(d, d.table[k], d.ticks); assert AskedAt(d, k, r); }
    }
    forall r | 0 <= r < |c.asked| && c.asked[r].calls ensures StillAsked(c, r) || Called(c, r) {
      SameCalls(d, c, r);
      if r == |d.asked| {
        assert AskedAt(c, i, r);
      } else if StillAsked(d, r) {
        var j :| AskedAt(d, j, r);
        assert AskedAt(c, j, r);
      }
    }
  }

  lemma EnqueueKeeps(d: Dns, name: Name, calls: bool)
    requires Inv(d)
    ensures Inv(Enqueue(d, name, calls).0)
  {
    hide Filled, CheckEntry, Rest, EntriesRight;
    var slot := Slot(d);
    if slot.Some? {
      SlotFree(d);
      FilledKeeps(d, slot.value, name, calls);
    }
  }

  // A request never takes an entry that is being asked.
  lemma SlotFree(d: Dns)
    requires Shaped(d)
    ensures Slot(d).Some? ==> !d.table[Slot(d).value].state.Asking?
  {}
  // ---- every run -------------------------------------------------------------------------

  datatype Step = Second | Response(i: nat, v: Verdict) | Request(name: Name, calls: bool)

  predicate Possible(t: Step) { t.Response? && t.v.Answer? ==> t.v.ttl < 0x1_0000_0000 }

  function Next(d: Dns, t: Step): Dns
    requires Shaped(d)
  {
    match t
    case Second => Tick(d)
    case Response(i, v) => Receive(d, i, v)
    case Request(name, calls) => Enqueue(d, name, calls).0
  }

  lemma StepKeeps(d: Dns, t: Step)
    requires Inv(d) && Possible(t)
    ensures Inv(Next(d, t))
  {
    hide Tick, Receive, Enqueue, EntriesRight, Rest;
    match t
    case Second => TickKeeps(d);
    case Response(i, v) => ReceiveKeeps(d, i, v);
    case Request(name, calls) => EnqueueKeeps(d, name, calls);
  }

  predicate Started(d: Dns) {
    Shaped(d) && d.seqno == 0 && d.asked == [] && d.calls == []
    && forall i :: 0 <= i < |d.table| ==> d.table[i].state.Unused?
  }

  predicate IsRun(ds: seq<Dns>, ts: seq<Step>) {
    && |ds| == |ts| + 1 && Started(ds[0])
    && forall i :: 0 <= i < |ts| ==> Possible(ts[i]) && (Shaped(ds[i]) ==> ds[i + 1] == Next(ds[i], ts[i]))
  }

  lemma {:induction false} RunKeeps(ds: seq<Dns>, ts: seq<Step>)
    requires IsRun(ds, ts)
    ensures Inv(ds[|ts|])
    decreases |ts|
  {
    if ts != [] {
      var n := |ts| - 1;
      RunKeeps(ds[..n + 1], ts[..n]);
      StepKeeps(ds[n], ts[n]);
    }
  }

  // Every request accepted with a callback is reported at most once, and by the time S * (1 +
  // M * (M - 1) / 2) ticks have passed since, it has been; until then an entry is being asked for
  // it or it has been reported already.  Nothing else is ever reported.
  lemma ReportedOnceInTime(ds: seq<Dns>, ts: seq<Step>)
    requires IsRun(ds, ts)
    ensures var d := ds[|ts|];
            && OneCallEach(d) && CallsKnown(d)
            && (forall r :: 0 <= r < |d.asked| && d.asked[r].calls ==> StillAsked(d, r) || Called(d, r))
            && (forall r :: 0 <= r < |d.asked| && d.asked[r].calls && d.ticks >= d.asked[r].at + Bound(d.servers) ==>
                  Called(d, r))
            && (forall r :: 0 <= r < |d.asked| ==> !(StillAsked(d, r) && Called(d, r)))
  {
    hide Shaped, Bound, Remaining, Called;
    RunKeeps(ds, ts);
    var d := ds[|ts|];
    InvGives(d);
    ShapedGives(d);
    forall r: nat | r < |d.asked| && StillAsked(d, r)
      ensures d.ticks < d.asked[r].at + Bound(d.servers) && !Called(d, r)
    {
      var i: nat :| AskedAt(d, i, r);
      assert EntryRight(d, d.table[i], d.ticks);
      RunningLeft(d.servers, d.table[i]);
    }
  }

  lemma RunningLeft(servers: nat, e: Entry)
    requires Running(servers, e)
    ensures Remaining(servers, e) > 0
  {}
}

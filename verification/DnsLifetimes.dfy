// How long an entry stays what it is: being asked until its last timeout, completed for its time
// to live, whatever else happens to the table.
module DnsLifetimes {
  import opened Wrappers
  import opened DnsSpec
  import opened DnsRuns

  predicate Follows(ds: seq<Dns>, ts: seq<Step>) {
    |ds| == |ts| + 1 && Shaped(ds[0])
    && forall i :: 0 <= i < |ts| ==> Possible(ts[i]) && (Shaped(ds[i]) ==> ds[i + 1] == Next(ds[i], ts[i]))
  }

  function Seconds(ts: seq<Step>): nat {
    if ts == [] then 0 else Seconds(ts[..|ts| - 1]) + if ts[|ts| - 1].Second? then 1 else 0
  }

  lemma CheckFrame(d: Dns, i: nat)
    requires i < |d.table| && Shaped(d)
    ensures Shaped(CheckEntry(d, i)) && CheckEntry(d, i).servers == d.servers
    ensures |d.calls| <= |CheckEntry(d, i).calls| && CheckEntry(d, i).calls[..|d.calls|] == d.calls
    ensures forall j :: 0 <= j < |d.table| && j != i ==> CheckEntry(d, i).table[j] == d.table[j]
  {}

  // What a check makes of an entry depends on the entry and the servers alone.
  lemma CheckAlone(c: Dns, d: Dns, i: nat)
    requires i < |c.table| == |d.table| && c.table[i] == d.table[i] && c.servers == d.servers
    ensures CheckEntry(c, i).table[i] == CheckEntry(d, i).table[i]
  {}

  // Every entry is checked once a tick, by itself.
  lemma {:induction false} CheckUpToEntry(d: Dns, n: nat, i: nat)
    requires Shaped(d) && n <= |d.table| && i < |d.table|
    ensures Shaped(CheckUpTo(d, n)) && CheckUpTo(d, n).servers == d.servers
    ensures |d.calls| <= |CheckUpTo(d, n).calls| && CheckUpTo(d, n).calls[..|d.calls|] == d.calls
    ensures CheckUpTo(d, n).table[i] == if i < n then CheckEntry(d, i).table[i] else d.table[i]
  {
    hide CheckEntry, Shaped;
    if n > 0 {
      var c := CheckUpTo(d, n - 1);
      CheckUpToEntry(d, n - 1, i);
      CheckFrame(c, n - 1);
      if i == n - 1 { CheckAlone(c, d, i); }
      assert CheckEntry(c, n - 1).calls[..|c.calls|][..|d.calls|] == CheckEntry(c, n - 1).calls[..|d.calls|];
    }
  }

  lemma NextFrame(d: Dns, t: Step)
    requires Shaped(d) && Possible(t)
    ensures Shaped(Next(d, t)) && Next(d, t).servers == d.servers
    ensures |d.calls| <= |Next(d, t).calls| && Next(d, t).calls[..|d.calls|] == d.calls
  {
    hide CheckEntry, CheckUpTo, Slot;
    match t
    case Second => CheckUpToEntry(d, DNS_TABLE_SIZE, 0);
    case Response(i, v) =>
    case Request(name, calls) => if Slot(d).Some? { FilledIs(d, Slot(d).value, name, calls); }
  }

  predicate Evicts(d: Dns, t: Step, i: nat)
    requires Shaped(d)
  {
    t.Request? && Slot(d) == Some(i)
  }

  // What a step that does not evict entry i makes of it.
  function EntryAfter(d: Dns, t: Step, i: nat): Entry
    requires Shaped(d) && i < |d.table|
  {
    if t.Second? then CheckEntry(d, i).table[i]
    else if t.Response? && t.i == i then Receive(d, i, t.v).table[i]
    else d.table[i]
  }

  lemma NextEntry(d: Dns, t: Step, i: nat)
    requires Shaped(d) && i < |d.table| && !Evicts(d, t, i)
    ensures |Next(d, t).table| == |d.table| && Next(d, t).table[i] == EntryAfter(d, t, i)
  {
    hide CheckEntry, CheckUpTo, Slot;
    match t
    case Second => CheckUpToEntry(d, DNS_TABLE_SIZE, i);
    case Response(k, v) =>
    case Request(name, calls) => if Slot(d).Some? { FilledIs(d, Slot(d).value, name, calls); }
  }

  ghost predicate Spared(ds: seq<Dns>, ts: seq<Step>, i: nat)
    requires |ds| == |ts| + 1
  {
    forall j :: 0 <= j < |ts| && Shaped(ds[j]) ==> !Evicts(ds[j], ts[j], i)
  }

  lemma {:induction false} FollowsShaped(ds: seq<Dns>, ts: seq<Step>)
    requires Follows(ds, ts)
    ensures Shaped(ds[|ts|]) && ds[|ts|].servers == ds[0].servers
    decreases |ts|
  {
    hide Next, Shaped, Possible;
    if ts != [] {
      var n := |ts| - 1;
      FollowsShaped(ds[..n + 1], ts[..n]);
      NextFrame(ds[n], ts[n]);
    }
  }

  // ---- completed -------------------------------------------------------------------------

  // The seconds a time to live lasts: zero is counted down through all 32 bits.
  function Lifetime(ttl: nat): nat { if ttl == 0 then 0x1_0000_0000 else ttl }

  // Over any steps that do not evict it a completed entry stays, counting down, for exactly its
  // lifetime.
  lemma {:induction false} KeptForItsTime(ds: seq<Dns>, ts: seq<Step>, i: nat)
    requires Follows(ds, ts) && Spared(ds, ts, i) && i < |ds[0].table| && ds[0].table[i].state.Done?
    ensures var e0, k := ds[0].table[i], Seconds(ts);
            && Shaped(ds[|ts|])
            && var e := ds[|ts|].table[i];
               if k < Lifetime(e0.ttl) then e == e0.(ttl := if k == 0 then e0.ttl else Lifetime(e0.ttl) - k)
               else e.state.Unused?
    decreases |ts|
  {
    hide Next, Slot;
    if ts != [] {
      var n := |ts| - 1;
      KeptForItsTime(ds[..n + 1], ts[..n], i);
      NextFrame(ds[n], ts[n]);
      NextEntry(ds[n], ts[n], i);
    }
  }

  lemma {:induction false} LookupFindsFirst(t: seq<Entry>, name: Name, i: nat, n: nat)
    requires i <= n < |t| && t[n].state.Done? && t[n].name == name
    ensures Lookup(t, name, i).Some?
    ensures (forall k :: i <= k < n ==> !(t[k].state.Done? && t[k].name == name)) ==>
      Lookup(t, name, i) == Some(t[n].addr)
    decreases n - i
  {
    if i < n && !(t[i].state.Done? && t[i].name == name) { LookupFindsFirst(t, name, i + 1, n); }
  }

  lemma {:induction false} SecondsAfter(ts: seq<Step>)
    requires ts != [] && !ts[0].Second?
    ensures Seconds(ts) == Seconds(ts[1..])
    decreases |ts|
  {
    if |ts| > 1 {
      var n := |ts| - 1;
      SecondsAfter(ts[..n]);
      assert ts[..n][1..] == ts[1..][..n - 1];
    }
  }

  // An answer is looked up successfully over any steps that do not evict it, for as many seconds
  // as its time to live cut to a week says, or 2^32 if that is zero, and is gone after; an earlier
  // entry with an answer for the same name goes first.
  lemma AnswerIsServed(ds: seq<Dns>, ts: seq<Step>, i: nat, ttl: nat, addr: int)
    requires Follows(ds, ts) && Spared(ds, ts, i) && i < |ds[0].table| && ds[0].table[i].state.Asking?
    requires ts != [] && ts[0] == Response(i, Answer(ttl, addr))
    ensures var name, d := ds[0].table[i].name, ds[|ts|];
            && Shaped(d)
            && if Seconds(ts) < Lifetime(if ttl > DNS_MAX_TTL then DNS_MAX_TTL else ttl) then
                 && d.table[i].state.Done? && Lookup(d.table, name, 0).Some?
                 && ((forall k :: 0 <= k < i ==> !(d.table[k].state.Done? && d.table[k].name == name)) ==>
                       Lookup(d.table, name, 0) == Some(addr))
               else d.table[i].state.Unused?
  {
    hide Slot, Lookup;
    var es, us := ds[1..], ts[1..];
    NextFrame(ds[0], ts[0]);
    assert es[0] == Receive(ds[0], i, Answer(ttl, addr));
    assert Follows(es, us) by {
      forall j | 0 <= j < |us| ensures Possible(us[j]) && (Shaped(es[j]) ==> es[j + 1] == Next(es[j], us[j])) {
        assert us[j] == ts[j + 1] && es[j] == ds[j + 1] && es[j + 1] == ds[j + 2];
      }
    }
    assert Spared(es, us, i) by {
      forall j | 0 <= j < |us| && Shaped(es[j]) ensures !Evicts(es[j], us[j], i) {
        assert us[j] == ts[j + 1] && es[j] == ds[j + 1];
      }
    }
    SecondsAfter(ts);
    KeptForItsTime(es, us, i);
    var d := ds[|ts|];
    assert es[|us|] == d;
    if d.table[i].state.Done? { LookupFindsFirst(d.table, ds[0].table[i].name, 0, i); }
  }

  // ---- being asked -----------------------------------------------------------------------

  // Without a response for it a request goes on being asked, whatever else happens, for exactly the
  // seconds the delays on its servers add up to.
  lemma {:induction false} AskedForItsTime(ds: seq<Dns>, ts: seq<Step>, i: nat)
    requires Follows(ds, ts) && i < |ds[0].table| && Running(ds[0].servers, ds[0].table[i])
    requires forall j :: 0 <= j < |ts| ==> !(ts[j].Response? && ts[j].i == i)
    requires Seconds(ts) < Remaining(ds[0].servers, ds[0].table[i])
    ensures var e0, d := ds[0].table[i], ds[|ts|];
            && Shaped(d) && d.servers == ds[0].servers && Running(d.servers, d.table[i])
            && Remaining(d.servers, d.table[i]) == Remaining(d.servers, e0) - Seconds(ts)
            && d.table[i].request == e0.request && d.table[i].name == e0.name && d.table[i].calls == e0.calls
    decreases |ts|
  {
    hide Next, Remaining, Slot;
    FollowsShaped(ds, ts);
    if ts != [] {
      var n := |ts| - 1;
      AskedForItsTime(ds[..n + 1], ts[..n], i);
      FollowsShaped(ds[..n + 1], ts[..n]);
      NotTaken(ds[n], i);
      NextEntry(ds[n], ts[n], i);
      TickNearer(ds[n], i);
      SameName(ds[n], i);
    }
  }

  lemma NotTaken(d: Dns, i: nat)
    requires Shaped(d) && i < |d.table| && d.table[i].state.Asking?
    ensures Slot(d) != Some(i)
  {}

  lemma SameName(d: Dns, i: nat)
    requires i < |d.table|
    ensures CheckEntry(d, i).table[i].name == d.table[i].name
  {}

  // The last of those seconds frees the entry and reports the failure.
  lemma TimesOut(ds: seq<Dns>, ts: seq<Step>, i: nat)
    requires Follows(ds, ts) && i < |ds[0].table| && Running(ds[0].servers, ds[0].table[i])
    requires forall j :: 0 <= j < |ts| ==> !(ts[j].Response? && ts[j].i == i)
    requires Seconds(ts) + 1 == Remaining(ds[0].servers, ds[0].table[i])
    ensures Shaped(ds[|ts|])
    ensures var e0, d := ds[0].table[i], Next(ds[|ts|], Second);
            && Shaped(d) && d.table[i].state.Unused?
            && (e0.calls ==> exists k :: |ds[|ts|].calls| <= k < |d.calls| && d.calls[k] == Call(e0.request, None))
  {
    hide CheckEntry, Remaining, CheckUpTo;
    AskedForItsTime(ds, ts, i);
    var c := ds[|ts|];
    NextFrame(c, Second);
    NextEntry(c, Second, i);
    TickNearer(c, i);
    var before := CheckUpTo(c, i);
    CheckUpToEntry(c, i, i);
    TickNearer(before, i);
    var after := CheckEntry(before, i);
    OneCheck(c, i);
    if before.table[i].calls { CallsStay(c, i + 1, DNS_TABLE_SIZE, |before.calls|); }
  }

  lemma OneCheck(d: Dns, i: nat)
    requires i < |d.table|
    ensures CheckUpTo(d, i + 1) == CheckEntry(CheckUpTo(d, i), i)
  {}

  lemma {:induction false} CallsStay(d: Dns, m: nat, n: nat, k: nat)
    requires Shaped(d) && m <= n <= |d.table| && k < |CheckUpTo(d, m).calls|
    ensures k < |CheckUpTo(d, n).calls| && CheckUpTo(d, n).calls[k] == CheckUpTo(d, m).calls[k]
  {
    hide CheckEntry, Shaped;
    if m < n {
      CallsStay(d, m, n - 1, k);
      CheckUpToEntry(d, n - 1, 0);
      var c := CheckUpTo(d, n - 1);
      CheckFrame(c, n - 1);
      assert CheckEntry(c, n - 1).calls[..|c.calls|][k] == c.calls[k];
    }
  }
}

// What the callbacks of the resolver are told: on every run each call comes from one step, which
// says with which address, or that there is none.
module DnsCalls {
  import opened Wrappers
  import opened DnsSpec
  import opened DnsRuns
  import opened DnsLifetimes

  // A call the step t makes from d: an answer for the entry that asks for the request gives its
  // address, a failure none, and so does the last of the seconds an entry asks for.
  predicate TellsEntry(d: Dns, t: Step, c: Call, i: nat) {
    && d.servers > 0 && AskedAt(d, i, c.request) && d.table[i].calls
    && match t
       case Response(k, v) => k == i && c.addr == if v.Answer? then Some(v.addr) else None
       case Second => c.addr == None && d.table[i].numdns < d.servers && Remaining(d.servers, d.table[i]) == 1
       case Request(_, _) => false
  }

  ghost predicate Tells(d: Dns, t: Step, c: Call) { exists i: nat :: TellsEntry(d, t, c, i) }

  lemma {:induction false} SecondTells(d: Dns, n: nat, k: nat)
    requires Inv(d) && n <= |d.table| && |d.calls| <= k < |CheckUpTo(d, n).calls|
    ensures Tells(d, Second, CheckUpTo(d, n).calls[k])
  {
    hide CheckEntry, Remaining, Bound, Called;
    if n > 0 {
      var c := CheckUpTo(d, n - 1);
      InvGives(d);
      CheckUpToEntry(d, n - 1, n - 1);
      if k < |c.calls| {
        SecondTells(d, n - 1, k);
        CheckFrame(c, n - 1);
        assert CheckEntry(c, n - 1).calls[..|c.calls|][k] == c.calls[k];
      } else {
        assert EntryRight(d, d.table[n - 1], d.ticks);
        CheckCalls(c, n - 1);
        assert TellsEntry(d, Second, CheckUpTo(d, n).calls[k], n - 1);
      }
    }
  }

  // A check makes a call only when the time is up.
  lemma CheckCalls(d: Dns, i: nat)
    requires i < |d.table| && d.servers > 0 && !d.table[i].state.New?
    requires d.table[i].state.Asking? ==> Running(d.servers, d.table[i])
    ensures var e, c := d.table[i], CheckEntry(d, i);
            if e.state.Asking? && Remaining(d.servers, e) == 1 && e.calls
              then c.calls == d.calls + [Call(e.request, None)]
            else c.calls == d.calls
  {
    hide CheckEntry, Remaining;
    if d.table[i].state.Asking? { TickNearer(d, i); } else { RestCalls(d, i); }
  }

  lemma RestCalls(d: Dns, i: nat)
    requires i < |d.table| && !d.table[i].state.Asking?
    ensures CheckEntry(d, i).calls == d.calls
  {}

  lemma StepCalls(d: Dns, t: Step, k: nat)
    requires Inv(d) && Possible(t) && |d.calls| <= k < |Next(d, t).calls|
    ensures Tells(d, t, Next(d, t).calls[k])
  {
    hide CheckUpTo, CheckEntry, Remaining, Bound, Called, Slot;
    match t
    case Second => SecondTells(d, DNS_TABLE_SIZE, k);
    case Response(i, v) => assert TellsEntry(d, t, Next(d, t).calls[k], i);
    case Request(name, calls) => if Slot(d).Some? { FilledIs(d, Slot(d).value, name, calls); }
  }

  // Every call of a run comes from one step: one that answers, with the address the callback gets,
  // the entry asking for its request; or a failure response for it, or its last time-out, and then
  // it gets none.
  lemma {:induction false} CallsTold(ds: seq<Dns>, ts: seq<Step>, k: nat) returns (j: nat)
    requires IsRun(ds, ts) && k < |ds[|ts|].calls|
    ensures j < |ts| && |ds[j].calls| <= k < |ds[j + 1].calls| && Tells(ds[j], ts[j], ds[|ts|].calls[k])
    decreases |ts|
  {
    hide Inv, Next, Tells, Possible, Shaped;
    var n := |ts| - 1;
    RunKeeps(ds[..n + 1], ts[..n]);
    InvGives(ds[n]);
    NextFrame(ds[n], ts[n]);
    if k < |ds[n].calls| {
      j := CallsTold(ds[..n + 1], ts[..n], k);
      assert ds[n + 1].calls[..|ds[n].calls|][k] == ds[n].calls[k];
    } else {
      j := n;
      StepCalls(ds[n], ts[n], k);
    }
  }

  // The answer to a request with a callback makes exactly that call, and a look-up of the name from
  // that entry on gives the address the callback got.
  lemma AnswerIsCalled(d: Dns, i: nat, r: nat, ttl: nat, addr: int)
    requires Shaped(d) && AskedAt(d, i, r) && d.table[i].calls
    ensures var c := Next(d, Response(i, Answer(ttl, addr)));
            && c.calls == d.calls + [Call(r, Some(addr))]
            && i < |c.table| && Lookup(c.table, d.table[i].name, i) == Some(addr)
  {}

  // What of a name an entry keeps: 255 characters.
  predicate KeptOf(name: Name, kept: Name) {
    kept <= name && |kept| == if |name| <= 255 then |name| else 255
  }

  // A request is refused, and changes nothing, or a single entry that was not asking begins to ask
  // for it, the first unused one if there is any, on server 0 to begin with, with its name, its number
  // and whether it came with a callback.
  lemma RequestIsAsked(d: Dns, name: Name, calls: bool) returns (i: nat)
    requires Shaped(d)
    ensures var (c, err) := Enqueue(d, name, calls);
            if err == ERR_MEM then c == d
            else
              && err == ERR_INPROGRESS && i < |d.table| && !d.table[i].state.Asking? && AskedAt(c, i, |d.asked|)
              && KeptOf(name, c.table[i].name) && c.table[i].calls == calls && c.table[i].seqno == d.seqno
              && c.table[i].numdns == 0 && Remaining(1, c.table[i]) == 7
              && c.asked == d.asked + [Asked(d.ticks, calls)] && c.calls == d.calls
              && c.seqno == (if d.seqno < 255 then d.seqno + 1 else 0)
              && c.table == d.table[i := c.table[i]]
              && (forall k :: 0 <= k < (if d.table[i].state.Unused? then i else |d.table|) ==>
                    !d.table[k].state.Unused?)
  {
    hide Oldest, FirstUnused, Remaining;
    SlotFree(d);
    i := if Slot(d).Some? then Slot(d).value else 0;
    if Slot(d).Some? { StartRemaining(1, Enqueue(d, name, calls).0.table[i]); }
  }
}

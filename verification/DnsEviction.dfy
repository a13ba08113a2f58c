// Which entry a new request takes when none is unused, and what the 8-bit request counter makes of
// the choice.
module DnsEviction {
  import opened Wrappers
  import opened DnsSpec
  import opened DnsRuns

  lemma {:induction false} OldestIs(t: seq<Entry>, seqno: nat, n: nat)
    requires n <= |t|
    ensures var (i, age) := Oldest(t, seqno, n);
            (forall k :: 0 <= k < n && t[k].state.Done? ==> seqno - t[k].seqno <= age)
            && (age > 0 ==> i < n && t[i].state.Done? && seqno - t[i].seqno == age)
            && (age == 0 ==> i == 0)
  {
    if n > 0 { OldestIs(t, seqno, n - 1); }
  }

  predicate Full(d: Dns) { forall i :: 0 <= i < |d.table| ==> !d.table[i].state.Unused? }

  predicate NoneBelow(d: Dns) {
    forall i :: 0 <= i < |d.table| && d.table[i].state.Done? ==> d.table[i].seqno >= d.seqno
  }

  predicate AllBelow(d: Dns) {
    forall i :: 0 <= i < |d.table| && d.table[i].state.Done? ==> d.table[i].seqno < d.seqno
  }

  // A request is refused exactly when no entry is unused, the first is not completed and every
  // completed one has a number no smaller than the counter, which has then wrapped round.
  lemma RefusedExactly(d: Dns)
    requires Shaped(d)
    ensures Slot(d).None? <==> Full(d) && !d.table[0].state.Done? && NoneBelow(d)
  {
    OldestIs(d.table, d.seqno, DNS_TABLE_SIZE);
  }

  // How many requests back an entry was filled, as far as 8 bits tell.
  function Age(d: Dns, e: Entry): (a: nat)
    requires d.seqno < 256 && e.seqno < 256
    ensures 0 < a <= 256
  {
    if e.seqno == d.seqno then 256 else (d.seqno - e.seqno) % 256
  }

  predicate OldestDone(d: Dns, i: nat)
    requires Shaped(d)
  {
    i < |d.table| && d.table[i].state.Done?
    && forall j :: 0 <= j < |d.table| && d.table[j].state.Done? ==> Age(d, d.table[j]) <= Age(d, d.table[i])
  }

  // What is evicted is the oldest completed entry exactly when every completed entry has a number
  // below the counter, or none has and the first entry happens to be the oldest.
  lemma EvictsOldestExactly(d: Dns)
    requires Shaped(d) && Full(d) && Slot(d).Some?
    ensures OldestDone(d, Slot(d).value) <==> AllBelow(d) || (NoneBelow(d) && OldestDone(d, 0))
  {
    hide Age;
    OldestIs(d.table, d.seqno, DNS_TABLE_SIZE);
    var i := Slot(d).value;
    forall j | 0 <= j < |d.table| ensures AgeSplit(d, d.table[j]) { AgeIs(d, d.table[j]); }
  }

  predicate AgeSplit(d: Dns, e: Entry)
    requires d.seqno < 256 && e.seqno < 256
  {
    Age(d, e) == d.seqno - e.seqno + (if e.seqno < d.seqno then 0 else 256)
  }

  lemma AgeIs(d: Dns, e: Entry)
    requires d.seqno < 256 && e.seqno < 256
    ensures AgeSplit(d, e)
  {}

  // ---- on runs ---------------------------------------------------------------------------

  // Entries carry the number of their request, modulo 256.
  predicate Numbered(d: Dns) {
    d.seqno == |d.asked| % 256
    && forall i :: 0 <= i < |d.table| && !d.table[i].state.Unused? ==>
         d.table[i].request < |d.asked| && d.table[i].seqno == d.table[i].request % 256
  }

  lemma CheckNumbered(d: Dns, i: nat)
    requires Numbered(d) && i < |d.table|
    ensures Numbered(CheckEntry(d, i))
  {
    var c := CheckEntry(d, i);
    forall j | 0 <= j < |c.table| && !c.table[j].state.Unused?
      ensures c.table[j].request < |c.asked| && c.table[j].seqno == c.table[j].request % 256
    {
      assert !d.table[j].state.Unused?;
    }
  }

  lemma {:induction false} CheckUpToNumbered(d: Dns, n: nat)
    requires Numbered(d) && n <= |d.table|
    ensures Numbered(CheckUpTo(d, n))
  {
    if n > 0 {
      CheckUpToNumbered(d, n - 1);
      CheckNumbered(CheckUpTo(d, n - 1), n - 1);
    }
  }

  lemma StepNumbered(d: Dns, t: Step)
    requires Shaped(d) && Numbered(d)
    ensures Numbered(Next(d, t))
  {
    hide Slot, CheckEntry, CheckUpTo, Renamed;
    match t
    case Second => CheckUpToNumbered(d, DNS_TABLE_SIZE);
    case Response(i, v) =>
    case Request(name, calls) =>
      if Slot(d).Some? {
        var i := Slot(d).value;
        var e := Renamed(d.table[i], name).(state := New, seqno := d.seqno, request := |d.asked|, calls := calls);
        CheckNumbered(Put(d, i, e).(seqno := (d.seqno + 1) % 256, asked := d.asked + [Asked(d.ticks, calls)]), i);
      }
  }

  lemma {:induction false} RunNumbered(ds: seq<Dns>, ts: seq<Step>)
    requires IsRun(ds, ts)
    ensures Numbered(ds[|ts|])
    decreases |ts|
  {
    hide Inv, Next;
    if ts != [] {
      var n := |ts| - 1;
      RunNumbered(ds[..n + 1], ts[..n]);
      RunKeeps(ds[..n + 1], ts[..n]);
      InvGives(ds[n]);
      StepNumbered(ds[n], ts[n]);
    }
  }

  // The age of an entry is the number of requests accepted since, its own among them, unless that
  // is more than 8 bits tell.
  lemma AgeCountsRequests(d: Dns, i: nat)
    requires Shaped(d) && Numbered(d) && i < |d.table| && !d.table[i].state.Unused?
    ensures Age(d, d.table[i]) <= |d.asked| - d.table[i].request
    ensures Age(d, d.table[i]) == |d.asked| - d.table[i].request <==> |d.asked| - d.table[i].request <= 256
  {}

  predicate Recent(d: Dns) {
    forall i :: 0 <= i < |d.table| && d.table[i].state.Done? ==> |d.asked| - d.table[i].request <= 256
  }

  predicate EarliestDone(d: Dns, i: nat) {
    i < |d.table| && d.table[i].state.Done?
    && forall j :: 0 <= j < |d.table| && d.table[j].state.Done? ==> d.table[i].request <= d.table[j].request
  }

  // On every run, where no completed entry is more than 256 requests old: a request that finds no
  // unused entry takes the completed one of the earliest request exactly when all completed ones
  // lie on one side of the counter, below it, or not below it with the earliest at the front.
  lemma RunsEvictEarliest(ds: seq<Dns>, ts: seq<Step>)
    requires IsRun(ds, ts)
    requires Recent(ds[|ts|])
    ensures var d := ds[|ts|];
            Shaped(d) && (Full(d) && Slot(d).Some? ==>
              (EarliestDone(d, Slot(d).value) <==> AllBelow(d) || (NoneBelow(d) && EarliestDone(d, 0))))
  {
    hide Slot, Age, Inv, Next, Numbered;
    var d := ds[|ts|];
    RunKeeps(ds, ts);
    InvGives(d);
    RunNumbered(ds, ts);
    forall i: nat | i < |d.table| && d.table[i].state.Done?
      ensures Age(d, d.table[i]) == |d.asked| - d.table[i].request {
      AgeCountsRequests(d, i);
    }
    if Full(d) && Slot(d).Some? {
      EvictsOldestExactly(d);
      EarliestIsOldest(d, Slot(d).value);
      EarliestIsOldest(d, 0);
    }
  }

  lemma EarliestIsOldest(d: Dns, i: nat)
    requires Shaped(d)
    requires forall j: nat :: j < |d.table| && d.table[j].state.Done? ==>
      Age(d, d.table[j]) == |d.asked| - d.table[j].request
    ensures EarliestDone(d, i) <==> OldestDone(d, i)
  {
    hide Age;
  }

  // ---- runs that go wrong ----------------------------------------------------------------

  predicate AsksFirst(d: Dns, k: nat, n: nat) {
    Shaped(d) && |d.asked| == n + k && d.seqno == (n + k) % 256 && k <= DNS_TABLE_SIZE
    && (forall i :: 0 <= i < k ==>
      d.table[i].state.Asking? && d.table[i].request == n + i && d.table[i].seqno == (n + i) % 256)
    && (forall i :: k <= i < DNS_TABLE_SIZE ==> d.table[i].state.Unused?)
  }

  lemma Extend(ds: seq<Dns>, ts: seq<Step>, t: Step) returns (d: Dns)
    requires IsRun(ds, ts) && Possible(t)
    ensures Shaped(ds[|ts|]) && d == Next(ds[|ts|], t) && IsRun(ds + [d], ts + [t])
  {
    hide Next, Inv, Started;
    RunKeeps(ds, ts);
    InvGives(ds[|ts|]);
    d := Next(ds[|ts|], t);
    var es, us := ds + [d], ts + [t];
    assert es[0] == ds[0];
    forall i | 0 <= i < |us| ensures Possible(us[i]) && (Shaped(es[i]) ==> es[i + 1] == Next(es[i], us[i])) {
      if i < |ts| { assert es[i] == ds[i] && es[i + 1] == ds[i + 1] && us[i] == ts[i]; }
    }
  }

  lemma AsksOneMore(d: Dns, k: nat, n: nat)
    requires AsksFirst(d, k, n) && k < DNS_TABLE_SIZE
    ensures AsksFirst(Next(d, Request([97], true)), k + 1, n)
  {
    FilledIs(d, k, [97], true);
  }

  // n requests, each answered with a failure before the next, leave every entry unused; k more are
  // then being asked.
  lemma {:induction false} AskedRun(n: nat, k: nat) returns (ds: seq<Dns>, ts: seq<Step>)
    requires k <= DNS_TABLE_SIZE
    ensures IsRun(ds, ts) && AsksFirst(ds[|ts|], k, n)
    decreases n, k
  {
    hide Next, IsRun, AsksFirst;
    if n == 0 && k == 0 {
      var e := Entry(Unused, 0, 0, 0, 0, 0, [], seq(255, _ => 0), 0, 0, false);
      ts := [];
      ds := [Dns(1, [e, e, e, e], 0, 0, [], [])];
      StartIs(ds[0], ds, ts);
    } else if k > 0 {
      ds, ts := AskedRun(n, k - 1);
      RunLength(ds, ts);
      AsksOneMore(ds[|ts|], k - 1, n);
      var d := Extend(ds, ts, Request([97], true));
      ds, ts := ds + [d], ts + [Request([97], true)];
    } else {
      ds, ts := AskedRun(n - 1, 1);
      RunLength(ds, ts);
      FailsFirst(ds[|ts|], n - 1);
      var d := Extend(ds, ts, Response(0, Failure));
      ds, ts := ds + [d], ts + [Response(0, Failure)];
    }
  }

  lemma StartIs(d: Dns, ds: seq<Dns>, ts: seq<Step>)
    requires Started(d) && ds == [d] && ts == []
    ensures IsRun(ds, ts) && AsksFirst(d, 0, 0)
  {}

  lemma RunLength(ds: seq<Dns>, ts: seq<Step>)
    requires IsRun(ds, ts)
    ensures |ds| == |ts| + 1 && Possible(Response(0, Failure)) && Possible(Request([97], true))
  {}

  lemma FailsFirst(d: Dns, n: nat)
    requires AsksFirst(d, 1, n)
    ensures AsksFirst(Next(d, Response(0, Failure)), 0, n + 1)
  {}

  // A response with an address for each entry from i on.
  predicate DoneFrom(d: Dns, i: nat, n: nat) {
    Shaped(d) && |d.asked| == n + 4 && d.seqno == (n + 4) % 256 && i <= DNS_TABLE_SIZE
    && (forall j :: 0 <= j < DNS_TABLE_SIZE ==> d.table[j].request == n + j && d.table[j].seqno == (n + j) % 256)
    && (forall j :: 0 <= j < i ==> d.table[j].state.Asking?)
    && (forall j :: i <= j < DNS_TABLE_SIZE ==> d.table[j].state.Done?)
  }

  lemma {:induction false} AnsweredRun(n: nat, i: nat) returns (ds: seq<Dns>, ts: seq<Step>)
    requires i <= DNS_TABLE_SIZE
    ensures IsRun(ds, ts) && DoneFrom(ds[|ts|], i, n)
    decreases DNS_TABLE_SIZE - i
  {
    hide Next, IsRun, DoneFrom, AsksFirst;
    if i == DNS_TABLE_SIZE {
      ds, ts := AskedRun(n, DNS_TABLE_SIZE);
      RunLength(ds, ts);
      AllAsking(ds[|ts|], n);
    } else {
      ds, ts := AnsweredRun(n, i + 1);
      RunLength(ds, ts);
      AnswersOneMore(ds[|ts|], i, n);
      var t := Response(i, Answer(60, 1));
      var d := Extend(ds, ts, t);
      ds, ts := ds + [d], ts + [t];
    }
  }

  lemma AllAsking(d: Dns, n: nat)
    requires AsksFirst(d, DNS_TABLE_SIZE, n)
    ensures DoneFrom(d, DNS_TABLE_SIZE, n)
  {}

  lemma AnswersOneMore(d: Dns, i: nat, n: nat)
    requires DoneFrom(d, i + 1, n)
    ensures DoneFrom(Next(d, Response(i, Answer(60, 1))), i, n) && Possible(Response(i, Answer(60, 1)))
  {}

  // 258 requests in, with all entries completed, the next one takes the third entry, although the
  // first two were filled before it.
  lemma EvictsAnother() returns (ds: seq<Dns>, ts: seq<Step>)
    ensures IsRun(ds, ts) && Inv(ds[|ts|]) && Recent(ds[|ts|]) && Full(ds[|ts|])
    ensures var d := ds[|ts|];
            Slot(d) == Some(2) && EarliestDone(d, 0) && d.table[0].request < d.table[2].request
            && !EarliestDone(d, 2)
  {
    hide Inv, Next;
    ds, ts := AnsweredRun(254, 0);
    RunKeeps(ds, ts);
    OldestIs(ds[|ts|].table, ds[|ts|].seqno, DNS_TABLE_SIZE);
  }

  // 256 requests in, a request is refused although three entries are completed.
  lemma RefusedAfterWrap() returns (ds: seq<Dns>, ts: seq<Step>)
    ensures IsRun(ds, ts) && Inv(ds[|ts|])
    ensures var d := ds[|ts|];
            (forall i :: 1 <= i < DNS_TABLE_SIZE ==> d.table[i].state.Done?) && Enqueue(d, [97], true).1 == ERR_MEM
  {
    hide Inv, Next;
    ds, ts := AnsweredRun(252, 1);
    RunKeeps(ds, ts);
    RefusedExactly(ds[|ts|]);
  }
}

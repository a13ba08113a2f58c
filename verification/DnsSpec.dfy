// The resolver's table of requests: retries with growing delays, change of server, answers,
// expiry and eviction, as functions from the table before to the table after.
module DnsSpec {
  import opened Wrappers

  const DNS_TABLE_SIZE := 4
  const DNS_MAX_RETRIES := 4
  const DNS_MAX_TTL := 604800
  const DNS_MAX_NAME_LENGTH := 256
  const ERR_MEM := -1
  const ERR_INPROGRESS := -5

  // Host names, as the bytes of their characters.
  type Name = seq<int>
  datatype EntryState = Unused | New | Asking | Done
  // request numbers the request an entry was last filled for; calls says whether it came with a
  // callback.
  datatype Entry = Entry(state: EntryState, numdns: nat, tmr: nat, retries: nat, seqno: nat, ttl: nat,
                         name: Name, rest: Name, addr: int, request: nat, calls: bool)
  // A callback: for which request, and with an address or not.
  datatype Call = Call(request: nat, addr: Option<int>)
  // A request that was accepted: at which tick, and with a callback or not.
  datatype Asked = Asked(at: nat, calls: bool)
  // servers counts the servers configured without a gap from the first one on; seqno is 8 bits.
  datatype Dns = Dns(servers: nat, table: seq<Entry>, seqno: nat, ticks: nat, asked: seq<Asked>, calls: seq<Call>)

  // The array an entry keeps its name in: the name, its terminating zero and, behind it, what longer
  // names have left there.
  function NameField(e: Entry): Name { e.name + [0] + e.rest }

  predicate EntryShaped(e: Entry) {
    e.seqno < 256 && e.ttl < 0x1_0000_0000 && |NameField(e)| == DNS_MAX_NAME_LENGTH
  }

  predicate Shaped(d: Dns) {
    |d.table| == DNS_TABLE_SIZE && d.servers > 0 && d.seqno < 256
    && forall i :: 0 <= i < |d.table| ==> EntryShaped(d.table[i])
  }

  function Report(d: Dns, e: Entry, addr: Option<int>): seq<Call> {
    if e.calls then d.calls + [Call(e.request, addr)] else d.calls
  }

  function Put(d: Dns, i: nat, e: Entry): Dns
    requires i < |d.table|
  {
    d.(table := d.table[i := e])
  }

  // ---- the timer -------------------------------------------------------------------------

  // A counter of 32 bits going down.
  function Down32(x: nat): nat { (x - 1) % 0x1_0000_0000 }

  function CheckEntry(d: Dns, i: nat): Dns
    requires i < |d.table|
  {
    var e := d.table[i];
    match e.state
    case New => Put(d, i, e.(state := Asking, numdns := 0, tmr := 1, retries := 0))
    case Asking =>
      if e.tmr != 1 then Put(d, i, e.(tmr := if e.tmr == 0 then 255 else e.tmr - 1))
      else if e.retries + 1 != DNS_MAX_RETRIES then Put(d, i, e.(tmr := e.retries + 1, retries := e.retries + 1))
      else if e.numdns + 1 < d.servers then Put(d, i, e.(numdns := e.numdns + 1, tmr := 1, retries := 0))
      else Put(d, i, e.(state := Unused, tmr := 0, retries := DNS_MAX_RETRIES,
        calls := false)).(calls := Report(d, e, None))
    case Done =>
      if Down32(e.ttl) == 0 then Put(d, i, e.(state := Unused, ttl := 0, calls := false))
        else Put(d, i, e.(ttl := Down32(e.ttl)))
    case Unused => d
  }

  function CheckUpTo(d: Dns, n: nat): Dns
    requires n <= |d.table|
    ensures |CheckUpTo(d, n).table| == |d.table|
  {
    if n == 0 then d else CheckEntry(CheckUpTo(d, n - 1), n - 1)
  }

  // Once a second every entry is checked.
  function Tick(d: Dns): Dns
    requires Shaped(d)
  {
    CheckUpTo(d, DNS_TABLE_SIZE).(ticks := d.ticks + 1)
  }

  // ---- answers ---------------------------------------------------------------------------

  // What a response amounts to: an error of some kind, or an address with its time to live.
  datatype Verdict = Failure | Answer(ttl: nat, addr: int)

  function Receive(d: Dns, i: nat, v: Verdict): Dns {
    if i >= |d.table| || !d.table[i].state.Asking? then d
    else
      var e := d.table[i];
      match v
      case Failure => Put(d, i, e.(state := Unused, calls := false)).(calls := Report(d, e, None))
      case Answer(ttl, addr) =>
        Put(d, i, e.(state := Done, ttl := if ttl > DNS_MAX_TTL then DNS_MAX_TTL else ttl, addr := addr))
          .(calls := Report(d, e, Some(addr)))
  }

  // ---- new requests ----------------------------------------------------------------------

  // The first unused entry from i on.
  function FirstUnused(t: seq<Entry>, i: nat): (r: nat)
    requires i <= |t|
    ensures i <= r <= |t| && (forall k :: i <= k < r ==> !t[k].state.Unused?) && (r < |t| ==> t[r].state.Unused?)
    decreases |t| - i
  {
    if i == |t| || t[i].state.Unused? then i else FirstUnused(t, i + 1)
  }

  // Of the first n entries: the completed one whose number lies furthest behind the counter, and
  // how far; entry 0 if none lies behind it.
  function Oldest(t: seq<Entry>, seqno: nat, n: nat): (r: (nat, int))
    requires n <= |t|
    ensures r.1 >= 0 && (r.0 < n || r.0 == 0)
  {
    if n == 0 then (0, 0)
    else
      var (i, age) := Oldest(t, seqno, n - 1);
      if t[n - 1].state.Done? && seqno - t[n - 1].seqno > age then (n - 1, seqno - t[n - 1].seqno) else (i, age)
  }

  // The entry a new request takes, if it gets one.
  function Slot(d: Dns): (r: Option<nat>)
    requires Shaped(d)
    ensures r.Some? ==> r.value < DNS_TABLE_SIZE
  {
    var i := FirstUnused(d.table, 0);
    if i < DNS_TABLE_SIZE then Some(i)
    else
      var o := Oldest(d.table, d.seqno, DNS_TABLE_SIZE).0;
      if d.table[o].state.Done? then Some(o) else None
  }

  // What fits an entry of a name.
  function Shortened(name: Name): Name {
    if |name| < DNS_MAX_NAME_LENGTH then name else name[..DNS_MAX_NAME_LENGTH - 1]
  }

  // The name is copied over the front of the array.
  function Renamed(e: Entry, name: Name): (r: Entry)
    requires |NameField(e)| == DNS_MAX_NAME_LENGTH
    ensures |NameField(r)| == DNS_MAX_NAME_LENGTH && r == e.(name := r.name, rest := r.rest)
  {
    e.(name := Shortened(name), rest := NameField(e)[|Shortened(name)| + 1..])
  }

  // A new request is written to entry i and asked at once.
  function Filled(d: Dns, i: nat, name: Name, calls: bool): Dns
    requires i < |d.table| && |NameField(d.table[i])| == DNS_MAX_NAME_LENGTH
  {
    var e := Renamed(d.table[i], name).(state := New, seqno := d.seqno, request := |d.asked|, calls := calls);
    CheckEntry(Put(d, i, e).(seqno := (d.seqno + 1) % 256, asked := d.asked + [Asked(d.ticks, calls)]), i)
  }

  function Enqueue(d: Dns, name: Name, calls: bool): (Dns, int)
    requires Shaped(d)
  {
    var slot := Slot(d);
    if slot.None? then (d, ERR_MEM) else (Filled(d, slot.value, name, calls), ERR_INPROGRESS)
  }

  // The address of the first completed entry of that name, from i on.
  function Lookup(t: seq<Entry>, name: Name, i: nat): Option<int>
    requires i <= |t|
    decreases |t| - i
  {
    if i == |t| then None
    else if t[i].state.Done? && t[i].name == name then Some(t[i].addr)
    else Lookup(t, name, i + 1)
  }

  // ---- how long a request can stay open --------------------------------------------------

  // The delays still to come on one server after the r-th: r + 1, r + 2, ...
  function Delays(r: nat): nat
    decreases DNS_MAX_RETRIES - r
  {
    if r + 1 >= DNS_MAX_RETRIES then 0 else r + 1 + Delays(r + 1)
  }

  function PerServer(): nat { 1 + Delays(0) }

  lemma {:induction false} DelaysSum(r: nat)
    requires 0 < r <= DNS_MAX_RETRIES
    ensures Delays(r - 1) == DNS_MAX_RETRIES * (DNS_MAX_RETRIES - 1) / 2 - r * (r - 1) / 2
    decreases DNS_MAX_RETRIES - r
  {
    if r < DNS_MAX_RETRIES { DelaysSum(r + 1); }
  }

  function Bound(servers: nat): nat { servers * (1 + DNS_MAX_RETRIES * (DNS_MAX_RETRIES - 1) / 2) }

  // The ticks until the timer alone ends the request.
  function Remaining(servers: nat, e: Entry): nat
    requires e.numdns < servers
  {
    e.tmr + Delays(e.retries) + (servers - 1 - e.numdns) * PerServer()
  }

  predicate Running(servers: nat, e: Entry) {
    e.state.Asking? && e.numdns < servers && e.retries < DNS_MAX_RETRIES && 0 < e.tmr <= DNS_MAX_RETRIES
  }

  // One tick brings a running request one tick nearer to its end.
  lemma TickNearer(d: Dns, i: nat)
    requires i < |d.table| && d.servers > 0 && Running(d.servers, d.table[i])
    ensures var e := CheckEntry(d, i).table[i];
            if Remaining(d.servers, d.table[i]) == 1 then
              e.state.Unused? && CheckEntry(d, i).calls == Report(d, d.table[i], None)
            else
              Running(d.servers, e) && Remaining(d.servers, e) == Remaining(d.servers, d.table[i]) - 1
              && e.request == d.table[i].request && e.calls == d.table[i].calls && CheckEntry(d, i).calls == d.calls
  {
    var e := d.table[i];
    if e.tmr == 1 && e.retries + 1 == DNS_MAX_RETRIES && e.numdns + 1 < d.servers {
      assert (d.servers - 1 - e.numdns) * PerServer() == (d.servers - 2 - e.numdns) * PerServer() + PerServer();
    }
  }

  lemma StartRemaining(servers: nat, e: Entry)
    requires servers > 0 && e.numdns == 0 && e.tmr == 1 && e.retries == 0
    ensures Remaining(servers, e) == Bound(servers)
  {
    DelaysSum(1);
    assert Delays(0) == 6;
    assert (servers - 1) * PerServer() + PerServer() == servers * PerServer();
  }
}

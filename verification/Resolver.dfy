// The resolver's own loops over its table, entry by entry in place.
module Resolver {
  import opened Wrappers
  import opened DnsSpec
  import DnsNames
  import DnsReaders
  import DnsMessages
  import DnsRuns

  const DNS_MSG_SIZE := 512

  // What a message of this length, with the bytes of earlier ones behind it in the buffer, does to
  // the table.  Its identifier names the entry.
  function Received(d: Dns, length: nat, buf: seq<int>): Option<Dns>
    requires DnsMessages.Octets(buf) && |buf| == DNS_MSG_SIZE
  {
    if length > DNS_MSG_SIZE || length < DnsMessages.HEADER + DnsMessages.QUERY + DnsMessages.ANSWER then Some(d)
    else
      DnsMessages.Word16Range(buf, 0);
      var i: nat := DnsMessages.Word16(buf, 0);
      if i >= |d.table| || !d.table[i].state.Asking? then Some(d)
      else match DnsMessages.VerdictOf(NameField(d.table[i]), buf)
        case None => None
        case Some(v) => Some(DnsSpec.Receive(d, i, v))
  }

  // Only a message of 26 to 512 bytes whose first two name an asking entry changes anything, and only
  // that entry.
  lemma OthersIgnored(d: Dns, length: nat, buf: seq<int>)
    requires DnsMessages.Octets(buf) && |buf| == DNS_MSG_SIZE
    requires Received(d, length, buf).Some? && Received(d, length, buf).value != d
    ensures 26 <= length <= 512
    ensures var i, c := buf[0] * 256 + buf[1], Received(d, length, buf).value;
            && 0 <= i < |d.table| && d.table[i].state.Asking?
            && c.table == d.table[i := c.table[i]] && c.asked == d.asked && c.seqno == d.seqno
  {
    hide DnsMessages.VerdictOf;
    DnsMessages.Word16Range(buf, 0);
  }

  // A response to the name an entry asks for completes the entry with the first Internet address
  // among its records, or frees it if there is none, whatever the message holds besides.
  lemma ResponseSettles(d: Dns, i: nat, h: seq<int>, tail: seq<int>, rs: seq<DnsMessages.Record>,
      after: seq<int>, length: nat)
    requires i < |d.table| && d.table[i].state.Asking? && DnsMessages.Host(d.table[i].name)
    requires DnsMessages.AllFit(rs) && DnsMessages.ResponseHeader(h, |rs|) && DnsMessages.Word16(h, 0) == i
    requires |tail| == DnsMessages.QUERY && DnsMessages.Octets(tail) && DnsMessages.Octets(after)
    requires DnsMessages.HEADER + DnsMessages.QUERY + DnsMessages.ANSWER <= length <= DNS_MSG_SIZE
    requires |h + DnsNames.WireOf(d.table[i].name) + tail + DnsMessages.RecordsBytes(rs) + after| == DNS_MSG_SIZE
    ensures var buf := h + DnsNames.WireOf(d.table[i].name) + tail + DnsMessages.RecordsBytes(rs) + after;
            && DnsMessages.Octets(buf)
            && Received(d, length, buf) == Some(DnsSpec.Receive(d, i, DnsMessages.FirstAddress(rs)))
  {
    hide DnsMessages.VerdictOf, DnsMessages.RecordsBytes, DnsMessages.Octets, DnsMessages.FirstAddress;
    hide DnsReaders.Standard, DnsNames.WireOf;
    var name := d.table[i].name;
    DnsMessages.ResponseIsRead(h, name, tail, rs, after, d.table[i].rest);
    DnsMessages.Regrouped(h, DnsNames.WireOf(name), tail, DnsMessages.RecordsBytes(rs), after);
    DnsMessages.Word16Inside([], h, DnsNames.WireOf(name) + (tail + DnsMessages.RecordsBytes(rs) + after), 0);
    assert [] + h == h;
  }

  // The comparison goes on behind the name into what a longer one has left: an entry filled for
  // "a" after "abx" accepts a response to "a.x".
  lemma StaleAccepted(d: Dns, i: nat, calls: bool, before: seq<int>, after: seq<int>)
    requires Shaped(d) && i < |d.table| && d.table[i].name == [97, 98, 120]
    ensures var e := Filled(d, i, [97], calls).table[i];
            && e.state.Asking? && e.name == [97]
            && DnsReaders.Compare(NameField(e), 0, before + DnsNames.WireOf([97, DnsNames.DOT, 120]) + after,
              |before|) == Some(true)
  {
    hide DnsReaders.Compare, NameField;
    var ls: seq<seq<int>> := [[97], [120]];
    var e := Filled(d, i, [97], calls).table[i];
    StaleField(d.table[i], e);
    StaleLabels(ls);
    DnsReaders.HoldsWire(before, after, ls);
    DnsReaders.CompareExact(NameField(e), 0, before + DnsNames.Wire(ls) + after, |before|, ls);
  }

  lemma StaleField(was: Entry, e: Entry)
    requires was.name == [97, 98, 120] && |NameField(was)| == DNS_MAX_NAME_LENGTH
    requires e.name == [97] && e.rest == NameField(was)[2..]
    ensures |NameField(e)| == DNS_MAX_NAME_LENGTH && DnsReaders.Matches(NameField(e), 0, [[97], [120]])
  {
    var field, ls: seq<seq<int>> := NameField(e), [[97], [120]];
    assert field[0..1] == [97] && field[2..3] == [120];
    assert ls[1..] == [[120]] && |ls[1..][1..]| == 0;
    assert DnsReaders.Matches(field, 2, ls[1..]);
  }

  lemma StaleLabels(ls: seq<seq<int>>)
    requires ls == [[97], [120]]
    ensures DnsNames.WireOf([97, DnsNames.DOT, 120]) == DnsNames.Wire(ls) && |DnsNames.Join(ls)| == 3
    ensures DnsReaders.Bytes(ls) && DnsReaders.Regular(ls)
  {
    assert ls[1..] == [[120]] && |ls[1..][1..]| == 0;
    DnsNames.JoinLabels(ls);
    assert DnsNames.Join(ls[1..]) == [120];
    assert DnsNames.Join(ls) == [97, DnsNames.DOT, 120];
  }

  class Resolver {
    // Server addresses, 0 for none.
    var dnsServers: seq<int>
    var table: array<Entry>
    var seqno: nat
    // Ticks so far, requests accepted and callbacks made.
    var ticks: nat
    var asked: seq<Asked>
    var calls: seq<Call>

    constructor (servers: seq<int>)
      requires Configured(servers) > 0
      ensures Valid() && fresh(table) && dnsServers == servers && DnsRuns.Started(View())
    {
      dnsServers, seqno, ticks, asked, calls := servers, 0, 0, [], [];
      table := new Entry[DNS_TABLE_SIZE](_ => Entry(Unused, 0, 0, 0, 0, 0, [],
        seq(DNS_MAX_NAME_LENGTH - 1, _ => 0), 0, 0, false));
    }

    ghost predicate Valid()
      reads this, table
    {
      table.Length == DNS_TABLE_SIZE && Shaped(View())
    }

    ghost function View(): Dns
      reads this, table
    {
      Dns(Configured(dnsServers), table[..], seqno, ticks, asked, calls)
    }

    // The entry at i is checked: asked for the first time, asked again after a delay, moved on to
    // the next server, given up, or aged.
    method CheckEntry(i: nat)
      requires Valid() && i < table.Length
      requires table[i].state.Asking? ==> Running(Configured(dnsServers), table[i])
      modifies this`calls, table
      ensures Valid() && View() == DnsSpec.CheckEntry(old(View()), i)
    {
      var e := table[i];
      match e.state
      case New =>
        table[i] := e.(state := Asking, numdns := 0, tmr := 1, retries := 0);
      case Asking =>
        var tmr := e.tmr - 1;
        if tmr == 0 {
          var retries := e.retries + 1;
          if retries == DNS_MAX_RETRIES {
            ConfiguredNext(dnsServers, e.numdns);
            if e.numdns + 1 < |dnsServers| && dnsServers[e.numdns + 1] != 0 {
              table[i] := e.(numdns := e.numdns + 1, tmr := 1, retries := 0);
            } else {
              if e.calls { calls := calls + [Call(e.request, None)]; }
              table[i] := e.(state := Unused, tmr := 0, retries := retries, calls := false);
            }
          } else {
            table[i] := e.(tmr := retries, retries := retries);
          }
        } else {
          table[i] := e.(tmr := tmr);
        }
      case Done =>
        var ttl := Down32(e.ttl);
        table[i] := if ttl == 0 then e.(state := Unused, ttl := 0, calls := false) else e.(ttl := ttl);
      case Unused =>
    }

    method CheckEntries()
      requires Valid()
      requires forall i :: 0 <= i < table.Length && table[i].state.Asking? ==> Running(Configured(dnsServers), table[i])
      modifies this`calls, this`ticks, table
      ensures Valid() && View() == Tick(old(View()))
    {
      hide DnsSpec.CheckEntry, Shaped, Running;
      var i := 0;
      while i < DNS_TABLE_SIZE
        invariant 0 <= i <= DNS_TABLE_SIZE && Valid() && View() == CheckUpTo(old(View()), i) && ticks == old(ticks)
        invariant forall k :: i <= k < table.Length ==> table[k] == old(table[k])
      {
        CheckOne(View(), i);
        CheckEntry(i);
        i := i + 1;
      }
      Later(View());
      ticks := ticks + 1;
    }

    // A response for entry i, reduced to what it amounts to.
    method Receive(i: nat, v: Verdict)
      requires Valid() && (v.Answer? ==> v.ttl < 0x1_0000_0000)
      modifies this`calls, table
      ensures Valid() && View() == DnsSpec.Receive(old(View()), i, v)
      ensures calls == old(calls) +
        if i < table.Length && old(table[i].state) == Asking && old(table[i].calls)
          then [Call(old(table[i].request), if v.Answer? then Some(v.addr) else None)] else []
    {
      if i < table.Length && table[i].state == Asking {
        var e := table[i];
        match v
        case Failure =>
          if e.calls { calls := calls + [Call(e.request, None)]; }
          table[i] := e.(state := Unused, calls := false);
        case Answer(ttl, addr) =>
          if e.calls { calls := calls + [Call(e.request, Some(addr))]; }
          table[i] := e.(state := Done, ttl := if ttl > DNS_MAX_TTL then DNS_MAX_TTL else ttl, addr := addr);
      }
    }

    // A message is copied to the payload buffer and read there.
    method ReceiveMessage(p: array<int>, payload: array<int>)
      requires Valid() && payload.Length == DNS_MSG_SIZE && payload != p
      requires DnsMessages.Octets(p[..]) && DnsMessages.Octets(payload[..])
      requires p.Length <= DNS_MSG_SIZE ==>
        DnsMessages.Octets(p[..] + payload[p.Length..])
        && Received(View(), p.Length, p[..] + payload[p.Length..]).Some?
      modifies this`calls, table, payload
      ensures Valid() && DnsMessages.Octets(payload[..])
      ensures p.Length > DNS_MSG_SIZE ==> View() == old(View())
      ensures p.Length <= DNS_MSG_SIZE ==>
        Some(View()) == old(Received(View(), p.Length, p[..] + payload[p.Length..]))
    {
      hide DnsMessages.VerdictOf;
      if p.Length > DNS_MSG_SIZE || p.Length < DnsMessages.HEADER + DnsMessages.QUERY + DnsMessages.ANSWER { return; }
      ghost var buf := p[..] + payload[p.Length..];
      forall k | 0 <= k < p.Length { payload[k] := p[k]; }
      assert payload[..] == buf;
      DnsMessages.Word16Range(buf, 0);
      var i: nat := payload[0] * 256 + payload[1];
      if i < table.Length && table[i].state == Asking {
        var e := table[i];
        var field := NameField(e);
        var query := new int[|field|](k requires 0 <= k < |field| => field[k]);
        assert query[..] == field;
        DnsMessages.VerdictRange(query[..], buf);
        var v := DnsMessages.ReadMessage(query, payload);
        Receive(i, v);
      }
    }

    // Searches an unused entry or, failing that, the oldest completed one; i is DNS_TABLE_SIZE if
    // there is no unused entry.
    method FindSlot() returns (i: nat, oldest: nat)
      requires Valid()
      ensures i == FirstUnused(table[..], 0) <= DNS_TABLE_SIZE
      ensures i == DNS_TABLE_SIZE ==> oldest == Oldest(table[..], seqno, DNS_TABLE_SIZE).0
    {
      var lseq := 0;
      oldest := 0;
      i := 0;
      while i < DNS_TABLE_SIZE
        invariant i <= DNS_TABLE_SIZE && (oldest, lseq) == Oldest(table[..], seqno, i)
        invariant FirstUnused(table[..], i) == FirstUnused(table[..], 0)
      {
        if table[i].state == Unused { return; }
        if table[i].state == Done && seqno - table[i].seqno > lseq {
          lseq, oldest := seqno - table[i].seqno, i;
        }
        i := i + 1;
      }
    }

    method Enqueue(name: Name, withCallback: bool) returns (err: int)
      requires Valid()
      modifies this`seqno, this`asked, this`calls, table
      ensures Valid() && (View(), err) == DnsSpec.Enqueue(old(View()), name, withCallback)
    {
      hide Oldest, FirstUnused;
      ghost var d := View();
      var i, oldest := FindSlot();
      if i == DNS_TABLE_SIZE {
        if table[oldest].state != Done { return ERR_MEM; }
        i := oldest;
      }
      assert Slot(d) == Some(i);
      table[i] := Renamed(table[i], name).(state := New, seqno := seqno, request := |asked|, calls := withCallback);
      seqno := (seqno + 1) % 256;
      asked := asked + [Asked(ticks, withCallback)];
      CheckEntry(i);
      err := ERR_INPROGRESS;
    }

    // The cached address: that of the first completed entry of the name, if there is one.
    method Lookup(name: Name) returns (addr: Option<int>)
      requires Valid()
      ensures addr == DnsSpec.Lookup(table[..], name, 0)
      ensures addr.None? <==> forall i :: 0 <= i < table.Length ==> !(table[i].state.Done? && table[i].name == name)
      ensures addr.Some? ==> exists i ::
        0 <= i < table.Length && table[i].state.Done? && table[i].name == name && table[i].addr == addr.value
    {
      var i := 0;
      while i < DNS_TABLE_SIZE
        invariant 0 <= i <= DNS_TABLE_SIZE && DnsSpec.Lookup(table[..], name, i) == DnsSpec.Lookup(table[..], name, 0)
        invariant forall k :: 0 <= k < i ==> !(table[k].state.Done? && table[k].name == name)
      {
        if table[i].state == Done && table[i].name == name { return Some(table[i].addr); }
        i := i + 1;
      }
      addr := None;
    }
  }

  // How many servers are set before the first gap.
  function Configured(servers: seq<int>): (n: nat)
    ensures n <= |servers| && (n < |servers| ==> servers[n] == 0) && forall i :: 0 <= i < n ==> servers[i] != 0
  {
    if servers == [] || servers[0] == 0 then 0
    else
      var n := Configured(servers[1..]);
      assert forall i :: 0 < i < n + 1 ==> servers[i] == servers[1..][i - 1];
      n + 1
  }

  lemma ConfiguredNext(servers: seq<int>, k: nat)
    requires k < Configured(servers)
    ensures k + 1 < Configured(servers) <==> k + 1 < |servers| && servers[k + 1] != 0
  {}

  lemma CheckOne(d: Dns, i: nat)
    requires i < |d.table|
    ensures DnsSpec.CheckEntry(d, i).servers == d.servers && |DnsSpec.CheckEntry(d, i).table| == |d.table|
    ensures forall k :: 0 <= k < |d.table| && k != i ==> DnsSpec.CheckEntry(d, i).table[k] == d.table[k]
  {}

  lemma Later(d: Dns)
    ensures Shaped(d.(ticks := d.ticks + 1)) == Shaped(d)
  {}
}

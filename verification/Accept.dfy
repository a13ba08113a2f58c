// Counting receive events of a connection that is being handed over to a new socket: the
// accepting threads and any number of event callbacks, one protected section (or unprotected
// access) at a time.
module Accept {
  import opened Wrappers

  // Where an accepted connection stands: nobody has a socket for it yet; slot i is marked as its
  // own (and then reset); or it has been told its number.
  datatype Stage = Fresh | Marked(i: nat) | Clean(i: nat) | Open(i: nat)
  // A negative socket number holds the events counted so far: -1 for none.
  datatype Conn = Conn(socket: int, stage: Stage)
  datatype Slot = Slot(conn: Option<nat>, rcvevent: int)
  // Where a callback stands: called; having seen a negative number; bound for a socket; done.
  datatype Place = Called | Early | Bound(s: nat) | Counted
  datatype Callback = Callback(conn: nat, plus: bool, place: Place)
  datatype State = State(conns: seq<Conn>, slots: seq<Slot>, calls: seq<Callback>)

  datatype Step =
    | Arrive
    | Raise(c: nat, plus: bool)
    | Look(k: nat)
    | LookAgain(k: nat)
    | Count(k: nat)
    | Mark(c: nat, i: nat)
    | Clear(c: nat)
    | HandOver(c: nat)

  // The application reads, and so takes events back, only once it has the socket.
  predicate Possible(st: State, t: Step) {
    match t
    case Arrive => true
    case Raise(c, plus) => c < |st.conns| && (plus || st.conns[c].stage.Open?)
    case Look(k) => k < |st.calls| && st.calls[k].place.Called? && st.calls[k].conn < |st.conns|
    case LookAgain(k) => k < |st.calls| && st.calls[k].place.Early? && st.calls[k].conn < |st.conns|
    case Count(k) => k < |st.calls| && st.calls[k].place.Bound? && st.calls[k].place.s < |st.slots|
    case Mark(c, i) => c < |st.conns| && st.conns[c].stage.Fresh? && i < |st.slots| && st.slots[i].conn.None?
    case Clear(c) => c < |st.conns| && st.conns[c].stage.Marked? && st.conns[c].stage.i < |st.slots|
    case HandOver(c) => c < |st.conns| && st.conns[c].stage.Clean? && st.conns[c].stage.i < |st.slots|
  }

  function At(st: State, k: nat, p: Place): seq<Callback>
    requires k < |st.calls|
  {
    st.calls[k := st.calls[k].(place := p)]
  }

  // sockets are numbered from 0, so a number that is not negative is a slot
  function SlotNumber(socket: int): nat { if socket < 0 then 0 else socket }

  function Next(st: State, t: Step): State
    requires Possible(st, t)
  {
    match t
    case Arrive => st.(conns := st.conns + [Conn(-1, Fresh)])
    case Raise(c, plus) => st.(calls := st.calls + [Callback(c, plus, Called)])
    case Look(k) =>
      var socket := st.conns[st.calls[k].conn].socket;
      st.(calls := At(st, k, if socket < 0 then Early else Bound(SlotNumber(socket))))
    case LookAgain(k) =>
      var c := st.calls[k].conn;
      var socket := st.conns[c].socket;
      if socket < 0 then
        st.(calls := At(st, k, Counted),
            conns := if st.calls[k].plus then st.conns[c := st.conns[c].(socket := socket - 1)] else st.conns)
      else st.(calls := At(st, k, Bound(SlotNumber(socket))))
    case Count(k) =>
      var s := st.calls[k].place.s;
      if st.slots[s].conn.None? then st.(calls := At(st, k, Counted))
      else
        var n := st.slots[s].rcvevent + if st.calls[k].plus then 1 else -1;
        st.(calls := At(st, k, Counted), slots := st.slots[s := st.slots[s].(rcvevent := Wrap16(n))])
    case Mark(c, i) =>
      st.(slots := st.slots[i := st.slots[i].(conn := Some(c))],
        conns := st.conns[c := st.conns[c].(stage := Marked(i))])
    case Clear(c) =>
      var i := st.conns[c].stage.i;
      st.(slots := st.slots[i := st.slots[i].(rcvevent := 0)], conns := st.conns[c := st.conns[c].(stage := Clean(i))])
    case HandOver(c) =>
      var i := st.conns[c].stage.i;
      var early := Wrap16(-1 - st.conns[c].socket);
      st.(slots := st.slots[i := st.slots[i].(rcvevent := Wrap16(st.slots[i].rcvevent + early))],
          conns := st.conns[c := Conn(i, Open(i))])
  }

  // ---- what every state keeps ------------------------------------------------------------

  function Weight(b: Callback, c: nat): int {
    if b.conn == c && b.place.Counted? then (if b.plus then 1 else -1) else 0
  }

  // The callbacks of c that have done their counting: arrivals less takings.
  function Tally(calls: seq<Callback>, c: nat): int {
    if calls == [] then 0 else Tally(calls[..|calls| - 1], c) + Weight(calls[|calls| - 1], c)
  }

  lemma {:induction false} TallyUpdate(calls: seq<Callback>, k: nat, b: Callback, c: nat)
    requires k < |calls|
    ensures Tally(calls[k := b], c) == Tally(calls, c) - Weight(calls[k], c) + Weight(b, c)
  {
    var n := |calls| - 1;
    if k == n {
      assert calls[k := b][..n] == calls[..n];
    } else {
      assert calls[k := b][..n] == calls[..n][k := b];
      TallyUpdate(calls[..n], k, b, c);
    }
  }

  // Every event counted so far is in the one place where it belongs.
  predicate Accounted(st: State, c: nat)
    requires c < |st.conns|
  {
    var conn := st.conns[c];
    match conn.stage
    case Fresh => conn.socket < 0 && -1 - conn.socket == Tally(st.calls, c)
    case Marked(i) => conn.socket < 0 && -1 - conn.socket == Tally(st.calls, c) && i < |st.slots|
      && st.slots[i].conn == Some(c)
    case Clean(i) =>
      && conn.socket < 0 && -1 - conn.socket == Tally(st.calls, c) && i < |st.slots| && st.slots[i].conn == Some(c)
      && st.slots[i].rcvevent == 0
    case Open(i) =>
      conn.socket == i && i < |st.slots| && st.slots[i].conn == Some(c)
        && st.slots[i].rcvevent == Wrap16(Tally(st.calls, c))
  }

  predicate CallFits(st: State, b: Callback) {
    && b.conn < |st.conns|
    && (b.place.Bound? ==> st.conns[b.conn].stage == Open(b.place.s))
    && (!b.plus ==> st.conns[b.conn].stage.Open?)
  }

  predicate Inv(st: State) {
    && (forall c :: 0 <= c < |st.conns| ==> Accounted(st, c))
    && (forall k :: 0 <= k < |st.calls| ==> CallFits(st, st.calls[k]))
  }

  lemma Fits(st: State, k: nat)
    requires Inv(st) && k < |st.calls|
    ensures CallFits(st, st.calls[k]) && Accounted(st, st.calls[k].conn)
  {}

  lemma WrapAdd(x: int, y: int)
    ensures Wrap16(Wrap16(x) + y) == Wrap16(x + y)
  {}

  lemma WrapTwice(x: int)
    ensures Wrap16(0 + Wrap16(x)) == Wrap16(x)
  {}

  lemma StepKeeps(st: State, t: Step)
    requires Inv(st) && Possible(st, t)
    ensures Inv(Next(st, t))
  {
    hide Wrap16, Tally;
    var d := Next(st, t);
    forall k | 0 <= k < |d.calls| ensures CallFits(d, d.calls[k]) {
      StepFits(st, t, k);
    }
    forall c | 0 <= c < |d.conns| ensures Accounted(d, c) {
      StepAccounts(st, t, c);
    }
  }

  lemma StepFits(st: State, t: Step, k: nat)
    requires Inv(st) && Possible(st, t) && k < |Next(st, t).calls|
    ensures CallFits(Next(st, t), Next(st, t).calls[k])
  {
    hide Wrap16, Tally;
    if k < |st.calls| { Fits(st, k); }
  }

  lemma {:induction false} TallyFresh(st: State, c: nat, n: nat)
    requires c >= |st.conns| && n <= |st.calls| && forall k :: 0 <= k < |st.calls| ==> CallFits(st, st.calls[k])
    ensures Tally(st.calls[..n], c) == 0
  {
    if n > 0 {
      assert st.calls[..n][..n - 1] == st.calls[..n - 1];
      TallyFresh(st, c, n - 1);
    }
  }

  lemma StepAccounts(st: State, t: Step, c: nat)
    requires Inv(st) && Possible(st, t) && c < |Next(st, t).conns|
    ensures Accounted(Next(st, t), c)
  {
    hide Wrap16, Tally;
    if c < |st.conns| { assert Accounted(st, c); }
    match t
    case Arrive =>
      if c == |st.conns| {
        TallyFresh(st, c, |st.calls|);
        assert st.calls[..|st.calls|] == st.calls;
      }
    case Raise(x, plus) =>
      TallyGrows(st.calls, Callback(x, plus, Called), c);
    case Look(k) =>
      TallyUpdate(st.calls, k, Next(st, t).calls[k], c);
    case LookAgain(k) =>
      Fits(st, k);
      TallyUpdate(st.calls, k, Next(st, t).calls[k], c);
    case Count(k) =>
      Fits(st, k);
      TallyUpdate(st.calls, k, Next(st, t).calls[k], c);
      WrapAdd(Tally(st.calls, c), if st.calls[k].plus then 1 else -1);
    case Mark(x, i) =>
    case Clear(x) =>
      assert Accounted(st, x);
    case HandOver(x) =>
      assert Accounted(st, x);
      WrapTwice(-1 - st.conns[x].socket);
  }

  lemma TallyGrows(calls: seq<Callback>, b: Callback, c: nat)
    requires !b.place.Counted?
    ensures Tally(calls + [b], c) == Tally(calls, c)
  {
    assert (calls + [b])[..|calls|] == calls;
  }

  predicate Started(st: State) {
    st.conns == [] && st.calls == [] && forall i :: 0 <= i < |st.slots| ==> st.slots[i].conn.None?
  }

  predicate IsRun(sts: seq<State>, ts: seq<Step>) {
    && |sts| == |ts| + 1 && Started(sts[0])
    && forall i :: 0 <= i < |ts| ==> Possible(sts[i], ts[i]) && sts[i + 1] == Next(sts[i], ts[i])
  }

  lemma {:induction false} RunKeeps(sts: seq<State>, ts: seq<Step>)
    requires IsRun(sts, ts)
    ensures Inv(sts[|ts|])
    decreases |ts|
  {
    if ts != [] {
      var n := |ts| - 1;
      RunKeeps(sts[..n + 1], ts[..n]);
      StepKeeps(sts[n], ts[n]);
    }
  }

  // Whenever and however the callbacks interleave with accept: once the socket is handed over,
  // its counter is the number of events raised less those taken, over all callbacks that have
  // returned, for as long as that number fits 16 bits; before, the negative number encodes it.
  lemma EveryEventCounted(sts: seq<State>, ts: seq<Step>, c: nat)
    requires IsRun(sts, ts) && c < |sts[|ts|].conns|
    ensures var st := sts[|ts|];
            var n := Tally(st.calls, c);
            var conn := st.conns[c];
            if conn.stage.Open? then
              conn.socket == conn.stage.i && conn.stage.i < |st.slots| && st.slots[conn.stage.i].conn == Some(c)
              && (st.slots[conn.stage.i].rcvevent - n) % 0x10000 == 0
              && (-0x8000 <= n < 0x8000 ==> st.slots[conn.stage.i].rcvevent == n)
            else conn.socket == -1 - n && n >= 0
  {
    hide Tally;
    RunKeeps(sts, ts);
    assert Accounted(sts[|ts|], c);
  }

  // No callback is left half-way: in whatever state a run is, two more sections of its own, three
  // at most, make it count.
  function Finish(st: State, k: nat): State
    requires Inv(st) && k < |st.calls|
  {
    Fits(st, k);
    match st.calls[k].place
    case Called =>
      var d := Next(st, Look(k));
      StepKeeps(st, Look(k));
      if d.calls[k].place.Early? then Next(d, LookAgain(k))
      else
        Fits(d, k);
        Next(d, Count(k))
    case Early =>
      var d := Next(st, LookAgain(k));
      StepKeeps(st, LookAgain(k));
      if d.calls[k].place.Counted? then d
      else
        Fits(d, k);
        Next(d, Count(k))
    case Bound(_) => Next(st, Count(k))
    case Counted => st
  }

  lemma CallbackCountsOnce(st: State, k: nat)
    requires Inv(st) && k < |st.calls|
    ensures var d := Finish(st, k);
            && d.calls == st.calls[k := st.calls[k].(place := Counted)]
            && Tally(d.calls, st.calls[k].conn) == Tally(st.calls, st.calls[k].conn)
                 + if st.calls[k].place.Counted? then 0 else if st.calls[k].plus then 1 else -1
  {
    hide Tally, Wrap16;
    Fits(st, k);
    TallyUpdate(st.calls, k, st.calls[k].(place := Counted), st.calls[k].conn);
  }
}

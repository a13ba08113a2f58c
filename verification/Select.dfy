// select and the event callback as a machine of interleaved critical sections: any number of
// threads in select, any number of event callbacks under way, one protected section at a time.
module Select {
  import opened Wrappers

  // rcvevent is a signed 16-bit counter; held says that a partly read buffer is saved.
  datatype Sock = Sock(rcvevent: int, sendevent: bool, errevent: bool, held: bool, waiting: int)
  datatype Watch = Watch(read: set<nat>, write: set<nat>, except: set<nat>)
  datatype SocketEvent = RcvPlus | RcvMinus | SendPlus | SendMinus | ErrorEvent

  // Where a thread stands in lwip_select: the sockets below i are dealt with, n is nready.
  datatype Phase =
    | FirstScan(i: nat, n: nat)
    | Enlist
    | Raising(i: nat)
    | SecondScan(i: nat, n: nat)
    | Waiting
    | Lowering(i: nat, timedOut: bool)
    | Delist(timedOut: bool)
    | LastScan(i: nat, n: nat)
    | Returned(result: int)
  // Which set of the caller's a socket is in.
  datatype Which = Reading | Writing | Excepting
  // poll: the timeout is zero; forever: there is none.  sem is the semaphore's count, posts the
  // number of times it was ever signalled; found is what the running scan, or the last, has put in
  // the sets for the caller.
  datatype Selector = Selector(watch: Watch, limit: nat, poll: bool, forever: bool, phase: Phase,
                               signalled: bool, sem: nat, posts: nat, found: set<(Which, nat)>)
  // Where an event callback stands: it last visited a selector, having read the list counter, or
  // it has returned.
  datatype Place = At(sel: nat, lastCtr: nat) | Finished
  datatype Callback = Callback(sock: nat, place: Place)
  // order is select_cb_list from its head.
  datatype State = State(socks: seq<Sock>, sels: seq<Selector>, order: seq<nat>, ctr: nat, calls: seq<Callback>)

  function Apply(k: Sock, e: SocketEvent): Sock {
    match e
    case RcvPlus => k.(rcvevent := Wrap16(k.rcvevent + 1))
    case RcvMinus => k.(rcvevent := Wrap16(k.rcvevent - 1))
    case SendPlus => k.(sendevent := true)
    case SendMinus => k.(sendevent := false)
    case ErrorEvent => k.(errevent := true)
  }

  predicate Watched(w: Watch, s: nat) { s in w.read || s in w.write || s in w.except }

  // What a scan counts for one socket, and what the callback looks for.
  function Count(k: Sock, w: Watch, s: nat): nat {
    (if s in w.read && (k.held || k.rcvevent > 0) then 1 else 0) +
    (if s in w.write && k.sendevent then 1 else 0) + (if s in w.except && k.errevent then 1 else 0)
  }

  function Found(k: Sock, w: Watch, s: nat): set<(Which, nat)> {
    (if s in w.read && (k.held || k.rcvevent > 0) then {(Reading, s)} else {}) +
    (if s in w.write && k.sendevent then {(Writing, s)} else {}) +
      (if s in w.except && k.errevent then {(Excepting, s)} else {})
  }

  predicate HasEvent(k: Sock, w: Watch, s: nat) {
    (s in w.read && k.rcvevent > 0) || (s in w.write && k.sendevent) || (s in w.except && k.errevent)
  }

  // ---- the event callback ----------------------------------------------------------------

  predicate ValidIds(st: State) {
    && (forall j :: 0 <= j < |st.order| ==> st.order[j] < |st.sels|)
    && (forall c :: 0 <= c < |st.calls| ==> st.calls[c].sock < |st.socks|)
  }

  // One element of the list is looked at, its semaphore signalled if due.
  function Visit(st: State, c: nat, j: nat): State
    requires ValidIds(st) && c < |st.calls| && j <= |st.order|
  {
    var s := st.calls[c].sock;
    if j == |st.order| then st.(calls := st.calls[c := Callback(s, Finished)])
    else
      var x := st.order[j];
      var sel := st.sels[x];
      st.(calls := st.calls[c := Callback(s, At(x, st.ctr))],
          sels := if !sel.signalled && HasEvent(st.socks[s], sel.watch, s)
                  then st.sels[x := sel.(signalled := true, sem := sel.sem + 1, posts := sel.posts + 1)]
                  else st.sels)
  }

  // The first section: the event is noted; if anyone waits for this socket the scan of the list
  // starts at once.
  function Notify(st: State, s: nat, e: SocketEvent): State
    requires ValidIds(st) && s < |st.socks|
  {
    var d := st.(socks := st.socks[s := Apply(st.socks[s], e)], calls := st.calls + [Callback(s, Finished)]);
    if st.socks[s].waiting == 0 then d else Visit(d, |st.calls|, 0)
  }

  function Position(order: seq<nat>, x: nat): (j: nat)
    ensures j <= |order| && (j < |order| <==> x in order) && (j < |order| ==> order[j] == x)
  {
    if order == [] then 0 else if order[0] == x then 0 else 1 + Position(order[1..], x)
  }

  // The next section: on to the next element, or back to the head if the list has changed.
  function Continue(st: State, c: nat): State
    requires ValidIds(st) && c < |st.calls| && st.calls[c].place.At?
  {
    var p := st.calls[c].place;
    if p.lastCtr != st.ctr then Visit(st, c, 0)
    else
      var j := Position(st.order, p.sel);
      if j == |st.order| then Visit(st, c, j) else Visit(st, c, j + 1)
  }

  // ---- the selecting thread --------------------------------------------------------------

  function Put(st: State, x: nat, p: Phase): State
    requires x < |st.sels|
  {
    st.(sels := st.sels[x := st.sels[x].(phase := p)])
  }

  // One socket of a scan, of which n were ready before.
  function Scan(st: State, x: nat, i: nat, p: Phase): State
    requires x < |st.sels| && i < |st.socks|
  {
    var sel := st.sels[x];
    st.(sels := st.sels[x := sel.(phase := p, found := sel.found + Found(st.socks[i], sel.watch, i))])
  }

  // A scan begins with empty sets.
  function Rescan(st: State, x: nat, p: Phase): State
    requires x < |st.sels|
  {
    st.(sels := st.sels[x := st.sels[x].(phase := p, found := {})])
  }

  function AddWaiting(st: State, x: nat, s: nat, delta: int): State
    requires x < |st.sels| && s < |st.socks|
  {
    if Watched(st.sels[x].watch, s)
      then st.(socks := st.socks[s := st.socks[s].(waiting := st.socks[s].waiting + delta)]) else st
  }

  function Without(order: seq<nat>, x: nat): seq<nat> {
    var j := Position(order, x);
    if j == |order| then order else order[..j] + order[j + 1..]
  }

  // One protected section of lwip_select.
  function Advance(st: State, x: nat): State
    requires x < |st.sels| && st.sels[x].limit <= |st.socks|
  {
    var sel := st.sels[x];
    match sel.phase
    case FirstScan(i, n) =>
      if i < sel.limit then Scan(st, x, i, FirstScan(i + 1, n + Count(st.socks[i], sel.watch, i)))
      else Put(st, x, if n > 0 || sel.poll then Returned(n) else Enlist)
    case Enlist => Put(st.(order := [x] + st.order, ctr := st.ctr + 1), x, Raising(0))
    case Raising(i) =>
      if i < sel.limit then AddWaiting(Put(st, x, Raising(i + 1)), x, i, 1) else Rescan(st, x, SecondScan(0, 0))
    case SecondScan(i, n) =>
      if i < sel.limit then Scan(st, x, i, SecondScan(i + 1, n + Count(st.socks[i], sel.watch, i)))
      else Put(st, x, if n > 0 then Lowering(0, false) else Waiting)
    case Waiting =>
      if sel.sem > 0 then st.(sels := st.sels[x := sel.(phase := Lowering(0, false), sem := sel.sem - 1)]) else st
    case Lowering(i, t) =>
      if i < sel.limit then AddWaiting(Put(st, x, Lowering(i + 1, t)), x, i, -1) else Put(st, x, Delist(t))
    case Delist(t) =>
      var d := st.(order := Without(st.order, x), ctr := st.ctr + 1);
      if t then Put(d, x, Returned(0)) else Rescan(d, x, LastScan(0, 0))
    case LastScan(i, n) =>
      if i < sel.limit then Scan(st, x, i, LastScan(i + 1, n + Count(st.socks[i], sel.watch, i)))
        else Put(st, x, Returned(n))
    case Returned(_) => st
  }

  datatype Step =
    | Call(watch: Watch, limit: nat, poll: bool, forever: bool)
    | NoSemaphore(x: nat)
    | Move(x: nat)
    | TimeOut(x: nat)
    | Event(s: nat, e: SocketEvent)
    | Resume(c: nat)
    | Hold(s: nat, held: bool)

  predicate Possible(st: State, t: Step) {
    match t
    case Call(_, limit, _, _) => limit <= |st.socks|
    case NoSemaphore(x) => x < |st.sels| && st.sels[x].phase.Enlist?
    case Move(x) => x < |st.sels| && st.sels[x].limit <= |st.socks|
    case TimeOut(x) => x < |st.sels| && st.sels[x].phase.Waiting? && !st.sels[x].forever
    case Event(s, _) => s < |st.socks|
    case Resume(c) => c < |st.calls| && st.calls[c].place.At?
    case Hold(s, _) => s < |st.socks|
  }

  function Next(st: State, t: Step): State
    requires ValidIds(st) && Possible(st, t)
  {
    match t
    case Call(watch, limit, poll, forever) =>
      st.(sels := st.sels + [Selector(watch, limit, poll, forever, FirstScan(0, 0), false, 0, 0, {})])
    case NoSemaphore(x) => Put(st, x, Returned(-1))
    case Move(x) => Advance(st, x)
    case TimeOut(x) => Put(st, x, Lowering(0, true))
    case Event(s, e) => Notify(st, s, e)
    case Resume(c) => Continue(st, c)
    case Hold(s, held) => st.(socks := st.socks[s := st.socks[s].(held := held)])
  }

  // ---- what every state keeps ------------------------------------------------------------

  predicate Enlisted(p: Phase) { p.Raising? || p.SecondScan? || p.Waiting? || p.Lowering? || p.Delist? }

  // Has x raised select_waiting of s, and not lowered it again?
  predicate Counted(sel: Selector, s: nat) {
    && Watched(sel.watch, s) && s < sel.limit
    && match sel.phase
       case Raising(i) => s < i
       case SecondScan(_, _) => true
       case Waiting => true
       case Lowering(i, _) => s >= i
       case _ => false
  }

  function CountedFor(sels: seq<Selector>, s: nat): nat {
    if sels == [] then 0
    else CountedFor(sels[..|sels| - 1], s) + if Counted(sels[|sels| - 1], s) then 1 else 0
  }

  predicate CountsRight(st: State) {
    forall s :: 0 <= s < |st.socks| ==> st.socks[s].waiting == CountedFor(st.sels, s)
  }

  predicate Distinct(order: seq<nat>) {
    forall i, j :: 0 <= i < j < |order| ==> order[i] != order[j]
  }

  // The list holds exactly the threads between joining and leaving it, each once.
  predicate ListRight(st: State) {
    && Distinct(st.order)
    && forall x :: 0 <= x < |st.sels| ==> (x in st.order <==> Enlisted(st.sels[x].phase))
  }

  predicate SelectorRight(st: State, sel: Selector) {
    && sel.limit <= |st.socks|
    && sel.posts == (if sel.signalled then 1 else 0)
    && sel.sem <= sel.posts
    && (sel.phase.FirstScan? || sel.phase.Enlist? ==> sel.posts == 0)
    && (sel.phase.Raising? || sel.phase.SecondScan? || sel.phase.Waiting? ==> sel.sem == sel.posts)
    && match sel.phase
       case FirstScan(i, _) => i <= sel.limit
       case Raising(i) => i <= sel.limit
       case SecondScan(i, _) => i <= sel.limit
       case Lowering(i, _) => i <= sel.limit
       case LastScan(i, _) => i <= sel.limit
       case _ => true
  }

  predicate SelectorsRight(st: State) {
    forall x :: 0 <= x < |st.sels| ==> SelectorRight(st, st.sels[x])
  }

  predicate CallRight(st: State, p: Place) {
    p.At? ==> p.lastCtr <= st.ctr && (p.lastCtr == st.ctr ==> p.sel in st.order)
  }

  predicate CallsRight(st: State) {
    forall c :: 0 <= c < |st.calls| ==> CallRight(st, st.calls[c].place)
  }

  // Is x about to sleep, or asleep, having found nothing on s?
  predicate PastScan(sel: Selector, s: nat) {
    && Watched(sel.watch, s) && s < sel.limit
    && (sel.phase.Waiting? || (sel.phase.SecondScan? && sel.phase.n == 0 && s < sel.phase.i))
  }

  // Will this callback still come by x?
  predicate Coming(st: State, c: nat, x: nat, s: nat)
    requires c < |st.calls|
  {
    && st.calls[c].sock == s && st.calls[c].place.At?
    && (st.calls[c].place.lastCtr != st.ctr || Position(st.order, st.calls[c].place.sel) < Position(st.order, x))
  }

  predicate SomeComing(st: State, x: nat, s: nat) {
    exists c :: 0 <= c < |st.calls| && Coming(st, c, x, s)
  }

  predicate Awaited(st: State, x: nat, s: nat)
    requires x < |st.sels| && s < |st.socks|
  {
    PastScan(st.sels[x], s) && !st.sels[x].signalled && HasEvent(st.socks[s], st.sels[x].watch, s)
  }

  predicate NothingMissed(st: State) {
    forall x, s :: 0 <= x < |st.sels| && 0 <= s < |st.socks| && Awaited(st, x, s) ==> SomeComing(st, x, s)
  }

  predicate Inv(st: State) {
    ValidIds(st) && CountsRight(st) && ListRight(st) && SelectorsRight(st) && CallsRight(st) && NothingMissed(st)
  }

  // ---- the pieces of the proof -----------------------------------------------------------

  lemma {:induction false} CountedForSame(a: seq<Selector>, b: seq<Selector>, s: nat)
    requires |a| == |b| && forall i :: 0 <= i < |a| ==> Counted(a[i], s) == Counted(b[i], s)
    ensures CountedFor(a, s) == CountedFor(b, s)
  {
    if a != [] { CountedForSame(a[..|a| - 1], b[..|b| - 1], s); }
  }

  lemma {:induction false} CountedForUpdate(a: seq<Selector>, x: nat, sel: Selector, s: nat)
    requires x < |a|
    ensures CountedFor(a[x := sel], s) + (if Counted(a[x], s) then 1 else 0) ==
      CountedFor(a, s) + (if Counted(sel, s) then 1 else 0)
  {
    var n := |a| - 1;
    if x == n {
      assert a[x := sel][..n] == a[..n];
    } else {
      assert a[x := sel][..n] == a[..n][x := sel];
      CountedForUpdate(a[..n], x, sel, s);
    }
  }

  lemma {:induction false} CountedPositive(a: seq<Selector>, x: nat, s: nat)
    requires x < |a| && Counted(a[x], s)
    ensures CountedFor(a, s) > 0
  {
    if x < |a| - 1 { CountedPositive(a[..|a| - 1], x, s); }
  }

  lemma {:induction false} PositionOf(order: seq<nat>, j: nat)
    requires Distinct(order) && j < |order|
    ensures Position(order, order[j]) == j
  {
    if j > 0 {
      assert order[1..][j - 1] == order[j] && order[0] != order[j];
      assert Distinct(order[1..]);
      PositionOf(order[1..], j - 1);
    }
  }

  lemma WithoutKeeps(order: seq<nat>, x: nat)
    requires Distinct(order)
    ensures Distinct(Without(order, x)) && forall y :: y in Without(order, x) <==> y in order && y != x
  {
    var j := Position(order, x);
    if j < |order| {
      var r := order[..j] + order[j + 1..];
      forall y | y in order && y != x ensures y in r {
        var k :| 0 <= k < |order| && order[k] == y;
        if k < j { assert r[k] == y; } else { assert r[k - 1] == y; }
      }
    }
  }

  // A visit changes no phase and no list; it only moves the callback and may post one semaphore.
  lemma VisitFrame(st: State, c: nat, j: nat)
    requires ValidIds(st) && c < |st.calls| && j <= |st.order|
    ensures var d := Visit(st, c, j);
            && d.socks == st.socks && d.order == st.order && d.ctr == st.ctr
            && |d.sels| == |st.sels| && |d.calls| == |st.calls|
            && (forall x :: 0 <= x < |st.sels| ==>
                  d.sels[x] == st.sels[x] ||
                  (!st.sels[x].signalled && x in st.order
                   && d.sels[x] == st.sels[x].(signalled := true, sem := st.sels[x].sem + 1,
                     posts := st.sels[x].posts + 1)))
            && d.calls[c].sock == st.calls[c].sock
            && forall k :: 0 <= k < |st.calls| && k != c ==> d.calls[k] == st.calls[k]
  {}

  lemma VisitKeepsRest(st: State, c: nat, j: nat)
    requires ValidIds(st) && CountsRight(st) && ListRight(st) && SelectorsRight(st) && CallsRight(st)
    requires c < |st.calls| && j <= |st.order|
    ensures var d := Visit(st, c, j);
            ValidIds(d) && CountsRight(d) && ListRight(d) && SelectorsRight(d) && CallsRight(d)
  {
    hide Visit;
    var d := Visit(st, c, j);
    VisitFrame(st, c, j);
    VisitPlace(st, c, j);
    forall s | 0 <= s < |d.socks| ensures d.socks[s].waiting == CountedFor(d.sels, s) {
      CountedForSame(st.sels, d.sels, s);
    }
  }

  lemma VisitPlace(st: State, c: nat, j: nat)
    requires ValidIds(st) && c < |st.calls| && j <= |st.order|
    ensures Visit(st, c, j).calls[c].place == if j == |st.order| then Finished else At(st.order[j], st.ctr)
  {}

  // Whoever was to be visited at or after j still is, or has just been signalled.
  lemma VisitMissesNone(st: State, c: nat, j: nat, x: nat)
    requires ValidIds(st) && Distinct(st.order) && c < |st.calls| && j <= |st.order|
    requires x < |st.sels| && x in st.order && j <= Position(st.order, x)
    requires Awaited(Visit(st, c, j), x, st.calls[c].sock)
    ensures SomeComing(Visit(st, c, j), x, st.calls[c].sock)
  {
    var s := st.calls[c].sock;
    var d := Visit(st, c, j);
    var p := Position(st.order, x);
    assert j < |st.order|;
    PositionOf(st.order, j);
    assert p != j;
    assert Coming(d, c, x, s);
  }

  lemma ContinueKeeps(st: State, c: nat)
    requires Inv(st) && c < |st.calls| && st.calls[c].place.At?
    ensures Inv(Continue(st, c))
  {
    var p := st.calls[c].place;
    var j := if p.lastCtr != st.ctr then 0 else Position(st.order, p.sel) + 1;
    var d := Visit(st, c, j);
    assert d == Continue(st, c);
    VisitKeepsRest(st, c, j);
    forall x, s | 0 <= x < |d.sels| && 0 <= s < |d.socks| && Awaited(d, x, s) ensures SomeComing(d, x, s) {
      ContinueMissesNone(st, c, j, x, s);
    }
  }

  lemma ContinueMissesNone(st: State, c: nat, j: nat, x: nat, s: nat)
    requires ValidIds(st) && ListRight(st) && NothingMissed(st) && c < |st.calls| && j <= |st.order|
    requires st.calls[c].place.At?
    requires st.calls[c].place.lastCtr == st.ctr ==> j == Position(st.order, st.calls[c].place.sel) + 1
    requires st.calls[c].place.lastCtr != st.ctr ==> j == 0
    requires x < |st.sels| && s < |st.socks| && Awaited(Visit(st, c, j), x, s)
    ensures SomeComing(Visit(st, c, j), x, s)
  {
    hide Visit;
    var d := Visit(st, c, j);
    VisitFrame(st, c, j);
    assert Awaited(st, x, s);
    var k :| 0 <= k < |st.calls| && Coming(st, k, x, s);
    if k == c {
      VisitMissesNone(st, c, j, x);
    } else {
      assert Coming(d, k, x, s);
    }
  }

  // The event itself, before anyone is looked for.
  function Noted(st: State, s: nat, e: SocketEvent): State
    requires s < |st.socks|
  {
    st.(socks := st.socks[s := Apply(st.socks[s], e)], calls := st.calls + [Callback(s, Finished)])
  }

  lemma NotedKeepsRest(st: State, s: nat, e: SocketEvent)
    requires Inv(st) && s < |st.socks|
    ensures var d := Noted(st, s, e);
            ValidIds(d) && CountsRight(d) && ListRight(d) && SelectorsRight(d) && CallsRight(d)
  {
    var d := Noted(st, s, e);
    forall k | 0 <= k < |d.socks| ensures d.socks[k].waiting == CountedFor(d.sels, k) {
      assert st.socks[k].waiting == CountedFor(st.sels, k);
    }
    forall c | 0 <= c < |d.calls| ensures CallRight(d, d.calls[c].place) {
      if c < |st.calls| { assert CallRight(st, st.calls[c].place); }
    }
  }

  lemma NotifyMissesNone(st: State, s: nat, e: SocketEvent, x: nat, k: nat)
    requires Inv(st) && s < |st.socks| && x < |st.sels| && k < |st.socks| && Awaited(Notify(st, s, e), x, k)
    ensures SomeComing(Notify(st, s, e), x, k)
  {
    hide Visit;
    var d0, d := Noted(st, s, e), Notify(st, s, e);
    NotedKeepsRest(st, s, e);
    if st.socks[s].waiting != 0 { VisitFrame(d0, |st.calls|, 0); }
    assert PastScan(st.sels[x], k);
    if k != s {
      assert Awaited(st, x, k);
      var c :| 0 <= c < |st.calls| && Coming(st, c, x, k);
      assert Coming(d, c, x, k);
    } else {
      assert Counted(st.sels[x], s);
      CountedPositive(st.sels, x, s);
      assert x in st.order;
      VisitMissesNone(d0, |st.calls|, 0, x);
    }
  }

  lemma NotifyKeeps(st: State, s: nat, e: SocketEvent)
    requires Inv(st) && s < |st.socks|
    ensures Inv(Notify(st, s, e))
  {
    hide Visit;
    var d := Notify(st, s, e);
    NotedKeepsRest(st, s, e);
    if st.socks[s].waiting != 0 {
      VisitFrame(Noted(st, s, e), |st.calls|, 0);
      VisitKeepsRest(Noted(st, s, e), |st.calls|, 0);
    }
    forall x, k | 0 <= x < |d.sels| && 0 <= k < |d.socks| && Awaited(d, x, k) ensures SomeComing(d, x, k) {
      NotifyMissesNone(st, s, e, x, k);
    }
  }

  // ---- the steps of the selecting threads ------------------------------------------------

  // d differs from st in the thread x, in the counters of the sockets and, if the list counter
  // has grown, in the list.
  predicate OnlyThread(st: State, d: State, x: nat) {
    && |d.sels| == |st.sels| && |d.socks| == |st.socks| && d.calls == st.calls && x < |st.sels|
    && (forall y :: 0 <= y < |st.sels| && y != x ==> d.sels[y] == st.sels[y])
    && (forall s :: 0 <= s < |st.socks| ==> d.socks[s] == st.socks[s].(waiting := d.socks[s].waiting))
    && (d.ctr > st.ctr || (d.ctr == st.ctr && d.order == st.order))
  }

  // x does not come to rely on a socket on which it has an event.
  predicate NoNewReliance(st: State, d: State, x: nat)
    requires x < |st.sels| && x < |d.sels|
  {
    && d.sels[x].watch == st.sels[x].watch && d.sels[x].signalled == st.sels[x].signalled
    && forall s :: 0 <= s < |st.socks| && PastScan(d.sels[x], s) ==>
         PastScan(st.sels[x], s) || !HasEvent(st.socks[s], st.sels[x].watch, s)
  }

  lemma ThreadMissesNone(st: State, d: State, x: nat)
    requires NothingMissed(st) && CallsRight(st) && OnlyThread(st, d, x) && NoNewReliance(st, d, x)
    ensures NothingMissed(d)
  {
    forall y, s | 0 <= y < |d.sels| && 0 <= s < |d.socks| && Awaited(d, y, s) ensures SomeComing(d, y, s) {
      assert Awaited(st, y, s);
      var c :| 0 <= c < |st.calls| && Coming(st, c, y, s);
      assert CallRight(st, st.calls[c].place);
      assert Coming(d, c, y, s);
    }
  }

  lemma ThreadKeepsCalls(st: State, d: State, x: nat)
    requires ValidIds(st) && CallsRight(st) && OnlyThread(st, d, x)
    requires forall y :: y in d.order ==> y < |st.sels|
    ensures ValidIds(d) && CallsRight(d)
  {
    forall c | 0 <= c < |d.calls| ensures CallRight(d, d.calls[c].place) {
      assert CallRight(st, st.calls[c].place);
    }
    forall j | 0 <= j < |d.order| ensures d.order[j] < |d.sels| {
      assert d.order[j] in d.order;
    }
  }

  // The counters follow the one thread that moved.
  lemma ThreadKeepsCounts(st: State, d: State, x: nat)
    requires CountsRight(st) && OnlyThread(st, d, x)
    requires forall s :: 0 <= s < |st.socks| ==>
      d.socks[s].waiting == st.socks[s].waiting +
        (if Counted(d.sels[x], s) then 1 else 0) - (if Counted(st.sels[x], s) then 1 else 0)
    ensures CountsRight(d)
  {
    assert d.sels == st.sels[x := d.sels[x]];
    forall s | 0 <= s < |d.socks| ensures d.socks[s].waiting == CountedFor(d.sels, s) {
      CountedForUpdate(st.sels, x, d.sels[x], s);
    }
  }

  lemma ThreadKeepsSelectors(st: State, d: State, x: nat)
    requires SelectorsRight(st) && OnlyThread(st, d, x) && SelectorRight(d, d.sels[x])
    ensures SelectorsRight(d)
  {
    forall y | 0 <= y < |d.sels| ensures SelectorRight(d, d.sels[y]) {
      if y != x { assert SelectorRight(st, st.sels[y]); }
    }
  }

  // A step that leaves the list alone.
  lemma QuietStep(st: State, d: State, x: nat)
    requires Inv(st) && OnlyThread(st, d, x) && NoNewReliance(st, d, x)
    requires d.order == st.order && d.ctr == st.ctr
    requires Enlisted(d.sels[x].phase) == Enlisted(st.sels[x].phase) && SelectorRight(d, d.sels[x])
    requires forall s :: 0 <= s < |st.socks| ==>
      d.socks[s].waiting == st.socks[s].waiting +
        (if Counted(d.sels[x], s) then 1 else 0) - (if Counted(st.sels[x], s) then 1 else 0)
    ensures Inv(d)
  {
    hide HasEvent, PastScan, Counted, SelectorRight, CallRight;
    ThreadMissesNone(st, d, x);
    forall y | y in d.order ensures y < |st.sels| {
      var j :| 0 <= j < |st.order| && st.order[j] == y;
    }
    ThreadKeepsCalls(st, d, x);
    ThreadKeepsCounts(st, d, x);
    ThreadKeepsSelectors(st, d, x);
    forall y | 0 <= y < |d.sels| ensures y in d.order <==> Enlisted(d.sels[y].phase) {
      if y != x { assert d.sels[y] == st.sels[y]; }
    }
  }

  lemma ScanStep(st: State, x: nat)
    requires Inv(st) && x < |st.sels|
    requires var p := st.sels[x].phase; p.FirstScan? || p.LastScan? || p.Waiting? || p.Returned?
    ensures Inv(Advance(st, x))
  {
    hide CountsRight, ListRight, CallsRight, NothingMissed, Inv, HasEvent, Count;
    InvGives(st, x);
    var d := Advance(st, x);
    assert forall s :: Counted(d.sels[x], s) == Counted(st.sels[x], s);
    QuietStep(st, d, x);
  }

  lemma SecondScanStep(st: State, x: nat)
    requires Inv(st) && x < |st.sels| && st.sels[x].phase.SecondScan?
    ensures Inv(Advance(st, x))
  {
    hide CountsRight, ListRight, CallsRight, NothingMissed, Inv;
    InvGives(st, x);
    var d := Advance(st, x);
    assert forall s :: Counted(d.sels[x], s) == Counted(st.sels[x], s);
    QuietStep(st, d, x);
  }

  lemma CountingStep(st: State, x: nat)
    requires Inv(st) && x < |st.sels| && (st.sels[x].phase.Raising? || st.sels[x].phase.Lowering?)
    ensures Inv(Advance(st, x))
  {
    hide CountsRight, ListRight, CallsRight, NothingMissed, Inv, HasEvent;
    InvGives(st, x);
    QuietStep(st, Advance(st, x), x);
  }

  lemma InvGives(st: State, x: nat)
    requires Inv(st) && x < |st.sels|
    ensures SelectorRight(st, st.sels[x]) && ValidIds(st)
  {}

  lemma EnlistKeeps(st: State, x: nat)
    requires Inv(st) && x < |st.sels| && st.sels[x].phase.Enlist?
    ensures Inv(Advance(st, x)) && Advance(st, x).order == [x] + st.order
  {
    InvGives(st, x);
    var d := Advance(st, x);
    assert OnlyThread(st, d, x);
    ThreadMissesNone(st, d, x);
    assert forall y :: y in d.order ==> y == x || y in st.order;
    ThreadKeepsCalls(st, d, x);
    ThreadKeepsCounts(st, d, x);
    ThreadKeepsSelectors(st, d, x);
    forall y | 0 <= y < |d.sels| ensures y in d.order <==> Enlisted(d.sels[y].phase) {
      if y != x { assert d.sels[y] == st.sels[y]; }
      if y in st.order { var j :| 0 <= j < |st.order| && st.order[j] == y; assert d.order[j + 1] == y; }
    }
    assert x !in st.order;
  }

  lemma DelistKeeps(st: State, x: nat)
    requires Inv(st) && x < |st.sels| && st.sels[x].phase.Delist?
    ensures Inv(Advance(st, x)) && x < |Advance(st, x).sels|
    ensures Advance(st, x).sels[x].phase == if st.sels[x].phase.timedOut then Returned(0) else LastScan(0, 0)
  {
    InvGives(st, x);
    var d := Advance(st, x);
    assert OnlyThread(st, d, x);
    WithoutKeeps(st.order, x);
    ThreadMissesNone(st, d, x);
    ThreadKeepsCalls(st, d, x);
    ThreadKeepsCounts(st, d, x);
    ThreadKeepsSelectors(st, d, x);
    forall y | 0 <= y < |d.sels| ensures y in d.order <==> Enlisted(d.sels[y].phase) {
      if y != x { assert d.sels[y] == st.sels[y]; }
    }
  }

  lemma CallKeeps(st: State, watch: Watch, limit: nat, poll: bool, forever: bool)
    requires Inv(st) && limit <= |st.socks|
    ensures Inv(Next(st, Call(watch, limit, poll, forever)))
  {
    var d := Next(st, Call(watch, limit, poll, forever));
    forall s | 0 <= s < |d.socks| ensures d.socks[s].waiting == CountedFor(d.sels, s) {
      assert d.sels[..|d.sels| - 1] == st.sels;
    }
    forall y, s | 0 <= y < |d.sels| && 0 <= s < |d.socks| && Awaited(d, y, s) ensures SomeComing(d, y, s) {
      assert Awaited(st, y, s);
      var c :| 0 <= c < |st.calls| && Coming(st, c, y, s);
      assert Coming(d, c, y, s);
    }
    forall y | 0 <= y < |d.sels| ensures SelectorRight(d, d.sels[y]) && (y in d.order <==> Enlisted(d.sels[y].phase)) {
      if y < |st.sels| { assert SelectorRight(st, st.sels[y]); }
    }
    forall c | 0 <= c < |d.calls| ensures CallRight(d, d.calls[c].place) {
      assert CallRight(st, st.calls[c].place);
    }
  }

  lemma HoldKeeps(st: State, s: nat, held: bool)
    requires Inv(st) && s < |st.socks|
    ensures Inv(Next(st, Hold(s, held)))
  {
    var d := Next(st, Hold(s, held));
    forall y, k | 0 <= y < |d.sels| && 0 <= k < |d.socks| && Awaited(d, y, k) ensures SomeComing(d, y, k) {
      assert Awaited(st, y, k);
      var c :| 0 <= c < |st.calls| && Coming(st, c, y, k);
      assert Coming(d, c, y, k);
    }
    forall y | 0 <= y < |d.sels| ensures SelectorRight(d, d.sels[y]) {
      assert SelectorRight(st, st.sels[y]);
    }
    forall c | 0 <= c < |d.calls| ensures CallRight(d, d.calls[c].place) {
      assert CallRight(st, st.calls[c].place);
    }
  }

  lemma StepKeeps(st: State, t: Step)
    requires Inv(st) && Possible(st, t)
    ensures Inv(Next(st, t))
  {
    hide CountsRight, ListRight, CallsRight, NothingMissed, Inv, Advance, Notify, Continue;
    match t
    case Call(watch, limit, poll, forever) => CallKeeps(st, watch, limit, poll, forever);
    case NoSemaphore(x) =>
      InvGives(st, x);
      QuietStep(st, Next(st, t), x);
    case Move(x) =>
      if st.sels[x].phase.Enlist? { EnlistKeeps(st, x); }
      else if st.sels[x].phase.Delist? { DelistKeeps(st, x); }
      else if st.sels[x].phase.SecondScan? { SecondScanStep(st, x); }
      else if st.sels[x].phase.Raising? || st.sels[x].phase.Lowering? { CountingStep(st, x); }
      else { ScanStep(st, x); }
    case TimeOut(x) =>
      InvGives(st, x);
      QuietStep(st, Next(st, t), x);
    case Event(s, e) => NotifyKeeps(st, s, e);
    case Resume(c) => ContinueKeeps(st, c);
    case Hold(s, held) => HoldKeeps(st, s, held);
  }

  // ---- every run -------------------------------------------------------------------------

  predicate Started(st: State) {
    && st.sels == [] && st.order == [] && st.calls == []
    && forall s :: 0 <= s < |st.socks| ==> st.socks[s].waiting == 0
  }

  predicate IsRun(sts: seq<State>, ts: seq<Step>) {
    && |sts| == |ts| + 1 && Started(sts[0])
    && forall i :: 0 <= i < |ts| ==> Possible(sts[i], ts[i]) && (ValidIds(sts[i]) ==> sts[i + 1] == Next(sts[i], ts[i]))
  }

  lemma {:induction false} RunKeeps(sts: seq<State>, ts: seq<Step>)
    requires IsRun(sts, ts)
    ensures Inv(sts[|ts|])
    decreases |ts|
  {
    if ts != [] {
      var n := |ts| - 1;
      RunKeeps(sts[..n + 1], ts[..n]);
      StepKeeps(sts[n], ts[n]);
    }
  }

  // A thread sleeps on a semaphore nobody has signalled while a socket it watches has an event only
  // if a callback for that socket is at work that has yet to come by it.
  predicate NobodyForgotten(st: State) {
    forall x, s ::
      0 <= x < |st.sels| && 0 <= s < |st.socks| && st.sels[x].phase.Waiting? && st.sels[x].sem == 0
      && Watched(st.sels[x].watch, s) && s < st.sels[x].limit && HasEvent(st.socks[s], st.sels[x].watch, s)
      ==> SomeComing(st, x, s)
  }

  lemma NoLostWakeup(sts: seq<State>, ts: seq<Step>)
    requires IsRun(sts, ts)
    ensures NobodyForgotten(sts[|ts|])
    ensures forall x :: 0 <= x < |sts[|ts|].sels| ==> sts[|ts|].sels[x].posts <= 1
  {
    hide CountsRight, ListRight, CallsRight;
    var st := sts[|ts|];
    RunKeeps(sts, ts);
    forall x | 0 <= x < |st.sels| ensures st.sels[x].posts <= 1 {
      assert SelectorRight(st, st.sels[x]);
    }
    forall x, s |
      0 <= x < |st.sels| && 0 <= s < |st.socks| && st.sels[x].phase.Waiting? && st.sels[x].sem == 0
      && Watched(st.sels[x].watch, s) && s < st.sels[x].limit && HasEvent(st.socks[s], st.sels[x].watch, s)
      ensures SomeComing(st, x, s)
    {
      assert SelectorRight(st, st.sels[x]);
      assert Awaited(st, x, s);
    }
  }

  // The waiter list holds each thread between joining and leaving once and nobody else, and
  // select_waiting of a socket is the number of threads counted on it.
  lemma ListAndCounters(sts: seq<State>, ts: seq<Step>)
    requires IsRun(sts, ts)
    ensures ListRight(sts[|ts|]) && CountsRight(sts[|ts|])
  {
    hide NothingMissed, CallsRight, SelectorsRight;
    RunKeeps(sts, ts);
  }

  // A semaphore is only ever signalled while its owner is on the list, so it still exists.
  lemma SignalsReachWaiters(st: State, t: Step, x: nat)
    requires Inv(st) && Possible(st, t) && x < |st.sels|
    ensures |Next(st, t).sels| >= |st.sels|
    ensures Next(st, t).sels[x].posts > st.sels[x].posts ==> Enlisted(st.sels[x].phase) && !st.sels[x].signalled
  {
    hide CountsRight, CallsRight, NothingMissed, Visit;
    match t
    case Event(s, e) =>
      NotedKeepsRest(st, s, e);
      if st.socks[s].waiting != 0 { VisitFrame(Noted(st, s, e), |st.calls|, 0); }
    case Resume(c) =>
      var p := st.calls[c].place;
      var j := if p.lastCtr != st.ctr then 0 else Position(st.order, p.sel) + 1;
      assert CallsRight(st);
      CallGives(st, c);
      VisitFrame(st, c, j);
    case _ =>
  }

  lemma CallGives(st: State, c: nat)
    requires CallsRight(st) && c < |st.calls|
    ensures CallRight(st, st.calls[c].place)
  {}
}

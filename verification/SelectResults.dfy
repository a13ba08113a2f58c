// What select answers: the number and the sets it returns, whichever way it ends, and what the
// sockets say of the events that were raised.
module SelectResults {
  import opened Wrappers
  import opened Select

  // Is a socket ready, as far as one of the sets is concerned?
  predicate IsReady(k: Sock, q: Which) {
    match q
    case Reading => k.held || k.rcvevent > 0
    case Writing => k.sendevent
    case Excepting => k.errevent
  }

  predicate InSet(w: Watch, q: Which, s: nat) {
    match q
    case Reading => s in w.read
    case Writing => s in w.write
    case Excepting => s in w.except
  }

  // The ready ones among the watched, socket s being as looks[s] says.
  ghost function Selected(looks: seq<Sock>, w: Watch): set<(Which, nat)> {
    set q: Which, s: nat | s < |looks| && InSet(w, q, s) && IsReady(looks[s], q) :: (q, s)
  }

  // ---- what has happened to a thread -----------------------------------------------------

  // How it has left its wait, if it has: by the time-out, by the semaphore, without waiting since
  // the second scan found something, or for want of a semaphore.
  datatype Left = NotYet | TimedOut | Woken | FoundReady | Refused
  // looks are the sockets as the running scan, or the last, has passed them.
  datatype History = History(looks: seq<Sock>, left: Left)

  function Scanning(p: Phase): Option<nat> {
    match p
    case FirstScan(i, _) => Some(i)
    case SecondScan(i, _) => Some(i)
    case LastScan(i, _) => Some(i)
    case _ => None
  }

  function Remember(h: History, st: State, t: Step, x: nat): History
    requires x < |st.sels| && st.sels[x].limit <= |st.socks|
  {
    var sel := st.sels[x];
    if t == TimeOut(x) then h.(left := TimedOut)
    else if t == NoSemaphore(x) then h.(left := Refused)
    else if t != Move(x) then h
    else if Scanning(sel.phase).Some? && Scanning(sel.phase).value < sel.limit then
      h.(looks := h.looks + [st.socks[Scanning(sel.phase).value]])
    else match sel.phase
      case Raising(_) => if sel.phase.i < sel.limit then h else h.(looks := [])
      case SecondScan(_, n) => if n > 0 then h.(left := FoundReady) else h
      case Waiting => if sel.sem > 0 then h.(left := Woken) else h
      case Delist(_) => h.(looks := [])
      case _ => h
  }

  function Past(sts: seq<State>, ts: seq<Step>, x: nat): History
    requires |sts| == |ts| + 1
    decreases |ts|
  {
    if ts == [] then History([], NotYet)
    else
      var n := |ts| - 1;
      var h := Past(sts[..n + 1], ts[..n], x);
      if x < |sts[n].sels| && sts[n].sels[x].limit <= |sts[n].socks| then Remember(h, sts[n], ts[n], x)
      else History([], NotYet)
  }

  predicate Counts(sel: Selector, h: History, i: nat, n: nat) {
    |h.looks| == i <= sel.limit && n == |sel.found|
  }

  ghost predicate Collected(sel: Selector, h: History) { sel.found == Selected(h.looks, sel.watch) }

  // What a select that has returned v has answered.  The number is that of the ready ones, and they
  // are in the sets, each as the last scan has passed it.
  ghost predicate Answered(sel: Selector, h: History, v: int) {
    match h.left
    case Refused => v == -1
    case TimedOut => v == 0 && sel.found == {} && !sel.forever
    case NotYet => |h.looks| == sel.limit && Collected(sel, h) && v == |sel.found| && (v > 0 || sel.poll)
    case _ => |h.looks| == sel.limit && Collected(sel, h) && v == |sel.found|
  }

  predicate AfterWaiting(sel: Selector, h: History, timedOut: bool) {
    if timedOut then h.left.TimedOut? && sel.found == {} && !sel.forever else h.left.Woken? || h.left.FoundReady?
  }

  ghost predicate Right(sel: Selector, h: History) {
    match sel.phase
    case FirstScan(i, n) => h.left.NotYet? && Counts(sel, h, i, n) && Collected(sel, h)
    case Enlist => h.left.NotYet?
    case Raising(_) => h.left.NotYet?
    case SecondScan(i, n) => h.left.NotYet? && Counts(sel, h, i, n) && Collected(sel, h)
    case Waiting => h.left.NotYet? && sel.found == {}
    case Lowering(_, t) => AfterWaiting(sel, h, t)
    case Delist(t) => AfterWaiting(sel, h, t)
    case LastScan(i, n) => (h.left.Woken? || h.left.FoundReady?) && Counts(sel, h, i, n) && Collected(sel, h)
    case Returned(v) => Answered(sel, h, v)
  }

  // ---- one step --------------------------------------------------------------------------

  lemma FoundIs(k: Sock, w: Watch, s: nat)
    ensures forall q: Which, u: nat :: (q, u) in Found(k, w, s) <==> u == s && InSet(w, q, s) && IsReady(k, q)
  {}

  lemma SelectedMore(looks: seq<Sock>, k: Sock, w: Watch)
    ensures Selected(looks + [k], w) == Selected(looks, w) + Found(k, w, |looks|)
    ensures |Selected(looks + [k], w)| == |Selected(looks, w)| + Count(k, w, |looks|)
  {
    hide Found, InSet, IsReady, Count;
    var a, b, c := Selected(looks, w), Found(k, w, |looks|), Selected(looks + [k], w);
    FoundIs(k, w, |looks|);
    forall e: (Which, nat) ensures e in c <==> e in a + b {
      if e.1 < |looks| { assert (looks + [k])[e.1] == looks[e.1]; }
      assert e == (e.0, e.1);
    }
    assert c == a + b;
    forall e | e in a ensures e !in b { assert e == (e.0, e.1); }
    FoundCounts(k, w, |looks|);
  }

  function Only(p: bool, q: Which, s: nat): (r: set<(Which, nat)>)
    ensures |r| == (if p then 1 else 0) && forall e :: e in r ==> e == (q, s)
  {
    if p then {(q, s)} else {}
  }

  lemma FoundParts(k: Sock, w: Watch, s: nat)
    ensures Found(k, w, s) == Only(s in w.read && (k.held || k.rcvevent > 0), Reading, s)
      + Only(s in w.write && k.sendevent, Writing, s) + Only(s in w.except && k.errevent, Excepting, s)
  {}

  lemma ThreeSets(a: set<(Which, nat)>, b: set<(Which, nat)>, c: set<(Which, nat)>)
    requires a !! b && a !! c && b !! c
    ensures |a + b + c| == |a| + |b| + |c|
  {
    assert |a + b| == |a| + |b|;
    assert |(a + b) + c| == |a + b| + |c|;
  }

  lemma FoundCounts(k: Sock, w: Watch, s: nat)
    ensures |Found(k, w, s)| == Count(k, w, s)
  {
    hide Found, Only;
    FoundParts(k, w, s);
    ThreeSets(Only(s in w.read && (k.held || k.rcvevent > 0), Reading, s),
      Only(s in w.write && k.sendevent, Writing, s),
      Only(s in w.except && k.errevent, Excepting, s));
  }

  lemma SelectedNone(w: Watch)
    ensures Selected([], w) == {}
  {}

  lemma ScanRight(st: State, x: nat, h: History)
    requires Inv(st) && Possible(st, Move(x)) && Right(st.sels[x], h)
    requires Scanning(st.sels[x].phase).Some? && Scanning(st.sels[x].phase).value < st.sels[x].limit
    ensures Right(Advance(st, x).sels[x], Remember(h, st, Move(x), x))
  {
    hide Selected, Count, Found, Inv, Without;
    InvGives(st, x);
    SelectedMore(h.looks, st.socks[Scanning(st.sels[x].phase).value], st.sels[x].watch);
  }

  lemma MoveRight(st: State, x: nat, h: History)
    requires Inv(st) && Possible(st, Move(x)) && Right(st.sels[x], h)
    ensures Right(Advance(st, x).sels[x], Remember(h, st, Move(x), x))
  {
    hide Selected, Count, Found, Inv, Without;
    InvGives(st, x);
    if Scanning(st.sels[x].phase).Some? && Scanning(st.sels[x].phase).value < st.sels[x].limit {
      ScanRight(st, x, h);
    } else {
      SelectedNone(st.sels[x].watch);
    }
  }

  lemma StepRight(st: State, t: Step, x: nat, h: History)
    requires Inv(st) && Possible(st, t) && x < |st.sels| && Right(st.sels[x], h)
    ensures st.sels[x].limit <= |st.socks| && x < |Next(st, t).sels|
      && Right(Next(st, t).sels[x], Remember(h, st, t, x))
  {
    hide Selected, Inv, Visit, Count, Found;
    InvGives(st, x);
    if t == Move(x) {
      MoveRight(st, x, h);
      MoveKeepsSize(st, x);
    } else {
      SameThread(st, t, x);
      if t == NoSemaphore(x) { NoSemaphoreRight(st, x, h); }
    }
  }

  lemma MoveKeepsSize(st: State, x: nat)
    requires x < |st.sels| && st.sels[x].limit <= |st.socks|
    ensures |Advance(st, x).sels| == |st.sels|
  {}

  lemma NoSemaphoreRight(st: State, x: nat, h: History)
    requires x < |st.sels| && st.sels[x].phase.Enlist?
    ensures Right(Put(st, x, Returned(-1)).sels[x], h.(left := Refused))
  {}

  // What others do leaves the thread where it stands.
  lemma SameThread(st: State, t: Step, x: nat)
    requires Inv(st) && Possible(st, t) && x < |st.sels| && t != Move(x)
    ensures x < |Next(st, t).sels|
    ensures var a, b := st.sels[x], Next(st, t).sels[x];
            && b.watch == a.watch && b.limit == a.limit && b.poll == a.poll && b.forever == a.forever
              && b.found == a.found
            && b.phase ==
               (if t == TimeOut(x) then Lowering(0, true)
                else if t == NoSemaphore(x) then Returned(-1)
                else a.phase)
  {
    hide CountsRight, ListRight, NothingMissed, SelectorsRight, Visit, Count, Found;
    match t
    case Event(s, e) =>
      NotedKeepsRest(st, s, e);
      if st.socks[s].waiting != 0 { VisitFrame(Noted(st, s, e), |st.calls|, 0); }
    case Resume(c) =>
      var p := st.calls[c].place;
      CallGives(st, c);
      VisitFrame(st, c, if p.lastCtr != st.ctr then 0 else Position(st.order, p.sel) + 1);
    case Move(y) => OthersMove(st, y, x);
    case _ =>
  }

  lemma OthersMove(st: State, y: nat, x: nat)
    requires y < |st.sels| && st.sels[y].limit <= |st.socks| && x < |st.sels| && x != y
    ensures |Advance(st, y).sels| == |st.sels| && Advance(st, y).sels[x] == st.sels[x]
  {}

  // ---- every run -------------------------------------------------------------------------

  lemma {:induction false} RunRight(sts: seq<State>, ts: seq<Step>, x: nat)
    requires IsRun(sts, ts) && x < |sts[|ts|].sels|
    ensures Right(sts[|ts|].sels[x], Past(sts, ts, x))
    decreases |ts|
  {
    hide Inv, Next, Possible, Right, Remember;
    var n := |ts| - 1;
    if ts != [] {
      RunKeeps(sts[..n + 1], ts[..n]);
      InvValid(sts[n]);
      if x < |sts[n].sels| {
        RunRight(sts[..n + 1], ts[..n], x);
        StepRight(sts[n], ts[n], x, Past(sts[..n + 1], ts[..n], x));
      } else {
        NewRight(sts[n], ts[n], x);
      }
    }
  }

  lemma InvValid(st: State)
    requires Inv(st)
    ensures ValidIds(st)
  {}

  lemma NewRight(st: State, t: Step, x: nat)
    requires Inv(st) && Possible(st, t) && |st.sels| <= x < |Next(st, t).sels|
    ensures Right(Next(st, t).sels[x], History([], NotYet))
  {
    hide Inv, Count, Found, Visit, Selected;
    InvValid(st);
    match t
    case Call(watch, limit, poll, forever) => SelectedNone(watch);
    case Event(s, e) =>
      NotedKeepsRest(st, s, e);
      if st.socks[s].waiting != 0 { VisitFrame(Noted(st, s, e), |st.calls|, 0); }
    case Resume(c) => ContinueFrame(st, c);
    case Move(y) => InvGives(st, y); MoveKeepsSize(st, y);
    case _ =>
  }

  lemma ContinueFrame(st: State, c: nat)
    requires Inv(st) && c < |st.calls| && st.calls[c].place.At?
    ensures |Continue(st, c).sels| == |st.sels|
  {
    hide Visit;
    CallGives(st, c);
    var p := st.calls[c].place;
    VisitFrame(st, c, if p.lastCtr != st.ctr then 0 else Position(st.order, p.sel) + 1);
  }

  // Each look was taken as a scan of the thread passed that socket; after the wait, the last scan.
  ghost predicate Taken(sts: seq<State>, ts: seq<Step>, x: nat, s: nat, k: Sock, last: bool)
    requires |sts| == |ts| + 1
  {
    exists j :: 0 <= j < |ts| && ts[j] == Move(x) && x < |sts[j].sels| && s < |sts[j].socks| && sts[j].socks[s] == k
      && Scanning(sts[j].sels[x].phase) == Some(s) && (last ==> sts[j].sels[x].phase.LastScan?)
  }

  predicate AfterWait(p: Phase, left: Left) { p.LastScan? || (p.Returned? && (left.Woken? || left.FoundReady?)) }

  lemma {:induction false} LooksTaken(sts: seq<State>, ts: seq<Step>, x: nat, s: nat)
    requires IsRun(sts, ts) && x < |sts[|ts|].sels| && s < |Past(sts, ts, x).looks|
    ensures var h := Past(sts, ts, x);
            Taken(sts, ts, x, s, h.looks[s], AfterWait(sts[|ts|].sels[x].phase, h.left))
    decreases |ts|
  {
    hide Inv, Next, Possible, Selected, Count, Found;
    var n := |ts| - 1;
    var before := Past(sts[..n + 1], ts[..n], x);
    RunKeeps(sts[..n + 1], ts[..n]);
    InvValid(sts[n]);
    if x < |sts[n].sels| {
      RunRight(sts[..n + 1], ts[..n], x);
      InvGives(sts[n], x);
      StepLooks(sts[n], ts[n], x, before, s);
      if s < |before.looks| {
        LooksTaken(sts[..n + 1], ts[..n], x, s);
      } else {
        assert Taken(sts, ts, x, s, Past(sts, ts, x).looks[s],
          AfterWait(sts[n + 1].sels[x].phase, Past(sts, ts, x).left));
      }
    }
  }

  lemma StepLooks(st: State, t: Step, x: nat, h: History, s: nat)
    requires Inv(st) && Possible(st, t) && x < |st.sels| && st.sels[x].limit <= |st.socks| && Right(st.sels[x], h)
    requires s < |Remember(h, st, t, x).looks|
    ensures var r := Remember(h, st, t, x);
            && x < |Next(st, t).sels|
            && var p := Next(st, t).sels[x].phase;
               if s < |h.looks| then
                 r.looks[s] == h.looks[s] && (AfterWait(p, r.left) ==> AfterWait(st.sels[x].phase, h.left))
               else
                 t == Move(x) && Scanning(st.sels[x].phase) == Some(s) && s < |st.socks| && r.looks[s] == st.socks[s]
                 && (AfterWait(p, r.left) ==> st.sels[x].phase.LastScan?)
  {
    hide Inv, Selected, Count, Found, Visit, Without;
    InvGives(st, x);
    if t != Move(x) { SameThread(st, t, x); } else { MoveKeepsSize(st, x); }
  }

  // On every run a select that has returned has answered: -1 for want of a semaphore; 0 and empty
  // sets after a time-out, which only a thread with one has; otherwise the number of watched sockets
  // below its limit that were ready, counted once for each set, and those in the sets, each as it was
  // when the scan passed it, which is the last one if the thread had been woken.  Without waiting it
  // only returns 0 if it polls.
  lemma ResultsRight(sts: seq<State>, ts: seq<Step>, x: nat)
    requires IsRun(sts, ts) && x < |sts[|ts|].sels| && sts[|ts|].sels[x].phase.Returned?
    ensures var sel, h := sts[|ts|].sels[x], Past(sts, ts, x);
            && Answered(sel, h, sel.phase.result)
            && forall s: nat :: s < |h.looks| ==> Taken(sts, ts, x, s, h.looks[s], h.left.Woken? || h.left.FoundReady?)
  {
    hide Inv, Answered, Selected, Past, Taken;
    RunRight(sts, ts, x);
    forall s: nat | s < |Past(sts, ts, x).looks|
      ensures var h := Past(sts, ts, x);
              Taken(sts, ts, x, s, h.looks[s], h.left.Woken? || h.left.FoundReady?)
    {
      LooksTaken(sts, ts, x, s);
    }
  }

  // A thread that was woken, or did not have to wait, returns a positive number and has the socket
  // in its set, if a watched socket is ready whenever its last scan looks.
  lemma ReadyIsAnswered(sts: seq<State>, ts: seq<Step>, x: nat, q: Which, s: nat)
    requires IsRun(sts, ts) && x < |sts[|ts|].sels| && sts[|ts|].sels[x].phase.Returned?
    requires Past(sts, ts, x).left.Woken? || Past(sts, ts, x).left.FoundReady?
    requires s < sts[|ts|].sels[x].limit && InSet(sts[|ts|].sels[x].watch, q, s)
    requires forall j :: 0 <= j < |ts| && x < |sts[j].sels| && sts[j].sels[x].phase.LastScan? && s < |sts[j].socks| ==>
      IsReady(sts[j].socks[s], q)
    ensures sts[|ts|].sels[x].phase.result > 0 && (q, s) in sts[|ts|].sels[x].found
  {
    hide Inv, Past, InSet, IsReady;
    ResultsRight(sts, ts, x);
    var sel, h := sts[|ts|].sels[x], Past(sts, ts, x);
    assert Taken(sts, ts, x, s, h.looks[s], true);
    assert (q, s) in Selected(h.looks, sel.watch);
  }

  // ---- what is signalled and noted -------------------------------------------------------

  // An event a callback looks for; a saved remainder is none.
  predicate Raised(k: Sock, q: Which) {
    match q
    case Reading => k.rcvevent > 0
    case Writing => k.sendevent
    case Excepting => k.errevent
  }

  // Whose callback the step is a section of.
  predicate Calls(st: State, t: Step, s: nat) {
    match t
    case Event(u, _) => u == s
    case Resume(c) => c < |st.calls| && st.calls[c].sock == s
    case _ => false
  }

  // A thread is signalled only by a callback of a socket that is in one of its sets and has that
  // event.
  lemma SignalsOnlyDue(st: State, t: Step, x: nat)
    requires Inv(st) && Possible(st, t) && x < |st.sels| && x < |Next(st, t).sels|
    requires Next(st, t).sels[x].posts > st.sels[x].posts
    ensures exists s: nat, q: Which ::
      Calls(st, t, s) && s < |Next(st, t).socks| && InSet(st.sels[x].watch, q, s) && Raised(Next(st, t).socks[s], q)
  {
    hide CountsRight, NothingMissed, SelectorsRight, Inv, Visit, Advance;
    InvValid(st);
    match t
    case Event(s, e) =>
      NotedKeepsRest(st, s, e);
      var d := Noted(st, s, e);
      if st.socks[s].waiting != 0 {
        VisitDue(d, |st.calls|, 0, x);
        EventOf(d.socks[s], d.sels[x].watch, s);
      }
    case Resume(c) =>
      InvHolds(st);
      CallGives(st, c);
      var p := st.calls[c].place;
      var j := if p.lastCtr != st.ctr then 0 else Position(st.order, p.sel) + 1;
      VisitFrame(st, c, j);
      VisitDue(st, c, j, x);
      EventOf(st.socks[st.calls[c].sock], st.sels[x].watch, st.calls[c].sock);
    case Move(y) => MovePosts(st, y, x);
    case _ =>
  }

  lemma InvHolds(st: State)
    requires Inv(st)
    ensures CallsRight(st)
  {}

  lemma MovePosts(st: State, y: nat, x: nat)
    requires y < |st.sels| && st.sels[y].limit <= |st.socks| && x < |st.sels|
    ensures x < |Advance(st, y).sels| && Advance(st, y).sels[x].posts == st.sels[x].posts
  {
    hide Count, Found, Without, Watched;
  }

  lemma VisitDue(st: State, c: nat, j: nat, x: nat)
    requires ValidIds(st) && c < |st.calls| && j <= |st.order| && x < |st.sels|
    ensures |Visit(st, c, j).sels| == |st.sels| && Visit(st, c, j).socks == st.socks
    ensures Visit(st, c, j).sels[x].posts > st.sels[x].posts ==>
      HasEvent(st.socks[st.calls[c].sock], st.sels[x].watch, st.calls[c].sock)
  {}

  lemma EventOf(k: Sock, w: Watch, s: nat)
    ensures HasEvent(k, w, s) <==> exists q: Which :: InSet(w, q, s) && Raised(k, q)
  {
    if HasEvent(k, w, s) {
      var q :=
        if s in w.read && k.rcvevent > 0 then Reading
        else if s in w.write && k.sendevent then Writing
        else Excepting;
      assert InSet(w, q, s) && Raised(k, q);
    }
  }

  // The events raised for a socket, as they were raised.
  function Net(ts: seq<Step>, s: nat): int {
    if ts == [] then 0
    else Net(ts[..|ts| - 1], s) + (match ts[|ts| - 1]
      case Event(u, e) => if u == s && e == RcvPlus then 1 else if u == s && e == RcvMinus then -1 else 0
      case _ => 0)
  }

  function LastSend(ts: seq<Step>, s: nat, before: bool): bool {
    if ts == [] then before
    else match ts[|ts| - 1]
      case Event(u, e) => if u == s && e == SendPlus then true
        else if u == s && e == SendMinus then false
        else LastSend(ts[..|ts| - 1], s, before)
      case _ => LastSend(ts[..|ts| - 1], s, before)
  }

  // On every run a socket's receive counter is the number of packets announced less those taken,
  // as far as 16 bits go; its send flag what the last send event said; and its error flag whether
  // an error was ever raised.
  lemma {:induction false} EventsNoted(sts: seq<State>, ts: seq<Step>, s: nat)
    requires IsRun(sts, ts) && s < |sts[0].socks| && -0x8000 <= sts[0].socks[s].rcvevent < 0x8000
    ensures |sts[|ts|].socks| == |sts[0].socks|
    ensures var k, k0 := sts[|ts|].socks[s], sts[0].socks[s];
            && k.rcvevent == Wrap16(k0.rcvevent + Net(ts, s))
            && k.sendevent == LastSend(ts, s, k0.sendevent)
            && (k.errevent <==> k0.errevent || Event(s, ErrorEvent) in ts)
    decreases |ts|
  {
    hide Inv, Next, Possible, Wrap16;
    if ts == [] {
      WrapSame(sts[0].socks[s].rcvevent);
    } else {
      var n := |ts| - 1;
      EventsNoted(sts[..n + 1], ts[..n], s);
      RunKeeps(sts[..n + 1], ts[..n]);
      InvValid(sts[n]);
      StepNotes(sts[n], ts[n], s);
      ErrorIn(ts, s);
      WrapTwice(sts[0].socks[s].rcvevent + Net(ts[..n], s), 1);
      WrapTwice(sts[0].socks[s].rcvevent + Net(ts[..n], s), -1);
    }
  }

  lemma ErrorIn(ts: seq<Step>, s: nat)
    requires ts != []
    ensures Event(s, ErrorEvent) in ts <==>
      Event(s, ErrorEvent) in ts[..|ts| - 1] || ts[|ts| - 1] == Event(s, ErrorEvent)
  {
    assert ts == ts[..|ts| - 1] + [ts[|ts| - 1]];
  }

  lemma WrapSame(a: int)
    requires -0x8000 <= a < 0x8000
    ensures Wrap16(a) == a
  {}

  lemma WrapTwice(a: int, b: int)
    ensures Wrap16(Wrap16(a) + b) == Wrap16(a + b)
  {}

  lemma StepNotes(st: State, t: Step, s: nat)
    requires Inv(st) && Possible(st, t) && s < |st.socks|
    ensures |Next(st, t).socks| == |st.socks|
    ensures var k, d := st.socks[s], Next(st, t).socks[s];
            && d.rcvevent == (if t == Event(s, RcvPlus) then Wrap16(k.rcvevent + 1)
                 else if t == Event(s, RcvMinus) then Wrap16(k.rcvevent - 1) else k.rcvevent)
            && d.sendevent == (t == Event(s, SendPlus) || (t != Event(s, SendMinus) && k.sendevent))
            && d.errevent == (t == Event(s, ErrorEvent) || k.errevent)
            && d.held == (if t.Hold? && t.s == s then t.held else k.held)
  {
    hide CountsRight, NothingMissed, SelectorsRight, Inv, Visit, Count, Found;
    InvValid(st);
    match t
    case Event(u, e) =>
      NotedKeepsRest(st, u, e);
      if st.socks[u].waiting != 0 { VisitFrame(Noted(st, u, e), |st.calls|, 0); }
    case Resume(c) =>
      InvHolds(st);
      CallGives(st, c);
      var p := st.calls[c].place;
      VisitFrame(st, c, if p.lastCtr != st.ctr then 0 else Position(st.order, p.sel) + 1);
    case Move(y) => InvGives(st, y); MoveNotes(st, y, s);
    case _ =>
  }

  // The sections of select change how many wait for a socket, and nothing else of it.
  lemma MoveNotes(st: State, y: nat, s: nat)
    requires y < |st.sels| && st.sels[y].limit <= |st.socks| && s < |st.socks|
    ensures |Advance(st, y).socks| == |st.socks|
    ensures Advance(st, y).socks[s].(waiting := 0) == st.socks[s].(waiting := 0)
  {
    hide Count, Found, Without;
  }
}

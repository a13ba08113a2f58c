// A callback that has yet to come by a waiting thread does come by it, whatever other threads and
// callbacks do in between.
module SelectProgress {
  import opened Select

  predicate Follows(sts: seq<State>, ts: seq<Step>) {
    && |sts| == |ts| + 1 && Inv(sts[0])
    && forall i :: 0 <= i < |ts| ==> Possible(sts[i], ts[i]) && (ValidIds(sts[i]) ==> sts[i + 1] == Next(sts[i], ts[i]))
  }

  lemma {:induction false} FollowsKeeps(sts: seq<State>, ts: seq<Step>)
    requires Follows(sts, ts)
    ensures |sts| == |ts| + 1 && Inv(sts[|ts|])
    decreases |ts|
  {
    hide Inv, Next, Possible;
    if ts != [] {
      var n := |ts| - 1;
      FollowsKeeps(sts[..n + 1], ts[..n]);
      InvHas(sts[n]);
      StepKeeps(sts[n], ts[n]);
    }
  }

  lemma InvHas(st: State)
    requires Inv(st)
    ensures ValidIds(st) && ListRight(st) && CallsRight(st)
  {}

  // How many sections of callback c there are among the steps, and how often the list changes.
  function Resumes(ts: seq<Step>, c: nat): nat {
    if ts == [] then 0 else Resumes(ts[..|ts| - 1], c) + if ts[|ts| - 1] == Resume(c) then 1 else 0
  }

  function Changes(sts: seq<State>): nat {
    if |sts| < 2 then 0 else Changes(sts[..|sts| - 1]) + if sts[|sts| - 1].ctr != sts[|sts| - 2].ctr then 1 else 0
  }

  // How many elements of the list there are from the callback to x.
  function Distance(st: State, c: nat, x: nat): int
    requires c < |st.calls| && st.calls[c].place.At?
  {
    Position(st.order, x) - if st.calls[c].place.lastCtr != st.ctr then -1
      else Position(st.order, st.calls[c].place.sel)
  }

  predicate Waits(st: State, x: nat, s: nat) { x < |st.sels| && s < |st.socks| && Awaited(st, x, s) }

  predicate Comes(st: State, c: nat, x: nat, s: nat) { c < |st.calls| && Coming(st, c, x, s) }

  lemma CallGives(st: State, c: nat)
    requires CallsRight(st) && c < |st.calls|
    ensures CallRight(st, st.calls[c].place)
  {}

  lemma DistanceFits(st: State, c: nat, x: nat, s: nat)
    requires Inv(st) && Waits(st, x, s) && Comes(st, c, x, s)
    ensures x in st.order && 0 < Distance(st, c, x) <= |st.order|
  {
    hide CountsRight, NothingMissed, SelectorsRight, HasEvent;
    assert Enlisted(st.sels[x].phase);
  }

  // Its own next section brings it one element nearer, unless it signals the thread.
  lemma ResumeNearer(st: State, c: nat, x: nat, s: nat)
    requires Inv(st) && Waits(st, x, s) && Comes(st, c, x, s) && Waits(Continue(st, c), x, s)
    ensures var d := Continue(st, c);
            Comes(d, c, x, s) && d.ctr == st.ctr && Distance(d, c, x) == Distance(st, c, x) - 1
  {
    hide CountsRight, SelectorsRight, NothingMissed, CallsRight, Visit;
    var p := st.calls[c].place;
    CallGives(st, c);
    DistanceFits(st, c, x, s);
    var j := if p.lastCtr != st.ctr then 0 else Position(st.order, p.sel) + 1;
    VisitFrame(st, c, j);
    PositionOf(st.order, j);
    VisitPlace(st, c, j);
    if j == Position(st.order, x) { VisitSignals(st, c, j); }
  }

  lemma VisitSignals(st: State, c: nat, j: nat)
    requires ValidIds(st) && c < |st.calls| && j < |st.order|
    requires HasEvent(st.socks[st.calls[c].sock], st.sels[st.order[j]].watch, st.calls[c].sock)
    ensures |Visit(st, c, j).sels| == |st.sels| && Visit(st, c, j).sels[st.order[j]].signalled
  {}

  // Any other step leaves it where it is, or makes it start over.
  lemma OthersLeave(st: State, t: Step, c: nat)
    requires Inv(st) && Possible(st, t) && t != Resume(c) && c < |st.calls|
    ensures var d := Next(st, t);
            && c < |d.calls| && d.calls[c] == st.calls[c]
            && (d.ctr > st.ctr || (d.ctr == st.ctr && d.order == st.order))
  {
    hide CountsRight, ListRight, CallsRight, NothingMissed, SelectorsRight, Visit;
    match t
    case Event(s, e) =>
      NotedKeepsRest(st, s, e);
      if st.socks[s].waiting != 0 { VisitFrame(Noted(st, s, e), |st.calls|, 0); }
    case Resume(k) =>
      var p := st.calls[k].place;
      CallGives(st, k);
      VisitFrame(st, k, if p.lastCtr != st.ctr then 0 else Position(st.order, p.sel) + 1);
    case _ =>
  }

  lemma StepComes(st: State, t: Step, c: nat, x: nat, s: nat)
    requires Inv(st) && Possible(st, t) && Waits(st, x, s) && Comes(st, c, x, s) && Waits(Next(st, t), x, s)
    ensures var d := Next(st, t);
            && Comes(d, c, x, s)
            && (if t == Resume(c) then d.ctr == st.ctr && Distance(d, c, x) == Distance(st, c, x) - 1
                else if d.ctr == st.ctr then Distance(d, c, x) == Distance(st, c, x)
                else Distance(d, c, x) <= |d.order|)
  {
    hide Inv, Waits, Continue;
    InvHas(st);
    if t == Resume(c) {
      ResumeNearer(st, c, x, s);
    } else {
      var d := Next(st, t);
      OthersLeave(st, t, c);
      CallGives(st, c);
      StepKeeps(st, t);
      if d.ctr != st.ctr { DistanceFits(d, c, x, s); }
    }
  }

  lemma PrefixFollows(sts: seq<State>, ts: seq<Step>, n: nat)
    requires Follows(sts, ts) && n + 1 == |ts|
    ensures |sts| == |ts| + 1 && Follows(sts[..n + 1], ts[..n]) && Possible(sts[n], ts[n]) && Inv(sts[n])
      && Inv(sts[n + 1])
    ensures ValidIds(sts[n]) && sts[n + 1] == Next(sts[n], ts[n])
  {
    hide Inv, Next, Possible;
    FollowsKeeps(sts, ts);
    FollowsKeeps(sts[..n + 1], ts[..n]);
    InvHas(sts[n]);
  }

  // As long as the event stays and the thread sleeps unsignalled, the callback stays on its way and
  // every section of its own counts; a change of the list costs it at most one pass over the list,
  // of at most m threads.  So it arrives within m sections for each time the list was changed, and
  // m more.
  lemma {:induction false} ComingArrives(sts: seq<State>, ts: seq<Step>, c: nat, x: nat, s: nat, m: nat)
    requires Follows(sts, ts) && Comes(sts[0], c, x, s)
    requires forall i :: 0 <= i < |sts| ==> Waits(sts[i], x, s) && |sts[i].order| <= m
    ensures Comes(sts[|ts|], c, x, s)
    ensures Resumes(ts, c) + Distance(sts[|ts|], c, x) <= m * (1 + Changes(sts))
    ensures Resumes(ts, c) < m * (1 + Changes(sts))
    decreases |ts|
  {
    hide Inv, Waits, Comes, Distance, Next, Possible, ValidIds, Follows;
    if ts == [] {
      FollowsKeeps(sts, ts);
      DistanceFits(sts[0], c, x, s);
    } else {
      var n := |ts| - 1;
      PrefixFollows(sts, ts, n);
      ComingArrives(sts[..n + 1], ts[..n], c, x, s, m);
      StepComes(sts[n], ts[n], c, x, s);
      DistanceFits(sts[n + 1], c, x, s);
      OneMorePass(m, Changes(sts[..n + 1]));
    }
  }

  lemma OneMorePass(m: nat, k: nat)
    ensures m * (1 + (k + 1)) == m * (1 + k) + m
  {}
}

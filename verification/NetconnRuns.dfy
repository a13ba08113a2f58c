// Whole runs: one application thread that posts a request and sleeps on op_completed, the
// mailbox between the threads, the TCP/IP thread and the callbacks of the TCP stack.
module NetconnRuns {
  import opened Wrappers
  import opened NetconnSpec
  import opened NetconnSteps

  // A call the application thread sleeps in, and a call that has returned.
  datatype Call = Call(id: nat, op: Op, dontBlock: bool)
  datatype Return = Return(id: nat, op: Op, err: int, bytes: nat)
  datatype System = System(
    conn: Conn, app: Option<Call>, inbox: seq<Msg>, completed: nat, live: bool,
    taken: seq<nat>, returned: seq<Return>)

  datatype Step =
    | Post(op: Op)
    | Take(sending: Sending, replies: Replies)
    | Wake
    | PollTcp(sending: Sending, closeErr: int, after: Sending)
    | SentTcp(sending: Sending, closeErr: int, after: Sending)
    | ErrTcp(err: int)
    | ConnectedTcp(err: int)
    | SetNonBlocking(on: bool)
    | NoteError(err: int)

  predicate Started(s: System) {
    && s.conn.state.StateNone? && !s.conn.pcb.Listening? && s.conn.current.None? && !s.conn.inConnect
    && s.conn.begun == 0 && s.conn.stream == [] && s.conn.answers == []
    && s.app.None? && s.inbox == [] && s.completed == 0 && s.live && s.taken == [] && s.returned == []
  }

  // The bytes netconn_write_partly reports for an answered write.
  function BytesWritten(a: Answer, dontBlock: bool): nat {
    if a.op.Write? && a.err == ERR_OK then if dontBlock then a.len else |a.op.data| else 0
  }

  function AfterReturn(c: Conn, a: Answer): Conn {
    if a.op.Delete? || a.op.Recv? then c else c.(lastErr := SafeErr(c.lastErr, a.err))
  }

  // The signals a step gives are the answers it adds.
  function With(s: System, d: Conn): System {
    s.(conn := d, completed := s.completed + if |d.answers| > |s.conn.answers|
      then |d.answers| - |s.conn.answers| else 0)
  }

  function MessageFor(id: nat, op: Op): Msg {
    Msg(id, op, ShutOf(op), if op.Write? then |op.data| else 0)
  }

  // The TCP stack calls back only while it has the pcb; closing a pcb that is still connecting
  // succeeds at once.
  predicate Possible(s: System, t: Step) {
    match t
    case Post(op) => s.live && s.app.None? && (op.Write? ==> op.data != [])
    case Take(_, r) => s.inbox != [] && (s.inbox[0].op.Delete? && s.conn.state.StateConnect? ==> r.closeErr == ERR_OK)
    case Wake => s.app.Some? && s.completed > 0 && s.conn.answers != []
    case PollTcp(_, _, _) => !s.conn.pcb.NoPcb?
    case SentTcp(_, _, _) => !s.conn.pcb.NoPcb?
    case ErrTcp(err) => !s.conn.pcb.NoPcb? && IsFatal(err)
    case ConnectedTcp(_) => !s.conn.pcb.NoPcb? && s.conn.state.StateConnect?
    case SetNonBlocking(_) => s.live && s.app.None?
    case NoteError(_) => s.live && s.app.None?
  }

  function Next(s: System, t: Step): System
    requires Good(s.conn) && Possible(s, t) && forall m :: m in s.inbox ==> Askable(s.conn, m)
  {
    var c := s.conn;
    match t
    case Post(op) =>
      var id := |s.taken| + |s.inbox|;
      s.(app := Some(Call(id, op, DontBlockFor(c, op))), inbox := s.inbox + [MessageFor(id, op)])
    case Take(e, r) =>
      With(s, Handle(c, s.inbox[0], e, r)).(inbox := s.inbox[1..], taken := s.taken + [s.inbox[0].id])
    case Wake =>
      var a := c.answers[|c.answers| - 1];
      s.(app := None, completed := s.completed - 1, live := s.live && !a.op.Delete?, conn := AfterReturn(c, a),
         returned := s.returned + [Return(a.id, a.op, a.err, BytesWritten(a, s.app.value.dontBlock))])
    case PollTcp(e, closeErr, after) => With(s, Polled(c, e, closeErr, after))
    case SentTcp(e, closeErr, after) => With(s, Sent(c, e, closeErr, after))
    case ErrTcp(err) => With(s, Failed(c, err))
    case ConnectedTcp(err) => With(s, Connected(c, err))
    case SetNonBlocking(on) => s.(conn := c.(nonBlocking := on))
    case NoteError(err) => s.(conn := c.(lastErr := SafeErr(c.lastErr, err)))
  }

  // Where the one call that may be under way stands.
  datatype Stage = Idle | Posted | Outstanding | Signalled

  predicate At(s: System, g: Stage) {
    match g
    case Idle => s.app.None? && s.inbox == [] && s.conn.current.None? && s.completed == 0
    case Posted =>
      && s.app.Some? && s.inbox == [MessageFor(s.app.value.id, s.app.value.op)]
      && (s.app.value.op.Write? ==> s.app.value.op.data != [])
      && s.conn.current.None? && s.completed == 0
    case Outstanding =>
      && s.app.Some? && s.inbox == [] && s.completed == 0 && s.conn.current.Some?
      && s.conn.current.value.id == s.app.value.id && s.conn.current.value.op == s.app.value.op
    case Signalled =>
      && s.app.Some? && s.inbox == [] && s.conn.current.None? && s.completed == 1
      && |s.conn.answers| > 0
      && var a := s.conn.answers[|s.conn.answers| - 1];
         a.id == s.app.value.id && a.op == s.app.value.op && a.dontBlock == s.app.value.dontBlock
  }

  predicate Underway(s: System) {
    s.app.Some? ==> s.app.value.dontBlock == DontBlockFor(s.conn, s.app.value.op)
  }

  // Requests are numbered as they are posted; those taken are those answered, and one more
  // while it is outstanding.
  predicate Numbered(s: System) {
    && (forall i :: 0 <= i < |s.taken| ==> s.taken[i] == i)
    && (s.app.Some? ==> s.app.value.id == if s.inbox == [] then |s.taken| - 1 else |s.taken|)
    && s.taken == Ids(s.conn.answers) + (if s.conn.current.Some? then [s.conn.current.value.id] else [])
  }

  function ReturnOf(a: Answer): Return { Return(a.id, a.op, a.err, BytesWritten(a, a.dontBlock)) }

  predicate Returned(s: System) {
    && |s.returned| + s.completed == |s.conn.answers|
    && forall i :: 0 <= i < |s.returned| ==> s.returned[i] == ReturnOf(s.conn.answers[i])
  }

  // Once a delete is answered the connection holds no pcb, so nothing can reach it any more.
  predicate Deleted(s: System) {
    && (forall i :: 0 <= i < |s.conn.answers| && s.conn.answers[i].op.Delete? ==> i == |s.conn.answers| - 1)
    && (|s.conn.answers| > 0 && s.conn.answers[|s.conn.answers| - 1].op.Delete? ==>
          s.conn.pcb.NoPcb? && s.conn.current.None? && (s.live ==> s.completed == 1))
    && (!s.live ==> |s.conn.answers| > 0 && s.conn.answers[|s.conn.answers| - 1].op.Delete? && At(s, Idle))
  }

  predicate Inv(s: System) {
    && Sound(s.conn) && Underway(s) && Numbered(s) && Returned(s) && Deleted(s)
    && (At(s, Idle) || At(s, Posted) || At(s, Outstanding) || At(s, Signalled))
  }

  // ---- one step keeps all of it ----------------------------------------------------------

  // A delete that ends leaves no pcb behind.
  lemma DeleteEnds(c: Conn, m: Msg, r: Replies)
    requires Sound(c) && m.op.Delete? && DeleteFits(c, r) && c.current.None?
    ensures var d := DoDelconn(c, m, r);
            d.answers == c.answers || d.pcb.NoPcb?
  {}

  lemma DeleteResumes(c: Conn, e: Sending, closeErr: int)
    requires Sound(c) && c.current.Some? && c.current.value.op.Delete?
    ensures var d := Resume(c, e, closeErr);
            d.answers == c.answers || d.pcb.NoPcb?
  {}

  // What a callback turns the system into, whichever it is.
  lemma CallbackKeeps(s: System, d: Conn)
    requires Inv(s) && !s.conn.pcb.NoPcb? && Sound(d) && Continued(s.conn, d)
    requires s.conn.current.Some? && s.conn.current.value.op.Delete? ==> d.answers == s.conn.answers || d.pcb.NoPcb?
    ensures Inv(With(s, d))
  {
    hide Sound, Numbered;
    var c, s' := s.conn, With(s, d);
    CallbackNumbers(s, d);
    if d.answers != c.answers {
      assert d.answers == c.answers + [d.answers[|c.answers|]];
      assert At(s', Signalled);
    } else {
      assert s' == s.(conn := d);
    }
  }

  lemma CallbackNumbers(s: System, d: Conn)
    requires Numbered(s) && Continued(s.conn, d)
    ensures Numbered(With(s, d))
  {
    hide Ids, Flat;
    if d.answers != s.conn.answers {
      var a := d.answers[|s.conn.answers|];
      assert d.answers == s.conn.answers + [a];
      Appended(s.conn.answers, a);
    }
  }

  lemma TakeKeeps(s: System, d: Conn)
    requires Inv(s) && s.inbox != [] && Sound(d) && Accepted(s.conn, d, s.inbox[0])
    requires s.inbox[0].op.Delete? ==> d.answers == s.conn.answers || d.pcb.NoPcb?
    ensures Inv(With(s, d).(inbox := s.inbox[1..], taken := s.taken + [s.inbox[0].id]))
  {
    hide Sound, Numbered, Returned;
    var c, m := s.conn, s.inbox[0];
    var s' := With(s, d).(inbox := s.inbox[1..], taken := s.taken + [m.id]);
    assert At(s, Posted) && s'.inbox == [];
    TakeNumbers(s, d);
    TakeReturns(s, d);
    assert if d.answers != c.answers then At(s', Signalled) else At(s', Outstanding);
  }

  lemma TakeNumbers(s: System, d: Conn)
    requires Numbered(s) && At(s, Posted) && Accepted(s.conn, d, s.inbox[0])
    ensures Numbered(With(s, d).(inbox := s.inbox[1..], taken := s.taken + [s.inbox[0].id]))
  {
    hide Ids, Flat;
    var c := s.conn;
    if d.answers != c.answers {
      assert d.answers == c.answers + [d.answers[|c.answers|]];
      Appended(c.answers, d.answers[|c.answers|]);
    }
  }

  lemma TakeReturns(s: System, d: Conn)
    requires Returned(s) && Deleted(s) && s.live && At(s, Posted) && Accepted(s.conn, d, s.inbox[0])
    requires s.inbox[0].op.Delete? ==> d.answers == s.conn.answers || d.pcb.NoPcb?
    ensures var s' := With(s, d).(inbox := s.inbox[1..], taken := s.taken + [s.inbox[0].id]);
            Returned(s') && Deleted(s')
  {
    var c := s.conn;
    if d.answers != c.answers {
      assert d.answers == c.answers + [d.answers[|c.answers|]];
    }
  }

  lemma WakeKeeps(s: System)
    requires Inv(s) && Possible(s, Wake)
    ensures Inv(Next(s, Wake))
  {
    var s' := Next(s, Wake);
    assert At(s, Signalled);
    assert At(s', Idle);
  }

  lemma PostKeeps(s: System, op: Op)
    requires Inv(s) && Possible(s, Post(op))
    ensures Inv(Next(s, Post(op)))
  {
    hide Conserved;
    assert At(s, Idle);
    assert s.inbox + [MessageFor(|s.taken|, op)] == [MessageFor(|s.taken|, op)];
    assert At(Next(s, Post(op)), Posted);
  }

  lemma StepKeeps(s: System, t: Step)
    requires Inv(s) && Possible(s, t)
    ensures forall m :: m in s.inbox ==> Askable(s.conn, m)
    ensures Inv(Next(s, t))
  {
    hide Numbered, Returned, Handle, Polled, Sent, Failed, Connected, Conserved;
    var c := s.conn;
    match t
    case Post(op) => PostKeeps(s, op);
    case Take(e, r) =>
      HandleExact(c, s.inbox[0], e, r);
      TakeDeletes(s, e, r);
      TakeKeeps(s, Handle(c, s.inbox[0], e, r));
    case Wake => WakeKeeps(s);
    case PollTcp(e, closeErr, after) =>
      PolledKeeps(c, e, closeErr, after);
      PolledDeletes(c, e, closeErr, after);
      CallbackKeeps(s, Polled(c, e, closeErr, after));
    case SentTcp(e, closeErr, after) =>
      SentKeeps(c, e, closeErr, after);
      PolledDeletes(c, e, closeErr, after);
      CallbackKeeps(s, Sent(c, e, closeErr, after));
    case ErrTcp(err) =>
      FailedKeeps(c, err);
      FailedDeletes(c, err);
      CallbackKeeps(s, Failed(c, err));
    case ConnectedTcp(err) =>
      ConnectedKeeps(c, err);
      CallbackKeeps(s, Connected(c, err));
    case SetNonBlocking(on) => AtRest(s, c.(nonBlocking := on));
    case NoteError(err) => AtRest(s, c.(lastErr := SafeErr(c.lastErr, err)));
  }

  lemma TakeDeletes(s: System, e: Sending, r: Replies)
    requires Inv(s) && Possible(s, Take(e, r))
    ensures Askable(s.conn, s.inbox[0])
    ensures s.inbox[0].op.Delete? ==>
      DeleteFits(s.conn, r)
      && (Handle(s.conn, s.inbox[0], e, r).answers == s.conn.answers || Handle(s.conn, s.inbox[0], e, r).pcb.NoPcb?)
  {
    hide Conserved, Numbered, Returned, DoDelconn;
    if s.inbox[0].op.Delete? { DeleteEnds(s.conn, s.inbox[0], r); }
  }

  lemma PolledDeletes(c: Conn, e: Sending, closeErr: int, after: Sending)
    requires Sound(c)
    ensures c.current.Some? && c.current.value.op.Delete? ==>
      && (Polled(c, e, closeErr, after).answers == c.answers || Polled(c, e, closeErr, after).pcb.NoPcb?)
      && (Sent(c, e, closeErr, after).answers == c.answers || Sent(c, e, closeErr, after).pcb.NoPcb?)
  {
    hide Resume;
    if c.current.Some? && c.current.value.op.Delete? { DeleteResumes(c, e, closeErr); }
  }

  lemma FailedDeletes(c: Conn, err: int)
    requires Sound(c)
    ensures Failed(c, err).pcb.NoPcb?
  {}

  lemma AtRest(s: System, d: Conn)
    requires Inv(s) && s.app.None?
    requires d == s.conn.(nonBlocking := d.nonBlocking, lastErr := d.lastErr)
    ensures Inv(s.(conn := d))
  {
    assert At(s, Idle);
    assert At(s.(conn := d), Idle);
  }

  // ---- every run -------------------------------------------------------------------------

  predicate Ready(s: System) { Good(s.conn) && forall m :: m in s.inbox ==> Askable(s.conn, m) }

  // ss passes through the steps ts; a state in which a handler could not run would leave the
  // next one open, but there is none.
  predicate IsRun(ss: seq<System>, ts: seq<Step>) {
    && |ss| == |ts| + 1 && Started(ss[0])
    && forall i :: 0 <= i < |ts| ==> Possible(ss[i], ts[i]) && (Ready(ss[i]) ==> ss[i + 1] == Next(ss[i], ts[i]))
  }

  lemma {:induction false} RunKeeps(ss: seq<System>, ts: seq<Step>)
    requires IsRun(ss, ts)
    ensures Inv(ss[|ts|])
    decreases |ts|
  {
    if ts == [] {
      assert Flat([]) == [];
      assert Ids([]) == [];
      assert At(ss[0], Idle);
    } else {
      var n := |ts| - 1;
      RunKeeps(ss[..n + 1], ts[..n]);
      StepKeeps(ss[n], ts[n]);
    }
  }

  // A request is outstanding exactly in a write, a close or a blocking connect.
  predicate OutstandingByState(c: Conn) {
    c.current.Some? <==> c.state.StateWrite? || c.state.StateClose? || (c.state.StateConnect? && !c.inConnect)
  }

  // The n-th request taken gets the n-th answer, and only that one; the last may still be
  // outstanding.  op_completed is signalled at most once ahead of the thread that sleeps on it,
  // and always for the request it waits for.
  predicate ExactlyOnce(s: System) {
    && (forall i :: 0 <= i < |s.taken| ==> s.taken[i] == i)
    && (forall i :: 0 <= i < |s.conn.answers| ==> s.conn.answers[i].id == i)
    && |s.taken| == |s.conn.answers| + (if s.conn.current.Some? then 1 else 0)
    && (s.conn.current.Some? ==> s.conn.current.value.id == |s.conn.answers|)
    && |s.returned| + s.completed == |s.conn.answers|
    && (s.completed == 0 || (s.completed == 1 && s.app.Some? && s.app.value.id == |s.conn.answers| - 1))
    && (s.app.Some? ==> s.inbox != [] || s.conn.current.Some? || s.completed == 1)
  }

  // TCP has been given the accepted prefixes one after the other, and nothing else; a write that
  // returned success reported how much of its data that was, all of it when it could block, and one
  // that failed reported nothing.
  predicate BytesKept(s: System) {
    && s.conn.stream == Flat(s.conn.answers) +
         (if s.conn.state.StateWrite? && s.conn.current.Some? && s.conn.current.value.op.Write?
             && s.conn.offset <= |s.conn.current.value.op.data|
          then s.conn.current.value.op.data[..s.conn.offset] else [])
    && |s.returned| <= |s.conn.answers|
    && forall i :: 0 <= i < |s.returned| && s.returned[i].op.Write? ==>
         var a := s.conn.answers[i];
         && s.returned[i].op == a.op && a.accepted <= a.op.data
         && (s.returned[i].err == ERR_OK ==>
               s.returned[i].bytes == |a.accepted| && (!a.dontBlock ==> s.returned[i].bytes == |a.op.data|))
         && (s.returned[i].err != ERR_OK ==> s.returned[i].bytes == 0)
  }

  lemma RunsAnswerOnce(ss: seq<System>, ts: seq<Step>)
    requires IsRun(ss, ts)
    ensures OutstandingByState(ss[|ts|].conn) && ExactlyOnce(ss[|ts|])
  {
    hide Conserved, Returned;
    RunKeeps(ss, ts);
    var s := ss[|ts|];
    assert Returned(s);
    ReturnedCount(s);
    NumberedAnswers(s);
  }

  lemma ReturnedCount(s: System)
    requires Returned(s)
    ensures |s.returned| + s.completed == |s.conn.answers|
  {}

  lemma NumberedAnswers(s: System)
    requires Numbered(s)
    ensures forall i :: 0 <= i < |s.conn.answers| ==> s.conn.answers[i].id == i
  {
    forall i | 0 <= i < |s.conn.answers| ensures s.conn.answers[i].id == i {
      assert Ids(s.conn.answers)[i] == s.taken[i];
    }
  }

  lemma RunsKeepBytes(ss: seq<System>, ts: seq<Step>)
    requires IsRun(ss, ts)
    ensures BytesKept(ss[|ts|])
  {
    hide Numbered, Deleted, At;
    RunKeeps(ss, ts);
    var s := ss[|ts|];
    var c := s.conn;
    if c.state.StateWrite? {
      assert c.stream == c.stream[..c.begun] + c.stream[c.begun..];
    }
    forall i | 0 <= i < |s.returned| && s.returned[i].op.Write?
      ensures s.returned[i].op == c.answers[i].op && c.answers[i].accepted <= c.answers[i].op.data
      ensures s.returned[i].err == ERR_OK ==>
        s.returned[i].bytes == |c.answers[i].accepted|
          && (!c.answers[i].dontBlock ==> s.returned[i].bytes == |c.answers[i].op.data|)
      ensures s.returned[i].err != ERR_OK ==> s.returned[i].bytes == 0
    {
      assert s.returned[i] == ReturnOf(c.answers[i]) && Truthful(c.answers[i]);
    }
  }

  // When netconn_delete wakes up to free the connection, TCP holds no pcb of it and nothing is
  // outstanding.
  lemma RunsFreeSafely(ss: seq<System>, ts: seq<Step>)
    requires IsRun(ss, ts)
    ensures !ss[|ts|].live ==> ss[|ts|].conn.pcb.NoPcb? && ss[|ts|].conn.current.None?
    ensures ss[|ts|].app.Some? && ss[|ts|].app.value.op.Delete? && ss[|ts|].completed > 0 ==> ss[|ts|].conn.pcb.NoPcb?
  {
    hide Conserved, Numbered, Returned;
    RunKeeps(ss, ts);
  }

  // The TCP/IP thread takes a request, whatever the stack answers.
  function Taken(s: System, e: Sending, r: Replies): System
    requires Good(s.conn) && s.inbox != [] && Askable(s.conn, s.inbox[0])
  {
    With(s, Handle(s.conn, s.inbox[0], e, r)).(inbox := s.inbox[1..], taken := s.taken + [s.inbox[0].id])
  }

  // In every state in which a delete meets a connect in progress: the delete is answered at once if
  // tcp_close succeeds; if it does not, an error that follows leaves the caller asleep for ever.
  lemma DeleteLosesExactly(s: System, e: Sending, r: Replies, err: int)
    requires Inv(s) && s.inbox != [] && s.inbox[0].op.Delete? && s.conn.state.StateConnect? && IsFatal(err)
    ensures Good(s.conn) && Askable(s.conn, s.inbox[0])
    ensures var t := Taken(s, e, r);
            if r.closeErr == ERR_OK then Inv(t) && t.completed == 1 && t.conn.pcb.NoPcb?
            else
              && t.completed == 0 && !t.conn.pcb.NoPcb? && t.conn.begun <= |t.conn.stream| && t.conn.inConnect
              && var stuck := With(t, Failed(t.conn, err));
                 stuck.app == s.app && stuck.app.Some? && stuck.completed == 0 && stuck.conn.answers == s.conn.answers
                 && forall step: Step :: !Possible(stuck, step)
  {
    hide Conserved, Numbered, Returned;
    assert At(s, Posted) && s.conn.inConnect;
    if r.closeErr == ERR_OK { StepKeeps(s, Take(e, r)); }
  }

  // A run up to a delete posted while a connect that does not block is under way.
  lemma ConnectingRun() returns (ss: seq<System>, ts: seq<Step>)
    ensures IsRun(ss, ts)
    ensures var s := ss[|ts|];
            && s.inbox == [MessageFor(1, Delete)] && s.app == Some(Call(1, Delete, false)) && s.completed == 0
            && s.conn.state.StateConnect? && s.conn.inConnect && s.conn.pcb.Active? && s.conn.current.None?
  {
    hide Handle, Next, Possible, Goes, IsRun;
    var e, r := Sending(0, ERR_OK, 0, 0), Replies(ERR_OK, ERR_OK, ERR_OK, true, ERR_OK);
    var c := Conn(StateNone, Active, ERR_OK, true, false, false, false, None, 0, [], 0, [], []);
    var m := MessageFor(0, Connect);
    var d := c.(state := StateConnect, inConnect := true,
      answers := [Answer(0, Connect, false, ERR_INPROGRESS, 0, [])]);
    ConnectTaken(c, m, e, r, d);
    var s0 := System(c.(nonBlocking := false), None, [], 0, true, [], []);
    var s1 := s0.(conn := c);
    var s2 := s1.(app := Some(Call(0, Connect, false)), inbox := [m]);
    var s3 := s2.(conn := d, inbox := [], completed := 1, taken := [0]);
    var s4 := s3.(app := None, completed := 0, conn := d.(lastErr := ERR_INPROGRESS),
      returned := [Return(0, Connect, ERR_INPROGRESS, 0)]);
    var s5 := s4.(app := Some(Call(1, Delete, false)), inbox := [MessageFor(1, Delete)]);
    ss := [s0, s1, s2, s3, s4, s5];
    ts := [SetNonBlocking(true), Post(Connect), Take(e, r), Wake, Post(Delete)];
    SetGoes(s0, s1);
    PostGoes(s1, Connect, s2);
    TakeGoes(s2, m, e, r, d, s3);
    ConnectReturns(s3, s4);
    PostGoes(s4, Delete, s5);
    RunOf(ss, ts);
  }

  lemma SetGoes(s: System, t: System)
    requires Good(s.conn) && s.live && s.app.None? && s.inbox == [] && t == s.(conn := s.conn.(nonBlocking := true))
    ensures Goes(s, SetNonBlocking(true), t)
  {}

  lemma PostGoes(s: System, op: Op, t: System)
    requires Good(s.conn) && s.live && s.app.None? && s.inbox == [] && !op.Write?
    requires t == s.(app := Some(Call(|s.taken|, op, false)), inbox := [MessageFor(|s.taken|, op)])
    ensures Goes(s, Post(op), t)
  {
    hide Good;
  }

  lemma TakeGoes(s: System, m: Msg, e: Sending, r: Replies, d: Conn, t: System)
    requires Good(s.conn) && s.inbox == [m] && Askable(s.conn, m) && !m.op.Delete? && Handle(s.conn, m, e, r) == d
    requires |d.answers| == |s.conn.answers| + 1 && s.completed == 0 && s.taken == []
    requires t == s.(conn := d, inbox := [], completed := 1, taken := [m.id])
    ensures Goes(s, Take(e, r), t)
  {
    hide Good, Handle;
  }

  predicate Goes(s: System, t: Step, u: System) { Ready(s) && Possible(s, t) && u == Next(s, t) }

  lemma RunOf(ss: seq<System>, ts: seq<Step>)
    requires |ss| == |ts| + 1 && Started(ss[0]) && forall i :: 0 <= i < |ts| ==> Goes(ss[i], ts[i], ss[i + 1])
    ensures IsRun(ss, ts)
  {
    forall i | 0 <= i < |ts| ensures Possible(ss[i], ts[i]) && (Ready(ss[i]) ==> ss[i + 1] == Next(ss[i], ts[i])) {
      assert Goes(ss[i], ts[i], ss[i + 1]);
    }
  }

  lemma ConnectReturns(s: System, t: System)
    requires Possible(s, Wake) && Good(s.conn) && s.inbox == [] && s.returned == []
      && s.app == Some(Call(0, Connect, false))
    requires s.conn.answers == [Answer(0, Connect, false, ERR_INPROGRESS, 0, [])] && s.conn.lastErr == ERR_OK
    requires t == s.(app := None, completed := s.completed - 1, conn := s.conn.(lastErr := ERR_INPROGRESS),
                     returned := [Return(0, Connect, ERR_INPROGRESS, 0)])
    ensures Goes(s, Wake, t)
  {}

  lemma ConnectTaken(c: Conn, m: Msg, e: Sending, r: Replies, d: Conn)
    requires Good(c) && c.state.StateNone? && c.pcb.Active? && c.nonBlocking && c.answers == []
    requires m == MessageFor(0, Connect) && r.connectErr == ERR_OK
    requires d == c.(state := StateConnect, inConnect := true,
                     answers := [Answer(0, Connect, false, ERR_INPROGRESS, 0, [])])
    ensures Askable(c, m) && Handle(c, m, e, r) == d
  {}

  // Were tcp_close to fail on a pcb that is still connecting without blocking, the delete could
  // lose its answer to a following error and its caller would sleep forever.
  lemma LostAnswer() returns (ss: seq<System>, ts: seq<Step>, r: Replies, stuck: System)
    ensures IsRun(ss, ts)
    ensures var s := ss[|ts|];
            && Inv(s) && s.inbox != [] && s.inbox[0].op.Delete? && s.conn.state.StateConnect? && s.conn.inConnect
            && stuck == With(s, Failed(DoDelconn(s.conn, s.inbox[0], r), -10)).(inbox := [],
                 taken := s.taken + [s.inbox[0].id])
            && stuck.app.Some? && stuck.conn.answers == s.conn.answers
    ensures forall t: Step :: !Possible(stuck, t)
  {
    hide Conserved, Numbered, Returned, Deleted, Handle, Polled, Sent, Connected;
    ss, ts := ConnectingRun();
    RunKeeps(ss, ts);
    r := Replies(ERR_MEM, ERR_OK, ERR_OK, true, ERR_OK);
    var s := ss[|ts|];
    stuck := With(s, Failed(DoDelconn(s.conn, s.inbox[0], r), -10)).(inbox := [], taken := s.taken + [s.inbox[0].id]);
  }
}

// What the answers say: which step of a run gives each of them, with which error code, and what
// that tells about the connection.
module NetconnAnswers {
  import opened Wrappers
  import opened NetconnSpec
  import opened NetconnSteps
  import opened NetconnRuns

  // What one attempt to write can be answered with.
  predicate Attempted(a: Answer, e: Sending) {
    if a.dontBlock && e.available == 0 then a.err == ERR_WOULDBLOCK
    else a.err == e.writeErr && (e.writeErr == ERR_MEM ==> a.dontBlock)
  }

  // The answer to a request just taken, from the connection as it was.
  predicate ToldAtOnce(c: Conn, e: Sending, r: Replies, a: Answer) {
    match a.op
    case Write(_, _) =>
      if IsFatal(c.lastErr) then a.err == c.lastErr
      else if !c.state.StateNone? then a.err == ERR_INPROGRESS
      else if c.pcb.NoPcb? then a.err == ERR_CONN
      else Attempted(a, e)
    case Close(how) =>
      if c.state.StateWrite? || c.state.StateClose? || c.state.StateConnect? then a.err == ERR_INPROGRESS
      else if c.pcb.NoPcb? then a.err == ERR_VAL
      else if c.state.StateListen? && how != SHUT_RDWR then a.err == ERR_CONN
      else a.err == ERR_OK == r.closeErr
    case Delete =>
      if c.state.StateWrite? || c.state.StateClose? then a.err == ERR_INPROGRESS
      else a.err == ERR_OK && (c.pcb.NoPcb? || r.closeErr == ERR_OK)
    case Connect =>
      && a.err != ERR_OK
      && (if c.pcb.NoPcb? then a.err == ERR_CLSD
          else if !c.state.StateNone? then a.err == ERR_ISCONN
          else if r.connectErr != ERR_OK then a.err == r.connectErr
          else a.err == ERR_INPROGRESS && c.nonBlocking)
    case Listen =>
      if IsFatal(c.lastErr) then a.err == c.lastErr
      else if c.pcb.NoPcb? || !c.state.StateNone? then a.err == ERR_CONN
      else if !r.listenOk then a.err == ERR_MEM
      else a.err == if c.acceptMbox then ERR_OK else r.mboxErr
    case Bind =>
      a.err == if IsFatal(c.lastErr) then c.lastErr else if c.pcb.NoPcb? then ERR_VAL else r.bindErr
    case Recv => a.err == ERR_OK
  }

  // The answer a callback gives to the outstanding request.
  predicate ToldLater(t: Step, a: Answer) {
    match t
    case PollTcp(e, closeErr, _) =>
      if a.op.Write? then Attempted(a, e) else a.err == ERR_OK == closeErr && (a.op.Close? || a.op.Delete?)
    case SentTcp(e, closeErr, _) =>
      if a.op.Write? then Attempted(a, e) else a.err == ERR_OK == closeErr && (a.op.Close? || a.op.Delete?)
    case ErrTcp(err) => a.err == err
    case ConnectedTcp(err) => a.op.Connect? && a.err == err
    case _ => false
  }

  predicate Told(s: System, t: Step, a: Answer) {
    if t.Take? then s.inbox != [] && a.op == s.inbox[0].op && ToldAtOnce(s.conn, t.sending, t.replies, a)
    else s.conn.current.Some? && a.op == s.conn.current.value.op && ToldLater(t, a)
  }

  // d has answered once more than c.
  predicate More(c: Conn, d: Conn) { |d.answers| == |c.answers| + 1 && d.answers[..|c.answers|] == c.answers }

  predicate NoMore(c: Conn, d: Conn) { d.answers == c.answers }

  function Newest(d: Conn): Answer
    requires d.answers != []
  {
    d.answers[|d.answers| - 1]
  }

  // ---- the handlers ----------------------------------------------------------------------

  lemma FinishTells(c: Conn, m: Msg, err: int)
    requires c.begun <= |c.stream|
    ensures var d := Finish(c, m, err);
            More(c, d) && Newest(d).op == m.op && Newest(d).err == err
            && Newest(d).dontBlock == (m.op.Write? && (c.nonBlocking || m.op.dontBlock))
  {}

  lemma SignalTells(c: Conn, m: Msg, err: int)
    ensures var d := Signal(c, m, err);
            More(c, d) && Newest(d).op == m.op && Newest(d).err == err
  {}

  lemma WriteMoreTells(c: Conn, e: Sending)
    requires Writing(c)
    ensures var d := WriteMore(c, e);
            NoMore(c, d) || (More(c, d) && Newest(d).op == c.current.value.op && Attempted(Newest(d), e))
  {
    hide WriteMarks, Offered, Finish;
    MarksOnly(c, e);
    WriteMoreIs(c, e);
    var t, m := Took(c, e), c.current.value;
    TookIs(c, e);
    FinishTells(t.(offset := 0), m.(len := t.offset), ERR_OK);
    FinishTells(WriteMarks(c, e), m.(len := 0), Outcome(c, e));
  }

  lemma CloseTells(c: Conn, closeErr: int)
    requires Closing(c)
    ensures var d := CloseInternal(c, closeErr);
            NoMore(c, d) || (More(c, d) && Newest(d).op == c.current.value.op && Newest(d).err == ERR_OK == closeErr)
  {
    hide Finish, CloseEvents;
    FinishTells(c, c.current.value, ERR_OK);
  }

  lemma ResumeTells(c: Conn, e: Sending, closeErr: int)
    requires Good(c)
    ensures var d := Resume(c, e, closeErr);
            NoMore(c, d) || (c.current.Some? && More(c, d) && Newest(d).op == c.current.value.op
              && if c.state.StateWrite? then Newest(d).op.Write? && Attempted(Newest(d), e)
                 else (Newest(d).op.Close? || Newest(d).op.Delete?) && Newest(d).err == ERR_OK == closeErr)
  {
    hide WriteMore, CloseInternal, Attempted;
    if c.state.StateWrite? { WriteMoreTells(c, e); } else if c.state.StateClose? { CloseTells(c, closeErr); }
  }

  lemma HandleTells(c: Conn, m: Msg, e: Sending, r: Replies)
    requires Good(c) && Askable(c, m)
    ensures var d := Handle(c, m, e, r);
            NoMore(c, d) || (More(c, d) && Newest(d).op == m.op && ToldAtOnce(c, e, r, Newest(d)))
  {
    hide WriteMore, CloseInternal, Signal;
    match m.op
    case Write(_, _) =>
      var b := c.(state := StateWrite, current := Some(m), offset := 0, begun := |c.stream|);
      if c.state.StateNone? && c.pcb.Active? {
        assert b.stream[b.begun..] == [] == m.op.data[..0];
        WriteMoreTells(b, e);
      }
      SignalTells(c, m, c.lastErr); SignalTells(c, m, ERR_INPROGRESS); SignalTells(c, m, ERR_CONN);
    case Close(how) =>
      CloseHandleTells(c, m, e, r);
    case Delete =>
      DeleteHandleTells(c, m, e, r);
    case Connect =>
      ConnectHandleTells(c, m, e, r);
    case Listen =>
      ListenHandleTells(c, m, e, r);
    case Bind =>
      SignalTells(c, m, if IsFatal(c.lastErr) then c.lastErr else if c.pcb.NoPcb? then ERR_VAL else r.bindErr);
    case Recv =>
      SignalTells(c, m, ERR_OK);
  }

  lemma CloseHandleTells(c: Conn, m: Msg, e: Sending, r: Replies)
    requires Good(c) && Askable(c, m) && m.op.Close?
    ensures var d := DoClose(c, m, r);
            NoMore(c, d) || (More(c, d) && Newest(d).op == m.op && ToldAtOnce(c, e, r, Newest(d)))
  {
    hide CloseInternal, Signal;
    SignalTells(c, m, ERR_INPROGRESS); SignalTells(c, m, ERR_VAL); SignalTells(c, m, ERR_CONN);
    var b := c.(state := StateClose, current := Some(m), acceptMbox := if m.shut.rd then false else c.acceptMbox);
    if !c.pcb.NoPcb? { CloseTells(b, r.closeErr); }
  }

  lemma DeleteHandleTells(c: Conn, m: Msg, e: Sending, r: Replies)
    requires Good(c) && m.op.Delete?
    ensures var d := DoDelconn(c, m, r);
            NoMore(c, d) || (More(c, d) && Newest(d).op == m.op && ToldAtOnce(c, e, r, Newest(d)))
  {
    hide CloseInternal, Signal;
    SignalTells(c, m, ERR_INPROGRESS);
    var b := c.(acceptMbox := false);
    SignalTells(b.(events := b.events + [RcvPlus, SendPlus]), m, ERR_OK);
    if !c.pcb.NoPcb? { CloseTells(b.(state := StateClose, current := Some(m.(shut := SHUT_RDWR))), r.closeErr); }
  }

  lemma ConnectHandleTells(c: Conn, m: Msg, e: Sending, r: Replies)
    requires Good(c) && m.op.Connect?
    ensures var d := DoConnect(c, m, r);
            NoMore(c, d) || (More(c, d) && Newest(d).op == m.op && ToldAtOnce(c, e, r, Newest(d)))
  {
    hide Signal;
    SignalTells(c, m, ERR_CLSD); SignalTells(c, m, ERR_ISCONN); SignalTells(c, m, r.connectErr);
    SignalTells(c.(state := StateConnect, inConnect := true), m, ERR_INPROGRESS);
  }

  lemma ListenHandleTells(c: Conn, m: Msg, e: Sending, r: Replies)
    requires Good(c) && m.op.Listen?
    ensures var d := DoListen(c, m, r);
            NoMore(c, d) || (More(c, d) && Newest(d).op == m.op && ToldAtOnce(c, e, r, Newest(d)))
  {
    hide Signal;
    SignalTells(c, m, c.lastErr); SignalTells(c, m, ERR_CONN); SignalTells(c, m, ERR_MEM);
    SignalTells(c.(state := StateListen, pcb := Listening, acceptMbox := true), m, ERR_OK);
    SignalTells(c.(pcb := NoPcb), m, r.mboxErr);
  }

  lemma StepTells(s: System, t: Step)
    requires Inv(s) && Possible(s, t)
    ensures forall m :: m in s.inbox ==> Askable(s.conn, m)
    ensures var d := Next(s, t).conn;
            NoMore(s.conn, d) || (More(s.conn, d) && Told(s, t, Newest(d)))
  {
    hide Conserved, Numbered, Returned, Handle, Resume, Finish, ToldAtOnce, Attempted;
    StepKeeps(s, t);
    var c := s.conn;
    match t
    case Take(e, r) => HandleTells(c, s.inbox[0], e, r);
    case PollTcp(e, closeErr, after) => ResumeTells(c, e, closeErr);
    case SentTcp(e, closeErr, after) => ResumeTells(c, e, closeErr);
    case ErrTcp(err) => FailedTells(c, err);
    case ConnectedTcp(err) => ConnectedTells(c, err);
    case _ =>
  }

  lemma FailedTells(c: Conn, err: int)
    requires Good(c)
    ensures var d := Failed(c, err);
            NoMore(c, d) || (c.current.Some? && More(c, d) && Newest(d).op == c.current.value.op
              && Newest(d).err == err)
  {
    hide Finish;
    if c.current.Some? {
      FinishTells(c.(pcb := NoPcb, lastErr := err, events := c.events + [ErrorEvent, RcvPlus, SendPlus]),
        c.current.value, err);
    }
  }

  lemma ConnectedTells(c: Conn, err: int)
    requires Good(c) && c.state.StateConnect?
    ensures var d := Connected(c, err);
            NoMore(c, d) || (c.current.Some? && More(c, d) && Newest(d).op == c.current.value.op
              && Newest(d).op.Connect?
              && Newest(d).err == err)
  {
    hide Finish;
    if c.current.Some? { FinishTells(c.(events := c.events + [SendPlus]), c.current.value, err); }
  }

  // ---- every run -------------------------------------------------------------------------

  // Each answer is given by one step, which tells its error code.
  lemma {:induction false} AnswerTold(ss: seq<System>, ts: seq<Step>, k: nat) returns (j: nat)
    requires IsRun(ss, ts) && k < |ss[|ts|].conn.answers|
    ensures j < |ts| && |ss[j].conn.answers| == k && |ss[j + 1].conn.answers| == k + 1
    ensures Told(ss[j], ts[j], ss[|ts|].conn.answers[k])
    decreases |ts|
  {
    hide Next, Inv, Told, Possible;
    StartsUnanswered(ss[0]);
    var n := |ts| - 1;
    var before := ss[n].conn.answers;
    RunKeeps(ss[..n + 1], ts[..n]);
    StepAnswers(ss[n], ts[n], ss[n + 1]);
    if k < |before| {
      j := AnswerTold(ss[..n + 1], ts[..n], k);
      assert ss[n + 1].conn.answers[..|before|][k] == before[k];
    } else {
      j := n;
    }
  }

  lemma StartsUnanswered(s: System)
    ensures Started(s) ==> s.conn.answers == []
  {}

  lemma StepAnswers(s: System, t: Step, u: System)
    requires Inv(s) && Possible(s, t) && (Ready(s) ==> u == Next(s, t))
    ensures Ready(s)
    ensures NoMore(s.conn, u.conn) || (More(s.conn, u.conn) && Told(s, t, Newest(u.conn)))
  {
    hide Next, Told, Numbered, Returned, Conserved, At;
    StepTells(s, t);
  }

  lemma {:induction false} AnswersStay(ss: seq<System>, ts: seq<Step>, i: nat)
    requires IsRun(ss, ts) && i <= |ts|
    ensures ss[i].conn.answers <= ss[|ts|].conn.answers
    decreases |ts| - i
  {
    hide Next, Inv, Told, Possible;
    if i < |ts| {
      AnswersStay(ss, ts, i + 1);
      RunKeeps(ss[..i + 1], ts[..i]);
      StepAnswers(ss[i], ts[i], ss[i + 1]);
    }
  }

  lemma ReturnIs(ss: seq<System>, ts: seq<Step>, k: nat)
    requires IsRun(ss, ts) && k < |ss[|ts|].returned|
    ensures var s := ss[|ts|];
            k < |s.conn.answers| && s.returned[k].op == s.conn.answers[k].op
              && s.returned[k].err == s.conn.answers[k].err
  {
    hide Next, Possible, Conserved, Numbered, Deleted, At;
    RunKeeps(ss, ts);
  }

  // A connect that returned ERR_OK was answered by TCP reporting the connection made.
  lemma ConnectSucceeded(ss: seq<System>, ts: seq<Step>, k: nat) returns (j: nat)
    requires IsRun(ss, ts) && k < |ss[|ts|].returned|
    requires ss[|ts|].returned[k].op.Connect? && ss[|ts|].returned[k].err == ERR_OK
    ensures j < |ts| && ts[j] == ConnectedTcp(ERR_OK) && |ss[j].conn.answers| == k < |ss[j + 1].conn.answers|
  {
    hide Next, Inv;
    ReturnIs(ss, ts, k);
    j := AnswerTold(ss, ts, k);
  }

  // A close or delete that returned ERR_OK was answered when tcp_close had succeeded, or there was
  // no pcb left to close.
  lemma CloseSucceeded(ss: seq<System>, ts: seq<Step>, k: nat) returns (j: nat)
    requires IsRun(ss, ts) && k < |ss[|ts|].returned| && ss[|ts|].returned[k].err == ERR_OK
    requires ss[|ts|].returned[k].op.Close? || ss[|ts|].returned[k].op.Delete?
    ensures j < |ts| && |ss[j].conn.answers| == k < |ss[j + 1].conn.answers|
    ensures match ts[j]
      case Take(_, r) => r.closeErr == ERR_OK || (ss[j].conn.pcb.NoPcb? && ss[|ts|].returned[k].op.Delete?)
      case PollTcp(_, closeErr, _) => closeErr == ERR_OK
      case SentTcp(_, closeErr, _) => closeErr == ERR_OK
      case _ => false
  {
    hide Next, Inv;
    ReturnIs(ss, ts, k);
    j := AnswerTold(ss, ts, k);
  }

  // Whatever an error ends returns that error, which is never ERR_OK.
  lemma ErrorReturned(ss: seq<System>, ts: seq<Step>, j: nat)
    requires IsRun(ss, ts) && j < |ts| && ts[j].ErrTcp?
    ensures IsFatal(ts[j].err)
    ensures var k := |ss[j].conn.answers|;
            |ss[j + 1].conn.answers| > k ==>
              && k < |ss[|ts|].conn.answers| && ss[|ts|].conn.answers[k].err == ts[j].err
              && (k < |ss[|ts|].returned| ==> ss[|ts|].returned[k].err == ts[j].err)
  {
    hide Next, Inv;
    var k := |ss[j].conn.answers|;
    RunKeeps(ss[..j + 1], ts[..j]);
    StepAnswers(ss[j], ts[j], ss[j + 1]);
    AnswersStay(ss, ts, j + 1);
    if |ss[j + 1].conn.answers| > k && k < |ss[|ts|].returned| { ReturnIs(ss, ts, k); }
  }

  // ---- after an error --------------------------------------------------------------------

  lemma ErrorStays(s: System, t: Step, err: int)
    requires Inv(s) && Possible(s, t) && IsFatal(err) && s.conn.pcb.NoPcb? && s.conn.lastErr == err
    ensures forall m :: m in s.inbox ==> Askable(s.conn, m)
    ensures Next(s, t).conn.pcb.NoPcb? && Next(s, t).conn.lastErr == err
  {
    hide Conserved, Numbered, Returned, Signal, WriteMore, CloseInternal;
    StepKeeps(s, t);
    if t.Take? { TakeStays(s.conn, s.inbox[0], t.sending, t.replies); }
  }

  lemma TakeStays(c: Conn, m: Msg, e: Sending, r: Replies)
    requires Good(c) && Askable(c, m) && c.pcb.NoPcb?
    ensures Handle(c, m, e, r).pcb.NoPcb? && Handle(c, m, e, r).lastErr == c.lastErr
  {
    hide WriteMore, CloseInternal;
  }

  lemma {:induction false} ErrorHolds(ss: seq<System>, ts: seq<Step>, j: nat, i: nat)
    requires IsRun(ss, ts) && j < i <= |ts| && ts[j].ErrTcp?
    ensures ss[i].conn.pcb.NoPcb? && ss[i].conn.lastErr == ts[j].err
    decreases i
  {
    hide Inv, Handle, Polled, Sent, Connected;
    RunKeeps(ss[..i], ts[..i - 1]);
    InvReady(ss[i - 1], ts[i - 1]);
    if i > j + 1 {
      ErrorHolds(ss, ts, j, i - 1);
      ErrorStays(ss[i - 1], ts[i - 1], ts[j].err);
    }
  }

  lemma InvReady(s: System, t: Step)
    requires Inv(s) && Possible(s, t)
    ensures Ready(s)
  {
    hide Next, Numbered, Returned, Conserved, At;
    StepKeeps(s, t);
  }

  // After an error every write, listen and bind that is answered gets that error.
  lemma ErrorSticks(ss: seq<System>, ts: seq<Step>, j: nat, k: nat)
    requires IsRun(ss, ts) && j < |ts| && ts[j].ErrTcp?
    requires |ss[j + 1].conn.answers| <= k < |ss[|ts|].conn.answers|
    ensures var a := ss[|ts|].conn.answers[k];
            a.op.Write? || a.op.Listen? || a.op.Bind? ==> a.err == ts[j].err
  {
    hide Next, Inv, Attempted;
    var i := AnswerTold(ss, ts, k);
    if i <= j { AnswersGrow(ss, ts, i + 1, j + 1); }
    ErrorHolds(ss, ts, j, i);
    assert Told(ss[i], ts[i], ss[|ts|].conn.answers[k]);
  }

  lemma AnswersGrow(ss: seq<System>, ts: seq<Step>, i: nat, j: nat)
    requires IsRun(ss, ts) && i <= j <= |ts|
    ensures |ss[i].conn.answers| <= |ss[j].conn.answers|
  {
    hide Next, Possible;
    AnswersStay(ss[..j + 1], ts[..j], i);
  }

  // ---- what the socket layer is told -----------------------------------------------------

  // The events a step adds.
  function Raised(c: Conn, d: Conn): seq<Event> {
    if c.events <= d.events then d.events[|c.events|..] else []
  }

  predicate AnsweredNow(c: Conn, d: Conn, op: Op) { More(c, d) && Newest(d).op == op }

  // Readers are told when the pcb is gone, reading was shut down or a delete was answered, and at no
  // other time; writers when the pcb is gone or writing was shut down; an error when the pcb is gone,
  // and at no other time.
  predicate TellsRight(c: Conn, d: Conn) {
    var es := Raised(c, d);
    && c.events <= d.events && (NoMore(c, d) || More(c, d)) && (d.pcb == c.pcb || d.pcb.NoPcb?)
    && (!c.pcb.NoPcb? && d.pcb.NoPcb? ==> ErrorEvent in es && RcvPlus in es && SendPlus in es)
    && (More(c, d) && Newest(d).err == ERR_OK && Newest(d).op.Close? ==>
          (Newest(d).op.how.rd ==> RcvPlus in es) && (Newest(d).op.how.wr ==> SendPlus in es))
    && (ErrorEvent in es ==> d.pcb.NoPcb? && !c.pcb.NoPcb?)
    && (RcvPlus in es ==>
          (d.pcb.NoPcb? && !c.pcb.NoPcb?)
          || (More(c, d) && Newest(d).err == ERR_OK
              && (Newest(d).op.Delete? || (Newest(d).op.Close? && Newest(d).op.how.rd))))
  }

  lemma NoEvents(es: seq<Event>, fs: seq<Event>)
    ensures es <= es + fs && (es + fs)[|es|..] == fs
  {}

  lemma CloseRaises(c: Conn, closeErr: int)
    requires Closing(c) && c.current.value.shut == ShutOf(c.current.value.op)
    ensures var d, m := CloseInternal(c, closeErr), c.current.value;
            && c.events <= d.events
            && (if closeErr != ERR_OK then d == c
                else
                  && More(c, d) && Newest(d).op == m.op && Newest(d).err == ERR_OK
                  && Raised(c, d) == CloseEvents(m.shut)
                  && d.pcb == if m.shut == SHUT_RDWR then NoPcb else c.pcb)
  {
    hide CloseEvents;
    FinishTells(c, c.current.value, ERR_OK);
    NoEvents(c.events, CloseEvents(c.current.value.shut));
  }

  lemma WriteRaises(c: Conn, e: Sending)
    requires Writing(c)
    ensures var d := WriteMore(c, e);
            && d.pcb == c.pcb && c.events <= d.events && (forall v :: v in Raised(c, d) ==> v == SendMinus)
            && (NoMore(c, d) || (More(c, d) && Newest(d).op.Write?))
  {
    hide Offered, Finish;
    WriteMoreTells(c, e);
    FinishOnly(c, e);
    MarkRaises(c, e);
  }

  lemma MarkRaises(c: Conn, e: Sending)
    requires Writing(c)
    ensures c.events <= WriteMarks(c, e).events && forall v :: v in Raised(c, WriteMarks(c, e)) ==> v == SendMinus
  {
    hide Offered;
    NoEvents(c.events, [SendMinus]);
    NoEvents(c.events, []);
  }

  lemma FinishOnly(c: Conn, e: Sending)
    requires Writing(c)
    ensures WriteMore(c, e).events == WriteMarks(c, e).events && WriteMore(c, e).pcb == c.pcb
  {
    hide WriteMarks, Offered;
    MarksOnly(c, e);
  }

  lemma ClosedRight(c: Conn, closeErr: int)
    requires Closing(c) && c.current.value.shut == ShutOf(c.current.value.op)
    ensures TellsRight(c, CloseInternal(c, closeErr))
  {
    hide CloseInternal, Finish;
    CloseRaises(c, closeErr);
    NoEvents(c.events, []);
  }

  lemma ResumedIsRight(c: Conn, e: Sending, closeErr: int)
    requires Good(c)
    ensures TellsRight(c, Resume(c, e, closeErr))
  {
    hide WriteMore, CloseInternal;
    NoEvents(c.events, []);
    if c.state.StateWrite? { WriteRaises(c, e); } else if c.state.StateClose? { ClosedRight(c, closeErr); }
  }

  lemma RoomRight(c: Conn, d: Conn, after: Sending)
    requires TellsRight(c, d)
    ensures TellsRight(c, NoteRoom(d, after))
  {
    hide Roomy;
    var r := NoteRoom(d, after);
    if r != d {
      assert r.events == d.events + [SendPlus];
      assert Raised(c, r) == Raised(c, d) + [SendPlus];
    }
  }

  lemma PolledRight(c: Conn, e: Sending, closeErr: int, after: Sending)
    requires Good(c)
    ensures TellsRight(c, Polled(c, e, closeErr, after)) && TellsRight(c, Sent(c, e, closeErr, after))
  {
    hide Resume, NoteRoom, TellsRight;
    ResumedIsRight(c, e, closeErr);
    RoomRight(c, Resume(c, e, closeErr), after);
  }

  lemma WriteRight(c: Conn, m: Msg, e: Sending)
    requires Good(c) && Askable(c, m) && m.op.Write?
    ensures TellsRight(c, DoWrite(c, m, e))
  {
    hide WriteMore;
    var d := DoWrite(c, m, e);
    if !IsFatal(c.lastErr) && c.state.StateNone? && c.pcb.Active? {
      var b := c.(state := StateWrite, current := Some(m), offset := 0, begun := |c.stream|);
      assert b.stream[b.begun..] == [] == m.op.data[..0];
      WriteRaises(b, e);
      assert Raised(b, d) == Raised(c, d);
    } else {
      NoEvents(c.events, []);
      assert d.events == c.events && d.pcb == c.pcb && Raised(c, d) == [];
    }
  }

  lemma CloseRight(c: Conn, m: Msg, r: Replies)
    requires Good(c) && Askable(c, m) && m.op.Close?
    ensures TellsRight(c, DoClose(c, m, r))
  {
    hide CloseInternal;
    NoEvents(c.events, []);
    var b := c.(state := StateClose, current := Some(m), acceptMbox := if m.shut.rd then false else c.acceptMbox);
    if !c.pcb.NoPcb? { ClosedRight(b, r.closeErr); }
  }

  lemma DeleteRight(c: Conn, m: Msg, r: Replies)
    requires Good(c) && m.op.Delete?
    ensures TellsRight(c, DoDelconn(c, m, r))
  {
    hide CloseInternal;
    NoEvents(c.events, []);
    NoEvents(c.events, [RcvPlus, SendPlus]);
    var b := c.(acceptMbox := false, state := StateClose, current := Some(m.(shut := SHUT_RDWR)));
    if !c.pcb.NoPcb? { ClosedRight(b, r.closeErr); }
  }

  lemma SilentRight(c: Conn, d: Conn)
    requires d.events == c.events && d.pcb == c.pcb && (NoMore(c, d) || (More(c, d) && !Newest(d).op.Close?))
    ensures TellsRight(c, d)
  {
    NoEvents(c.events, []);
  }

  lemma AtOnceRight(c: Conn, m: Msg, r: Replies)
    ensures m.op.Connect? ==> TellsRight(c, DoConnect(c, m, r))
    ensures m.op.Bind? ==> TellsRight(c, DoBind(c, m, r))
    ensures m.op.Recv? ==> TellsRight(c, Signal(c, m, ERR_OK))
  {
    hide TellsRight;
    if m.op.Connect? { SilentRight(c, DoConnect(c, m, r)); }
    if m.op.Bind? { SilentRight(c, DoBind(c, m, r)); }
    if m.op.Recv? { SilentRight(c, Signal(c, m, ERR_OK)); }
  }

  lemma HandleRight(c: Conn, m: Msg, e: Sending, r: Replies)
    requires Good(c) && Askable(c, m) && !m.op.Listen?
    ensures TellsRight(c, Handle(c, m, e, r))
  {
    hide TellsRight, DoWrite, DoClose, DoDelconn, DoConnect, DoBind, Signal;
    match m.op
    case Write(_, _) => WriteRight(c, m, e);
    case Close(how) => CloseRight(c, m, r);
    case Delete => DeleteRight(c, m, r);
    case _ => AtOnceRight(c, m, r);
  }

  lemma ListenRight(c: Conn, m: Msg, r: Replies)
    requires m.op.Listen?
    ensures DoListen(c, m, r).events == c.events
  {}

  lemma FailedRight(c: Conn, err: int)
    requires Good(c) && !c.pcb.NoPcb? && IsFatal(err)
    ensures TellsRight(c, Failed(c, err))
  {
    hide Finish;
    NoEvents(c.events, [ErrorEvent, RcvPlus, SendPlus]);
    FailedOnly(c, err);
    FailedTells(c, err);
  }

  lemma FailedOnly(c: Conn, err: int)
    requires Good(c)
    ensures Failed(c, err).pcb.NoPcb? && Failed(c, err).events == c.events + [ErrorEvent, RcvPlus, SendPlus]
  {}

  lemma ConnectedRight(c: Conn, err: int)
    requires Good(c) && c.state.StateConnect?
    ensures TellsRight(c, Connected(c, err)) && SendPlus in Raised(c, Connected(c, err))
  {
    hide Finish;
    NoEvents(c.events, [SendPlus]);
    ConnectedOnly(c, err);
    ConnectedTells(c, err);
  }

  lemma ConnectedOnly(c: Conn, err: int)
    requires Good(c) && c.state.StateConnect?
    ensures Connected(c, err).pcb == c.pcb && Connected(c, err).events == c.events + [SendPlus]
  {}

  // Every step of a run tells the socket layer what it should; only a listen that finds no memory for
  // its mailbox drops its pcb without a word.
  lemma StepTellsSockets(s: System, t: Step)
    requires Inv(s) && Possible(s, t)
    ensures forall m :: m in s.inbox ==> Askable(s.conn, m)
    ensures var c, d := s.conn, Next(s, t).conn;
            && (if t.Take? && s.inbox[0].op.Listen? then d.events == c.events else TellsRight(c, d))
            && (t.ConnectedTcp? ==> SendPlus in Raised(c, d))
  {
    hide Conserved, Numbered, Returned, Handle, Polled, Sent, Failed, Connected, TellsRight;
    StepKeeps(s, t);
    var c := s.conn;
    match t
    case Take(e, r) =>
      var m := s.inbox[0];
      if m.op.Listen? { ListenHandled(c, m, e, r); } else { HandleRight(c, m, e, r); }
    case PollTcp(e, closeErr, after) => PolledRight(c, e, closeErr, after);
    case SentTcp(e, closeErr, after) => PolledRight(c, e, closeErr, after);
    case ErrTcp(err) => FailedRight(c, err);
    case ConnectedTcp(err) => ConnectedRight(c, err);
    case _ => QuietRight(c, Next(s, t).conn);
  }

  lemma ListenHandled(c: Conn, m: Msg, e: Sending, r: Replies)
    requires Good(c) && Askable(c, m) && m.op.Listen?
    ensures Handle(c, m, e, r).events == c.events
  {
    ListenRight(c, m, r);
  }

  lemma QuietRight(c: Conn, d: Conn)
    requires d.events == c.events && d.answers == c.answers && d.pcb == c.pcb
    ensures TellsRight(c, d)
  {
    NoEvents(c.events, []);
  }

  // An attempt to write calls the connection unwritable exactly if it was made and left data of a
  // write that may not block, or leaves too little room for a callback to call it writable.
  lemma WriteTellsRoom(c: Conn, e: Sending)
    requires Writing(c)
    ensures var d := WriteMore(c, e);
            && c.events <= d.events
            && Raised(c, d) ==
               if (Refused(c, e) || e.writeErr == ERR_OK || e.writeErr == ERR_MEM)
                  && ((DontBlock(c) && Offered(c, e) < c.current.value.len) || !Roomy(e)) then [SendMinus] else []
  {
    hide Offered, Finish;
    FinishOnly(c, e);
    NoEvents(c.events, [SendMinus]);
    NoEvents(c.events, []);
  }
}

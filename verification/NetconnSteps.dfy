// What every handler and callback keeps, one step at a time.
module NetconnSteps {
  import opened Wrappers
  import opened NetconnSpec

  function Ids(s: seq<Answer>): (r: seq<nat>)
    ensures |r| == |s|
    ensures forall i :: 0 <= i < |s| ==> r[i] == s[i].id
  {
    if s == [] then [] else Ids(s[..|s| - 1]) + [s[|s| - 1].id]
  }

  function Flat(s: seq<Answer>): seq<Byte> {
    if s == [] then [] else Flat(s[..|s| - 1]) + s[|s| - 1].accepted
  }

  // What an answered write may say: TCP took a prefix of the data; success reports its length,
  // and success of a blocking write means the whole of it.
  predicate Truthful(a: Answer) {
    if a.op.Write? then
      && |a.accepted| <= |a.op.data| && a.accepted == a.op.data[..|a.accepted|]
      && (a.err == ERR_OK ==> a.len == |a.accepted|)
      && (a.err == ERR_OK && !a.dontBlock ==> a.accepted == a.op.data)
    else a.accepted == []
  }

  // Every byte TCP took belongs to one answered request or to the running write.
  predicate Conserved(c: Conn) {
    && c.begun <= |c.stream|
    && Flat(c.answers) == (if c.state.StateWrite? then c.stream[..c.begun] else c.stream)
    && (forall a :: a in c.answers ==> Truthful(a))
  }

  predicate Sound(c: Conn) { Good(c) && Conserved(c) }

  predicate DontBlockFor(c: Conn, op: Op) { op.Write? && (c.nonBlocking || op.dontBlock) }

  // d answers exactly the request m on top of what c had answered.
  predicate Answers(c: Conn, d: Conn, m: Msg) {
    && |d.answers| == |c.answers| + 1 && d.answers[..|c.answers|] == c.answers
    && var a := d.answers[|c.answers|];
       a.id == m.id && a.op == m.op && a.dontBlock == DontBlockFor(c, m.op)
  }

  // A request taken is answered at once, leaving whatever was outstanding, or becomes the
  // outstanding one.
  predicate Accepted(c: Conn, d: Conn, m: Msg) {
    && d.nonBlocking == c.nonBlocking
    && if d.answers == c.answers then
         c.current.None? && d.current.Some? && d.current.value.id == m.id && d.current.value.op == m.op
       else Answers(c, d, m) && d.current == c.current
  }

  // A callback leaves the outstanding request outstanding, or answers it.
  predicate Continued(c: Conn, d: Conn) {
    && d.nonBlocking == c.nonBlocking
    && if d.answers == c.answers then d.current == c.current
       else c.current.Some? && d.current.None? && Answers(c, d, c.current.value)
  }

  lemma Appended(s: seq<Answer>, a: Answer)
    ensures (s + [a])[..|s|] == s && Flat(s + [a]) == Flat(s) + a.accepted
    ensures Ids(s + [a]) == Ids(s) + [a.id]
  {
    assert (s + [a])[..|s|] == s;
  }

  lemma SignalKeeps(c: Conn, m: Msg, err: int)
    requires Sound(c) && (m.op.Write? ==> err != ERR_OK)
    ensures Sound(Signal(c, m, err)) && Answers(c, Signal(c, m, err), m)
  {
    Appended(c.answers, Signal(c, m, err).answers[|c.answers|]);
    assert Truthful(Signal(c, m, err).answers[|c.answers|]);
  }

  // A write that ends: the answer carries the bytes taken so far.
  lemma WriteEnds(c: Conn, d: Conn, m: Msg, err: int, stale: nat)
    requires c.state.StateWrite? && c.current == Some(m) && m.op.Write? && c.begun <= |c.stream|
    requires forall a :: a in c.answers ==> Truthful(a)
    requires Flat(c.answers) == c.stream[..c.begun] && !c.pcb.Listening? && !c.inConnect
    requires var taken := c.stream[c.begun..];
             |taken| <= |m.op.data| && taken == m.op.data[..|taken|]
    requires err == ERR_OK ==>
      stale == |c.stream| - c.begun && (c.nonBlocking || m.op.dontBlock || c.stream[c.begun..] == m.op.data)
    requires d == Finish(c, m.(len := stale), err)
    ensures Sound(d) && Answers(c, d, m)
  {
    Appended(c.answers, d.answers[|c.answers|]);
    assert c.stream == c.stream[..c.begun] + c.stream[c.begun..];
    assert d.answers == c.answers + [d.answers[|c.answers|]];
    assert Truthful(d.answers[|c.answers|]);
  }

  // The state in which the bytes of this attempt are counted.
  function Took(c: Conn, e: Sending): Conn
    requires Writing(c)
  {
    var upTo := c.offset + Offered(c, e);
    WriteMarks(c, e).(stream := c.stream + c.current.value.op.data[c.offset..upTo], offset := upTo)
  }

  lemma TookIs(c: Conn, e: Sending)
    requires Writing(c)
    ensures var upTo := c.offset + Offered(c, e);
            var d := Took(c, e);
            && c.begun <= |d.stream| && d.stream[..c.begun] == c.stream[..c.begun]
            && d.stream[c.begun..] == c.current.value.op.data[..upTo] && upTo <= |c.current.value.op.data|
            && d == c.(stream := d.stream, offset := upTo, events := d.events, checkSpace := d.checkSpace)
  {
    hide WriteMarks;
    MarksOnly(c, e);
    var data, upTo := c.current.value.op.data, c.offset + Offered(c, e);
    assert data[..c.offset] + data[c.offset..upTo] == data[..upTo];
    assert (c.stream + data[c.offset..upTo])[c.begun..] == c.stream[c.begun..] + data[c.offset..upTo];
  }

  lemma AnsweredAtOnce(c: Conn, m: Msg, err: int)
    requires Sound(c) && !m.op.Write?
    ensures Sound(Signal(c, m, err)) && Accepted(c, Signal(c, m, err), m)
  {
    hide Flat, Truthful;
    SignalKeeps(c, m, err);
  }

  // One attempt to write, from a running write.
  lemma WriteMoreKeeps(c: Conn, e: Sending)
    requires Sound(c) && c.state.StateWrite?
    ensures Sound(WriteMore(c, e)) && Continued(c, WriteMore(c, e))
  {
    hide WriteMarks, Flat, Truthful, Offered, Took, Conserved, Answers;
    var m := c.current.value;
    var upTo := c.offset + Offered(c, e);
    TookIs(c, e);
    MarksOnly(c, e);
    WriteMoreIs(c, e);
    if Outcome(c, e) == ERR_OK {
      if upTo == m.len || DontBlock(c) { TookEnds(c, e); } else { TookKeeps(c, e); }
    } else if Outcome(c, e) == ERR_MEM && !DontBlock(c) {
      SameConserved(c, WriteMarks(c, e));
    } else {
      MarksEnd(c, e);
    }
  }

  lemma WriteMoreIs(c: Conn, e: Sending)
    requires Writing(c)
    ensures var m, t := c.current.value, Took(c, e);
            && t.begun <= |t.stream| && WriteMarks(c, e).begun <= |WriteMarks(c, e).stream|
            && WriteMore(c, e) ==
               if Outcome(c, e) == ERR_OK then
                 if t.offset == m.len || DontBlock(c) then Finish(t.(offset := 0), m.(len := t.offset), ERR_OK) else t
               else if Outcome(c, e) == ERR_MEM && !DontBlock(c) then WriteMarks(c, e)
               else Finish(WriteMarks(c, e), m.(len := 0), Outcome(c, e))
  {
    hide WriteMarks, Offered;
    MarksOnly(c, e);
  }

  lemma SameConserved(c: Conn, d: Conn)
    requires Conserved(c) && d == c.(events := d.events, checkSpace := d.checkSpace)
    ensures Conserved(d)
  {}

  lemma TookKeeps(c: Conn, e: Sending)
    requires Conserved(c) && Writing(c)
    ensures Conserved(Took(c, e))
  {
    hide WriteMarks, Offered;
    TookIs(c, e);
  }

  lemma TookEnds(c: Conn, e: Sending)
    requires Sound(c) && c.state.StateWrite? && (Took(c, e).offset == c.current.value.len || DontBlock(c))
    ensures var t := Took(c, e);
            && t.begun <= |t.stream|
            && var d := Finish(t.(offset := 0), c.current.value.(len := t.offset), ERR_OK);
               Sound(d) && Answers(c, d, c.current.value)
  {
    hide WriteMarks, Offered, Flat, Truthful, Took;
    TookIs(c, e);
    var t, m := Took(c, e), c.current.value;
    if t.offset == m.len { assert m.op.data[..t.offset] == m.op.data; }
    WriteEnds(t.(offset := 0), Finish(t.(offset := 0), m.(len := t.offset), ERR_OK), m, ERR_OK, t.offset);
  }

  lemma MarksEnd(c: Conn, e: Sending)
    requires Sound(c) && c.state.StateWrite? && Outcome(c, e) != ERR_OK
    ensures var w := WriteMarks(c, e);
            && w.begun <= |w.stream|
            && var d := Finish(w, c.current.value.(len := 0), Outcome(c, e));
               Sound(d) && Answers(c, d, c.current.value)
  {
    hide WriteMarks, Offered, Flat, Truthful;
    MarksOnly(c, e);
    var w, m := WriteMarks(c, e), c.current.value;
    WriteEnds(w, Finish(w, m.(len := 0), Outcome(c, e)), m, Outcome(c, e), 0);
  }

  lemma MarksOnly(c: Conn, e: Sending)
    requires Writing(c)
    ensures var d := WriteMarks(c, e);
            d == c.(events := d.events, checkSpace := d.checkSpace)
  {}

  lemma FinishKeeps(c: Conn, err: int, len: nat, d: Conn)
    requires Sound(c) && c.current.Some? && (c.state.StateWrite? ==> err != ERR_OK)
    requires d == Finish(c, c.current.value.(len := len), err).(pcb := d.pcb, events := d.events,
      lastErr := d.lastErr, inConnect := d.inConnect)
    requires !d.pcb.Listening? && (d.inConnect ==> d.pcb.NoPcb?)
    ensures Sound(d) && Continued(c, d)
  {
    hide Flat, Truthful;
    var a := d.answers[|c.answers|];
    FinishTruthful(c, err, len, a);
    FinishConserves(c, d, a);
  }

  lemma FinishConserves(c: Conn, d: Conn, a: Answer)
    requires Conserved(c) && Truthful(a) && d.answers == c.answers + [a] && d.stream == c.stream && d.begun == c.begun
    requires !d.state.StateWrite? && a.accepted == if c.state.StateWrite? then c.stream[c.begun..] else []
    ensures Conserved(d)
  {
    hide Flat, Truthful;
    Appended(c.answers, a);
    assert c.stream == c.stream[..c.begun] + c.stream[c.begun..];
  }

  lemma FinishTruthful(c: Conn, err: int, len: nat, a: Answer)
    requires c.current.Some? && c.begun <= |c.stream| && (c.state.StateWrite? ==> Writing(c) && err != ERR_OK)
    requires !c.state.StateWrite? ==> !c.current.value.op.Write?
    requires Finish(c, c.current.value.(len := len), err).answers == c.answers + [a]
    ensures Truthful(a)
  {
    assert a == Finish(c, c.current.value.(len := len), err).answers[|c.answers|];
  }

  lemma CloseInternalKeeps(c: Conn, closeErr: int)
    requires Sound(c) && c.state.StateClose?
    requires c.pcb.Listening? ==> c.current.value.shut == SHUT_RDWR
    ensures Sound(CloseInternal(c, closeErr)) && Continued(c, CloseInternal(c, closeErr))
  {
    if closeErr == ERR_OK {
      FinishKeeps(c, ERR_OK, c.current.value.len, CloseInternal(c, closeErr));
    }
  }

  lemma DoWriteKeeps(c: Conn, m: Msg, e: Sending)
    requires Sound(c) && Askable(c, m) && m.op.Write?
    ensures Sound(DoWrite(c, m, e)) && Accepted(c, DoWrite(c, m, e), m)
  {
    hide WriteMore, Flat, Truthful;
    if IsFatal(c.lastErr) {
      SignalKeeps(c, m, c.lastErr);
    } else if !c.state.StateNone? {
      SignalKeeps(c, m, ERR_INPROGRESS);
    } else if c.pcb.NoPcb? {
      SignalKeeps(c, m, ERR_CONN);
    } else {
      var w := c.(state := StateWrite, current := Some(m), offset := 0, begun := |c.stream|);
      assert c.stream[..|c.stream|] == c.stream && c.stream[|c.stream|..] == [] == m.op.data[..0];
      WriteMoreKeeps(w, e);
    }
  }

  lemma DoCloseKeeps(c: Conn, m: Msg, r: Replies)
    requires Sound(c) && Askable(c, m) && m.op.Close?
    ensures Sound(DoClose(c, m, r)) && Accepted(c, DoClose(c, m, r), m)
  {
    hide CloseInternal, Flat, Truthful;
    if !c.state.StateNone? && !c.state.StateListen? {
      SignalKeeps(c, m, ERR_INPROGRESS);
    } else if c.pcb.NoPcb? {
      SignalKeeps(c, m, ERR_VAL);
    } else if m.shut != SHUT_RDWR && c.state.StateListen? {
      SignalKeeps(c, m, ERR_CONN);
    } else {
      CloseInternalKeeps(c.(state := StateClose, current := Some(m),
        acceptMbox := if m.shut.rd then false else c.acceptMbox), r.closeErr);
    }
  }

  // Deleting keeps every request, the new one and any outstanding one, unless a connect is in
  // progress that is blocking or whose pcb does not close at once.
  predicate DeleteFits(c: Conn, r: Replies) {
    c.state.StateConnect? ==> c.inConnect && r.closeErr == ERR_OK
  }

  lemma DeleteExact(c: Conn, m: Msg, r: Replies)
    requires Sound(c) && m.op.Delete?
    ensures Sound(DoDelconn(c, m, r)) && Accepted(c, DoDelconn(c, m, r), m) <==> DeleteFits(c, r)
  {
    hide Flat, Truthful;
    var d := DoDelconn(c, m, r);
    if c.state.StateWrite? || c.state.StateClose? {
      SignalKeeps(c, m, ERR_INPROGRESS);
    } else if c.pcb.NoPcb? {
      SignalKeeps(c.(acceptMbox := false, events := c.events + [RcvPlus, SendPlus]), m, ERR_OK);
    } else if DeleteFits(c, r) {
      var w := c.(acceptMbox := false, state := StateClose, current := Some(m.(shut := SHUT_RDWR)));
      if r.closeErr == ERR_OK {
        FinishKeeps(w.(inConnect := false), ERR_OK, m.len, CloseInternal(w, ERR_OK).(inConnect := false));
      }
    }
  }

  lemma DoConnectKeeps(c: Conn, m: Msg, r: Replies)
    requires Sound(c) && m.op.Connect?
    ensures Sound(DoConnect(c, m, r)) && Accepted(c, DoConnect(c, m, r), m)
  {
    hide Flat, Truthful;
    if c.pcb.NoPcb? {
      SignalKeeps(c, m, ERR_CLSD);
    } else if !c.state.StateNone? {
      SignalKeeps(c, m, ERR_ISCONN);
    } else if r.connectErr != ERR_OK {
      SignalKeeps(c, m, r.connectErr);
    } else if c.nonBlocking {
      SignalKeeps(c.(state := StateConnect, inConnect := true), m, ERR_INPROGRESS);
    }
  }

  lemma DoListenKeeps(c: Conn, m: Msg, r: Replies)
    requires Sound(c) && m.op.Listen?
    ensures Sound(DoListen(c, m, r)) && Accepted(c, DoListen(c, m, r), m)
  {
    hide Flat, Truthful;
    if IsFatal(c.lastErr) {
      SignalKeeps(c, m, c.lastErr);
    } else if c.pcb.NoPcb? || !c.state.StateNone? {
      SignalKeeps(c, m, ERR_CONN);
    } else if !r.listenOk {
      SignalKeeps(c, m, ERR_MEM);
    } else if c.acceptMbox || r.mboxErr == ERR_OK {
      SignalKeeps(c.(state := StateListen, pcb := Listening, acceptMbox := true), m, ERR_OK);
    } else {
      SignalKeeps(c.(pcb := NoPcb), m, r.mboxErr);
    }
  }

  // Every request handler, from any state between two steps.
  lemma HandleExact(c: Conn, m: Msg, e: Sending, r: Replies)
    requires Sound(c) && Askable(c, m)
    ensures Sound(Handle(c, m, e, r)) && Accepted(c, Handle(c, m, e, r), m) <==> (m.op.Delete? ==> DeleteFits(c, r))
  {
    hide DoWrite, DoClose, DoDelconn, DoConnect, DoListen, Sound, DeleteFits, Signal;
    match m.op
    case Write(_, _) => DoWriteKeeps(c, m, e);
    case Close(_) => DoCloseKeeps(c, m, r);
    case Delete => DeleteExact(c, m, r);
    case Connect => DoConnectKeeps(c, m, r);
    case Listen => DoListenKeeps(c, m, r);
    case Bind => AnsweredAtOnce(c, m, if IsFatal(c.lastErr) then c.lastErr else if c.pcb.NoPcb? then ERR_VAL
      else r.bindErr);
    case Recv => AnsweredAtOnce(c, m, ERR_OK);
  }

  // ---- the callbacks ---------------------------------------------------------------------

  lemma ResumeKeeps(c: Conn, e: Sending, closeErr: int)
    requires Sound(c)
    ensures Sound(Resume(c, e, closeErr)) && Continued(c, Resume(c, e, closeErr))
  {
    hide WriteMore, CloseInternal, Conserved, Continued;
    if c.state.StateWrite? {
      WriteMoreKeeps(c, e);
    } else if c.state.StateClose? {
      CloseInternalKeeps(c, closeErr);
    } else {
      Idle(c);
    }
  }

  lemma Idle(c: Conn)
    ensures Continued(c, c)
  {}

  lemma PolledKeeps(c: Conn, e: Sending, closeErr: int, after: Sending)
    requires Sound(c)
    ensures Sound(Polled(c, e, closeErr, after)) && Continued(c, Polled(c, e, closeErr, after))
  {
    hide Resume;
    ResumeKeeps(c, e, closeErr);
  }

  lemma SentKeeps(c: Conn, e: Sending, closeErr: int, after: Sending)
    requires Sound(c)
    ensures Sound(Sent(c, e, closeErr, after)) && Continued(c, Sent(c, e, closeErr, after))
  {
    hide Resume;
    ResumeKeeps(c, e, closeErr);
  }

  // The error callback frees whoever waits, whatever for, and tells him the error.
  lemma FailedKeeps(c: Conn, err: int)
    requires Sound(c) && IsFatal(err)
    ensures Sound(Failed(c, err)) && Continued(c, Failed(c, err)) && Failed(c, err).current.None?
    ensures c.current.Some? ==> |Failed(c, err).answers| > |c.answers| && Failed(c, err).answers[|c.answers|].err == err
  {
    hide Flat, Truthful;
    if c.current.Some? {
      FinishKeeps(c, err, c.current.value.len, Failed(c, err));
    }
  }

  lemma ConnectedKeeps(c: Conn, err: int)
    requires Sound(c) && c.state.StateConnect?
    ensures Sound(Connected(c, err)) && Continued(c, Connected(c, err)) && Connected(c, err).current.None?
    ensures c.current.Some? ==>
      |Connected(c, err).answers| > |c.answers| && Connected(c, err).answers[|c.answers|].err == err
  {
    hide Flat, Truthful;
    if c.current.Some? {
      FinishKeeps(c, err, c.current.value.len, Connected(c, err));
    }
  }

  // ---- how a write ends ------------------------------------------------------------------

  // write_offset is 0 again after a write exactly when it did not end in an error after TCP had
  // taken some of its data.
  lemma OffsetReset(c: Conn, e: Sending)
    requires Writing(c) && WriteMore(c, e).current.None?
    ensures WriteMore(c, e).offset == 0 <==> c.offset == 0 || Outcome(c, e) == ERR_OK
  {
    hide WriteMarks;
    MarksOnly(c, e);
  }

  lemma StaleOffset() returns (c: Conn, e: Sending)
    ensures Sound(c) && c.state.StateWrite? && !DontBlock(c)
    ensures WriteMore(c, e).state.StateNone? && !WriteMore(c, e).pcb.NoPcb? && WriteMore(c, e).offset != 0
  {
    var m := Msg(0, Write("ab", false), SHUT_RDWR, 2);
    c := Conn(StateWrite, Active, 0, false, false, false, false, Some(m), 1, "a", 0, [], []);
    e := Sending(1, ERR_CONN, 0, 0);
    assert Flat([]) == [];
    assert c.stream[0..] == "a" == "ab"[..1];
  }

  // With memory and room at every attempt a write ends, after at most as many attempts as
  // bytes were left.
  function Attempts(c: Conn, es: seq<Sending>): Conn
    requires Good(c)
    decreases |es|
  {
    if es == [] || !c.state.StateWrite? then c
    else if Good(WriteMore(c, es[0])) then Attempts(WriteMore(c, es[0]), es[1..])
    else c
  }

  lemma {:induction false} WriteFinishes(c: Conn, es: seq<Sending>)
    requires Sound(c) && c.state.StateWrite? && |es| >= c.current.value.len - c.offset
    requires forall e :: e in es ==> e.available > 0 && e.writeErr == ERR_OK
    ensures Attempts(c, es).current.None?
    ensures |Attempts(c, es).answers| == |c.answers| + 1 && Attempts(c, es).answers[|c.answers|].err == ERR_OK
    decreases |es|
  {
    hide Conserved;
    var d := WriteMore(c, es[0]);
    WriteMoreKeeps(c, es[0]);
    if d.state.StateWrite? {
      assert d.offset > c.offset;
      WriteFinishes(d, es[1..]);
    } else {
      assert Attempts(d, es[1..]) == d;
    }
  }

  // ---- what select is told ---------------------------------------------------------------

  predicate CutShort(c: Conn, e: Sending)
    requires Writing(c)
  {
    && DontBlock(c) && Offered(c, e) < c.current.value.len
    && (Outcome(c, e) == ERR_OK || Outcome(c, e) == ERR_MEM || Refused(c, e))
  }

  lemma CutShortIsTold(c: Conn, e: Sending)
    requires Writing(c) && CutShort(c, e)
    ensures var d := WriteMore(c, e);
            d.checkSpace && d.events == c.events + [SendMinus] && d.state.StateNone? && d.pcb.Active?
  {
    hide LowWater;
  }

  // The callbacks that follow, each with what the stack says of its send buffer.
  datatype Calling = Poll(after: Sending) | SentTo(after: Sending)

  function Callback(c: Conn, k: Calling): Conn
    requires Good(c) && c.state.StateNone?
  {
    if k.Poll? then Polled(c, k.after, ERR_OK, k.after) else Sent(c, k.after, ERR_OK, k.after)
  }

  lemma CallbackAtRest(c: Conn, k: Calling)
    requires Good(c) && c.state.StateNone? && c.pcb.Active?
    ensures var d := Callback(c, k);
            && Good(d) && d.state.StateNone? && d.pcb.Active?
            && (if Roomy(k.after) && (k.SentTo? || c.checkSpace) then d.events == c.events + [SendPlus] && !d.checkSpace
                else d == c)
  {
    hide Roomy;
  }

  function Callbacks(c: Conn, ks: seq<Calling>): (d: Conn)
    requires Good(c) && c.state.StateNone? && c.pcb.Active?
    ensures Good(d) && d.state.StateNone? && d.pcb.Active?
    decreases |ks|
  {
    if ks == [] then c
    else
      var d := Callbacks(c, ks[..|ks| - 1]);
      CallbackAtRest(d, ks[|ks| - 1]);
      Callback(d, ks[|ks| - 1])
  }

  predicate AnyRoom(ks: seq<Calling>) { exists i :: 0 <= i < |ks| && Roomy(ks[i].after) }

  // A write that may not block and leaves data behind says so.  Over any poll and sent callbacks
  // after it the connection is called writable again if and only if one of them found room, at
  // the first that did, and looking for room stops there.
  lemma {:induction false} WriterIsTold(c: Conn, e: Sending, ks: seq<Calling>)
    requires Sound(c) && Writing(c) && CutShort(c, e)
    ensures Good(WriteMore(c, e)) && WriteMore(c, e).state.StateNone? && WriteMore(c, e).pcb.Active?
    ensures var d := Callbacks(WriteMore(c, e), ks);
            && (AnyRoom(ks) <==> !d.checkSpace)
            && (if AnyRoom(ks) then c.events + [SendMinus] + [SendPlus] <= d.events
                else d.events == c.events + [SendMinus])
    decreases |ks|
  {
    hide Roomy, WriteMore, Callback, CutShort, AnyRoom;
    WriteMoreKeeps(c, e);
    CutShortIsTold(c, e);
    AnyRoomStep(ks);
    if ks != [] {
      var n := |ks| - 1;
      WriterIsTold(c, e, ks[..n]);
      CallbackAtRest(Callbacks(WriteMore(c, e), ks[..n]), ks[n]);
    }
  }

  lemma AnyRoomStep(ks: seq<Calling>)
    ensures AnyRoom(ks) <==> ks != [] && (AnyRoom(ks[..|ks| - 1]) || Roomy(ks[|ks| - 1].after))
  {
    hide Roomy;
    if AnyRoom(ks) {
      var n := |ks| - 1;
      var i :| 0 <= i < |ks| && Roomy(ks[i].after);
      if i < n { assert Roomy(ks[..n][i].after); }
    }
  }
}

// When a request ends and what it leaves: which steps answer it and which let it wait, how much of a
// write an attempt passes on, and the state of the connection behind each answer.
module NetconnEnds {
  import opened Wrappers
  import opened NetconnSpec
  import opened NetconnSteps
  import opened NetconnRuns
  import opened NetconnAnswers

  // ---- one attempt to write --------------------------------------------------------------

  // Of what is left to write an attempt passes on as much as 16 bits and TCP have room for, unless
  // TCP reports an error.
  predicate PassesOn(e: Sending, left: nat, n: nat) {
    if e.writeErr != ERR_OK then n == 0
    else n <= left && n <= 0xffff && n <= e.available && (n == left || n == 0xffff || n == e.available)
  }

  // A write that may block waits if there was no memory, or not room for all of it.
  predicate WriteWaits(e: Sending, left: nat, dontBlock: bool) {
    !dontBlock && (e.writeErr == ERR_MEM || (e.writeErr == ERR_OK && (left > 0xffff || left > e.available)))
  }

  predicate Attempt(c: Conn, d: Conn, e: Sending, n: nat)
    requires Writing(c)
  {
    var m := c.current.value;
    && (if Refused(c, e) then n == 0 else PassesOn(e, |m.op.data| - c.offset, n))
    && c.offset + n <= |m.op.data| && d.stream == c.stream + m.op.data[c.offset..c.offset + n]
    && d.pcb == c.pcb && d.lastErr == c.lastErr && d.acceptMbox == c.acceptMbox && d.inConnect == c.inConnect
    && if WriteWaits(e, |m.op.data| - c.offset, DontBlock(c)) then
         NoMore(c, d) && d.current == c.current && d.state.StateWrite? && d.offset == c.offset + n
       else More(c, d) && d.current.None? && d.state.StateNone?
  }

  lemma AttemptEnds(c: Conn, e: Sending) returns (n: nat)
    requires Writing(c)
    ensures Attempt(c, WriteMore(c, e), e, n)
  {
    hide WriteMarks, Finish;
    MarksOnly(c, e);
    n := if Outcome(c, e) == ERR_OK then Offered(c, e) else 0;
    var w, m := WriteMarks(c, e), c.current.value;
    if Outcome(c, e) == ERR_OK {
      var t := w.(stream := c.stream + m.op.data[c.offset..c.offset + n], offset := c.offset + n);
      FinishLeaves(t.(offset := 0), m.(len := c.offset + n), ERR_OK);
    } else {
      assert c.stream + m.op.data[c.offset..c.offset] == c.stream;
      FinishLeaves(w, m.(len := 0), Outcome(c, e));
    }
  }

  lemma FinishLeaves(c: Conn, m: Msg, err: int)
    requires c.begun <= |c.stream|
    ensures var d := Finish(c, m, err);
            d == c.(current := None, state := StateNone, answers := d.answers) && More(c, d)
  {}

  // ---- requests as they are taken --------------------------------------------------------

  predicate Untouched(c: Conn, d: Conn) { d == c.(answers := d.answers) }

  // The request waits: it could be started, and did not end at once.
  predicate TakeWaits(c: Conn, op: Op, e: Sending, r: Replies) {
    match op
    case Write(data, dontBlock) =>
      && !IsFatal(c.lastErr) && c.state.StateNone? && !c.pcb.NoPcb?
      && WriteWaits(e, |data|, c.nonBlocking || dontBlock)
    case Close(how) =>
      && (c.state.StateNone? || (c.state.StateListen? && how == SHUT_RDWR)) && !c.pcb.NoPcb? && r.closeErr != ERR_OK
    case Delete =>
      && (c.state.StateNone? || c.state.StateListen? || c.state.StateConnect?) && !c.pcb.NoPcb? && r.closeErr != ERR_OK
    case Connect => !c.pcb.NoPcb? && c.state.StateNone? && r.connectErr == ERR_OK && !c.nonBlocking
    case _ => false
  }

  // What a request taken leaves of the connection.
  predicate TakeLeaves(c: Conn, d: Conn, op: Op, e: Sending, r: Replies) {
    && d.lastErr == c.lastErr
    && match op
       case Write(data, _) =>
         if IsFatal(c.lastErr) || !c.state.StateNone? || c.pcb.NoPcb? then Untouched(c, d)
         else
           && d.pcb == c.pcb && c.stream <= d.stream
           && (if (c.nonBlocking || op.dontBlock) && e.available == 0 then d.stream == c.stream
               else PassesOn(e, |data|, |d.stream| - |c.stream|))
           && d.stream[|c.stream|..] <= data
           && (if TakeWaits(c, op, e, r) then d.state.StateWrite? else d.state.StateNone?)
       case Close(how) =>
         if (c.state.StateNone? || (c.state.StateListen? && how == SHUT_RDWR)) && !c.pcb.NoPcb? then
           && d.acceptMbox == (c.acceptMbox && !how.rd) && d.stream == c.stream
           && (if r.closeErr != ERR_OK then d.state.StateClose? && d.pcb == c.pcb
               else d.state.StateNone? && d.pcb == if how == SHUT_RDWR then NoPcb else c.pcb)
         else Untouched(c, d)
       case Delete =>
         if c.state.StateWrite? || c.state.StateClose? then Untouched(c, d)
         else
           && !d.acceptMbox && d.stream == c.stream
           && (if TakeWaits(c, op, e, r) then d.state.StateClose? && d.pcb == c.pcb else d.pcb.NoPcb?)
       case Connect =>
         if !c.pcb.NoPcb? && c.state.StateNone? && r.connectErr == ERR_OK then
           && d == c.(state := StateConnect, inConnect := c.nonBlocking, current := d.current, answers := d.answers)
         else Untouched(c, d)
       case Listen =>
         if IsFatal(c.lastErr) || c.pcb.NoPcb? || !c.state.StateNone? || !r.listenOk then Untouched(c, d)
         else if c.acceptMbox || r.mboxErr == ERR_OK then
           Untouched(c.(state := StateListen, pcb := Listening, acceptMbox := true), d)
         else Untouched(c.(pcb := NoPcb), d)
       case _ => Untouched(c, d)
  }

  predicate Begins(c: Conn, d: Conn, m: Msg) {
    NoMore(c, d) && d.current.Some? && d.current.value.op == m.op && d.current.value.id == m.id
  }

  lemma TakeEnds(c: Conn, m: Msg, e: Sending, r: Replies)
    requires Good(c) && Askable(c, m)
    ensures var d := Handle(c, m, e, r);
            && (if TakeWaits(c, m.op, e, r) then Begins(c, d, m) else More(c, d))
            && TakeLeaves(c, d, m.op, e, r)
  {
    hide WriteMore, CloseInternal, TakeWaits, TakeLeaves;
    match m.op
    case Write(_, _) => WriteTaken(c, m, e, r);
    case Close(_) => CloseTaken(c, m, e, r);
    case Delete => DeleteTaken(c, m, e, r);
    case _ => OtherTaken(c, m, e, r);
  }

  lemma WriteTaken(c: Conn, m: Msg, e: Sending, r: Replies)
    requires Good(c) && Askable(c, m) && m.op.Write?
    ensures var d := DoWrite(c, m, e);
            && (if TakeWaits(c, m.op, e, r) then Begins(c, d, m) else More(c, d))
            && TakeLeaves(c, d, m.op, e, r)
  {
    hide WriteMore;
    if !IsFatal(c.lastErr) && c.state.StateNone? && !c.pcb.NoPcb? {
      var b := c.(state := StateWrite, current := Some(m), offset := 0, begun := |c.stream|);
      assert b.stream[b.begun..] == [] == m.op.data[..0];
      var n := AttemptEnds(b, e);
      var d := DoWrite(c, m, e);
      assert d.stream[|c.stream|..] == m.op.data[..n];
    }
  }

  lemma CloseEnds(c: Conn, closeErr: int)
    requires Closing(c)
    ensures var d := CloseInternal(c, closeErr);
            if closeErr != ERR_OK then d == c
            else
              && More(c, d) && d.current.None? && d.state.StateNone?
              && d.pcb == (if c.current.value.shut == SHUT_RDWR then NoPcb else c.pcb)
              && d == c.(current := None, state := StateNone, pcb := d.pcb, events := d.events, answers := d.answers)
  {
    hide Finish;
    FinishLeaves(c, c.current.value, ERR_OK);
  }

  lemma CloseTaken(c: Conn, m: Msg, e: Sending, r: Replies)
    requires Good(c) && Askable(c, m) && m.op.Close?
    ensures var d := DoClose(c, m, r);
            && (if TakeWaits(c, m.op, e, r) then Begins(c, d, m) else More(c, d))
            && TakeLeaves(c, d, m.op, e, r)
  {
    hide CloseInternal;
    if (c.state.StateNone? || (c.state.StateListen? && m.shut == SHUT_RDWR)) && !c.pcb.NoPcb? {
      CloseEnds(c.(state := StateClose, current := Some(m), acceptMbox := if m.shut.rd then false else c.acceptMbox),
        r.closeErr);
    }
  }

  lemma DeleteTaken(c: Conn, m: Msg, e: Sending, r: Replies)
    requires Good(c) && Askable(c, m) && m.op.Delete?
    ensures var d := DoDelconn(c, m, r);
            && (if TakeWaits(c, m.op, e, r) then Begins(c, d, m) else More(c, d))
            && TakeLeaves(c, d, m.op, e, r)
  {
    hide CloseInternal;
    if !c.state.StateWrite? && !c.state.StateClose? && !c.pcb.NoPcb? {
      CloseEnds(c.(acceptMbox := false, state := StateClose, current := Some(m.(shut := SHUT_RDWR))), r.closeErr);
    }
  }

  lemma OtherTaken(c: Conn, m: Msg, e: Sending, r: Replies)
    requires Good(c) && Askable(c, m) && !m.op.Write? && !m.op.Close? && !m.op.Delete?
    ensures var d := Handle(c, m, e, r);
            && (if TakeWaits(c, m.op, e, r) then Begins(c, d, m) else More(c, d))
            && TakeLeaves(c, d, m.op, e, r)
  {}

  // ---- requests that wait ----------------------------------------------------------------

  // The outstanding request goes on waiting: a write for room, a close for TCP, a connect for its
  // own callback.
  predicate CallbackWaits(c: Conn, t: Step)
    requires Good(c)
  {
    match t
    case PollTcp(e, closeErr, _) => ResumeWaits(c, e, closeErr)
    case SentTcp(e, closeErr, _) => ResumeWaits(c, e, closeErr)
    case _ => false
  }

  predicate ResumeWaits(c: Conn, e: Sending, closeErr: int)
    requires Good(c)
  {
    if c.state.StateWrite? then WriteWaits(e, |c.current.value.op.data| - c.offset, DontBlock(c))
    else c.state.StateClose? ==> closeErr != ERR_OK
  }

  predicate ClosesAll(c: Conn) { c.state.StateClose? && c.current.Some? && ShutOf(c.current.value.op) == SHUT_RDWR }

  predicate CallbackLeaves(c: Conn, d: Conn, t: Step) {
    && d.acceptMbox == c.acceptMbox
    && match t
       case ErrTcp(err) => d.state.StateNone? && d.pcb.NoPcb? && d.lastErr == err && d.stream == c.stream
       case ConnectedTcp(err) =>
         && d.state.StateNone? && !d.inConnect && d.pcb == c.pcb && d.stream == c.stream
         && d.lastErr == if c.inConnect && !IsFatal(c.lastErr) then ERR_OK else c.lastErr
       case _ =>
         && d.lastErr == c.lastErr && c.stream <= d.stream
         && (if NoMore(c, d) then d.state == c.state && d.pcb == c.pcb
             else d.state.StateNone? && d.pcb == if ClosesAll(c) then NoPcb else c.pcb)
  }

  lemma ResumeEnds(c: Conn, e: Sending, closeErr: int)
    requires Good(c)
    ensures var d := Resume(c, e, closeErr);
            && (if c.current.Some? && !ResumeWaits(c, e, closeErr) then More(c, d) && d.current.None?
                else NoMore(c, d) && d.current == c.current)
            && d.acceptMbox == c.acceptMbox && d.lastErr == c.lastErr && c.stream <= d.stream
            && (if NoMore(c, d) then d.state == c.state && d.pcb == c.pcb
                else d.state.StateNone? && d.pcb == if ClosesAll(c) then NoPcb else c.pcb)
  {
    hide WriteMore, CloseInternal, WriteWaits, PassesOn;
    if c.state.StateWrite? { var n := AttemptEnds(c, e); } else if c.state.StateClose? { CloseEnds(c, closeErr); }
  }

  lemma RoomLeaves(c: Conn, e: Sending)
    ensures var d := NoteRoom(c, e);
            d == c.(checkSpace := d.checkSpace, events := d.events)
  {}

  // A step that takes a request lets it wait, or answers it; a callback answers the outstanding
  // request, or lets it go on waiting; and either way the connection is left as it should be.
  lemma StepEnds(s: System, t: Step)
    requires Inv(s) && Possible(s, t)
    ensures forall m :: m in s.inbox ==> Askable(s.conn, m)
    ensures var c, d := s.conn, Next(s, t).conn;
            match t
            case Take(e, r) =>
              var m := s.inbox[0];
              (if TakeWaits(c, m.op, e, r) then Begins(c, d, m) else More(c, d)) && TakeLeaves(c, d, m.op, e, r)
            case Post(_) => d == c
            case Wake => d == c.(lastErr := d.lastErr) && (IsFatal(c.lastErr) ==> d.lastErr == c.lastErr)
            case SetNonBlocking(on) => d == c.(nonBlocking := on)
            case NoteError(err) => d == c.(lastErr := if IsFatal(c.lastErr) then c.lastErr else err)
            case _ =>
              && (if c.current.Some? && !CallbackWaits(c, t) then More(c, d) && d.current.None?
                  else NoMore(c, d) && d.current == c.current)
              && CallbackLeaves(c, d, t)
  {
    hide Conserved, Numbered, Returned, Handle, Resume, NoteRoom, TakeWaits, TakeLeaves, Finish;
    StepKeeps(s, t);
    var c := s.conn;
    match t
    case Take(e, r) => TakeEnds(c, s.inbox[0], e, r);
    case PollTcp(e, closeErr, after) => ResumeEnds(c, e, closeErr); RoomLeaves(Resume(c, e, closeErr), after);
    case SentTcp(e, closeErr, after) => ResumeEnds(c, e, closeErr); RoomLeaves(Resume(c, e, closeErr), after);
    case ErrTcp(err) => FailedEnds(c, err);
    case ConnectedTcp(err) => ConnectedEnds(c, err);
    case _ =>
  }

  lemma FailedEnds(c: Conn, err: int)
    requires Good(c)
    ensures var d := Failed(c, err);
            && (if c.current.Some? then More(c, d) && d.current.None? else NoMore(c, d) && d.current == c.current)
            && CallbackLeaves(c, d, ErrTcp(err))
  {}

  lemma ConnectedEnds(c: Conn, err: int)
    requires Good(c) && c.state.StateConnect?
    ensures var d := Connected(c, err);
            && (if c.current.Some? then More(c, d) && d.current.None? else NoMore(c, d) && d.current == c.current)
            && CallbackLeaves(c, d, ConnectedTcp(err))
  {}
}

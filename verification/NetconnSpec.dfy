// What each request handler and each TCP callback does to a TCP connection of the
// blocking API, as a function from the state before to the state after.  The TCP stack's
// own answers (tcp_write, tcp_close, tcp_connect, ...) are arguments.
module NetconnSpec {
  import opened Wrappers

  type Byte = char

  // Error numbers: negative, and fatal below ERR_ISCONN.
  const ERR_OK := 0
  const ERR_MEM := -1
  const ERR_INPROGRESS := -5
  const ERR_VAL := -6
  const ERR_WOULDBLOCK := -7
  const ERR_ISCONN := -9
  const ERR_CLSD := -12
  const ERR_CONN := -13

  predicate IsFatal(err: int) { err < ERR_ISCONN }
  function SafeErr(last: int, err: int): int { if IsFatal(last) then last else err }

  // Low-water marks of the send buffer and of its queue, for TCP_MSS = 1024.
  const TCP_SNDLOWAT := 7680
  const TCP_SNDQUEUELOWAT := 15

  datatype ConnState = StateNone | StateWrite | StateListen | StateConnect | StateClose
  datatype Pcb = NoPcb | Active | Listening
  datatype Shut = Shut(rd: bool, wr: bool)
  const SHUT_RDWR := Shut(true, true)
  datatype Event = RcvPlus | SendPlus | SendMinus | ErrorEvent

  datatype Op =
    | Write(data: seq<Byte>, dontBlock: bool)
    | Close(how: Shut)
    | Delete
    | Connect
    | Listen
    | Bind
    | Recv
  // A request: who asks for what, and the two fields of it that handlers overwrite.
  datatype Msg = Msg(id: nat, op: Op, shut: Shut, len: nat)
  // An answered request: what its owner finds when op_completed wakes it, and the bytes TCP
  // accepted on its behalf.
  datatype Answer = Answer(id: nat, op: Op, dontBlock: bool, err: int, len: nat, accepted: seq<Byte>)

  datatype Conn = Conn(
    state: ConnState, pcb: Pcb, lastErr: int,
    nonBlocking: bool, inConnect: bool, checkSpace: bool, acceptMbox: bool,
    current: Option<Msg>, offset: nat,
    // Everything tcp_write accepted so far, its length when the current write began, the
    // events raised towards the socket layer and the answers given.
    stream: seq<Byte>, begun: nat, events: seq<Event>, answers: seq<Answer>)

  // The answers of the TCP stack during one attempt to write.
  datatype Sending = Sending(available: nat, writeErr: int, sndbuf: nat, queueLen: nat)
  // The answers of the TCP stack and of the mailbox allocator to the other requests.
  datatype Replies = Replies(closeErr: int, connectErr: int, bindErr: int, listenOk: bool, mboxErr: int)

  predicate LowWater(e: Sending) { e.sndbuf <= TCP_SNDLOWAT || e.queueLen >= TCP_SNDQUEUELOWAT }
  predicate Roomy(e: Sending) { e.sndbuf > TCP_SNDLOWAT && e.queueLen < TCP_SNDQUEUELOWAT }

  // ---- answering -------------------------------------------------------------------------

  function BytesOf(c: Conn): seq<Byte>
    requires c.begun <= |c.stream|
  {
    if c.state.StateWrite? then c.stream[c.begun..] else []
  }

  // The request is answered: op_completed is signalled once.
  function Signal(c: Conn, m: Msg, err: int): Conn {
    c.(answers := c.answers + [Answer(m.id, m.op, m.op.Write? && (c.nonBlocking || m.op.dontBlock), err, m.len, [])])
  }

  // The current request is answered and the connection is at rest again.
  function Finish(c: Conn, m: Msg, err: int): Conn
    requires c.begun <= |c.stream|
  {
    c.(current := None, state := StateNone,
       answers := c.answers +
         [Answer(m.id, m.op, m.op.Write? && (c.nonBlocking || m.op.dontBlock), err, m.len, BytesOf(c))])
  }

  // ---- writing ---------------------------------------------------------------------------

  predicate Writing(c: Conn) {
    && c.state.StateWrite? && c.pcb.Active? && c.current.Some?
    && c.current.value.op.Write?
    && c.offset < c.current.value.len == |c.current.value.op.data|
    && c.begun <= |c.stream|
    && c.stream[c.begun..] == c.current.value.op.data[..c.offset]
  }

  predicate DontBlock(c: Conn)
    requires Writing(c)
  {
    c.nonBlocking || c.current.value.op.dontBlock
  }

  // How many bytes one attempt offers, and what comes of it.
  function Offered(c: Conn, e: Sending): nat
    requires Writing(c)
  {
    Min(Min(c.current.value.len - c.offset, 0xffff), e.available)
  }

  predicate Refused(c: Conn, e: Sending)
    requires Writing(c)
  {
    DontBlock(c) && e.available == 0
  }

  function Outcome(c: Conn, e: Sending): int
    requires Writing(c)
  {
    if Refused(c, e) then ERR_WOULDBLOCK else e.writeErr
  }

  function WriteMarks(c: Conn, e: Sending): Conn
    requires Writing(c)
  {
    if !Refused(c, e) && e.writeErr != ERR_OK && e.writeErr != ERR_MEM then c
    else if DontBlock(c) && Offered(c, e) < c.current.value.len
      then c.(events := c.events + [SendMinus], checkSpace := true)
    else if LowWater(e) then c.(events := c.events + [SendMinus])
    else c
  }

  // What becomes of a write of which TCP took len more bytes, or reported an error.
  function Settle(c: Conn, len: nat, err: int): Conn
    requires Writing(c) && c.offset + len <= c.current.value.len
  {
    var m := c.current.value;
    var upTo := c.offset + len;
    if err == ERR_OK then
      var took := c.(stream := c.stream + m.op.data[c.offset..upTo], offset := upTo);
      if upTo == m.len || DontBlock(c) then Finish(took.(offset := 0), m.(len := upTo), ERR_OK) else took
    else if err == ERR_MEM && !DontBlock(c) then c
    else Finish(c, m.(len := 0), err)
  }

  function WriteMore(c: Conn, e: Sending): Conn
    requires Writing(c)
  {
    Settle(WriteMarks(c, e), Offered(c, e), Outcome(c, e))
  }

  function DoWrite(c: Conn, m: Msg, e: Sending): Conn
    requires m.op.Write? && m.op.data != [] && m.len == |m.op.data|
    requires c.state.StateNone? ==> !c.pcb.Listening?
  {
    if IsFatal(c.lastErr) then Signal(c, m, c.lastErr)
    else if !c.state.StateNone? then Signal(c, m, ERR_INPROGRESS)
    else if c.pcb.NoPcb? then Signal(c, m, ERR_CONN)
    else WriteMore(c.(state := StateWrite, current := Some(m), offset := 0, begun := |c.stream|), e)
  }

  // ---- closing ---------------------------------------------------------------------------

  predicate Closing(c: Conn) {
    && c.state.StateClose? && !c.pcb.NoPcb? && c.current.Some?
    && (c.current.value.op.Close? || c.current.value.op.Delete?)
    && c.begun <= |c.stream|
  }

  function CloseEvents(shut: Shut): seq<Event> {
    (if shut == SHUT_RDWR then [ErrorEvent] else []) +
    (if shut.rd then [RcvPlus] else []) + (if shut.wr then [SendPlus] else [])
  }

  function CloseInternal(c: Conn, closeErr: int): Conn
    requires Closing(c)
  {
    if closeErr != ERR_OK then c
    else
      var m := c.current.value;
      Finish(c, m, ERR_OK).(
        pcb := if m.shut == SHUT_RDWR then NoPcb else c.pcb,
        events := c.events + CloseEvents(m.shut))
  }

  function DoClose(c: Conn, m: Msg, r: Replies): Conn
    requires m.op.Close? && c.begun <= |c.stream|
  {
    if !c.state.StateNone? && !c.state.StateListen? then Signal(c, m, ERR_INPROGRESS)
    else if c.pcb.NoPcb? then Signal(c, m, ERR_VAL)
    else if m.shut != SHUT_RDWR && c.state.StateListen? then Signal(c, m, ERR_CONN)
    else
      CloseInternal(c.(state := StateClose, current := Some(m),
                       acceptMbox := if m.shut.rd then false else c.acceptMbox), r.closeErr)
  }

  function DoDelconn(c: Conn, m: Msg, r: Replies): Conn
    requires m.op.Delete? && c.begun <= |c.stream|
  {
    if !c.state.StateNone? && !c.state.StateListen? && !c.state.StateConnect? then Signal(c, m, ERR_INPROGRESS)
    else
      var d := c.(acceptMbox := false);
      if !c.pcb.NoPcb? then
        CloseInternal(d.(state := StateClose, current := Some(m.(shut := SHUT_RDWR))), r.closeErr)
      else
        Signal(d.(events := d.events + [RcvPlus, SendPlus]), m, ERR_OK)
  }

  // ---- connecting, listening and the requests answered at once ---------------------------

  function DoConnect(c: Conn, m: Msg, r: Replies): Conn {
    if c.pcb.NoPcb? then Signal(c, m, ERR_CLSD)
    else if !c.state.StateNone? then Signal(c, m, ERR_ISCONN)
    else if r.connectErr != ERR_OK then Signal(c, m, r.connectErr)
    else if c.nonBlocking then Signal(c.(state := StateConnect, inConnect := true), m, ERR_INPROGRESS)
    else c.(state := StateConnect, inConnect := false, current := Some(m))
  }

  function DoListen(c: Conn, m: Msg, r: Replies): Conn {
    if IsFatal(c.lastErr) then Signal(c, m, c.lastErr)
    else if c.pcb.NoPcb? || !c.state.StateNone? then Signal(c, m, ERR_CONN)
    else if !r.listenOk then Signal(c, m, ERR_MEM)
    else if c.acceptMbox || r.mboxErr == ERR_OK then
      Signal(c.(state := StateListen, pcb := Listening, acceptMbox := true), m, ERR_OK)
    else Signal(c.(pcb := NoPcb), m, r.mboxErr)
  }

  function DoBind(c: Conn, m: Msg, r: Replies): Conn {
    Signal(c, m, if IsFatal(c.lastErr) then c.lastErr else if c.pcb.NoPcb? then ERR_VAL else r.bindErr)
  }

  // What the TCP/IP thread does with the request it takes from its mailbox.
  predicate Askable(c: Conn, m: Msg) {
    && (m.op.Write? ==> m.op.data != [] && m.len == |m.op.data|)
    && (m.op.Close? ==> m.shut == m.op.how)
  }

  function Handle(c: Conn, m: Msg, e: Sending, r: Replies): Conn
    requires Good(c) && Askable(c, m)
  {
    match m.op
    case Write(_, _) => DoWrite(c, m, e)
    case Close(_) => DoClose(c, m, r)
    case Delete => DoDelconn(c, m, r)
    case Connect => DoConnect(c, m, r)
    case Listen => DoListen(c, m, r)
    case Bind => DoBind(c, m, r)
    case Recv => Signal(c, m, ERR_OK)
  }

  // ---- the callbacks of the TCP stack ----------------------------------------------------

  function Resume(c: Conn, e: Sending, closeErr: int): Conn
    requires Good(c)
  {
    if c.state.StateWrite? then WriteMore(c, e)
    else if c.state.StateClose? then CloseInternal(c, closeErr)
    else c
  }

  function NoteRoom(c: Conn, e: Sending): Conn {
    if !c.pcb.NoPcb? && Roomy(e) then c.(checkSpace := false, events := c.events + [SendPlus]) else c
  }

  // after: what the stack says of its send buffer once the write was retried
  function Polled(c: Conn, e: Sending, closeErr: int, after: Sending): Conn
    requires Good(c)
  {
    var d := Resume(c, e, closeErr);
    if d.checkSpace then NoteRoom(d, after) else d
  }

  function Sent(c: Conn, e: Sending, closeErr: int, after: Sending): Conn
    requires Good(c)
  {
    NoteRoom(Resume(c, e, closeErr), after)
  }

  function Failed(c: Conn, err: int): Conn
    requires c.begun <= |c.stream|
    requires !c.inConnect && (c.state.StateWrite? || c.state.StateClose? || c.state.StateConnect?) ==> c.current.Some?
  {
    var d := c.(pcb := NoPcb, lastErr := err, events := c.events + [ErrorEvent, RcvPlus, SendPlus]);
    if c.state.StateWrite? || c.state.StateClose? || c.state.StateConnect? then
      if c.inConnect then d.(state := StateNone, inConnect := false)
      else Finish(d, c.current.value, err)
    else d.(state := StateNone)
  }

  function Connected(c: Conn, err: int): Conn
    requires c.begun <= |c.stream| && c.state.StateConnect?
    requires !c.inConnect ==> c.current.Some?
  {
    var d := c.(events := c.events + [SendPlus]);
    if c.inConnect then
      d.(inConnect := false, current := None, state := StateNone, lastErr := SafeErr(c.lastErr, ERR_OK))
    else Finish(d, c.current.value, err)
  }

  // ---- what holds between any two of these -----------------------------------------------

  // A request is outstanding exactly in a write, a close or a blocking connect, and it is one
  // of that kind.
  predicate Good(c: Conn) {
    && c.begun <= |c.stream|
    && (c.current.Some? <==> c.state.StateWrite? || c.state.StateClose? || (c.state.StateConnect? && !c.inConnect))
    && (c.state.StateWrite? ==> Writing(c))
    && (c.state.StateClose? ==> Closing(c) && c.current.value.shut == ShutOf(c.current.value.op))
    && (c.state.StateClose? && c.pcb.Listening? ==> c.current.value.shut == SHUT_RDWR)
    && (c.state.StateConnect? ==> c.pcb.Active?)
    && (c.state.StateConnect? && !c.inConnect ==> c.current.value.op.Connect?)
    && (c.state.StateListen? ==> c.pcb.Listening?)
    && (c.state.StateNone? ==> !c.pcb.Listening?)
    && (c.inConnect && !c.state.StateConnect? ==> c.pcb.NoPcb?)
  }

  function ShutOf(op: Op): Shut {
    if op.Close? then op.how else SHUT_RDWR
  }
}

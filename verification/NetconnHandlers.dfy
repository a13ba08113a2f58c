// The request handlers and the TCP callbacks as the TCP/IP thread runs them, on the
// connection object and on the message object of the sleeping application thread.
module NetconnHandlers {
  import opened Wrappers
  import opened NetconnSpec

  datatype Flags = Flags(nonBlocking: bool, inConnect: bool, checkSpace: bool)
  // What is known of a connection beside its own fields.
  datatype Log = Log(stream: seq<Byte>, begun: nat, events: seq<Event>, answers: seq<Answer>)

  class ApiMsg {
    const id: nat
    const op: Op
    var shut: Shut
    var len: nat
    var err: int

    constructor (id: nat, op: Op)
      ensures View() == Msg(id, op, ShutOf(op), if op.Write? then |op.data| else 0)
    {
      this.id, this.op, this.shut, this.err := id, op, ShutOf(op), ERR_OK;
      this.len := if op.Write? then |op.data| else 0;
    }

    function View(): Msg
      reads this
    {
      Msg(id, op, shut, len)
    }
  }

  class Netconn {
    var state: ConnState
    var pcb: Pcb
    var lastErr: int
    var flags: Flags
    var acceptMbox: bool
    var currentMsg: ApiMsg?
    var writeOffset: nat
    var opCompleted: nat
    ghost var log: Log

    constructor (nonBlocking: bool)
      ensures Good(View()) && View() ==
        Conn(StateNone, Active, ERR_OK, nonBlocking, false, false, false, None, 0, [], 0, [], [])
      ensures opCompleted == 0 && currentMsg == null
    {
      state, pcb, lastErr, writeOffset, opCompleted := StateNone, Active, ERR_OK, 0, 0;
      flags, acceptMbox, currentMsg := Flags(nonBlocking, false, false), false, null;
      log := Log([], 0, [], []);
    }

    ghost function View(): Conn
      reads this, currentMsg
    {
      Conn(state, pcb, lastErr, flags.nonBlocking, flags.inConnect, flags.checkSpace, acceptMbox,
           if currentMsg == null then None else Some(currentMsg.View()), writeOffset,
           log.stream, log.begun, log.events, log.answers)
    }

    // The answer the owner of m reads when it wakes.
    ghost predicate Holds(m: ApiMsg)
      reads this, m
    {
      log.answers != [] && var a := log.answers[|log.answers| - 1];
      a.id == m.id && a.op == m.op && a.err == m.err && a.len == m.len
    }

    method Raise(e: Event)
      modifies this`log
      ensures log == old(log).(events := old(log.events) + [e])
    {
      log := log.(events := log.events + [e]);
    }

    // op_completed is signalled for m; accepted are the bytes TCP took for it.
    method Signal(m: ApiMsg, ghost accepted: seq<Byte>)
      modifies this`opCompleted, this`log
      ensures opCompleted == old(opCompleted) + 1
      ensures log == old(log).(answers := old(log.answers) +
        [Answer(m.id, m.op, m.op.Write? && (flags.nonBlocking || m.op.dontBlock), m.err, m.len, accepted)])
    {
      opCompleted := opCompleted + 1;
      log := log.(answers := log.answers +
        [Answer(m.id, m.op, m.op.Write? && (flags.nonBlocking || m.op.dontBlock), m.err, m.len, accepted)]);
    }

    // A request that leaves nothing outstanding is acknowledged on the spot.
    method Acknowledge(m: ApiMsg)
      modifies this`opCompleted, this`log
      ensures View() == NetconnSpec.Signal(old(View()), m.View(), m.err)
      ensures opCompleted == old(opCompleted) + 1 && |log.answers| == old(|log.answers|) + 1 && Holds(m)
    {
      Signal(m, []);
    }

    // The current message gets its error code and the connection is at rest.
    method Detach(err: int)
      requires currentMsg != null
      modifies this`currentMsg, this`state, currentMsg`err
      ensures currentMsg == null && state == StateNone && old(currentMsg).err == err
    {
      currentMsg.err := err;
      currentMsg := null;
      state := StateNone;
    }

    method Complete(err: int, ghost taken: seq<Byte>)
      requires currentMsg != null
      modifies this`currentMsg, this`state, this`opCompleted, this`log, currentMsg`err
      ensures |log.answers| == old(|log.answers|) + 1 && Holds(old(currentMsg)) && opCompleted == old(opCompleted) + 1
      ensures View() == old(View()).(current := None, state := StateNone,
        answers := old(log.answers) + [log.answers[old(|log.answers|)]])
      ensures log.answers[old(|log.answers|)] == Answer(old(currentMsg.id), old(currentMsg.op),
        old(currentMsg.op.Write? && (flags.nonBlocking || currentMsg.op.dontBlock)), err, old(currentMsg.len), taken)
    {
      var m := currentMsg;
      Detach(err);
      Signal(m, taken);
    }

    // Offers TCP the next stretch of the data, and tells select when room runs short.
    method TryWrite(e: Sending) returns (len: nat, err: int)
      requires Writing(View())
      modifies this`log, this`flags
      ensures len == Offered(old(View()), e) && err == Outcome(old(View()), e)
      ensures View() == WriteMarks(old(View()), e)
      ensures log == old(log).(events := log.events) && flags == old(flags).(checkSpace := flags.checkSpace)
    {
      var dontBlock := flags.nonBlocking || currentMsg.op.dontBlock;
      var diff := currentMsg.len - writeOffset;
      len := if diff > 0xffff then 0xffff else diff;
      err := e.writeErr;
      var refused := false;
      if e.available < len {
        len := e.available;
        if dontBlock && len == 0 { err, refused := ERR_WOULDBLOCK, true; }
      }
      if refused || err == ERR_OK || err == ERR_MEM {
        if dontBlock && len < currentMsg.len {
          Raise(SendMinus);
          flags := flags.(checkSpace := true);
        } else if e.sndbuf <= TCP_SNDLOWAT || e.queueLen >= TCP_SNDQUEUELOWAT {
          Raise(SendMinus);
        }
      }
    }

    // The end of a write, with the length its owner is told.
    method Conclude(len: nat, err: int)
      requires currentMsg != null && state == StateWrite && log.begun <= |log.stream|
      modifies this`currentMsg, this`state, this`opCompleted, this`log, currentMsg`err, currentMsg`len
      ensures View() == Finish(old(View()), old(currentMsg.View()).(len := len), err)
      ensures |log.answers| == old(|log.answers|) + 1 && Holds(old(currentMsg)) && opCompleted == old(opCompleted) + 1
    {
      currentMsg.len := len;
      Complete(err, log.stream[log.begun..]);
    }

    method SettleWrite(len: nat, err: int)
      requires Writing(View()) && writeOffset + len <= currentMsg.len
      modifies this, currentMsg
      ensures View() == Settle(old(View()), len, err)
      ensures opCompleted == old(opCompleted) + |log.answers| - old(|log.answers|)
      ensures |log.answers| > old(|log.answers|) ==> Holds(old(currentMsg))
    {
      hide Finish;
      var m := currentMsg;
      var dontBlock := flags.nonBlocking || m.op.dontBlock;
      if err == ERR_OK {
        log := log.(stream := log.stream + m.op.data[writeOffset..writeOffset + len]);
        writeOffset := writeOffset + len;
        if writeOffset == m.len || dontBlock {
          var sent := writeOffset;
          writeOffset := 0;
          Conclude(sent, err);
        }
      } else if err == ERR_MEM && !dontBlock {
        // wait for the sent or the poll callback
      } else {
        Conclude(0, err);
      }
    }

    method DoWriteMore(e: Sending)
      requires Writing(View())
      modifies this, currentMsg
      ensures View() == WriteMore(old(View()), e)
      ensures opCompleted == old(opCompleted) + |log.answers| - old(|log.answers|)
      ensures |log.answers| > old(|log.answers|) ==> Holds(old(currentMsg))
    {
      hide Settle;
      var len, err := TryWrite(e);
      SettleWrite(len, err);
    }

    method BeginWrite(m: ApiMsg)
      requires Good(View()) && Askable(View(), m.View()) && m.op.Write? && state == StateNone && pcb != NoPcb
      modifies this`state, this`currentMsg, this`writeOffset, this`log
      ensures View() == old(View()).(state := StateWrite, current := Some(m.View()), offset := 0, begun := |log.stream|)
      ensures currentMsg == m && Writing(View())
    {
      state := StateWrite;
      currentMsg := m;
      writeOffset := 0;
      log := log.(begun := |log.stream|);
      assert log.stream[log.begun..] == [] == m.op.data[..0];
    }

    method DoWrite(m: ApiMsg, e: Sending)
      requires Good(View()) && Askable(View(), m.View()) && m.op.Write? && m != currentMsg
      modifies this, m
      ensures View() == NetconnSpec.DoWrite(old(View()), old(m.View()), e)
      ensures opCompleted == old(opCompleted) + |log.answers| - old(|log.answers|)
      ensures |log.answers| > old(|log.answers|) ==> Holds(m)
    {
      hide WriteMore, NetconnSpec.Signal, Writing;
      if IsFatal(lastErr) {
        m.err := lastErr;
      } else if state != StateNone {
        m.err := ERR_INPROGRESS;
      } else if pcb != NoPcb {
        BeginWrite(m);
        DoWriteMore(e);
        return;
      } else {
        m.err := ERR_CONN;
      }
      Acknowledge(m);
    }

    method DoCloseInternal(closeErr: int)
      requires Closing(View())
      modifies this, currentMsg
      ensures View() == CloseInternal(old(View()), closeErr)
      ensures opCompleted == old(opCompleted) + |log.answers| - old(|log.answers|)
      ensures |log.answers| > old(|log.answers|) ==> Holds(old(currentMsg))
    {
      var m := currentMsg;
      var shut := m.shut;
      var close := shut.rd && shut.wr;
      if closeErr == ERR_OK {
        Detach(ERR_OK);
        if close {
          pcb := NoPcb;
          Raise(ErrorEvent);
        }
        if shut.rd { Raise(RcvPlus); }
        if shut.wr { Raise(SendPlus); }
        Signal(m, []);
      }
    }

    method BeginClose(m: ApiMsg)
      requires pcb != NoPcb && (m.op.Close? || m.op.Delete?) && log.begun <= |log.stream|
      modifies this`state, this`currentMsg
      ensures View() == old(View()).(state := StateClose, current := Some(m.View()))
      ensures currentMsg == m && Closing(View())
    {
      state := StateClose;
      currentMsg := m;
    }

    method DoClose(m: ApiMsg, r: Replies)
      requires Good(View()) && Askable(View(), m.View()) && m.op.Close? && m != currentMsg
      modifies this, m
      ensures View() == NetconnSpec.DoClose(old(View()), old(m.View()), r)
      ensures opCompleted == old(opCompleted) + |log.answers| - old(|log.answers|)
      ensures |log.answers| > old(|log.answers|) ==> Holds(m)
    {
      hide CloseInternal, NetconnSpec.Signal, Closing;
      if state != StateNone && state != StateListen {
        m.err := ERR_INPROGRESS;
      } else if pcb != NoPcb {
        if m.shut != SHUT_RDWR && state == StateListen {
          m.err := ERR_CONN;
        } else {
          if m.shut.rd { acceptMbox := false; }
          BeginClose(m);
          DoCloseInternal(r.closeErr);
          return;
        }
      } else {
        m.err := ERR_VAL;
      }
      Acknowledge(m);
    }

    // A blocking connect in progress loses its message here.
    method DoDelconn(m: ApiMsg, r: Replies)
      requires Good(View()) && m.op.Delete? && m != currentMsg
      modifies this, m
      ensures View() == NetconnSpec.DoDelconn(old(View()), old(m.View()), r)
      ensures opCompleted == old(opCompleted) + |log.answers| - old(|log.answers|)
      ensures |log.answers| > old(|log.answers|) ==> Holds(m)
    {
      hide CloseInternal, Closing;
      if state != StateNone && state != StateListen && state != StateConnect {
        m.err := ERR_INPROGRESS;
      } else {
        acceptMbox := false;
        if pcb != NoPcb {
          m.shut := SHUT_RDWR;
          BeginClose(m);
          DoCloseInternal(r.closeErr);
          return;
        }
        m.err := ERR_OK;
        Raise(RcvPlus);
        Raise(SendPlus);
      }
      Acknowledge(m);
    }

    method DoConnect(m: ApiMsg, r: Replies)
      requires Good(View()) && m.op.Connect? && m != currentMsg
      modifies this, m
      ensures View() == NetconnSpec.DoConnect(old(View()), old(m.View()), r)
      ensures opCompleted == old(opCompleted) + |log.answers| - old(|log.answers|)
      ensures |log.answers| > old(|log.answers|) ==> Holds(m)
    {
      if pcb == NoPcb {
        m.err := ERR_CLSD;
      } else if state != StateNone {
        m.err := ERR_ISCONN;
      } else {
        m.err := r.connectErr;
        if m.err == ERR_OK {
          state := StateConnect;
          flags := flags.(inConnect := flags.nonBlocking);
          if flags.nonBlocking {
            m.err := ERR_INPROGRESS;
          } else {
            currentMsg := m;
            return;
          }
        }
      }
      Acknowledge(m);
    }

    method DoListen(m: ApiMsg, r: Replies)
      requires Good(View()) && m.op.Listen? && m != currentMsg
      modifies this, m
      ensures View() == NetconnSpec.DoListen(old(View()), old(m.View()), r)
      ensures opCompleted == old(opCompleted) + |log.answers| - old(|log.answers|)
      ensures |log.answers| > old(|log.answers|) ==> Holds(m)
    {
      if IsFatal(lastErr) {
        m.err := lastErr;
      } else {
        m.err := ERR_CONN;
        if pcb != NoPcb && state == StateNone {
          if !r.listenOk {
            m.err := ERR_MEM;
          } else {
            m.err := ERR_OK;
            if !acceptMbox {
              m.err := r.mboxErr;
            }
            if m.err == ERR_OK {
              acceptMbox := true;
              state := StateListen;
              pcb := Listening;
            } else {
              pcb := NoPcb;
            }
          }
        }
      }
      Acknowledge(m);
    }

    method DoBind(m: ApiMsg, r: Replies)
      requires Good(View()) && m.op.Bind? && m != currentMsg
      modifies this, m
      ensures View() == NetconnSpec.DoBind(old(View()), old(m.View()), r)
      ensures opCompleted == old(opCompleted) + 1 && Holds(m)
    {
      if IsFatal(lastErr) {
        m.err := lastErr;
      } else {
        m.err := ERR_VAL;
        if pcb != NoPcb { m.err := r.bindErr; }
      }
      Acknowledge(m);
    }

    method PollTcp(e: Sending, closeErr: int, after: Sending)
      requires Good(View()) && pcb != NoPcb
      modifies this, currentMsg
      ensures View() == Polled(old(View()), e, closeErr, after)
      ensures opCompleted == old(opCompleted) + |log.answers| - old(|log.answers|)
    {
      if state == StateWrite {
        DoWriteMore(e);
      } else if state == StateClose {
        DoCloseInternal(closeErr);
      }
      if flags.checkSpace {
        if pcb != NoPcb && after.sndbuf > TCP_SNDLOWAT && after.queueLen < TCP_SNDQUEUELOWAT {
          flags := flags.(checkSpace := false);
          Raise(SendPlus);
        }
      }
    }

    method SentTcp(e: Sending, closeErr: int, after: Sending)
      requires Good(View()) && pcb != NoPcb
      modifies this, currentMsg
      ensures View() == Sent(old(View()), e, closeErr, after)
      ensures opCompleted == old(opCompleted) + |log.answers| - old(|log.answers|)
    {
      if state == StateWrite {
        DoWriteMore(e);
      } else if state == StateClose {
        DoCloseInternal(closeErr);
      }
      if pcb != NoPcb && after.sndbuf > TCP_SNDLOWAT && after.queueLen < TCP_SNDQUEUELOWAT {
        flags := flags.(checkSpace := false);
        Raise(SendPlus);
      }
    }

    method ErrTcp(err: int)
      requires Good(View())
      modifies this, currentMsg
      ensures View() == Failed(old(View()), err)
      ensures opCompleted == old(opCompleted) + |log.answers| - old(|log.answers|)
      ensures old(currentMsg) != null ==> old(currentMsg).err == err
      ensures old(currentMsg) != null ==> Holds(old(currentMsg))
    {
      pcb := NoPcb;
      lastErr := err;
      var oldState := state;
      ghost var taken := BytesOf(View());
      state := StateNone;
      Raise(ErrorEvent);
      Raise(RcvPlus);
      Raise(SendPlus);
      if oldState == StateWrite || oldState == StateClose || oldState == StateConnect {
        var wasNonBlockingConnect := flags.inConnect;
        flags := flags.(inConnect := false);
        if !wasNonBlockingConnect {
          Complete(err, taken);
        }
      }
    }

    method DoConnected(err: int)
      requires Good(View()) && state == StateConnect
      modifies this, currentMsg
      ensures View() == Connected(old(View()), err)
      ensures opCompleted == old(opCompleted) + |log.answers| - old(|log.answers|)
      ensures old(currentMsg) != null ==> old(currentMsg).err == err
      ensures old(currentMsg) != null ==> Holds(old(currentMsg))
    {
      var m := currentMsg;
      if m != null { m.err := err; }
      var wasBlocking := !flags.inConnect;
      flags := flags.(inConnect := false);
      currentMsg := null;
      state := StateNone;
      if !wasBlocking && !IsFatal(lastErr) { lastErr := ERR_OK; }
      Raise(SendPlus);
      if wasBlocking { Signal(m, []); }
    }
  }
}

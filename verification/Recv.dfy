// recvfrom on a TCP socket, filling the caller's buffer piece by piece.
module Recv {
  import opened Wrappers
  import opened RecvSpec

  function Sum(s: seq<nat>): nat {
    if s == [] then 0 else Sum(s[..|s| - 1]) + s[|s| - 1]
  }

  class Socket {
    var lastdata: Option<Pbuf>
    var lastoffset: nat
    var noAutoRecved: bool
    var nonBlocking: bool
    // Does the connection still have its pcb?
    var pcb: bool
    // What tcp_recved was told, call by call; an argument of it has 16 bits.
    var recved: seq<nat>
    ghost var fetched: seq<Byte>
    ghost var returned: seq<Byte>
    ghost var peeked: nat
    ghost var fins: nat
    ghost var dropped: nat
    ghost var lateFetched: nat
    ghost var lateFins: nat

    ghost function View(): Reader
      reads this
    {
      Reader(lastdata, lastoffset, noAutoRecved, nonBlocking, pcb, fetched, returned, peeked, fins,
        Sum(recved), dropped, lateFetched, lateFins)
    }

    constructor (noAuto: bool)
      ensures View() == Reader(None, 0, noAuto, false, true, [], [], 0, 0, 0, 0, 0, 0)
    {
      lastdata, lastoffset, noAutoRecved, nonBlocking, pcb, recved := None, 0, noAuto, false, true, [];
      fetched, returned, peeked, fins, dropped, lateFetched, lateFins := [], [], 0, 0, 0, 0, 0;
    }

    // The window is given back in chunks that fit 16 bits, if there is a connection to tell.
    method DoRecv(len: nat)
      modifies this`recved, this`dropped
      ensures View() == Credit(old(View()), len)
      ensures old(recved) <= recved && (pcb <==> old(recved) < recved)
      ensures forall i :: |old(recved)| <= i < |recved| ==> recved[i] <= 0xffff
    {
      if !pcb {
        dropped := dropped + len;
        return;
      }
      var remaining: nat := len;
      var more := true;
      while more
        invariant dropped == old(dropped) && remaining <= len && Sum(recved) + remaining == Sum(old(recved)) + len
        invariant old(recved) <= recved && (!more ==> remaining == 0 && old(recved) < recved)
        invariant forall i :: |old(recved)| <= i < |recved| ==> recved[i] <= 0xffff
        decreases remaining, more
      {
        var n: nat := if remaining > 0xffff then 0xffff else remaining;
        assert (recved + [n])[..|recved|] == recved;
        recved := recved + [n];
        remaining := remaining - n;
        more := remaining != 0;
      }
    }

    // TCP may drop the connection in between.
    method Meanwhile(lost: bool)
      modifies this`pcb
      ensures View() == Lose(old(View()), lost)
    {
      if lost { pcb := false; }
    }

    method NetconnRecved(len: nat)
      modifies this`recved, this`dropped
      ensures View() == Recved(old(View()), len)
    {
      if noAutoRecved { DoRecv(len); }
    }

    // One attempt to fetch from the mailbox; a packet is stored as the rest of the last one.
    method Fetch(arrival: Arrival) returns (err: int)
      requires lastdata.None?
      modifies this
      ensures match arrival
        case Data(p) => err == 0 && View() == Store(old(View()), p)
        case Fin => err == ERR_CLSD && View() == Finish(old(View()))
        case Broken(e) => err == e && View() == old(View())
    {
      match arrival
      case Data(p) =>
        if !noAutoRecved { DoRecv(|p.data|); }
        lastdata := Some(p);
        fetched := fetched + p.data;
        lateFetched := lateFetched + if pcb then 0 else |p.data|;
        err := 0;
      case Fin =>
        DoRecv(1);
        fins, lateFins := fins + 1, lateFins + if pcb then 0 else 1;
        err := ERR_CLSD;
      case Broken(e) => err := e;
    }

    method CopyBytes(mem: array<Byte>, off: nat, data: seq<Byte>, from: nat, n: nat)
      requires off + n <= mem.Length && from + n <= |data|
      modifies mem
      ensures mem[off..off + n] == data[from..from + n]
      ensures mem[..off] == old(mem[..off]) && mem[off + n..] == old(mem[off + n..])
    {
      var i := 0;
      while i < n
        invariant 0 <= i <= n && mem[off..off + i] == data[from..from + i]
        invariant mem[..off] == old(mem[..off]) && mem[off + n..] == old(mem[off + n..])
      {
        mem[off + i] := data[from + i];
        i := i + 1;
      }
    }

    // Copies what fits from the left-over packet to mem at off.
    method CopyOut(mem: array<Byte>, off: nat, len: nat, peek: bool) returns (copied: nat)
      requires Usable(View()) && lastdata.Some? && off + len <= mem.Length
      modifies this, mem
      ensures var (d, piece) := Take(old(View()), len, peek);
        View() == d && copied == |piece| && mem[off..off + copied] == piece
      ensures copied <= len && mem[..off] == old(mem[..off]) && mem[off + copied..] == old(mem[off + copied..])
    {
      ghost var left := Left(View());
      var buflen := |lastdata.value.data| - lastoffset;
      copied := if len > buflen then buflen else len;
      CopyBytes(mem, off, lastdata.value.data, lastoffset, copied);
      assert mem[off..off + copied] == left[..copied];
      if peek {
        peeked := peeked + copied;
      } else {
        returned := returned + left[..copied];
        if buflen - copied > 0 {
          lastoffset := lastoffset + copied;
        } else {
          lastdata, lastoffset := None, 0;
        }
      }
    }

    // A packet to copy from: the rest of the last one, or the next.
    method Refill(dontWait: bool, w: Round) returns (err: int)
      requires Usable(View())
      modifies this
      ensures (View(), err) == RecvSpec.Refill(old(View()), Args(0, false, dontWait), w)
    {
      err := 0;
      if lastdata.None? {
        Meanwhile(w.lostBefore);
        if (dontWait || nonBlocking) && w.rcvBefore <= 0 { return ERR_WOULDBLOCK; }
        err := Fetch(w.arrival);
      }
    }

    method RecvFrom(mem: array<Byte>, len: nat, peek: bool, dontWait: bool, world: nat -> Round) returns (result: int)
      requires Usable(View()) && len <= mem.Length
      modifies this, mem
      ensures var o := RecvSpec.Recv(old(View()), Args(len, peek, dontWait), world);
        View() == o.reader && result == o.result && |o.bytes| <= mem.Length
        && mem[..|o.bytes|] == o.bytes && mem[|o.bytes|..] == old(mem[|o.bytes|..])
      ensures len > 0 && result <= 0 ==>
        NoData(old(View()), Args(len, peek, dontWait), world(0), result)
    {
      hide NoData, Take, Left, Store, RecvSpec.Refill, Receive, Usable, Lose, Credit, Recved;
      ghost var a := Args(len, peek, dontWait);
      ghost var o := RecvSpec.Recv(View(), a, world);
      NoDataAnswered(View(), a, world);
      var off, left, k := 0, len, 0;
      var done := false;
      assert mem[..0] == [];
      while !done
        invariant Usable(View()) && 0 <= off && 0 <= left && off + left == len
        invariant mem[off..] == old(mem[off..])
        invariant o == if done then Done(View(), mem[..off]) else Receive(View(), a, world, k, left, mem[..off])
        decreases left, if done then 0 else 1
      {
        ghost var got := mem[..off];
        ReceiveRefills(View(), a, world, k, left, got);
        RefillPlain(View(), a, world(k));
        var err := Refill(dontWait, world(k));
        if err != 0 {
          Meanwhile(world(k).lostAfter);
          result := GiveUp(off, err, got);
          return;
        }
        ReceiveTakes(View(), a, world, k, left, got);
        var push := lastdata.value.push;
        ghost var before := mem[..];
        var copied := CopyOut(mem, off, left, peek);
        assert mem[..off + copied] == got + mem[off..off + copied];
        assert before[off + copied..] == before[off..][copied..];
        off, left := off + copied, left - copied;
        Meanwhile(world(k).lostAfter);
        if left == 0 || push || world(k).rcvAfter <= 0 || peek {
          done := true;
        }
        k := k + 1;
      }
      if off > 0 { NetconnRecved(off); }
      result := off;
    }

    // An error ends the call: with what has been read, if anything has.
    method GiveUp(off: nat, err: int, ghost got: seq<Byte>) returns (result: int)
      requires off == |got|
      modifies this`recved, this`dropped
      ensures var o := Stop(old(View()), got, err);
        View() == o.reader && result == o.result && o.bytes == got
    {
      if off > 0 {
        NetconnRecved(off);
        return off;
      }
      result := if err == ERR_CLSD then 0 else -1;
    }
  }

  lemma RefillPlain(r: Reader, a: Args, w: Round)
    requires Usable(r)
    ensures RecvSpec.Refill(r, a, w) == RecvSpec.Refill(r, Args(0, false, a.dontWait), w)
  {}
}

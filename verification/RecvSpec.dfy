// Buffered reading from a TCP socket: what a call of recv returns, what it leaves behind for
// the next one and how much receive window it gives back.
module RecvSpec {
  import opened Wrappers

  type Byte = char
  // A received packet; TCP hands up none that is empty or longer than 16 bits can count.
  datatype Packet = Packet(data: seq<Byte>, push: bool)
  type Pbuf = p: Packet | 0 < |p.data| <= 0xffff witness Packet(['a'], false)

  const ERR_WOULDBLOCK := -7
  const ERR_CLSD := -12
  type Failure = err: int | err != 0 witness ERR_CLSD
  // What netconn_recv_data meets: a packet, the end of the stream, or an error that keeps it
  // from looking.
  datatype Arrival = Data(p: Pbuf) | Fin | Broken(err: Failure)
  // One turn of the loop: the receive counter before it, what arrives, the counter after it.  TCP
  // may drop the connection before it is told what was fetched, or after.
  datatype Round = Round(rcvBefore: int, arrival: Arrival, lostBefore: bool, rcvAfter: int, lostAfter: bool)

  // last and offset are what the last read has left over, pcb says whether TCP still has the
  // connection.  The rest is what happened so far: the bytes taken from the mailbox, those given to
  // reads and to peeks, the ends of stream met, the window given back, and what should have been
  // given back when there was no connection any more; and how many bytes were taken from the mailbox
  // and ends of stream met by then.
  datatype Reader = Reader(last: Option<Pbuf>, offset: nat, noAuto: bool, nonBlocking: bool, pcb: bool,
                           fetched: seq<Byte>, returned: seq<Byte>, peeked: nat, fins: nat, credited: nat, dropped: nat,
                           lateFetched: nat, lateFins: nat)
  datatype Args = Args(len: nat, peek: bool, dontWait: bool)
  datatype Outcome = Outcome(reader: Reader, result: int, bytes: seq<Byte>)

  function Lose(r: Reader, lost: bool): Reader { if lost then r.(pcb := false) else r }

  function Credit(r: Reader, n: nat): Reader {
    if r.pcb then r.(credited := r.credited + n) else r.(dropped := r.dropped + n)
  }

  function Recved(r: Reader, n: nat): Reader { if r.noAuto then Credit(r, n) else r }

  function Stop(r: Reader, got: seq<Byte>, err: int): Outcome {
    if got != [] then Outcome(Recved(r, |got|), |got|, got)
    else Outcome(r, if err == ERR_CLSD then 0 else -1, [])
  }

  function Done(r: Reader, got: seq<Byte>): Outcome {
    Outcome(if got != [] then Recved(r, |got|) else r, |got|, got)
  }

  predicate Usable(r: Reader) {
    if r.last.None? then r.offset == 0 else r.offset < |r.last.value.data|
  }

  function Left(r: Reader): seq<Byte>
    requires Usable(r)
  {
    if r.last.None? then [] else r.last.value.data[r.offset..]
  }

  function Take(r: Reader, len: nat, peek: bool): (Reader, seq<Byte>)
    requires Usable(r) && r.last.Some?
  {
    var piece := Left(r)[..Min(len, |Left(r)|)];
    if peek then (r.(peeked := r.peeked + |piece|), piece)
    else
      var d := r.(returned := r.returned + piece);
      (if |piece| < |Left(r)| then d.(offset := r.offset + |piece|) else d.(last := None, offset := 0), piece)
  }

  function Store(r: Reader, p: Pbuf): Reader {
    (if r.noAuto then r else Credit(r, |p.data|)).(last := Some(p), fetched := r.fetched + p.data,
      lateFetched := r.lateFetched + if r.pcb then 0 else |p.data|)
  }

  function Finish(r: Reader): Reader {
    Credit(r, 1).(fins := r.fins + 1, lateFins := r.lateFins + if r.pcb then 0 else 1)
  }

  // The loop from its k-th turn, with got read so far and room for len more.
  function Receive(r: Reader, a: Args, world: nat -> Round, k: nat, len: nat, got: seq<Byte>): Outcome
    requires Usable(r)
    decreases len, if r.last.None? then 1 else 0
  {
    var w := world(k);
    if r.last.None? then
      var b := Lose(r, w.lostBefore);
      if (a.dontWait || r.nonBlocking) && w.rcvBefore <= 0 then Stop(Lose(b, w.lostAfter), got, ERR_WOULDBLOCK)
      else match w.arrival
        case Broken(err) => Stop(Lose(b, w.lostAfter), got, err)
        case Fin => Stop(Lose(Finish(b), w.lostAfter), got, ERR_CLSD)
        case Data(p) => Receive(Store(b, p), a, world, k, len, got)
    else
      var p := r.last.value;
      var (t, piece) := Take(r, len, a.peek);
      var d := Lose(t, w.lostAfter);
      if |piece| == len || p.push || w.rcvAfter <= 0 || a.peek then Done(d, got + piece)
      else Receive(d, a, world, k + 1, len - |piece|, got + piece)
  }

  function Recv(r: Reader, a: Args, world: nat -> Round): Outcome
    requires Usable(r)
  {
    Receive(r, a, world, 0, a.len, [])
  }

  // ---- what every call keeps -------------------------------------------------------------

  // Every byte fetched has been returned or is left over; every byte given to the application,
  // read or only peeked at, was credited once, and so was every end of stream, unless TCP had
  // dropped the connection.
  predicate Balanced(r: Reader, got: nat) {
    && Usable(r) && r.fetched == r.returned + Left(r) && (r.pcb ==> r.dropped == 0)
    && r.credited + r.dropped + (if r.noAuto then got else 0) ==
       r.fins + if r.noAuto then |r.returned| + r.peeked else |r.fetched|
  }

  // What a loop that had read got before delivers: more bytes, at most len of them, which it
  // consumes unless it peeks; a count if there are any, zero or an error otherwise.
  predicate Delivers(r: Reader, o: Outcome, peek: bool, len: nat, got: seq<Byte>) {
    && Balanced(o.reader, 0) && o.reader.noAuto == r.noAuto && o.reader.nonBlocking == r.nonBlocking
    && (o.reader.pcb ==> r.pcb)
    && got <= o.bytes && |o.bytes| <= |got| + len
    && (if peek then
          o.reader.returned == r.returned && o.reader.peeked == r.peeked + |o.bytes| - |got|
          && o.bytes[|got|..] <= Left(o.reader)
        else o.reader.returned == r.returned + o.bytes[|got|..] && o.reader.peeked == r.peeked)
    && (if o.bytes != [] then o.result == |o.bytes| else o.result == 0 || o.result == -1)
  }

  lemma StopDelivers(r: Reader, peek: bool, len: nat, got: seq<Byte>, err: int, lost: bool)
    requires Balanced(r, |got|)
    ensures Delivers(r, Stop(Lose(r, lost), got, err), peek, len, got)
    ensures Delivers(r, Done(Lose(r, lost), got), peek, len, got)
  {
    hide Balanced, Left, Recved;
    var d := Lose(r, lost);
    LoseKeeps(r, |got|, lost);
    RecvedKeeps(d, |got|);
    assert got[|got|..] == [] && r.returned + [] == r.returned;
  }

  lemma RecvedKeeps(r: Reader, n: nat)
    requires Balanced(r, n)
    ensures Usable(r) && Balanced(Recved(r, n), 0)
    ensures Recved(r, n) == r.(credited := Recved(r, n).credited, dropped := Recved(r, n).dropped)
    ensures n == 0 ==> Balanced(r, 0)
  {}

  lemma LoseKeeps(r: Reader, got: nat, lost: bool)
    requires Balanced(r, got)
    ensures Balanced(Lose(r, lost), got)
  {}

  lemma StoreKeeps(r: Reader, p: Pbuf, got: nat)
    requires Balanced(r, got) && r.last.None?
    ensures Balanced(Store(r, p), got)
  {
    assert p.data[0..] == p.data;
    assert Left(r) == [] && r.returned + [] == r.returned;
  }

  // What a read takes and what it leaves.
  lemma TakeLeft(r: Reader, len: nat, peek: bool)
    requires Usable(r) && r.last.Some?
    ensures var (d, piece) := Take(r, len, peek);
            && Usable(d) && |piece| <= len
            && d.(last := r.last, offset := r.offset, returned := r.returned, peeked := r.peeked) == r
            && (if peek then
                  d.returned == r.returned && d.peeked == r.peeked + |piece| && Left(d) == Left(r)
                  && Left(r) == piece + Left(r)[|piece|..]
                else d.returned == r.returned + piece && d.peeked == r.peeked && Left(r) == piece + Left(d))
  {
    var n, left := Min(len, |Left(r)|), Left(r);
    assert left[..n] + left[n..] == left;
    if !peek && n < |left| { assert r.last.value.data[r.offset + n..] == left[n..]; }
  }

  lemma TakeKeeps(r: Reader, len: nat, peek: bool, got: nat)
    requires Balanced(r, got) && r.last.Some?
    ensures var (d, piece) := Take(r, len, peek);
            && Balanced(d, got + |piece|) && |piece| <= len
            && d.noAuto == r.noAuto && d.nonBlocking == r.nonBlocking && d.fetched == r.fetched && d.pcb == r.pcb
            && (if peek then d.returned == r.returned && d.peeked == r.peeked + |piece| && Left(d) == Left(r)
                else d.returned == r.returned + piece && d.peeked == r.peeked)
            && Left(r) == piece + (if peek then Left(r)[|piece|..] else Left(d))
  {
    hide Left, Take;
    TakeLeft(r, len, peek);
    var (d, piece) := Take(r, len, peek);
    if !peek { Regroup(r.returned, piece, Left(d)); }
  }

  lemma Regroup(a: seq<Byte>, b: seq<Byte>, c: seq<Byte>)
    ensures (a + b) + c == a + (b + c)
  {}

  // The turns after the first add to what the first has read.
  lemma TurnDelivers(r: Reader, d: Reader, piece: seq<Byte>, o: Outcome, len: nat, got: seq<Byte>)
    requires |piece| <= len && Delivers(d, o, false, len - |piece|, got + piece)
    requires d.noAuto == r.noAuto && d.nonBlocking == r.nonBlocking && (d.pcb ==> r.pcb)
    requires d.returned == r.returned + piece && d.peeked == r.peeked
    ensures Delivers(r, o, false, len, got)
  {
    hide Balanced;
    assert o.bytes[|got|..] == piece + o.bytes[|got + piece|..];
    Regroup(r.returned, piece, o.bytes[|got + piece|..]);
    assert got <= got + piece <= o.bytes;
  }

  lemma PeekDelivers(r: Reader, d: Reader, piece: seq<Byte>, len: nat, got: seq<Byte>)
    requires Balanced(d, |got + piece|) && |piece| <= len && piece <= Left(d)
    requires d.noAuto == r.noAuto && d.nonBlocking == r.nonBlocking && (d.pcb ==> r.pcb)
    requires d.returned == r.returned && d.peeked == r.peeked + |piece|
    ensures Delivers(r, Done(d, got + piece), true, len, got)
  {
    assert (got + piece)[|got|..] == piece;
  }

  // Nothing has been delivered from r to d.
  predicate SameSoFar(r: Reader, d: Reader) {
    && d.noAuto == r.noAuto && d.nonBlocking == r.nonBlocking && (d.pcb ==> r.pcb)
    && d.returned == r.returned && d.peeked == r.peeked
  }

  lemma DeliversFrom(r: Reader, d: Reader, o: Outcome, peek: bool, len: nat, got: seq<Byte>)
    requires SameSoFar(r, d) && Delivers(d, o, peek, len, got)
    ensures Delivers(r, o, peek, len, got)
  {}

  lemma RefillKeeps(r: Reader, a: Args, w: Round, got: nat)
    requires Balanced(r, got) && r.last.None?
    ensures Balanced(Refill(r, a, w).0, got) && SameSoFar(r, Refill(r, a, w).0)
  {
    hide Balanced;
    var b := Lose(r, w.lostBefore);
    LoseKeeps(r, got, w.lostBefore);
    BalancedUsable(r, got);
    if !((a.dontWait || r.nonBlocking) && w.rcvBefore <= 0) {
      match w.arrival
      case Broken(err) =>
      case Fin => FinishKeeps(b, got);
      case Data(p) => StoreKeeps(b, p, got);
    }
  }

  lemma FinishKeeps(r: Reader, got: nat)
    requires Balanced(r, got)
    ensures Balanced(Finish(r), got)
  {}

  lemma {:induction false} ReceiveKeeps(r: Reader, a: Args, world: nat -> Round, k: nat, len: nat, got: seq<Byte>)
    requires Balanced(r, |got|)
    ensures Delivers(r, Receive(r, a, world, k, len, got), a.peek, len, got)
    decreases len, if r.last.None? then 1 else 0
  {
    hide Left, Take, Delivers, Balanced, Receive, Refill, Lose;
    BalancedUsable(r, |got|);
    if r.last.None? {
      var (d, err) := Refill(r, a, world(k));
      ReceiveRefills(r, a, world, k, len, got);
      RefillKeeps(r, a, world(k), |got|);
      if err == 0 {
        ReceiveKeeps(d, a, world, k, len, got);
      } else {
        StopDelivers(d, a.peek, len, got, err, world(k).lostAfter);
      }
      DeliversFrom(r, d, Receive(r, a, world, k, len, got), a.peek, len, got);
    } else {
      var (t, piece) := Take(r, len, a.peek);
      var d := Lose(t, world(k).lostAfter);
      ReceiveTakes(r, a, world, k, len, got);
      TakeKeeps(r, len, a.peek, |got|);
      LoseKeeps(t, |got| + |piece|, world(k).lostAfter);
      BalancedUsable(t, |got| + |piece|);
      LoseLeft(t, world(k).lostAfter);
      if a.peek {
        PeekDelivers(r, d, piece, len, got);
      } else {
        var o := Receive(r, a, world, k, len, got);
        if o == Done(d, got + piece) {
          StopDelivers(d, false, len - |piece|, got + piece, ERR_CLSD, false);
          LoseNot(d);
        } else {
          ReceiveKeeps(d, a, world, k + 1, len - |piece|, got + piece);
        }
        TurnDelivers(r, d, piece, o, len, got);
      }
    }
  }

  lemma LoseNot(r: Reader)
    ensures Lose(r, false) == r
  {}

  lemma BalancedUsable(r: Reader, got: nat)
    requires Balanced(r, got)
    ensures Usable(r)
  {}

  lemma LoseLeft(r: Reader, lost: bool)
    requires Usable(r)
    ensures var d := Lose(r, lost);
            && Usable(d) && Left(d) == Left(r) && d.noAuto == r.noAuto && d.nonBlocking == r.nonBlocking
            && (d.pcb ==> r.pcb) && d.returned == r.returned && d.peeked == r.peeked
  {}

  // ---- any sequence of calls -------------------------------------------------------------

  datatype Request = Request(args: Args, world: nat -> Round)

  function Reads(r: Reader, calls: seq<Request>): (Reader, seq<Byte>)
    requires Balanced(r, 0)
    decreases |calls|
  {
    if calls == [] then (r, [])
    else
      var (d, before) := Reads(r, calls[..|calls| - 1]);
      var c := calls[|calls| - 1];
      if Balanced(d, 0) then
        var o := Recv(d, c.args, c.world);
        (o.reader, if c.args.peek then before else before + o.bytes)
      else (d, before)
  }

  // However reads are cut: the bytes they return, put together, are those taken from the
  // connection up to what is left over, and the window given back is their number, plus the
  // bytes peeked at, plus one for every end of stream met.
  lemma {:induction false} ReadsKeepStream(r: Reader, calls: seq<Request>)
    requires Balanced(r, 0)
    ensures var (d, bytes) := Reads(r, calls);
            Balanced(d, 0) && d.noAuto == r.noAuto
            && d.returned == r.returned + bytes && d.fetched == r.returned + bytes + Left(d)
    decreases |calls|
  {
    hide Receive, Left, Recv;
    if calls == [] {
      assert r.returned + [] == r.returned;
    } else {
      var (d, before) := Reads(r, calls[..|calls| - 1]);
      var c := calls[|calls| - 1];
      ReadsKeepStream(r, calls[..|calls| - 1]);
      RecvDelivers(d, c);
      Regroup(r.returned, before, Recv(d, c.args, c.world).bytes);
    }
  }

  lemma RecvDelivers(r: Reader, c: Request)
    requires Balanced(r, 0)
    ensures var o := Recv(r, c.args, c.world);
            && Balanced(o.reader, 0) && o.reader.noAuto == r.noAuto && |o.bytes| <= c.args.len
            && o.reader.returned == (if c.args.peek then r.returned else r.returned + o.bytes)
            && o.reader.peeked == r.peeked + (if c.args.peek then |o.bytes| else 0)
  {
    hide Receive;
    ReceiveKeeps(r, c.args, c.world, 0, c.args.len, []);
    assert Recv(r, c.args, c.world).bytes[0..] == Recv(r, c.args, c.world).bytes;
  }

  // ---- what is dropped -------------------------------------------------------------------

  // Between r and d nothing has been delivered; what was dropped was fetched late.
  predicate DropsSoFar(r: Reader, d: Reader) {
    && d.noAuto == r.noAuto && d.lateFins >= r.lateFins && d.lateFetched >= r.lateFetched
    && d.dropped == r.dropped + (d.lateFins - r.lateFins) + if r.noAuto then 0 else d.lateFetched - r.lateFetched
  }

  // A call drops what it returns if it ends without a connection, and what it fetches without.
  predicate Drops(r: Reader, o: Outcome) {
    && o.reader.noAuto == r.noAuto && o.reader.lateFins >= r.lateFins && o.reader.lateFetched >= r.lateFetched
    && o.reader.dropped == r.dropped + (o.reader.lateFins - r.lateFins) +
         if !r.noAuto then o.reader.lateFetched - r.lateFetched else if o.reader.pcb then 0 else |o.bytes|
  }

  lemma {:induction false} ReceiveDrops(r: Reader, a: Args, world: nat -> Round, k: nat, len: nat, got: seq<Byte>)
    requires Usable(r)
    ensures Drops(r, Receive(r, a, world, k, len, got))
    decreases len, if r.last.None? then 1 else 0
  {
    hide Receive, Refill, Take, Left;
    if r.last.None? {
      var (d, err) := Refill(r, a, world(k));
      ReceiveRefills(r, a, world, k, len, got);
      RefillDrops(r, a, world(k));
      if err == 0 { ReceiveDrops(d, a, world, k, len, got); }
    } else {
      var (t, piece) := Take(r, len, a.peek);
      ReceiveTakes(r, a, world, k, len, got);
      TakeLeft(r, len, a.peek);
      var d := Lose(t, world(k).lostAfter);
      if Receive(r, a, world, k, len, got) != Done(d, got + piece) {
        ReceiveDrops(d, a, world, k + 1, len - |piece|, got + piece);
      }
    }
  }

  lemma RefillDrops(r: Reader, a: Args, w: Round)
    requires Usable(r)
    ensures DropsSoFar(r, Refill(r, a, w).0)
  {}

  // After the loss: did the call return data, or, where packets are credited as they are fetched,
  // fetch any, or meet the end of the stream?
  predicate Late(r: Reader, c: Request)
    requires Usable(r)
  {
    var o := Recv(r, c.args, c.world);
    || o.reader.lateFins > r.lateFins
    || if r.noAuto then o.bytes != [] && !o.reader.pcb else o.reader.lateFetched > r.lateFetched
  }

  predicate AnyLate(r: Reader, calls: seq<Request>)
    requires Balanced(r, 0)
    decreases |calls|
  {
    calls != [] &&
    var n := |calls| - 1;
    var d := Reads(r, calls[..n]).0;
    AnyLate(r, calls[..n]) || (Balanced(d, 0) && Late(d, calls[n]))
  }

  lemma {:induction false} DroppedExactly(r: Reader, calls: seq<Request>)
    requires Balanced(r, 0)
    ensures var d := Reads(r, calls).0;
            d.dropped >= r.dropped && (d.dropped == r.dropped <==> !AnyLate(r, calls))
    decreases |calls|
  {
    hide Receive, Left, Balanced, Late;
    if calls != [] {
      var n := |calls| - 1;
      var d := Reads(r, calls[..n]).0;
      ReadsKeepStream(r, calls[..n]);
      DroppedExactly(r, calls[..n]);
      BalancedUsable(d, 0);
      CallDrops(d, calls[n]);
    }
  }

  lemma CallDrops(r: Reader, c: Request)
    requires Usable(r)
    ensures var o := Recv(r, c.args, c.world);
            o.reader.dropped >= r.dropped && (o.reader.dropped == r.dropped <==> !Late(r, c))
  {
    hide Receive;
    ReceiveDrops(r, c.args, c.world, 0, c.args.len, []);
  }

  // The window given back and what was dropped add up to what was consumed and peeked at.  From a
  // reader that has dropped nothing the window matches what was consumed, if no peek returned data,
  // exactly when no call after the loss of the connection returned any, or fetched any, or met the
  // end of the stream; and with the connection still there exactly when no peek returned data.
  lemma CreditExact(r: Reader, calls: seq<Request>)
    requires Balanced(r, 0) && r.dropped == 0
    ensures var d := Reads(r, calls).0;
            var matches := d.credited == d.fins + if r.noAuto then |d.returned| else |d.fetched|;
            && d.credited + d.dropped == d.fins + (if r.noAuto then |d.returned| + d.peeked else |d.fetched|)
            && (!r.noAuto || d.peeked == 0 ==> (matches <==> !AnyLate(r, calls)))
            && (d.pcb ==> !AnyLate(r, calls) && (r.noAuto ==> (matches <==> d.peeked == 0)))
            && (r.noAuto ==> (matches <==> d.peeked == d.dropped))
  {
    hide AnyLate;
    ReadsKeepStream(r, calls);
    DroppedExactly(r, calls);
  }

  lemma {:induction false} PeeksCounted(r: Reader, calls: seq<Request>)
    requires Balanced(r, 0) && forall c :: c in calls ==> !c.args.peek
    ensures Reads(r, calls).0.peeked == r.peeked
    decreases |calls|
  {
    if calls != [] {
      ReadsKeepStream(r, calls[..|calls| - 1]);
      PeeksCounted(r, calls[..|calls| - 1]);
      var d := Reads(r, calls[..|calls| - 1]).0;
      var c := calls[|calls| - 1];
      RecvDelivers(d, c);
    }
  }

  // Every peek that returns data credits bytes that stay to be read, as long as TCP has the
  // connection.
  lemma PeekCredits(r: Reader, a: Args, world: nat -> Round)
    requires Balanced(r, 0) && r.noAuto && r.last.Some? && a.peek && a.len > 0
    ensures var o := Recv(r, a, world);
            && o.result > 0 && o.reader.returned == r.returned
            && (if r.pcb && !world(0).lostAfter then
                  o.reader.credited == r.credited + o.result && o.reader.credited > |o.reader.returned| + o.reader.fins
                else o.reader.credited == r.credited)
  {
    hide Left;
    ReceiveKeeps(r, a, world, 0, a.len, []);
    LeftSome(r);
  }

  // What was left over when TCP dropped the connection can still be read, and is not credited.
  lemma ResetDropsCredit(r: Reader, a: Args, world: nat -> Round)
    requires Balanced(r, 0) && r.noAuto && r.last.Some? && !a.peek && 0 < a.len <= |Left(r)| && !r.pcb
    ensures var o := Recv(r, a, world);
            && o.result == a.len && o.reader.returned == r.returned + o.bytes && |o.bytes| == a.len
            && o.reader.credited == r.credited && o.reader.dropped == r.dropped + a.len
  {
    hide Left;
    ReceiveKeeps(r, a, world, 0, a.len, []);
  }

  lemma LeftSome(r: Reader)
    requires Usable(r) && r.last.Some?
    ensures |Left(r)| > 0
  {}

  // ---- one turn at a time ----------------------------------------------------------------

  function Refill(r: Reader, a: Args, w: Round): (Reader, int)
    requires Usable(r)
  {
    if r.last.Some? then (r, 0)
    else
      var b := Lose(r, w.lostBefore);
      if (a.dontWait || r.nonBlocking) && w.rcvBefore <= 0 then (b, ERR_WOULDBLOCK)
      else match w.arrival
        case Broken(err) => (b, err)
        case Fin => (Finish(b), ERR_CLSD)
        case Data(p) => (Store(b, p), 0)
  }

  lemma ReceiveRefills(r: Reader, a: Args, world: nat -> Round, k: nat, len: nat, got: seq<Byte>)
    requires Usable(r)
    ensures var (d, err) := Refill(r, a, world(k));
            Usable(d) && (err == 0 ==> d.last.Some?) &&
            Receive(r, a, world, k, len, got) ==
              if err == 0 then Receive(d, a, world, k, len, got) else Stop(Lose(d, world(k).lostAfter), got, err)
  {}

  lemma ReceiveTakes(r: Reader, a: Args, world: nat -> Round, k: nat, len: nat, got: seq<Byte>)
    requires Usable(r) && r.last.Some?
    ensures var (t, piece) := Take(r, len, a.peek);
            var d := Lose(t, world(k).lostAfter);
            Usable(d) && |piece| <= len &&
            var done := |piece| == len || r.last.value.push || world(k).rcvAfter <= 0 || a.peek;
            (!done ==> |piece| > 0) &&
            Receive(r, a, world, k, len, got) ==
              if done then Done(d, got + piece) else Receive(d, a, world, k + 1, len - |piece|, got + piece)
  {}

  // ---- what a call without data answers --------------------------------------------------

  predicate WouldBlock(r: Reader, a: Args, w: Round) { (a.dontWait || r.nonBlocking) && w.rcvBefore <= 0 }

  // With room for data, a call returns none exactly if nothing is left over and it would block, or
  // meets no packet.  Its result is then 0 if it met the end of the stream or the connection says it
  // is closed, and -1 if it would block or met another error; with data it is their number.
  lemma ResultExact(r: Reader, a: Args, world: nat -> Round)
    requires Usable(r) && a.len > 0
    ensures var o, w := Recv(r, a, world), world(0);
            && (o.bytes == [] <==> r.last.None? && (WouldBlock(r, a, w) || !w.arrival.Data?))
            && (o.bytes == [] ==>
                  && (o.result == 0 <==>
                        o.reader.fins > r.fins || (!WouldBlock(r, a, w) && w.arrival == Broken(ERR_CLSD)))
                  && (o.result == -1 <==> WouldBlock(r, a, w) || (w.arrival.Broken? && w.arrival.err != ERR_CLSD)))
            && (o.bytes != [] ==> o.result == |o.bytes|)
            && (o.reader.fins > r.fins && o.bytes == [] <==> r.last.None? && !WouldBlock(r, a, w) && w.arrival.Fin?)
  {
    hide Take, Left;
    if r.last.Some? {
      DataFirst(r, a, world, 0, a.len, []);
    } else if !WouldBlock(r, a, world(0)) && world(0).arrival.Data? {
      DataFirst(Store(Lose(r, world(0).lostBefore), world(0).arrival.p), a, world, 0, a.len, []);
    }
  }

  // The result of a call without data: 0 at the end of the stream and on a closed connection, -1 if
  // it would block or met another error.
  predicate NoData(r: Reader, a: Args, w: Round, result: int) {
    && r.last.None?
    && if WouldBlock(r, a, w) then result == -1
       else match w.arrival
         case Data(_) => false
         case Fin => result == 0
         case Broken(err) => result == if err == ERR_CLSD then 0 else -1
  }

  lemma NoDataAnswered(r: Reader, a: Args, world: nat -> Round)
    requires Usable(r)
    ensures a.len > 0 && Recv(r, a, world).result <= 0 ==> NoData(r, a, world(0), Recv(r, a, world).result)
  {
    hide Receive;
    if a.len > 0 { ResultExact(r, a, world); }
  }

  // A turn with something left over delivers some of it.
  lemma DataFirst(r: Reader, a: Args, world: nat -> Round, k: nat, len: nat, got: seq<Byte>)
    requires Usable(r) && r.last.Some? && len > 0
    ensures var o := Receive(r, a, world, k, len, got);
            o.bytes != [] && o.result == |o.bytes|
  {
    hide Left, Take, Receive;
    var (t, piece) := Take(r, len, a.peek);
    TakeSome(r, len, a.peek);
    ReceiveTakes(r, a, world, k, len, got);
    var d := Lose(t, world(k).lostAfter);
    if Receive(r, a, world, k, len, got) != Done(d, got + piece) {
      GotStays(d, a, world, k + 1, len - |piece|, got + piece);
    }
  }

  lemma TakeSome(r: Reader, len: nat, peek: bool)
    requires Usable(r) && r.last.Some? && len > 0
    ensures |Take(r, len, peek).1| > 0
  {}

  lemma {:induction false} GotStays(r: Reader, a: Args, world: nat -> Round, k: nat, len: nat, got: seq<Byte>)
    requires Usable(r) && got != []
    ensures var o := Receive(r, a, world, k, len, got);
            got <= o.bytes && o.result == |o.bytes|
    decreases len, if r.last.None? then 1 else 0
  {
    hide Left, Take, Receive, Refill;
    if r.last.None? {
      ReceiveRefills(r, a, world, k, len, got);
      var (d, err) := Refill(r, a, world(k));
      if err == 0 { GotStays(d, a, world, k, len, got); }
    } else {
      var (t, piece) := Take(r, len, a.peek);
      ReceiveTakes(r, a, world, k, len, got);
      var d := Lose(t, world(k).lostAfter);
      if Receive(r, a, world, k, len, got) != Done(d, got + piece) {
        GotStays(d, a, world, k + 1, len - |piece|, got + piece);
        assert got <= got + piece;
      }
    }
  }

  // ---- how far a call reads --------------------------------------------------------------

  // The i-th packet a call reads from: what is left over, if anything is, then those that arrive.
  function PacketAt(r: Reader, world: nat -> Round, i: nat): Packet
    requires Usable(r)
  {
    if i == 0 && r.last.Some? then Packet(Left(r), r.last.value.push)
    else if world(i).arrival.Data? then world(i).arrival.p
    else Packet([], true)
  }

  // Instead of a packet the i-th turn meets the end of the stream or an error, or would block.
  predicate Dry(r: Reader, a: Args, world: nat -> Round, i: nat) {
    !(i == 0 && r.last.Some?) && (WouldBlock(r, a, world(i)) || !world(i).arrival.Data?)
  }

  function Upto(r: Reader, world: nat -> Round, n: nat): seq<Byte>
    requires Usable(r)
  {
    if n == 0 then [] else Upto(r, world, n - 1) + PacketAt(r, world, n - 1).data
  }

  // The i-th packet ends the call: it fills the buffer, carries a push or is the last counted.
  predicate Ends(r: Reader, world: nat -> Round, len: nat, i: nat)
    requires Usable(r)
  {
    PacketAt(r, world, i).push || world(i).rcvAfter <= 0 || |Upto(r, world, i + 1)| >= len
  }

  predicate GoesOn(r: Reader, a: Args, world: nat -> Round, n: nat)
    requires Usable(r)
  {
    forall i :: 0 <= i < n ==> !Dry(r, a, world, i) && !Ends(r, world, a.len, i)
  }

  // The call reads n packets: the last of them ends it, or there is no further one.
  predicate ReadsPackets(r: Reader, a: Args, world: nat -> Round, n: nat)
    requires Usable(r)
  {
    if GoesOn(r, a, world, n) then Dry(r, a, world, n)
    else n > 0 && GoesOn(r, a, world, n - 1) && !Dry(r, a, world, n - 1) && Ends(r, world, a.len, n - 1)
  }

  // In every world a read takes whole packets until it has all it asked for, one ends with a push,
  // the counter says that no more is there, or none comes; it returns their bytes, as many as it
  // asked for.
  lemma ReadsUntil(r: Reader, a: Args, world: nat -> Round) returns (n: nat)
    requires Usable(r) && !a.peek && a.len > 0
    ensures ReadsPackets(r, a, world, n)
    ensures var all := Upto(r, world, n);
            Recv(r, a, world).bytes == all[..Min(a.len, |all|)]
  {
    hide Receive;
    n := ReadsOn(r, r, a, world, 0, a.len, []);
  }

  lemma {:induction false} ReadsOn(r0: Reader, r: Reader, a: Args, world: nat -> Round, k: nat, len: nat,
      got: seq<Byte>)
    returns (n: nat)
    requires Usable(r0) && Usable(r) && !a.peek && 0 < len && |got| + len == a.len && r.nonBlocking == r0.nonBlocking
    requires got == Upto(r0, world, k) && GoesOn(r0, a, world, k) && if k == 0 then r == r0 else r.last.None?
    ensures ReadsPackets(r0, a, world, n)
    ensures var all := Upto(r0, world, n);
            Receive(r, a, world, k, len, got).bytes == all[..Min(a.len, |all|)]
    decreases len
  {
    hide Receive, Take, Upto, GoesOn, Refill, Dry;
    ReceiveRefills(r, a, world, k, len, got);
    var (d, err) := Refill(r, a, world(k));
    Refilled(r0, r, a, world, k);
    if err != 0 {
      n := k;
      assert got[..|got|] == got;
    } else {
      var p := PacketAt(r0, world, k);
      ReceiveTakes(d, a, world, k, len, got);
      TakeLeft(d, len, false);
      TakeAll(d, len);
      var (t, piece) := Take(d, len, false);
      UptoNext(r0, world, k);
      GoesOnNext(r0, a, world, k);
      if |piece| == len || p.push || world(k).rcvAfter <= 0 {
        n := k + 1;
        assert got + p.data[..|piece|] == (got + p.data)[..|got| + |piece|];
      } else {
        TakeSome(d, len, false);
        n := ReadsOn(r0, Lose(t, world(k).lostAfter), a, world, k + 1, len - |piece|, got + piece);
      }
    }
  }

  lemma Refilled(r0: Reader, r: Reader, a: Args, world: nat -> Round, k: nat)
    requires Usable(r0) && Usable(r) && r.nonBlocking == r0.nonBlocking && if k == 0 then r == r0 else r.last.None?
    ensures var (d, err) := Refill(r, a, world(k));
            && Usable(d) && d.nonBlocking == r.nonBlocking && (err != 0 <==> Dry(r0, a, world, k))
            && (err == 0 ==>
                  d.last.Some? && Left(d) == PacketAt(r0, world, k).data
                  && d.last.value.push == PacketAt(r0, world, k).push)
  {}

  lemma TakeAll(r: Reader, len: nat)
    requires Usable(r) && r.last.Some?
    ensures var (t, piece) := Take(r, len, false);
            && piece == Left(r)[..Min(len, |Left(r)|)] && t.nonBlocking == r.nonBlocking
            && (|piece| < len ==> t.last.None? && piece == Left(r))
  {}

  lemma UptoNext(r: Reader, world: nat -> Round, k: nat)
    requires Usable(r)
    ensures Upto(r, world, k + 1) == Upto(r, world, k) + PacketAt(r, world, k).data
  {}

  lemma GoesOnNext(r: Reader, a: Args, world: nat -> Round, k: nat)
    requires Usable(r) && GoesOn(r, a, world, k)
    ensures GoesOn(r, a, world, k + 1) <==> !Dry(r, a, world, k) && !Ends(r, world, a.len, k)
  {}

  // A peek returns the front of the first packet and of no other.
  lemma PeeksFirst(r: Reader, a: Args, world: nat -> Round)
    requires Usable(r) && a.peek && a.len > 0
    ensures var p := PacketAt(r, world, 0).data;
            Recv(r, a, world).bytes == if Dry(r, a, world, 0) then [] else p[..Min(a.len, |p|)]
  {
    hide Left;
    ReceiveRefills(r, a, world, 0, a.len, []);
    Refilled(r, r, a, world, 0);
  }
}

// Which fast writes end up where they belong.  The count of buffered bytes is kept apart from the
// offset in the sector the address gives; where the two differ a stream can be misplaced.
module StreamExact {
  import opened Wrappers
  import opened FlashSpec
  import opened StreamSpec

  // A stream that is in step is kept, unless it ends a chip whose addresses wrap round and holds its
  // first sector.
  lemma InStepKept(b: Buffer, addr: nat, chunks: seq<seq<Byte>>, wraps: bool)
    requires Sized(b) && InStep(b.sector, b.off, addr) && addr + |Joined(chunks)| <= |b.mem|
    requires !(wraps && addr < SECTOR && Joined(chunks) != [] && addr + |Joined(chunks)| == |b.mem|)
    ensures End(Calls(b, addr, chunks, wraps), wraps)[addr..addr + |Joined(chunks)|] == Joined(chunks)
  {
    hide Calls, Turn, Ended, End, InStep;
    var data := Joined(chunks);
    if data != [] {
      AtSector(addr);
      CallsEnd(b, addr, chunks, wraps);
      var stream := b.cache[..addr % SECTOR] + data;
      var base, cache := Turn(b, addr, wraps).mem, Calls(b, addr, chunks, wraps).cache;
      EndedKeeps(base, Begin(addr), stream, cache, wraps);
      var f := Ended(base, Begin(addr), stream, cache, wraps);
      Within(f, Begin(addr), Begin(addr) + |stream|, addr, |data|);
      assert stream[addr % SECTOR..] == data;
    }
  }

  lemma OneCall(b: Buffer, addr: nat, data: seq<Byte>, wraps: bool)
    requires Sized(b) && data != [] && addr < |b.mem|
    ensures Calls(b, addr, [data], wraps) == Call(b, addr, data, wraps) && Joined([data]) == data
  {
    hide Call;
    assert [data][..0] == [];
    assert Joined([data][..0]) == [];
  }

  lemma Within(f: seq<Byte>, p: nat, q: nat, i: nat, n: nat)
    requires p <= i && i + n <= q <= |f|
    ensures f[i..i + n] == f[p..q][i - p..i - p + n]
  {
    var g, h := f[i..i + n], f[p..q][i - p..i - p + n];
    forall k | 0 <= k < n ensures g[k] == h[k] { assert f[p..q][i - p + k] == f[i + k]; }
  }

  // ---- out of step -----------------------------------------------------------------------

  // Flushes of later sectors leave a byte alone, or erase it where addresses wrap round.
  lemma FlushAbove(b: Buffer, wraps: bool, i: nat)
    requires Sized(b) && i < |b.mem| && i < b.sector * SECTOR
    ensures Flush(b, wraps).mem[i] == b.mem[i] || Flush(b, wraps).mem[i] == ERASED
  {
    InRange(b.sector, |b.mem|);
    if (b.sector + 1) * SECTOR <= |b.mem| {
      OverlayAt(b.mem, b.sector * SECTOR, b.cache, i);
    } else if wraps {
      OverlayAt(b.mem, b.sector % (|b.mem| / SECTOR) * SECTOR, seq(SECTOR, _ => ERASED), i);
    }
  }

  lemma CopyAbove(b: Buffer, offset: nat, piece: seq<Byte>, wraps: bool, i: nat)
    requires Sized(b) && offset + |piece| <= SECTOR && i < |b.mem| && i < b.sector * SECTOR
    ensures var c := Copy(b, offset, piece, wraps);
            i < c.sector * SECTOR && (c.mem[i] == b.mem[i] || c.mem[i] == ERASED)
  {
    hide AfterFlush;
    var c := b.(cache := Overlay(b.cache, offset, piece), off := b.off + |piece|);
    if c.off >= SECTOR {
      assert Flush(c, wraps) == Flush(c.(off := 0), wraps);
      FlushAbove(c.(off := 0), wraps, i);
    }
  }

  lemma {:induction false} LoopAbove(b: Buffer, offset: nat, data: seq<Byte>, wraps: bool, i: nat)
    requires Sized(b) && offset < SECTOR && i < |b.mem| && i < b.sector * SECTOR
    ensures var c := Loop(b, offset, data, wraps);
            i < c.sector * SECTOR && (c.mem[i] == b.mem[i] || c.mem[i] == ERASED)
    decreases |data|
  {
    hide Copy;
    if data != [] {
      var len := Min(|data|, SECTOR - offset);
      CopyAbove(b, offset, data[..len], wraps, i);
      LoopAbove(Copy(b, offset, data[..len], wraps), 0, data[len..], wraps, i);
    }
  }

  // The two turns of the loop that a range across a sector boundary takes first, fewer bytes being
  // counted than the offset says: the first fills the cache and does not flush it, the second
  // goes to its front.
  lemma FirstTurn(b: Buffer, a: nat, data: seq<Byte>, wraps: bool)
    requires Sized(b) && b.off < a < SECTOR && |data| > SECTOR - a
    ensures var c := b.(cache := b.cache[..a] + data[..SECTOR - a], off := b.off + (SECTOR - a));
            Sized(c) && Loop(b, a, data, wraps) == Loop(c, 0, data[SECTOR - a..], wraps)
  {
    hide AfterFlush;
    OverlayRest(b.cache, a, data[..SECTOR - a]);
  }

  lemma FullTurn(b: Buffer, rest: seq<Byte>, len: nat, wraps: bool)
    requires Sized(b) && rest != [] && len == Min(|rest|, SECTOR) && b.off + len >= SECTOR
    ensures var cache := rest[..len] + b.cache[len..];
            |cache| == SECTOR && |b.mem| % SECTOR == 0
            && Loop(b, 0, rest, wraps) ==
               Loop(Buffer(AfterFlush(b.mem, cache, b.sector, wraps), cache, b.sector + 1, 0), 0, rest[len..], wraps)
  {
    hide AfterFlush;
    assert Overlay(b.cache, 0, rest[..len]) == rest[..len] + b.cache[len..];
  }

  // The byte at addr ends up as the one a sector further on.
  lemma Collides(b: Buffer, addr: nat, data: seq<Byte>, wraps: bool)
    requires Sized(b) && |data| > SECTOR && addr + |data| <= |b.mem|
    requires Turn(b, addr, wraps).off < addr % SECTOR
    ensures var byte := End(Call(b, addr, data, wraps), wraps)[addr];
            byte == data[SECTOR] || byte == ERASED
  {
    hide Loop, Turn, Overlay, EraseAny;
    var a, c := addr % SECTOR, Turn(b, addr, wraps);
    AtSector(addr);
    FirstTurn(c, a, data, wraps);
    var d := c.(cache := c.cache[..a] + data[..SECTOR - a], off := c.off + (SECTOR - a));
    var rest := data[SECTOR - a..];
    var len := Min(|rest|, SECTOR);
    FullTurn(d, rest, len, wraps);
    var cache := rest[..len] + d.cache[len..];
    var e := Buffer(AfterFlush(d.mem, cache, d.sector, wraps), cache, d.sector + 1, 0);
    OverlayAt(d.mem, d.sector * SECTOR, cache, addr);
    assert e.mem[addr] == cache[a] == rest[a] == data[SECTOR];
    LoopAbove(e, 0, rest[len..], wraps, addr);
    FlushAbove(Loop(e, 0, rest[len..], wraps), wraps, addr);
  }

  // ---- one call from an empty buffer -----------------------------------------------------

  // Within a sector: it is written when the buffer is destroyed.
  lemma WithinSector(b: Buffer, addr: nat, data: seq<Byte>, wraps: bool)
    requires Sized(b) && b.off == 0 && data != [] && addr % SECTOR > 0 && addr % SECTOR + |data| <= SECTOR
    requires addr + |data| <= |b.mem|
    ensures End(Call(b, addr, data, wraps), wraps)[addr..addr + |data|] == data
  {
    hide Overlay, EraseAny;
    var a, c := addr % SECTOR, Turn(b, addr, wraps);
    AtSector(addr);
    var cache := Overlay(b.cache, a, data);
    LastTurn(c, a, data, wraps);
    assert Call(b, addr, data, wraps) == c.(cache := cache, off := |data|);
    OverlayReads(b.cache, a, data);
    OverlayReads(c.mem, c.sector * SECTOR, cache);
    var f := Overlay(c.mem, c.sector * SECTOR, cache);
    Within(f, Begin(addr), Begin(addr) + SECTOR, addr, |data|);
  }

  // Across a boundary with less than a sector: what belongs to the next sector is not written.
  lemma Unwritten(b: Buffer, addr: nat, data: seq<Byte>, wraps: bool)
    requires Sized(b) && b.off == 0 && |data| < SECTOR < addr % SECTOR + |data| && addr + |data| <= |b.mem|
    ensures var next := Begin(addr) + SECTOR;
            addr < next < addr + |data| && End(Call(b, addr, data, wraps), wraps)[next] == b.mem[next]
  {
    hide Loop, Overlay, EraseAny;
    var a, c, next := addr % SECTOR, Turn(b, addr, wraps), Begin(addr) + SECTOR;
    AtSector(addr);
    FirstTurn(c, a, data, wraps);
    var d := c.(cache := c.cache[..a] + data[..SECTOR - a], off := SECTOR - a);
    ShortTurn(d, data[SECTOR - a..], wraps);
    var r := Loop(d, 0, data[SECTOR - a..], wraps);
    OverlayAt(r.mem, r.sector * SECTOR, r.cache, next);
  }

  lemma LastTurn(b: Buffer, offset: nat, data: seq<Byte>, wraps: bool)
    requires Sized(b) && offset < SECTOR && data != [] && offset + |data| <= SECTOR
    ensures Loop(b, offset, data, wraps) == Copy(b, offset, data, wraps)
  {
    hide Copy;
    assert data[..|data|] == data && data[|data|..] == [];
  }

  lemma ShortTurn(b: Buffer, rest: seq<Byte>, wraps: bool)
    requires Sized(b) && rest != [] && b.off + |rest| < SECTOR
    ensures var r := Loop(b, 0, rest, wraps);
            r.mem == b.mem && r.sector == b.sector && r.off == b.off + |rest| && r.cache == rest + b.cache[|rest|..]
  {
    LastTurn(b, 0, rest, wraps);
  }

  // A whole sector's worth across a boundary: both parts find their places, in two flushes of one
  // cache.
  lemma WholeSectorSplit(b: Buffer, addr: nat, data: seq<Byte>, wraps: bool)
    requires Sized(b) && b.off == 0 && |data| == SECTOR && addr % SECTOR > 0 && addr + |data| <= |b.mem|
    ensures End(Call(b, addr, data, wraps), wraps)[addr..addr + |data|] == data
  {
    hide Loop, Overlay, EraseAny;
    var a, c := addr % SECTOR, Turn(b, addr, wraps);
    AtSector(addr);
    FirstTurn(c, a, data, wraps);
    var d := c.(cache := c.cache[..a] + data[..SECTOR - a], off := SECTOR - a);
    var rest := data[SECTOR - a..];
    FullTurn(d, rest, a, wraps);
    var cache := rest[..a] + d.cache[a..];
    assert cache == rest + data[..SECTOR - a];
    var e := Buffer(AfterFlush(d.mem, cache, d.sector, wraps), cache, d.sector + 1, 0);
    assert Loop(e, 0, rest[a..], wraps) == e by { NoTurn(e, wraps); assert rest[a..] == []; }
    OverlayTwice(d.mem, d.sector * SECTOR, cache, cache);
    var f := Overlay(d.mem, d.sector * SECTOR, cache + cache);
    OverlayReads(d.mem, d.sector * SECTOR, cache + cache);
    Within(f, Begin(addr), Begin(addr) + 2 * SECTOR, addr, SECTOR);
    Rotated(data, SECTOR - a);
  }

  lemma Rotated(data: seq<Byte>, k: nat)
    requires k <= |data|
    ensures var turned := data[k..] + data[..k];
            (turned + turned)[|data| - k..|data| - k + |data|] == data
  {
    assert (data[k..] + data[..k]) + (data[k..] + data[..k]) == data[k..] + data + data[..k];
  }

  lemma NoTurn(b: Buffer, wraps: bool)
    requires Sized(b)
    ensures Loop(b, 0, [], wraps) == b
  {}

  // The range holds the data after one call and the end of the session, whatever data, chip and
  // cache held.
  ghost predicate SingleKept(size: nat, addr: nat, n: nat, wraps: bool)
    requires addr + n <= size
  {
    forall b: Buffer, data: seq<Byte> :: Sized(b) && |b.mem| == size && b.off == 0 && |data| == n ==>
      End(Call(b, addr, data, wraps), wraps)[addr..addr + n] == data
  }

  function Marked(n: nat): (s: seq<Byte>)
    ensures |s| == n && forall i :: 0 <= i < n ==> s[i] == if i == SECTOR then 2 else 1
  {
    seq(n, i => if i == SECTOR then 2 else 1)
  }

  function Blank(size: nat): (b: Buffer)
    requires size % SECTOR == 0
    ensures Sized(b) && |b.mem| == size && b.off == 0 && forall i :: 0 <= i < size ==> b.mem[i] == 0
  {
    Buffer(seq(size, _ => 0), seq(SECTOR, _ => 0), 0, 0)
  }

  // One call from an empty buffer is kept exactly when it starts on a sector boundary, stays within
  // a sector or has exactly the length of one, and does not fill a chip whose addresses wrap round.
  lemma SingleKeptExactly(size: nat, addr: nat, n: nat, wraps: bool)
    requires size % SECTOR == 0 && n > 0 && addr + n <= size
    ensures SingleKept(size, addr, n, wraps) <==>
      (addr % SECTOR == 0 || OneSector(addr, n) || n == SECTOR) && !(wraps && n == size)
  {
    hide Call, End, Turn, Sized;
    OneSectorIs(addr, n);
    if (addr % SECTOR == 0 || OneSector(addr, n) || n == SECTOR) && !(wraps && n == size) {
      forall b: Buffer, data: seq<Byte> | Sized(b) && |b.mem| == size && b.off == 0 && |data| == n
        ensures End(Call(b, addr, data, wraps), wraps)[addr..addr + n] == data
      {
        SingleIsKept(b, addr, data, wraps);
      }
    } else {
      var b := Blank(size);
      SingleFails(b, addr, Marked(n), wraps);
    }
  }

  lemma OneSectorIs(addr: nat, n: nat)
    requires n > 0
    ensures OneSector(addr, n) <==> addr % SECTOR + n <= SECTOR
  {}

  lemma SingleIsKept(b: Buffer, addr: nat, data: seq<Byte>, wraps: bool)
    requires Sized(b) && b.off == 0 && data != [] && addr + |data| <= |b.mem|
    requires addr % SECTOR == 0 || addr % SECTOR + |data| <= SECTOR || |data| == SECTOR
    requires !(wraps && |data| == |b.mem|)
    ensures End(Call(b, addr, data, wraps), wraps)[addr..addr + |data|] == data
  {
    hide Call, End;
    if addr % SECTOR == 0 {
      OneCall(b, addr, data, wraps);
      InStepKept(b, addr, [data], wraps);
    } else if addr % SECTOR + |data| <= SECTOR {
      WithinSector(b, addr, data, wraps);
    } else {
      WholeSectorSplit(b, addr, data, wraps);
    }
  }

  lemma SingleFails(b: Buffer, addr: nat, data: seq<Byte>, wraps: bool)
    requires Sized(b) && b.off == 0 && addr + |data| <= |b.mem| && data != [] && data == Marked(|data|)
    requires forall i :: 0 <= i < |b.mem| ==> b.mem[i] == 0
    requires (addr % SECTOR > 0 && addr % SECTOR + |data| > SECTOR && |data| != SECTOR) || (wraps && |data| == |b.mem|)
    ensures End(Call(b, addr, data, wraps), wraps)[addr..addr + |data|] != data
  {
    hide Call, End;
    var f := End(Call(b, addr, data, wraps), wraps);
    AtSector(addr);
    if wraps && |data| == |b.mem| {
      FilledErased(b, data);
      assert f[addr..addr + |data|][0] == ERASED;
    } else if |data| > SECTOR {
      Collides(b, addr, data, wraps);
      assert f[addr..addr + |data|][0] == f[addr];
    } else {
      Unwritten(b, addr, data, wraps);
      var next := Begin(addr) + SECTOR;
      assert f[addr..addr + |data|][next - addr] == f[next];
    }
  }

  lemma FilledErased(b: Buffer, data: seq<Byte>)
    requires Sized(b) && b.off == 0 && data != [] && |data| == |b.mem|
    ensures End(Call(b, 0, data, true), true)[0] == ERASED
  {
    hide Call, Calls, Turn, Ended, End;
    OneCall(b, 0, data, true);
    CallsEnd(b, 0, [data], true);
    assert b.cache[..0] + data == data;
    FirstErased(Turn(b, 0, true).mem, data, Calls(b, 0, [data], true).cache);
  }

  // ---- any chunks, from any state --------------------------------------------------------

  // However a stream from addr is cut, and whatever it, the chip and the cache hold: its range holds
  // it at the end.  The chip does not wrap round.
  ghost predicate AllKept(size: nat, sector: nat, off: nat, addr: nat) {
    forall b: Buffer, chunks: seq<seq<Byte>> ::
      Sized(b) && |b.mem| == size && b.sector == sector && b.off == off && addr + |Joined(chunks)| <= size ==>
      End(Calls(b, addr, chunks, false), false)[addr..addr + |Joined(chunks)|] == Joined(chunks)
  }

  // That is so exactly when the stream is in step with the buffer, or starts in the last sector,
  // where there is nothing to cross.
  lemma AllKeptExactly(size: nat, sector: nat, off: nat, addr: nat)
    requires size % SECTOR == 0 && off < SECTOR && addr < size
    ensures AllKept(size, sector, off, addr) <==> InStep(sector, off, addr) || Begin(addr) + SECTOR == size
  {
    hide Calls, End, Joined;
    AtSector(addr);
    if InStep(sector, off, addr) || Begin(addr) + SECTOR == size {
      forall b: Buffer, chunks: seq<seq<Byte>> |
        Sized(b) && |b.mem| == size && b.sector == sector && b.off == off && addr + |Joined(chunks)| <= size
        ensures End(Calls(b, addr, chunks, false), false)[addr..addr + |Joined(chunks)|] == Joined(chunks)
      {
        if InStep(sector, off, addr) { InStepKept(b, addr, chunks, false); } else { LastSectorKept(b, addr, chunks); }
      }
    } else {
      var b := Blank(size).(sector := sector, off := off);
      var chunks := OutOfStepFails(b, addr);
    }
  }

  // Out of step, with another sector to come: a stream that is not kept.  If more bytes are counted
  // than the offset says, a first chunk fills the count before the sector.
  lemma OutOfStepFails(b: Buffer, addr: nat) returns (chunks: seq<seq<Byte>>)
    requires Sized(b) && !InStep(b.sector, b.off, addr) && Begin(addr) + 2 * SECTOR <= |b.mem|
    ensures addr + |Joined(chunks)| <= |b.mem|
    ensures End(Calls(b, addr, chunks, false), false)[addr..addr + |Joined(chunks)|] != Joined(chunks)
  {
    hide Call, Calls, End, AfterFlush;
    AtSector(addr);
    var a, c, data := addr % SECTOR, Turn(b, addr, false), Marked(SECTOR + 1);
    if c.off < a {
      chunks := [data];
      OneCall(b, addr, data, false);
      Collides(b, addr, data, false);
      assert End(Calls(b, addr, chunks, false), false)[addr..addr + |data|][0] != data[0];
    } else {
      var early: seq<Byte> := seq(SECTOR - c.off, _ => 0);
      var at := addr + |early|;
      chunks := [early, data];
      TwoCalls(b, addr, early, data, false);
      EarlyFlush(b, addr, early);
      var d := Call(b, addr, early, false);
      AtSector(at);
      Collides(d, at, data, false);
      var f := End(Calls(b, addr, chunks, false), false);
      assert f[addr..addr + |early + data|][|early|] == f[at] && (early + data)[|early|] == data[0];
    }
  }

  lemma TwoCalls(b: Buffer, addr: nat, x: seq<Byte>, y: seq<Byte>, wraps: bool)
    requires Sized(b) && x != [] && y != [] && addr + |x| < |b.mem|
    ensures Calls(b, addr, [x, y], wraps) == Call(Call(b, addr, x, wraps), addr + |x|, y, wraps)
    ensures Joined([x, y]) == x + y
  {
    hide Call;
    OneCall(b, addr, x, wraps);
    assert [x, y][..1] == [x];
  }

  lemma EarlyFlush(b: Buffer, addr: nat, early: seq<Byte>)
    requires Sized(b) && early != [] && Turn(b, addr, false).off + |early| == SECTOR
    requires addr % SECTOR + |early| < SECTOR
    ensures var d := Call(b, addr, early, false);
            d.off == 0 && (addr + |early|) / SECTOR == addr / SECTOR && Turn(d, addr + |early|, false).off == 0
  {
    hide AfterFlush;
    LastTurn(Turn(b, addr, false), addr % SECTOR, early, false);
  }

  // In the last sector the cache holds the stream from its offset on, flushed or not.
  ghost predicate LastRight(b: Buffer, addr: nat, data: seq<Byte>) {
    var a := addr % SECTOR;
    && Sized(b) && Begin(addr) + SECTOR == |b.mem| && a + |data| <= SECTOR && b.cache[a..a + |data|] == data
    && (b.sector == addr / SECTOR
        || (b.sector == addr / SECTOR + 1 && b.off == 0 && b.mem[addr..addr + |data|] == data))
  }

  lemma LastCopy(b: Buffer, addr: nat, data: seq<Byte>, piece: seq<Byte>)
    requires LastRight(b, addr, data) && b.sector == addr / SECTOR && addr % SECTOR + |data| + |piece| <= SECTOR
    ensures LastRight(Copy(b, addr % SECTOR + |data|, piece, false), addr, data + piece)
  {
    hide Overlay;
    var a, q := addr % SECTOR, addr % SECTOR + |data|;
    AtSector(addr);
    var cache := Overlay(b.cache, q, piece);
    OverlayReads(b.cache, q, piece);
    assert cache[a..q] == cache[..q][a..] && b.cache[a..q] == b.cache[..q][a..];
    assert cache[a..q + |piece|] == cache[a..q] + cache[q..q + |piece|];
    OverlayReads(b.mem, b.sector * SECTOR, cache);
    var f := Overlay(b.mem, b.sector * SECTOR, cache);
    Within(f, Begin(addr), Begin(addr) + SECTOR, addr, |data + piece|);
  }

  lemma {:induction false} LastCalls(b: Buffer, addr: nat, chunks: seq<seq<Byte>>)
    requires Sized(b) && Begin(addr) + SECTOR == |b.mem| && addr + |Joined(chunks)| <= |b.mem|
    ensures var r := Calls(b, addr, chunks, false);
            if Joined(chunks) == [] then r == b else LastRight(r, addr, Joined(chunks))
    decreases |chunks|
  {
    hide Copy, AfterFlush, Loop;
    if chunks != [] {
      var n := |chunks| - 1;
      var before, last, r := Joined(chunks[..n]), chunks[n], Calls(b, addr, chunks[..n], false);
      var at := addr + |before|;
      AtSector(addr);
      LastCalls(b, addr, chunks[..n]);
      if last == [] {
        assert before + last == before;
      } else {
        AtSector(at);
        var c := Turn(r, at, false);
        assert at / SECTOR == addr / SECTOR && at % SECTOR == addr % SECTOR + |before|;
        assert before == [] ==> c.cache[addr % SECTOR..addr % SECTOR] == [];
        assert LastRight(c, addr, before);
        LastTurn(c, at % SECTOR, last, false);
        LastCopy(c, addr, before, last);
      }
    }
  }

  lemma LastSectorKept(b: Buffer, addr: nat, chunks: seq<seq<Byte>>)
    requires Sized(b) && Begin(addr) + SECTOR == |b.mem| && addr + |Joined(chunks)| <= |b.mem|
    ensures End(Calls(b, addr, chunks, false), false)[addr..addr + |Joined(chunks)|] == Joined(chunks)
  {
    hide Calls, Joined, Overlay;
    LastCalls(b, addr, chunks);
    var data, r := Joined(chunks), Calls(b, addr, chunks, false);
    AtSector(addr);
    if data != [] && r.sector == addr / SECTOR {
      var start, a, f := Begin(addr), addr % SECTOR, End(r, false);
      assert r.sector * SECTOR == start && (r.sector + 1) * SECTOR == |r.mem|;
      assert f == Overlay(r.mem, start, r.cache);
      OverlayReads(r.mem, start, r.cache);
      Within(f, start, start + SECTOR, addr, |data|);
    }
  }

  // ---- two inputs ------------------------------------------------------------------------

  // 3000 bytes are written at 0 and given up; then the stream is written again in chunks of 1500.
  // Byte 0 ends up as byte 1096 of the third chunk, and the second sector is not written.
  lemma RetryMisplaced(b: Buffer, given: seq<Byte>, x: seq<Byte>, y: seq<Byte>, z: seq<Byte>)
    requires Sized(b) && b.off == 0 && |b.mem| >= 2 * SECTOR && |given| == 3000 && |x| == |y| == |z| == 1500
    ensures var left := Call(b, 0, given, false);
            var f := End(Call(Call(Call(left, 0, x, false), 1500, y, false), 3000, z, false), false);
            !InStep(left.sector, left.off, 0) && f[0] == z[1096] && f[SECTOR] == b.mem[SECTOR]
  {
    hide Loop, AfterFlush;
    LastTurn(Turn(b, 0, false), 0, given, false);
    var left := Call(b, 0, given, false);
    LastTurn(left, 0, x, false);
    var b1 := Call(left, 0, x, false);
    FlushesFirst(left.(cache := Overlay(left.cache, 0, x), off := 0));
    LastTurn(b1.(sector := 0), 1500, y, false);
    var b2 := Call(b1, 1500, y, false);
    FirstTurn(b2, 3000, z, false);
    var c := b2.(cache := b2.cache[..3000] + z[..1096], off := 2596);
    ShortTurn(c, z[1096..], false);
    FlushesFirst(Call(b2, 3000, z, false));
  }

  lemma FlushesFirst(b: Buffer)
    requires Sized(b) && b.sector == 0 && |b.mem| >= 2 * SECTOR
    ensures var f := AfterFlush(b.mem, b.cache, 0, false);
            f[0] == b.cache[0] && f[SECTOR] == b.mem[SECTOR]
  {}

  // 4000 bytes are written at 100 in one call: byte 4096 is not written.
  lemma MisalignedUnwritten(b: Buffer, data: seq<Byte>)
    requires Sized(b) && b.off == 0 && |b.mem| >= 2 * SECTOR && |data| == 4000
    ensures End(Call(b, 100, data, false), false)[SECTOR] == b.mem[SECTOR]
  {
    hide Call, End;
    Unwritten(b, 100, data, false);
  }
}

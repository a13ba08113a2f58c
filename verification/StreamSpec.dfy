// The one-sector write-behind buffer as values: what each call does to chip, cache and counters,
// what of a stream is on the chip and what is still in the cache, and what the chip holds when the
// stream has ended.
module StreamSpec {
  import opened Wrappers
  import opened FlashSpec

  predicate SameOutside(f: seq<Byte>, g: seq<Byte>, a: nat, b: nat) {
    |f| == |g| && a <= b <= |f| && f[..a] == g[..a] && f[b..] == g[b..]
  }

  // Beyond the end of the chip nothing is erased, or the address wraps round.
  function EraseAny(f: seq<Byte>, sector: nat, wraps: bool): (r: seq<Byte>)
    requires |f| % SECTOR == 0
    ensures |r| == |f|
  {
    InRange(sector, |f|);
    if (sector + 1) * SECTOR <= |f| then Erase(f, sector)
    else if wraps && |f| > 0 then Erase(f, sector % (|f| / SECTOR))
    else f
  }

  lemma EraseInside(f: seq<Byte>, sector: nat, wraps: bool)
    requires |f| % SECTOR == 0 && (sector + 1) * SECTOR <= |f|
    ensures EraseAny(f, sector, wraps) == Erase(f, sector)
  {}

  lemma InRange(sector: nat, size: nat)
    requires size % SECTOR == 0
    ensures size > 0 ==> size / SECTOR > 0 && (sector % (size / SECTOR) + 1) * SECTOR <= size
    ensures (sector + 1) * SECTOR <= size ==> sector % (size / SECTOR) == sector
    ensures (sector + 1) * SECTOR <= size <==> sector < size / SECTOR
  {
    if size > 0 { assert sector % (size / SECTOR) < size / SECTOR; }
  }

  // A flush, where the driver does not fail.
  function AfterFlush(f: seq<Byte>, cache: seq<Byte>, sector: nat, wraps: bool): (r: seq<Byte>)
    requires |f| % SECTOR == 0 && |cache| == SECTOR
    ensures |r| == |f|
  {
    if (sector + 1) * SECTOR <= |f| then Overlay(f, sector * SECTOR, cache) else EraseAny(f, sector, wraps)
  }

  // ---- the calls -------------------------------------------------------------------------

  // The chip, the cache, the sector the cache is for and the number of bytes buffered.
  datatype Buffer = Buffer(mem: seq<Byte>, cache: seq<Byte>, sector: nat, off: nat)

  predicate Sized(b: Buffer) { |b.mem| % SECTOR == 0 && |b.cache| == SECTOR && b.off < SECTOR }

  function Flush(b: Buffer, wraps: bool): (r: Buffer)
    requires |b.mem| % SECTOR == 0 && |b.cache| == SECTOR
    ensures Sized(r) && |r.mem| == |b.mem|
  {
    b.(mem := AfterFlush(b.mem, b.cache, b.sector, wraps), off := 0)
  }

  // What is buffered for another sector is flushed first.
  function Turn(b: Buffer, addr: nat, wraps: bool): (r: Buffer)
    requires Sized(b)
    ensures Sized(r) && |r.mem| == |b.mem| && r.cache == b.cache && r.sector == addr / SECTOR
  {
    (if addr / SECTOR != b.sector && b.off != 0 then Flush(b, wraps) else b).(sector := addr / SECTOR)
  }

  // One piece goes to the cache at offset; the bytes are counted, and flushed when a sector's worth
  // has been.
  function Copy(b: Buffer, offset: nat, piece: seq<Byte>, wraps: bool): (r: Buffer)
    requires Sized(b) && offset + |piece| <= SECTOR
    ensures Sized(r) && |r.mem| == |b.mem|
  {
    var c := b.(cache := Overlay(b.cache, offset, piece), off := b.off + |piece|);
    if c.off >= SECTOR then Flush(c, wraps).(sector := c.sector + 1) else c
  }

  function Loop(b: Buffer, offset: nat, data: seq<Byte>, wraps: bool): (r: Buffer)
    requires Sized(b) && offset < SECTOR
    ensures Sized(r) && |r.mem| == |b.mem|
    decreases |data|
  {
    if data == [] then b
    else
      var len := Min(|data|, SECTOR - offset);
      Loop(Copy(b, offset, data[..len], wraps), 0, data[len..], wraps)
  }

  function Call(b: Buffer, addr: nat, data: seq<Byte>, wraps: bool): (r: Buffer)
    requires Sized(b)
    ensures Sized(r) && |r.mem| == |b.mem|
  {
    Loop(Turn(b, addr, wraps), addr % SECTOR, data, wraps)
  }

  function Joined(chunks: seq<seq<Byte>>): seq<Byte> {
    if chunks == [] then [] else Joined(chunks[..|chunks| - 1]) + chunks[|chunks| - 1]
  }

  // A stream in chunks, from addr on; empty chunks and those that start beyond the chip are refused.
  function Calls(b: Buffer, addr: nat, chunks: seq<seq<Byte>>, wraps: bool): (r: Buffer)
    requires Sized(b)
    ensures Sized(r) && |r.mem| == |b.mem|
  {
    if chunks == [] then b
    else
      var n := |chunks| - 1;
      var at, c := addr + |Joined(chunks[..n])|, Calls(b, addr, chunks[..n], wraps);
      if chunks[n] == [] || at >= |b.mem| then c else Call(c, at, chunks[n], wraps)
  }

  // The chip after the buffer is destroyed.
  function End(b: Buffer, wraps: bool): (f: seq<Byte>)
    requires Sized(b)
    ensures |f| == |b.mem|
  {
    Flush(b, wraps).mem
  }

  // Cache and counters do not depend on what the chip holds.
  predicate Like(x: Buffer, y: Buffer) { x == y.(mem := x.mem) && |x.mem| == |y.mem| }

  lemma CopyAlike(x: Buffer, y: Buffer, offset: nat, piece: seq<Byte>, wraps: bool)
    requires Sized(x) && Like(x, y) && offset + |piece| <= SECTOR
    ensures Like(Copy(x, offset, piece, wraps), Copy(y, offset, piece, wraps))
  {
    hide AfterFlush, Overlay;
  }

  lemma {:induction false} LoopAlike(x: Buffer, y: Buffer, offset: nat, data: seq<Byte>, wraps: bool)
    requires Sized(x) && Like(x, y) && offset < SECTOR
    ensures Like(Loop(x, offset, data, wraps), Loop(y, offset, data, wraps))
    decreases |data|
  {
    hide Copy;
    if data != [] {
      var len := Min(|data|, SECTOR - offset);
      CopyAlike(x, y, offset, data[..len], wraps);
      LoopAlike(Copy(x, offset, data[..len], wraps), Copy(y, offset, data[..len], wraps), 0, data[len..], wraps);
    }
  }

  lemma LoopStep(b: Buffer, offset: nat, data: seq<Byte>, len: nat, wraps: bool)
    requires Sized(b) && offset < SECTOR && data != [] && len == Min(|data|, SECTOR - offset)
    ensures Loop(b, offset, data, wraps) == Loop(Copy(b, offset, data[..len], wraps), 0, data[len..], wraps)
  {
    hide Copy;
  }

  // From b the loop comes to goal; without driver errors exactly, with them but for the chip.
  predicate Reaches(b: Buffer, offset: nat, data: seq<Byte>, goal: Buffer, wraps: bool, reliable: bool) {
    && Sized(b) && offset < SECTOR && Like(Loop(b, offset, data, wraps), goal)
    && (reliable ==> Loop(b, offset, data, wraps) == goal)
  }

  lemma ReachesAfter(b: Buffer, c: Buffer, offset: nat, data: seq<Byte>, len: nat, goal: Buffer, wraps: bool,
      reliable: bool)
    requires Reaches(b, offset, data, goal, wraps, reliable) && data != [] && len == Min(|data|, SECTOR - offset)
    requires Like(c, Copy(b, offset, data[..len], wraps)) && (reliable ==> c == Copy(b, offset, data[..len], wraps))
    requires Sized(c)
    ensures Reaches(c, 0, data[len..], goal, wraps, reliable)
  {
    hide Loop, Copy;
    LoopStep(b, offset, data, len, wraps);
    LoopAlike(c, Copy(b, offset, data[..len], wraps), 0, data[len..], wraps);
  }

  lemma ReachesEnd(b: Buffer, offset: nat, goal: Buffer, wraps: bool, reliable: bool)
    requires Reaches(b, offset, [], goal, wraps, reliable)
    ensures Like(b, goal) && (reliable ==> b == goal)
  {}

  lemma ReachesItself(b: Buffer, offset: nat, data: seq<Byte>, wraps: bool, reliable: bool)
    requires Sized(b) && offset < SECTOR
    ensures Reaches(b, offset, data, Loop(b, offset, data, wraps), wraps, reliable)
  {
    hide Loop;
  }

  // Only the sectors from first to last, and one more, have changed.
  predicate OnlySectors(f: seq<Byte>, g: seq<Byte>, one: nat, first: nat, last: nat) {
    && |f| == |g|
    && forall i :: 0 <= i < |f| ==>
         one * SECTOR <= i < (one + 1) * SECTOR || first * SECTOR <= i < last * SECTOR || f[i] == g[i]
  }

  // What a flush, of a driver that works or not, has done to the chip if addresses do not wrap.
  predicate Flushed(f: seq<Byte>, g: seq<Byte>, sector: nat)
    requires |f| % SECTOR == 0
  {
    && ((sector + 1) * SECTOR <= |f| ==> SameOutside(f, g, sector * SECTOR, (sector + 1) * SECTOR))
    && ((sector + 1) * SECTOR > |f| ==> g == f || g == EraseAny(f, sector, false))
  }

  lemma FlushAdds(f: seq<Byte>, g: seq<Byte>, h: seq<Byte>, one: nat, first: nat, last: nat)
    requires |g| % SECTOR == 0 && OnlySectors(f, g, one, first, last) && first <= last && Flushed(g, h, last)
    ensures OnlySectors(f, h, one, first, last + 1)
  {
    hide Erase;
    InRange(last, |g|);
    forall i | 0 <= i < |f| && !(one * SECTOR <= i < (one + 1) * SECTOR) && !(first * SECTOR <= i < (last + 1) * SECTOR)
      ensures f[i] == h[i]
    {
      var p, q := last * SECTOR, (last + 1) * SECTOR;
      if q <= |g| { if i < p { assert g[..p][i] == h[..p][i]; } else { assert g[q..][i - q] == h[q..][i - q]; } }
    }
  }

  lemma FlushChanges(f: seq<Byte>, g: seq<Byte>, sector: nat, first: nat)
    requires |f| % SECTOR == 0 && Flushed(f, g, sector)
    ensures OnlySectors(f, g, sector, first, first)
  {
    hide Flushed;
    NoSectors(f, sector, sector);
    FlushAdds(f, f, g, sector, sector, sector);
  }

  lemma NoSectors(f: seq<Byte>, one: nat, first: nat)
    ensures OnlySectors(f, f, one, first, first)
  {}

  // A call, of which the first part left c behind.
  lemma CallIs(b: Buffer, c: Buffer, addr: nat, data: seq<Byte>, wraps: bool)
    requires Sized(b) && Sized(c) && Like(c, Turn(b, addr, wraps))
    ensures c == Turn(b, addr, wraps) ==> Loop(c, addr % SECTOR, data, wraps) == Call(b, addr, data, wraps)
    ensures Like(Loop(c, addr % SECTOR, data, wraps), Call(b, addr, data, wraps))
  {
    hide Loop, Turn;
    LoopAlike(c, Turn(b, addr, wraps), addr % SECTOR, data, wraps);
  }

  // ---- streams that are kept -------------------------------------------------------------

  // Of the stream, whole sectors are on the chip and the rest is in the cache; sector and off are
  // the cursor divided by the sector size and the remainder.
  ghost predicate Buffered(b: Buffer, start: nat, stream: seq<Byte>, base: seq<Byte>) {
    && Sized(b) && |b.mem| == |base| && start % SECTOR == 0 && start + |stream| <= |base|
    && start <= b.sector * SECTOR && start + |stream| == b.sector * SECTOR + b.off
    && b.mem == Overlay(base, start, stream[..b.sector * SECTOR - start])
    && b.cache[..b.off] == stream[b.sector * SECTOR - start..]
  }

  lemma BufferedIs(b: Buffer, start: nat, stream: seq<Byte>, base: seq<Byte>)
    requires Buffered(b, start, stream, base)
    ensures Sized(b) && b.sector == (start + |stream|) / SECTOR && b.off == (start + |stream|) % SECTOR
    ensures start + |stream| == b.sector * SECTOR + b.off && start + |stream| <= |b.mem| == |base|
    ensures start <= b.sector * SECTOR && start % SECTOR == 0
    ensures b.off > 0 ==> (b.sector + 1) * SECTOR <= |b.mem|
  {}

  lemma Regroup(a: seq<Byte>, b: seq<Byte>, c: seq<Byte>)
    ensures (a + b) + c == a + (b + c)
  {}

  lemma OverlayRest(f: seq<Byte>, a: nat, data: seq<Byte>)
    requires a + |data| == |f|
    ensures Overlay(f, a, data) == f[..a] + data
  {}

  lemma CopyKeeps(b: Buffer, start: nat, stream: seq<Byte>, base: seq<Byte>, piece: seq<Byte>, wraps: bool)
    requires Buffered(b, start, stream, base) && b.off + |piece| <= SECTOR && start + |stream| + |piece| <= |b.mem|
    ensures Buffered(Copy(b, b.off, piece, wraps), start, stream + piece, base)
  {
    hide Overlay;
    var k := b.sector * SECTOR - start;
    var c := Overlay(b.cache, b.off, piece);
    OverlayReads(b.cache, b.off, piece);
    if b.off + |piece| < SECTOR {
      assert (stream + piece)[..k] == stream[..k] && (stream + piece)[k..] == stream[k..] + piece;
      assert c[..b.off + |piece|] == c[..b.off] + c[b.off..b.off + |piece|];
    } else {
      OverlayRest(b.cache, b.off, piece);
      assert c == stream[k..] + piece && stream[..k] + c == stream + piece;
      OverlayTwice(base, start, stream[..k], c);
      assert (stream + piece)[..k + SECTOR] == stream + piece;
    }
  }

  lemma {:induction false} LoopKeeps(b: Buffer, start: nat, stream: seq<Byte>, base: seq<Byte>,
      data: seq<Byte>, wraps: bool)
    requires Buffered(b, start, stream, base) && start + |stream| + |data| <= |b.mem|
    ensures Sized(b) && Buffered(Loop(b, b.off, data, wraps), start, stream + data, base)
    decreases |data|
  {
    hide Buffered, Copy;
    BufferedIs(b, start, stream, base);
    if data == [] {
      assert stream + data == stream;
    } else {
      var len := Min(|data|, SECTOR - b.off);
      var c := Copy(b, b.off, data[..len], wraps);
      CopyKeeps(b, start, stream, base, data[..len], wraps);
      Regroup(stream, data[..len], data[len..]);
      assert data[..len] + data[len..] == data;
      if len < |data| {
        CopyFull(b, data[..len], wraps);
        LoopKeeps(c, start, stream + data[..len], base, data[len..], wraps);
      } else {
        assert stream + data[..len] == stream + data;
      }
    }
  }

  lemma CopyFull(b: Buffer, piece: seq<Byte>, wraps: bool)
    requires Sized(b) && b.off + |piece| == SECTOR
    ensures Copy(b, b.off, piece, wraps).off == 0
  {}

  // The buffer goes on where it stands, or begins on a sector boundary with nothing buffered for
  // that sector.
  predicate InStep(sector: nat, off: nat, addr: nat) {
    (sector == addr / SECTOR && off == addr % SECTOR) || (addr % SECTOR == 0 && (off == 0 || sector != addr / SECTOR))
  }

  function Begin(addr: nat): nat { addr / SECTOR * SECTOR }

  lemma AtSector(addr: nat)
    ensures addr == Begin(addr) + addr % SECTOR && Begin(addr) % SECTOR == 0
  {}

  lemma TurnBegins(b: Buffer, addr: nat, wraps: bool)
    requires Sized(b) && InStep(b.sector, b.off, addr) && addr <= |b.mem|
    ensures var c := Turn(b, addr, wraps);
            c.off == addr % SECTOR && Buffered(c, Begin(addr), b.cache[..c.off], c.mem)
  {
    hide AfterFlush;
    AtSector(addr);
    var c := Turn(b, addr, wraps);
    assert Overlay(c.mem, Begin(addr), []) == c.mem;
  }

  lemma TurnStays(b: Buffer, start: nat, stream: seq<Byte>, base: seq<Byte>, wraps: bool)
    requires Buffered(b, start, stream, base)
    ensures Sized(b) && Turn(b, start + |stream|, wraps) == b && (start + |stream|) % SECTOR == b.off
  {
    BufferedIs(b, start, stream, base);
  }

  // Any chunks of a stream that is in step keep what the buffer should hold.
  lemma {:induction false} CallsKeep(b: Buffer, addr: nat, chunks: seq<seq<Byte>>, wraps: bool)
    requires Sized(b) && InStep(b.sector, b.off, addr) && addr + |Joined(chunks)| <= |b.mem|
    ensures var c, r := Turn(b, addr, wraps), Calls(b, addr, chunks, wraps);
            if Joined(chunks) == [] then r == b
            else Buffered(r, Begin(addr), b.cache[..addr % SECTOR] + Joined(chunks), c.mem)
    decreases |chunks|
  {
    hide Buffered, Loop, Turn, InStep;
    if chunks != [] {
      var n := |chunks| - 1;
      var before, last := Joined(chunks[..n]), chunks[n];
      var head, c, d := b.cache[..addr % SECTOR], Turn(b, addr, wraps), Calls(b, addr, chunks[..n], wraps);
      AtSector(addr);
      CallsKeep(b, addr, chunks[..n], wraps);
      if last == [] {
        assert before + last == before;
      } else {
        if before == [] {
          TurnBegins(b, addr, wraps);
          LoopKeeps(c, Begin(addr), head, c.mem, last, wraps);
          assert before + last == last;
        } else {
          TurnStays(d, Begin(addr), head + before, c.mem, wraps);
          LoopKeeps(d, Begin(addr), head + before, c.mem, last, wraps);
          Regroup(head, before, last);
        }
      }
    }
  }

  // ---- where a stream is left or ends ----------------------------------------------------

  // What the chip holds when the next write goes elsewhere: a sector begun is filled up from the
  // cache.
  function Turned(base: seq<Byte>, start: nat, stream: seq<Byte>, cache: seq<Byte>): (r: seq<Byte>)
    requires |base| % SECTOR == 0 && |cache| == SECTOR && start + |stream| <= |base|
    ensures |r| == |base|
  {
    var f, end := Overlay(base, start, stream), start + |stream|;
    if end % SECTOR == 0 then f else Overlay(f, end, cache[end % SECTOR..])
  }

  // And when the buffer is destroyed, which flushes in any case.
  function Ended(base: seq<Byte>, start: nat, stream: seq<Byte>, cache: seq<Byte>, wraps: bool): (r: seq<Byte>)
    requires |base| % SECTOR == 0 && |cache| == SECTOR && start + |stream| <= |base|
    ensures |r| == |base|
  {
    var f, end := Overlay(base, start, stream), start + |stream|;
    if end < |base| then Overlay(f, end, cache[end % SECTOR..])
    else if wraps && |base| > 0 then Erase(f, 0)
    else f
  }

  lemma FlushEnds(b: Buffer, start: nat, stream: seq<Byte>, base: seq<Byte>, wraps: bool)
    requires Buffered(b, start, stream, base)
    ensures Sized(b) && |base| % SECTOR == 0 && start + |stream| <= |base|
    ensures End(b, wraps) == Ended(base, start, stream, b.cache, wraps)
    ensures b.off > 0 ==> End(b, wraps) == Turned(base, start, stream, b.cache)
    ensures b.off == 0 ==> b.mem == Turned(base, start, stream, b.cache)
  {
    hide Overlay, Erase, Buffered;
    BufferedIs(b, start, stream, base);
    InRange(b.sector, |b.mem|);
    FlushInside(b, start, stream, base);
    if b.off == 0 { assert b.cache[0..] == b.cache; }
  }

  lemma FlushInside(b: Buffer, start: nat, stream: seq<Byte>, base: seq<Byte>)
    requires Buffered(b, start, stream, base)
    ensures b.off == 0 ==> b.mem == Overlay(base, start, stream)
    ensures (b.sector + 1) * SECTOR <= |b.mem| ==>
      Overlay(b.mem, b.sector * SECTOR, b.cache) ==
        Overlay(Overlay(base, start, stream), start + |stream|, b.cache[b.off..])
  {
    hide Overlay;
    var k := b.sector * SECTOR - start;
    assert stream[..k] + stream[k..] == stream && b.cache[..b.off] + b.cache[b.off..] == b.cache;
    if b.off == 0 { assert stream[..k] == stream; }
    if (b.sector + 1) * SECTOR <= |b.mem| {
      OverlayTwice(b.mem, b.sector * SECTOR, b.cache[..b.off], b.cache[b.off..]);
      OverlayTwice(base, start, stream[..k], stream[k..]);
    }
  }

  // A stream that is in step: the chip at its end.
  lemma CallsEnd(b: Buffer, addr: nat, chunks: seq<seq<Byte>>, wraps: bool)
    requires Sized(b) && InStep(b.sector, b.off, addr) && addr + |Joined(chunks)| <= |b.mem| && Joined(chunks) != []
    ensures Begin(addr) + (addr % SECTOR + |Joined(chunks)|) <= |b.mem|
    ensures var r := Calls(b, addr, chunks, wraps);
            End(r, wraps) == Ended(Turn(b, addr, wraps).mem, Begin(addr), b.cache[..addr % SECTOR] + Joined(chunks),
                                   r.cache, wraps)
  {
    hide Buffered, Turn, InStep, Ended, Calls;
    AtSector(addr);
    CallsKeep(b, addr, chunks, wraps);
    FlushEnds(Calls(b, addr, chunks, wraps), Begin(addr), b.cache[..addr % SECTOR] + Joined(chunks),
      Turn(b, addr, wraps).mem, wraps);
  }

  // What the next write elsewhere leaves of a stream.
  lemma LeftBehind(b: Buffer, start: nat, stream: seq<Byte>, base: seq<Byte>, addr: nat, wraps: bool)
    requires Buffered(b, start, stream, base) && addr / SECTOR != b.sector
    ensures Sized(b) && |base| % SECTOR == 0 && start + |stream| <= |base|
    ensures Turn(b, addr, wraps).mem == Turned(base, start, stream, b.cache)
  {
    hide Buffered, Turned, Ended;
    FlushEnds(b, start, stream, base, wraps);
  }

  // The stream's own range holds the stream when it has ended, whatever the chip and the cache
  // held, exactly if it does not fill a chip whose addresses wrap round.
  ghost predicate StreamKept(size: nat, start: nat, n: nat, wraps: bool)
    requires size % SECTOR == 0 && start + n <= size
  {
    forall base: seq<Byte>, stream: seq<Byte>, cache: seq<Byte> ::
      |base| == size && |stream| == n && |cache| == SECTOR ==>
      Ended(base, start, stream, cache, wraps)[start..start + n] == stream
  }

  lemma StreamKeptExactly(size: nat, start: nat, n: nat, wraps: bool)
    requires size % SECTOR == 0 && start % SECTOR == 0 && start + n <= size
    ensures StreamKept(size, start, n, wraps) <==> !(wraps && n > 0 && n == size)
  {
    hide Ended;
    if wraps && n > 0 && n == size {
      var base: seq<Byte>, stream: seq<Byte>, cache: seq<Byte> := seq(size, _ => 0), seq(n, _ => 0),
        seq(SECTOR, _ => 0);
      FirstErased(base, stream, cache);
      assert Ended(base, start, stream, cache, wraps)[start..start + n][0] != stream[0];
    } else {
      forall base: seq<Byte>, stream: seq<Byte>, cache: seq<Byte> | |base| == size && |stream| == n && |cache| == SECTOR
        ensures Ended(base, start, stream, cache, wraps)[start..start + n] == stream
      {
        EndedKeeps(base, start, stream, cache, wraps);
      }
    }
  }

  lemma FirstErased(base: seq<Byte>, stream: seq<Byte>, cache: seq<Byte>)
    requires |base| % SECTOR == 0 && |stream| == |base| > 0 && |cache| == SECTOR
    ensures Ended(base, 0, stream, cache, true)[0] == ERASED
  {
    OverlayAt(Overlay(base, 0, stream), 0, seq(SECTOR, _ => ERASED), 0);
  }

  lemma EndedKeeps(base: seq<Byte>, start: nat, stream: seq<Byte>, cache: seq<Byte>, wraps: bool)
    requires |base| % SECTOR == 0 && |cache| == SECTOR && start % SECTOR == 0 && start + |stream| <= |base|
    requires !(wraps && |stream| > 0 && |stream| == |base|)
    ensures Ended(base, start, stream, cache, wraps)[start..start + |stream|] == stream
  {
    hide Overlay;
    var f, end := Overlay(base, start, stream), start + |stream|;
    OverlayReads(base, start, stream);
    var g := Ended(base, start, stream, cache, wraps);
    if end < |base| {
      OverlayReads(f, end, cache[end % SECTOR..]);
      assert g[start..end] == g[..end][start..];
      assert f[start..end] == f[..end][start..];
    } else if wraps && |base| > 0 && stream != [] {
      OverlayReads(f, 0, seq(SECTOR, _ => ERASED));
      assert g[start..end] == g[SECTOR..][start - SECTOR..];
      assert f[start..end] == f[SECTOR..][start - SECTOR..];
    }
  }

  // The end of the last sector of a stream.
  function SectorsEnd(start: nat, n: nat): (e: nat) { (start + n + SECTOR - 1) / SECTOR * SECTOR }

  lemma SectorsEndIs(size: nat, start: nat, n: nat)
    requires size % SECTOR == 0 && start % SECTOR == 0 && start + n <= size
    ensures start + n <= SectorsEnd(start, n) <= size
    ensures SectorsEnd(start, n) == if (start + n) % SECTOR == 0 then start + n
      else start + n - (start + n) % SECTOR + SECTOR
  {}

  // The sectors the stream did not write keep their bytes, whatever chip and cache held, exactly if
  // the stream stops inside a sector, or at the end of a chip that has no other sectors or does
  // not wrap round.
  ghost predicate OthersKept(size: nat, start: nat, n: nat, wraps: bool)
    requires size % SECTOR == 0 && start + n <= size
  {
    forall base: seq<Byte>, stream: seq<Byte>, cache: seq<Byte> ::
      |base| == size && |stream| == n && |cache| == SECTOR ==>
      SameOutside(base, Ended(base, start, stream, cache, wraps), start, SectorsEnd(start, n))
  }

  lemma OthersKeptExactly(size: nat, start: nat, n: nat, wraps: bool)
    requires size % SECTOR == 0 && start % SECTOR == 0 && start + n <= size
    ensures OthersKept(size, start, n, wraps) <==>
      (start + n) % SECTOR != 0 || (start + n == size && (start == 0 || !wraps))
  {
    hide Ended, SameOutside;
    SectorsEndIs(size, start, n);
    if (start + n) % SECTOR != 0 || (start + n == size && (start == 0 || !wraps)) {
      forall base: seq<Byte>, stream: seq<Byte>, cache: seq<Byte> | |base| == size && |stream| == n && |cache| == SECTOR
        ensures SameOutside(base, Ended(base, start, stream, cache, wraps), start, SectorsEnd(start, n))
      {
        EndedInside(base, start, stream, cache, wraps);
      }
    } else {
      var base: seq<Byte>, stream: seq<Byte>, cache: seq<Byte> := seq(size, _ => 0), seq(n, _ => 0),
        seq(SECTOR, _ => 1);
      StrayFlush(base, start, stream, cache, wraps);
      if start + n < size { assert base[start + n..start + n + SECTOR][0] != cache[0]; }
    }
  }

  lemma EndedInside(base: seq<Byte>, start: nat, stream: seq<Byte>, cache: seq<Byte>, wraps: bool)
    requires |base| % SECTOR == 0 && |cache| == SECTOR && start % SECTOR == 0 && start + |stream| <= |base|
    requires (start + |stream|) % SECTOR != 0 || (start + |stream| == |base| && (start == 0 || !wraps))
    ensures SameOutside(base, Ended(base, start, stream, cache, wraps), start, SectorsEnd(start, |stream|))
  {
    hide Overlay;
    var f, end := Overlay(base, start, stream), start + |stream|;
    SectorsEndIs(|base|, start, |stream|);
    OverlayReads(base, start, stream);
    if end < |base| {
      var tail := cache[end % SECTOR..];
      OverlayReads(f, end, tail);
      var g := Overlay(f, end, tail);
      assert g[..start] == g[..end][..start] && f[..start] == f[..end][..start];
      assert base[end..][|tail|..] == base[end + |tail|..] && f[end..][|tail|..] == f[end + |tail|..];
    }
  }

  // Ending on a sector boundary flushes the stale cache over the sector that follows, or erases
  // the first one.
  lemma StrayFlush(base: seq<Byte>, start: nat, stream: seq<Byte>, cache: seq<Byte>, wraps: bool)
    requires |base| % SECTOR == 0 && |cache| == SECTOR && start % SECTOR == 0 && start + |stream| <= |base|
    requires (start + |stream|) % SECTOR == 0
    requires start + |stream| == |base| ==> start > 0 && wraps
    ensures var end, g := start + |stream|, Ended(base, start, stream, cache, wraps);
            if end < |base| then
              end + SECTOR <= |base| && g[end..end + SECTOR] == cache
              && (SameOutside(base, g, start, SectorsEnd(start, |stream|)) <==> base[end..end + SECTOR] == cache)
            else
              g[0] == ERASED && (SameOutside(base, g, start, SectorsEnd(start, |stream|)) ==> base[0] == ERASED)
  {
    hide Overlay;
    var f, end := Overlay(base, start, stream), start + |stream|;
    SectorsEndIs(|base|, start, |stream|);
    OverlayReads(base, start, stream);
    if end < |base| {
      OverlayReads(f, end, cache);
      assert cache[0..] == cache;
      StrayFollows(base, f, Overlay(f, end, cache), start, end);
    } else {
      OverlayReads(f, 0, seq(SECTOR, _ => ERASED));
      var g := Erase(f, 0);
      assert g[0..SECTOR][0] == ERASED;
      if SameOutside(base, g, start, end) { assert base[..start][0] == g[..start][0]; }
    }
  }

  lemma StrayFollows(base: seq<Byte>, f: seq<Byte>, g: seq<Byte>, start: nat, end: nat)
    requires start <= end && end + SECTOR <= |base| == |f| == |g|
    requires f[..start] == base[..start] && f[end..] == base[end..]
    requires g[..end] == f[..end] && g[end + SECTOR..] == f[end + SECTOR..]
    ensures SameOutside(base, g, start, end) <==> base[end..end + SECTOR] == g[end..end + SECTOR]
  {
    assert g[..start] == g[..end][..start] && f[..start] == f[..end][..start];
    assert base[end..] == base[end..end + SECTOR] + base[end + SECTOR..];
    assert g[end..] == g[end..end + SECTOR] + g[end + SECTOR..];
    assert f[end..][SECTOR..] == f[end + SECTOR..] && base[end..][SECTOR..] == base[end + SECTOR..];
    assert base[end..end + SECTOR] == base[end..][..SECTOR] && g[end..end + SECTOR] == g[end..][..SECTOR];
  }
}

// The flash layer over a driver: reading, rewriting sectors in place, and the one-sector
// write-behind buffer.
module Flash {
  import opened FlashSpec
  import opened StreamSpec

  const OK := 0
  const EINVAL := 1
  const EPERM := 3
  const ENOMEM := 6
  const EIO := 10
  const ENODRV := 11

  // A chip whose operations work, or work until it breaks.  Asked to erase beyond its end it does
  // nothing, or drops the high bits of the address.
  class Driver {
    const mem: array<Byte>
    const reliable: bool
    const wraps: bool
    var opsLeft: nat

    constructor (sectors: nat, reliable: bool, wraps: bool, opsLeft: nat)
      ensures fresh(mem) && mem.Length == sectors * SECTOR && this.opsLeft == opsLeft
      ensures this.reliable == reliable && this.wraps == wraps
    {
      this.reliable, this.wraps, this.opsLeft := reliable, wraps, opsLeft;
      mem := new Byte[sectors * SECTOR];
    }

    ghost predicate Valid() { mem.Length % SECTOR == 0 }

    method Operate() returns (err: int)
      modifies this
      ensures err == OK || err == EIO
      ensures reliable ==> err == OK
    {
      if !reliable && opsLeft == 0 { return EIO; }
      if opsLeft > 0 { opsLeft := opsLeft - 1; }
      err := OK;
    }

    method Read(addr: nat, buf: array<Byte>, n: nat) returns (err: int)
      requires addr + n <= mem.Length && n <= buf.Length && buf != mem
      modifies this, buf
      ensures (reliable ==> err == OK) && (err == OK || err == EIO)
      ensures buf[..] == if err == OK then mem[addr..addr + n] + old(buf[n..]) else old(buf[..])
    {
      err := Operate();
      if err == OK {
        forall i | 0 <= i < n { buf[i] := mem[addr + i]; }
      }
    }

    method Erase(sector: nat) returns (err: int)
      requires Valid()
      modifies this, mem
      ensures (reliable ==> err == OK) && (err == OK || err == EIO)
      ensures mem[..] == if err == OK then EraseAny(old(mem[..]), sector, wraps) else old(mem[..])
    {
      err := Operate();
      InRange(sector, mem.Length);
      var s := if wraps && mem.Length > 0 then sector % (mem.Length / SECTOR) else sector;
      if err == OK && (s + 1) * SECTOR <= mem.Length {
        forall i | s * SECTOR <= i < s * SECTOR + SECTOR { mem[i] := ERASED; }
      }
    }

    method PageWrite(page: nat, buf: array<Byte>, from: nat) returns (err: int)
      requires (page + 1) * PAGE <= mem.Length && from + PAGE <= buf.Length && buf != mem
      modifies this, mem
      ensures (reliable ==> err == OK) && (err == OK || err == EIO)
      ensures mem[..] == if err == OK then Program(old(mem[..]), page, buf[from..from + PAGE]) else old(mem[..])
    {
      hide And, Program;
      ghost var was, data := mem[..], buf[from..from + PAGE];
      var at := page * PAGE;
      err := Operate();
      if err == OK {
        forall i | at <= i < at + PAGE { mem[i] := And(mem[i], buf[from + i - at]); }
        forall i | 0 <= i < |was| ensures mem[i] == Program(was, page, data)[i] { ProgramAt(was, page, data, i); }
        assert mem[..] == Program(was, page, data) && data == buf[from..from + PAGE];
      }
    }
  }

  // n pages programmed one after the other.
  function ProgramPages(f: seq<Byte>, page: nat, data: seq<Byte>, n: nat): (r: seq<Byte>)
    requires n * PAGE <= |data| && (page + n) * PAGE <= |f|
    ensures |r| == |f|
  {
    if n == 0 then f else Program(ProgramPages(f, page, data, n - 1), page + n - 1, data[(n - 1) * PAGE..n * PAGE])
  }

  lemma ProgramStep(f: seq<Byte>, page: nat, data: seq<Byte>, n: nat)
    requires n * PAGE <= |data| && (page + n) * PAGE <= |f|
    ensures ProgramPages(f, page, data, n) == if n == 0 then f else
      Program(ProgramPages(f, page, data, n - 1), page + n - 1, data[(n - 1) * PAGE..n * PAGE])
  {}

  lemma ProgramIsOverlay(f: seq<Byte>, page: nat, data: seq<Byte>)
    requires |data| == PAGE && (page + 1) * PAGE <= |f|
    requires forall i :: page * PAGE <= i < page * PAGE + PAGE ==> f[i] == ERASED
    ensures Program(f, page, data) == Overlay(f, page * PAGE, data)
  {
    hide And;
    forall i | 0 <= i < PAGE ensures And(f[page * PAGE + i], data[i]) == data[i] { ProgramErased(data[i]); }
  }

  lemma {:induction false} PagesAreOverlay(f: seq<Byte>, page: nat, data: seq<Byte>, n: nat)
    requires n * PAGE <= |data| && (page + n) * PAGE <= |f|
    requires forall i :: page * PAGE <= i < (page + n) * PAGE ==> f[i] == ERASED
    ensures ProgramPages(f, page, data, n) == Overlay(f, page * PAGE, data[..n * PAGE])
  {
    hide Overlay, Program;
    if n == 0 {
      OverlayNothing(f, page * PAGE);
      assert data[..0] == [];
    } else {
      var k := (n - 1) * PAGE;
      var g := Overlay(f, page * PAGE, data[..k]);
      PagesAreOverlay(f, page, data, n - 1);
      forall i | (page + n - 1) * PAGE <= i < (page + n) * PAGE ensures g[i] == ERASED {
        OverlayAt(f, page * PAGE, data[..k], i);
      }
      ProgramIsOverlay(g, page + n - 1, data[k..k + PAGE]);
      OverlayTwice(f, page * PAGE, data[..k], data[k..k + PAGE]);
      assert data[..k] + data[k..k + PAGE] == data[..n * PAGE];
    }
  }

  lemma OverlayNothing(f: seq<Byte>, a: nat)
    requires a <= |f|
    ensures Overlay(f, a, []) == f
  {}

  // Erasing a sector and programming its pages replaces it.
  lemma Rewritten(f: seq<Byte>, sector: nat, data: seq<Byte>)
    requires (sector + 1) * SECTOR <= |f| && |data| == SECTOR
    ensures ProgramPages(FlashSpec.Erase(f, sector), sector * PAGES, data, PAGES) == Overlay(f, sector * SECTOR, data)
  {
    hide ProgramPages, Overlay;
    var blank := seq(SECTOR, _ => ERASED);
    var g := FlashSpec.Erase(f, sector);
    forall i | sector * SECTOR <= i < sector * SECTOR + SECTOR ensures g[i] == ERASED {
      OverlayAt(f, sector * SECTOR, blank, i);
    }
    PagesAreOverlay(g, sector * PAGES, data, PAGES);
    assert data[..PAGES * PAGE] == data;
    OverlayAgain(f, sector * SECTOR, blank, data);
  }

  lemma OverlayAgain(f: seq<Byte>, a: nat, x: seq<Byte>, y: seq<Byte>)
    requires |x| == |y| && a + |x| <= |f|
    ensures Overlay(Overlay(f, a, x), a, y) == Overlay(f, a, y)
  {}

  lemma ProgramAt(f: seq<Byte>, page: nat, data: seq<Byte>, i: nat)
    requires |data| == PAGE && (page + 1) * PAGE <= |f| && i < |f|
    ensures Program(f, page, data)[i] ==
      if page * PAGE <= i < page * PAGE + PAGE then And(f[i], data[i - page * PAGE]) else f[i]
  {
    hide And;
  }

  class Fls {
    // Null if none is installed; locks counts the releases of fls_lock less its acquisitions.
    var drv: Driver?
    var installed: bool
    var locks: int
    var cache: array?<Byte>
    var secOffset: nat
    var sector: nat

    constructor (drv: Driver?)
      ensures this.drv == drv && installed && locks == 0 && cache == null && secOffset == 0 && sector == 0
    {
      this.drv, installed, locks, cache, secOffset, sector := drv, true, 0, null, 0, 0;
    }

    method PageWrite(page: nat, buf: array?<Byte>, count: nat) returns (err: int)
      requires installed && drv != null ==> drv.Valid() && buf != drv.mem
      requires installed && drv != null && page < drv.mem.Length / PAGE && buf != null ==>
        Clip(drv.mem.Length / PAGE, page, count) * PAGE <= buf.Length
      modifies drv, if drv == null then {} else {drv.mem}
      ensures !installed ==> err == EPERM
      ensures installed && drv == null ==> err == ENODRV
      ensures installed && drv != null && (page >= drv.mem.Length / PAGE || count == 0 || buf == null) ==>
        err == EINVAL && drv.mem[..] == old(drv.mem[..])
      ensures installed && drv != null && page < drv.mem.Length / PAGE && count > 0 && buf != null ==>
        && (drv.reliable ==> err == OK) && (err == OK || err == EIO)
        && var n := Clip(drv.mem.Length / PAGE, page, count);
           (err == OK ==> drv.mem[..] == ProgramPages(old(drv.mem[..]), page, buf[..], n))
           && drv.mem[..page * PAGE] == old(drv.mem[..page * PAGE])
           && drv.mem[(page + n) * PAGE..] == old(drv.mem[(page + n) * PAGE..])
    {
      hide Program, ProgramPages, Overlay, EraseAny, SameOutside;
      if !installed { return EPERM; }
      if drv == null { return ENODRV; }
      var pages := drv.mem.Length / PAGE;
      if page >= pages || count == 0 || buf == null { return EINVAL; }
      var n := if page + count > pages then pages - page else count;
      ghost var was := drv.mem[..];
      var i := 0;
      err := OK;
      ProgramStep(was, page, buf[..], 0);
      while i < n
        invariant 0 <= i <= n && err == OK
        invariant drv.mem[..] == ProgramPages(was, page, buf[..], i)
        invariant drv.mem[..page * PAGE] == was[..page * PAGE]
        invariant drv.mem[(page + n) * PAGE..] == was[(page + n) * PAGE..]
      {
        ghost var before := drv.mem[..];
        assert buf[i * PAGE..i * PAGE + PAGE] == buf[..][i * PAGE..(i + 1) * PAGE];
        err := drv.PageWrite(page + i, buf, i * PAGE);
        if err != OK { break; }
        ProgramStep(was, page, buf[..], i + 1);
        ProgramEnds(before, page + i, buf[i * PAGE..i * PAGE + PAGE], page * PAGE, (page + n) * PAGE);
        i := i + 1;
      }
    }

    // Copies n bytes of buf from pos on to dst at off.
    method Memcpy(dst: array<Byte>, off: nat, buf: array<Byte>, pos: nat, n: nat)
      requires off + n <= dst.Length && pos + n <= buf.Length && dst != buf
      modifies dst
      ensures dst[..] == Overlay(old(dst[..]), off, buf[pos..pos + n])
    {
      forall i | 0 <= i < n { dst[off + i] := buf[pos + i]; }
    }

    // A sector is read, changed in the cache, erased and programmed again.
    method UpdateSector(d: Driver, s: nat, off: nat, buf: array<Byte>, pos: nat, n: nat, copy: array<Byte>)
        returns (err: int)
      requires installed && drv == d && d.Valid() && (s + 1) * SECTOR <= d.mem.Length
      requires copy.Length == SECTOR && copy != d.mem && buf != d.mem && copy != buf
      requires off + n <= SECTOR && pos + n <= buf.Length
      modifies d, d.mem, copy
      ensures (d.reliable ==> err == OK) && (err == OK || err == EIO)
      ensures err == OK ==> d.mem[..] == Overlay(old(d.mem[..]), s * SECTOR + off, buf[pos..pos + n])
      ensures d.mem[..s * SECTOR] == old(d.mem[..s * SECTOR])
      ensures d.mem[(s + 1) * SECTOR..] == old(d.mem[(s + 1) * SECTOR..])
    {
      hide Overlay, ProgramPages, FlashSpec.Erase, EraseAny;
      ghost var was := d.mem[..];
      EraseInside(was, s, d.wraps);
      err := d.Read(s * SECTOR, copy, SECTOR);
      if err != OK { return; }
      assert copy[..] == was[s * SECTOR..s * SECTOR + SECTOR];
      Memcpy(copy, off, buf, pos, n);
      ghost var chunk := buf[pos..pos + n];
      err := d.Erase(s);
      if err != OK { return; }
      ErasedEnds(was, s);
      err := PageWrite(s * PAGES, copy, PAGES);
      if err != OK { return; }
      Rewritten(was, s, copy[..]);
      SectorChange(was, s * SECTOR, SECTOR, off, chunk);
    }

    // memory says whether a cache could be allocated; sums of addresses and lengths fit 32 bits.
    method Write(addr: nat, buf: array?<Byte>, len: nat, memory: bool) returns (err: int)
      requires installed && drv != null ==> drv.Valid() && buf != drv.mem
      requires buf != null ==> len <= buf.Length
      requires installed && drv != null && addr < drv.mem.Length && len > 0 ==>
        Fits(addr, Clip(drv.mem.Length, addr, len))
      modifies this`locks, drv, if drv == null then {} else {drv.mem}
      ensures !installed ==> err == EPERM
      ensures installed && drv == null ==> err == ENODRV
      ensures installed && drv != null && (addr >= drv.mem.Length || len == 0 || buf == null) ==> err == EINVAL
      ensures installed && drv != null && addr < drv.mem.Length && len > 0 && buf != null ==>
        (!memory ==> err == ENOMEM) && (memory ==> err == OK || err == EIO) && (memory && drv.reliable ==> err == OK)
      ensures err != OK && err != EIO && drv != null ==> drv.mem[..] == old(drv.mem[..])
      ensures err == OK ==>
        && drv != null && buf != null && len > 0 && addr < drv.mem.Length && drv.Valid()
        && var n := Clip(drv.mem.Length, addr, len);
           Fits(addr, n) && drv.mem[..] == Written(old(drv.mem[..]), addr, buf[..n])
      ensures err == EIO ==>
        && drv != null && len > 0 && addr < drv.mem.Length
        && var n := Clip(drv.mem.Length, addr, len);
           LastStart(addr, n) + SECTOR <= drv.mem.Length
           && drv.mem[..addr / SECTOR * SECTOR] == old(drv.mem[..addr / SECTOR * SECTOR])
           && drv.mem[LastStart(addr, n) + SECTOR..] == old(drv.mem[LastStart(addr, n) + SECTOR..])
      // The lock is left as it was, except that a driver error releases it once too often.
      ensures locks == old(locks) + if err == EIO then 1 else 0
    {
      hide Overlay, Written, Fits, LastStart;
      if !installed { return EPERM; }
      if drv == null { return ENODRV; }
      if addr >= drv.mem.Length || len == 0 || buf == null { return EINVAL; }
      locks := locks - 1;
      var n := if addr + len > drv.mem.Length then drv.mem.Length - addr else len;
      if !memory {
        locks := locks + 1;
        return ENOMEM;
      }
      var copy := new Byte[SECTOR];
      err := WriteSectors(drv, addr, buf, n, copy);
      locks := locks + 1;
    }

    // Where in its sector, and how much, the i-th of the sectors gets.
    method Stretch(i: nat, count: nat, skew: nat, left: nat) returns (off: nat, size: nat)
      requires i < count && skew < SECTOR
      ensures off == if i == 0 || i == count - 1 then skew else 0
      ensures size == if i == count - 1 then left else if i == 0 then SECTOR - skew else SECTOR
    {
      off, size := 0, SECTOR;
      if i == 0 && i != count - 1 {
        off, size := skew, SECTOR - skew;
      } else if i == count - 1 {
        off, size := skew, left;
      }
    }

    // The loop over the sectors of a clipped range.
    method WriteSectors(d: Driver, addr: nat, buf: array<Byte>, n: nat, copy: array<Byte>) returns (err: int)
      requires installed && drv == d && d.Valid() && buf != d.mem && n <= buf.Length
      requires addr + n <= d.mem.Length && n > 0 && Fits(addr, n)
      requires copy.Length == SECTOR && copy != d.mem && copy != buf
      modifies this`locks, d, d.mem, copy
      ensures (d.reliable ==> err == OK) && (err == OK || err == EIO)
      ensures err == OK ==> d.mem[..] == Written(old(d.mem[..]), addr, buf[..n])
      ensures LastStart(addr, n) + SECTOR <= d.mem.Length
      ensures d.mem[..addr / SECTOR * SECTOR] == old(d.mem[..addr / SECTOR * SECTOR])
      ensures d.mem[LastStart(addr, n) + SECTOR..] == old(d.mem[LastStart(addr, n) + SECTOR..])
      ensures locks == old(locks) + if err == OK then 0 else 1
    {
      hide Overlay, Written, LastStart, Fits, Spans, SameOutside, EraseAny, FlashSpec.Erase, ProgramPages;
      var first, count, skew := Span(addr, n, d.mem.Length);
      ghost var f, data, last := d.mem[..], buf[..n], LastStart(addr, n);
      var i, pos, left := 0, 0, n;
      err := OK;
      OverlayNothing(f, addr);
      assert data[..0] == [];
      while i < count
        invariant 0 <= i <= count && err == OK && locks == old(locks)
        invariant i < count ==> left == n - pos && pos == (if i == 0 then 0 else (first + i) * SECTOR - addr) <= n
        invariant i < count ==> d.mem[..] == Overlay(f, addr, data[..pos])
        invariant i == count ==> d.mem[..] == Written(f, addr, data)
      {
        var off, size := Stretch(i, count, skew, left);
        ghost var before := d.mem[..];
        NextSector(f, addr, data, pos, size, i, count, first);
        ghost var chunk := buf[pos..pos + size];
        assert chunk == data[pos..pos + size];
        err := UpdateSector(d, first + i, off, buf, pos, size, copy);
        if err != OK {
          StoppedAt(f, addr, data[..pos], before, d.mem[..], first, i, last + SECTOR);
          locks := locks + 1;
          return;
        }
        pos, left := pos + size, left - size;
        i := i + 1;
      }
      WrittenEnds(f, addr, data);
    }

    method Read(addr: nat, buf: array?<Byte>, len: nat) returns (err: int)
      requires installed && drv != null ==> drv.Valid() && buf != drv.mem
      requires buf != null ==> len <= buf.Length
      modifies this`locks, drv, if buf == null then {} else {buf}
      ensures !installed ==> err == EPERM
      ensures installed && drv == null ==> err == ENODRV
      ensures installed && drv != null && (addr >= drv.mem.Length || len == 0 || buf == null) ==> err == EINVAL
      ensures installed && drv != null && addr < drv.mem.Length && len > 0 && buf != null ==>
        (drv.reliable ==> err == OK) && (err == OK || err == EIO)
      ensures err == OK ==>
        && drv != null && buf != null && addr < drv.mem.Length
        && var n := Clip(drv.mem.Length, addr, len);
           buf[..n] == drv.mem[addr..addr + n] && buf[n..] == old(buf[n..])
      ensures locks == old(locks)
    {
      if !installed { return EPERM; }
      if drv == null { return ENODRV; }
      if addr >= drv.mem.Length || len == 0 || buf == null { return EINVAL; }
      locks := locks - 1;
      var n := if addr + len > drv.mem.Length then drv.mem.Length - addr else len;
      err := drv.Read(addr, buf, n);
      locks := locks + 1;
    }

    // ---- the write-behind buffer -----------------------------------------------------------

    ghost predicate Set()
      reads this
    {
      installed && drv != null && drv.Valid() && cache != null && cache.Length == SECTOR && cache != drv.mem
    }

    ghost predicate Ready()
      reads this
    {
      Set() && secOffset < SECTOR
    }

    ghost function View(): (b: Buffer)
      requires Ready()
      reads this, cache, drv, drv.mem
      ensures Sized(b)
    {
      Buffer(drv.mem[..], cache[..], sector, secOffset)
    }

    method FastWriteInit(memory: bool) returns (err: int)
      modifies this`cache
      ensures err == (if !installed || drv == null then EPERM else if old(cache) != null || !memory then -1 else 0)
      ensures err != 0 ==> cache == old(cache)
      ensures err == 0 ==> cache != null && fresh(cache) && cache.Length == SECTOR
    {
      if !installed || drv == null { return EPERM; }
      if cache != null || !memory { return -1; }
      cache := new Byte[SECTOR];
      err := 0;
    }

    // The errors of the driver are dropped.
    method FlushSector()
      requires Set()
      modifies this`secOffset, drv, drv.mem
      ensures secOffset == 0
      ensures drv.reliable ==> drv.mem[..] == AfterFlush(old(drv.mem[..]), cache[..], sector, drv.wraps)
      ensures (sector + 1) * SECTOR <= drv.mem.Length ==>
        SameOutside(old(drv.mem[..]), drv.mem[..], sector * SECTOR, (sector + 1) * SECTOR)
      ensures (sector + 1) * SECTOR > drv.mem.Length ==>
        drv.mem[..] == old(drv.mem[..]) || drv.mem[..] == EraseAny(old(drv.mem[..]), sector, drv.wraps)
    {
      hide ProgramPages, Overlay, FlashSpec.Erase;
      ghost var f := drv.mem[..];
      var err := drv.Erase(sector);
      InRange(sector, drv.mem.Length);
      if (sector + 1) * SECTOR <= drv.mem.Length {
        Rewritten(f, sector, cache[..]);
        ErasedEnds(f, sector);
      }
      err := PageWrite(sector * PAGES, cache, PAGES);
      secOffset := 0;
    }

    method FastWrite(addr: nat, buf: array?<Byte>, length: nat) returns (err: int)
      requires installed && drv != null && buf != null && length > 0 && addr < drv.mem.Length ==>
        Ready() && buf != drv.mem && buf != cache && length <= buf.Length
      modifies this`sector, this`secOffset, this`locks, cache, drv, if drv == null then {} else {drv.mem}
      ensures !installed || drv == null ==> err == EPERM
      ensures installed && drv != null ==>
        err == if addr >= drv.mem.Length || length == 0 || buf == null then EINVAL else OK
      ensures locks == old(locks)
      ensures err != OK && drv != null ==> drv.mem[..] == old(drv.mem[..])
      ensures err != OK ==>
        (cache != null ==> cache[..] == old(cache[..])) && sector == old(sector) && secOffset == old(secOffset)
      ensures err == OK ==>
        && old(Ready()) && Ready() && length <= buf.Length
        && var b, r := old(View()), Call(old(View()), addr, buf[..length], drv.wraps);
           (drv.reliable ==> View() == r) && Like(View(), r)
           && (!drv.wraps ==> OnlySectors(b.mem, drv.mem[..], b.sector, addr / SECTOR, sector))
    {
      hide Call, Turn, Loop, OnlySectors;
      if !installed || drv == null { return EPERM; }
      if addr >= drv.mem.Length || length == 0 || buf == null { return EINVAL; }
      locks := locks - 1;
      ghost var b := View();
      TurnTo(addr);
      ghost var c := View();
      Append(buf, length, addr % SECTOR, b.mem, b.sector);
      CallIs(b, c, addr, buf[..length], drv.wraps);
      locks := locks + 1;
      err := OK;
    }

    // What is buffered for another sector is flushed first.
    method TurnTo(addr: nat)
      requires Ready() && addr < drv.mem.Length
      modifies this`sector, this`secOffset, drv, drv.mem
      ensures Ready() && (drv.reliable ==> View() == Turn(old(View()), addr, drv.wraps))
      ensures Like(View(), Turn(old(View()), addr, drv.wraps))
      ensures !drv.wraps ==> OnlySectors(old(drv.mem[..]), drv.mem[..], old(sector), addr / SECTOR, sector)
    {
      hide AfterFlush, OnlySectors, SameOutside, EraseAny;
      ghost var f := drv.mem[..];
      var newSector := addr / SECTOR;
      NoSectors(f, sector, newSector);
      if newSector != sector && secOffset != 0 {
        FlushSector();
        if !drv.wraps { FlushChanges(f, drv.mem[..], sector, newSector); }
      }
      sector := newSector;
    }

    // The loop that fills the cache and flushes it whenever a sector's worth of bytes is counted.
    method Append(buf: array<Byte>, length: nat, at: nat, ghost f: seq<Byte>, ghost one: nat)
      requires Ready() && buf != drv.mem && buf != cache && at < SECTOR && length <= buf.Length
      requires !drv.wraps ==> OnlySectors(f, drv.mem[..], one, sector, sector)
      modifies this`sector, this`secOffset, cache, drv, drv.mem
      ensures Ready() && (drv.reliable ==> View() == Loop(old(View()), at, buf[..length], drv.wraps))
      ensures Like(View(), Loop(old(View()), at, buf[..length], drv.wraps))
      ensures !drv.wraps ==> OnlySectors(f, drv.mem[..], one, old(sector), sector)
    {
      hide Loop, Copy, OnlySectors, Reaches, Like;
      ghost var goal, first := Loop(View(), at, buf[..length], drv.wraps), sector;
      var offset: nat, maxlen: nat, left: nat, pos: nat := at, SECTOR - at, length, 0;
      assert buf[0..length] == buf[..length];
      ReachesItself(View(), at, buf[..length], drv.wraps, drv.reliable);
      while left > 0
        invariant Ready() && left == length - pos && pos <= length
        invariant offset < SECTOR && maxlen == SECTOR - offset
        invariant Reaches(View(), offset, buf[pos..length], goal, drv.wraps, drv.reliable)
        invariant first <= sector && (!drv.wraps ==> OnlySectors(f, drv.mem[..], one, first, sector))
      {
        var len := if left > maxlen then maxlen else left;
        ghost var b, data := View(), buf[pos..length];
        AppendPart(buf, pos, len, offset, f, one, first);
        assert data[..len] == buf[pos..pos + len] && data[len..] == buf[pos + len..length];
        ReachesAfter(b, View(), offset, data, len, goal, drv.wraps, drv.reliable);
        offset, maxlen := 0, SECTOR;
        left, pos := left - len, pos + len;
      }
      assert buf[pos..length] == [];
      ReachesEnd(View(), offset, goal, drv.wraps, drv.reliable);
    }

    method AppendPart(buf: array<Byte>, pos: nat, len: nat, offset: nat, ghost f: seq<Byte>, ghost one: nat,
        ghost first: nat)
      requires Ready() && buf != drv.mem && buf != cache && offset + len <= SECTOR && pos + len <= buf.Length
      requires first <= sector && (!drv.wraps ==> OnlySectors(f, drv.mem[..], one, first, sector))
      modifies this`sector, this`secOffset, cache, drv, drv.mem
      ensures Ready() && (drv.reliable ==> View() == Copy(old(View()), offset, buf[pos..pos + len], drv.wraps))
      ensures Like(View(), Copy(old(View()), offset, buf[pos..pos + len], drv.wraps))
      ensures first <= sector && (!drv.wraps ==> OnlySectors(f, drv.mem[..], one, first, sector))
    {
      hide Overlay, AfterFlush, OnlySectors, SameOutside, EraseAny;
      ghost var g := drv.mem[..];
      Memcpy(cache, offset, buf, pos, len);
      secOffset := secOffset + len;
      if secOffset >= SECTOR {
        FlushSector();
        if !drv.wraps { FlushAdds(f, g, drv.mem[..], one, first, sector); }
        sector := sector + 1;
      }
    }

    // The buffer is flushed, also if it holds nothing.
    method FastWriteDestroy()
      requires cache != null ==> Ready()
      modifies this`cache, this`secOffset, drv, if drv == null then {} else {drv.mem}
      ensures cache == null
      ensures old(cache) == null ==> secOffset == old(secOffset) && (drv != null ==> drv.mem[..] == old(drv.mem[..]))
      ensures old(cache) != null ==>
        && secOffset == 0 && old(Ready()) && (drv.reliable ==> drv.mem[..] == End(old(View()), drv.wraps))
        && (!drv.wraps ==> OnlySectors(old(drv.mem[..]), drv.mem[..], sector, 0, 0))
    {
      hide AfterFlush, OnlySectors, SameOutside, EraseAny;
      if cache != null {
        ghost var f := drv.mem[..];
        FlushSector();
        if !drv.wraps { FlushChanges(f, drv.mem[..], sector, 0); }
        cache := null;
      }
    }
  }

  lemma ProgramEnds(f: seq<Byte>, page: nat, data: seq<Byte>, a: nat, b: nat)
    requires |data| == PAGE && (page + 1) * PAGE <= |f| && a <= page * PAGE && (page + 1) * PAGE <= b <= |f|
    ensures Program(f, page, data)[..a] == f[..a] && Program(f, page, data)[b..] == f[b..]
  {}

  lemma ErasedEnds(f: seq<Byte>, s: nat)
    requires (s + 1) * SECTOR <= |f|
    ensures FlashSpec.Erase(f, s)[..s * SECTOR] == f[..s * SECTOR]
    ensures FlashSpec.Erase(f, s)[(s + 1) * SECTOR..] == f[(s + 1) * SECTOR..]
  {}

  predicate Spans(addr: nat, n: nat, first: nat, count: nat) {
    n > 0 && first == addr / SECTOR && count == (addr + n - 1) / SECTOR - first + 1
  }

  // The first sector of a range, how many there are and where in the first it starts.
  method Span(addr: nat, n: nat, ghost size: nat) returns (first: nat, count: nat, skew: nat)
    requires n > 0 && addr + n <= size && size % SECTOR == 0
    ensures Spans(addr, n, first, count) && first == addr / SECTOR && skew == addr % SECTOR && count > 0
    ensures addr == first * SECTOR + skew && skew < SECTOR
    ensures LastStart(addr, n) == (first + count - 1) * SECTOR && LastStart(addr, n) + SECTOR <= size
  {
    first, count, skew := addr / SECTOR, (addr + n - 1) / SECTOR - addr / SECTOR + 1, addr % SECTOR;
    LastStartIs(addr, n);
  }

  // What is unchanged outside a sector is unchanged outside a larger range.
  lemma Around(before: seq<Byte>, after: seq<Byte>, a: nat, b: nat, c: nat, e: nat)
    requires |before| == |after| && a <= b && e <= c <= |before| && b <= |before|
    requires before[..b] == after[..b] && before[e..] == after[e..]
    ensures before[..a] == after[..a] && before[c..] == after[c..]
  {
    assert before[..a] == before[..b][..a] && after[..a] == after[..b][..a];
    assert before[c..] == before[e..][c - e..] && after[c..] == after[e..][c - e..];
  }

  // A driver error at the i-th sector leaves everything outside the sectors of the range alone.
  lemma StoppedAt(f: seq<Byte>, addr: nat, part: seq<Byte>, before: seq<Byte>, after: seq<Byte>, first: nat,
      i: nat, end: nat)
    requires addr + |part| <= end <= |f| == |before| == |after| && first * SECTOR <= addr
      && (first + i + 1) * SECTOR <= end
    requires before == Overlay(f, addr, part)
    requires before[..(first + i) * SECTOR] == after[..(first + i) * SECTOR]
    requires before[(first + i + 1) * SECTOR..] == after[(first + i + 1) * SECTOR..]
    ensures after[..first * SECTOR] == f[..first * SECTOR] && after[end..] == f[end..]
  {
    hide Overlay;
    Around(before, after, first * SECTOR, (first + i) * SECTOR, end, (first + i + 1) * SECTOR);
    OverlayEnds(f, addr, part, first * SECTOR, end);
  }

  lemma OverlayEnds(f: seq<Byte>, a: nat, data: seq<Byte>, b: nat, c: nat)
    requires a + |data| <= |f| && b <= a && a + |data| <= c <= |f|
    ensures Overlay(f, a, data)[..b] == f[..b] && Overlay(f, a, data)[c..] == f[c..]
  {}

  lemma WrittenEnds(f: seq<Byte>, addr: nat, data: seq<Byte>)
    requires data != [] && addr + |data| <= |f| && |f| % SECTOR == 0 && Fits(addr, |data|)
    ensures LastStart(addr, |data|) + SECTOR <= |f|
    ensures Written(f, addr, data)[..addr / SECTOR * SECTOR] == f[..addr / SECTOR * SECTOR]
    ensures Written(f, addr, data)[LastStart(addr, |data|) + SECTOR..] == f[LastStart(addr, |data|) + SECTOR..]
  {
    hide Overlay;
    LastStartIs(addr, |data|);
    var last := LastStart(addr, |data|);
    if OneSector(addr, |data|) {
      OverlayEnds(f, addr, data, addr / SECTOR * SECTOR, last + SECTOR);
    } else {
      OverlayEnds(f, addr, data[..last - addr], addr / SECTOR * SECTOR, last + SECTOR);
      OverlayEnds(Overlay(f, addr, data[..last - addr]), last + addr % SECTOR, data[last - addr..],
        addr / SECTOR * SECTOR, last + SECTOR);
    }
  }

  // One more sector of the loop: the next stretch of the data, or the last one.
  lemma NextSector(f: seq<Byte>, addr: nat, data: seq<Byte>, pos: nat, size: nat, i: nat, count: nat, first: nat)
    requires data != [] && addr + |data| <= |f| && |f| % SECTOR == 0 && Fits(addr, |data|)
    requires Spans(addr, |data|, first, count) && i < count
    requires pos == (if i == 0 then 0 else (first + i) * SECTOR - addr) <= |data|
    requires size == if i == count - 1 then |data| - pos else if i == 0 then SECTOR - addr % SECTOR else SECTOR
    ensures var off := if i == 0 || i == count - 1 then addr % SECTOR else 0;
            && pos + size <= |data| && off + size <= SECTOR && (first + i) * SECTOR + off + size <= |f|
            && Overlay(Overlay(f, addr, data[..pos]), (first + i) * SECTOR + off, data[pos..pos + size]) ==
               (if i == count - 1 then Written(f, addr, data) else Overlay(f, addr, data[..pos + size]))
            && (i < count - 1 ==> pos + size == (first + i + 1) * SECTOR - addr)
  {
    hide Overlay;
    LastStartIs(addr, |data|);
    if i == 0 {
      assert data[..0] == [];
      OverlayNothing(f, addr);
      assert data[0..0 + size] == data[..size];
      if count == 1 { assert data[..size] == data; }
    } else if i < count - 1 {
      OverlayTwice(f, addr, data[..pos], data[pos..pos + size]);
      assert data[..pos] + data[pos..pos + size] == data[..pos + size];
    } else {
      assert data[pos..pos + size] == data[pos..];
    }
  }
}

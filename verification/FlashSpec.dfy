// NOR flash as its cells behave, and what writing through whole sectors should amount to.
module FlashSpec {
  type Byte = bv8
  const SECTOR := 4096
  const PAGE := 256
  const PAGES := 16
  const ERASED: Byte := 0xff

  // Programming can only clear bits.
  function And(a: Byte, b: Byte): Byte { a & b }

  lemma ProgramErased(x: Byte)
    ensures And(ERASED, x) == x
  {}

  // f with its bytes from a on replaced by data.
  function Overlay(f: seq<Byte>, a: nat, data: seq<Byte>): (r: seq<Byte>)
    requires a + |data| <= |f|
    ensures |r| == |f|
  {
    f[..a] + data + f[a + |data|..]
  }

  function Erase(f: seq<Byte>, sector: nat): seq<Byte>
    requires (sector + 1) * SECTOR <= |f|
  {
    Overlay(f, sector * SECTOR, seq(SECTOR, _ => ERASED))
  }

  function Program(f: seq<Byte>, page: nat, data: seq<Byte>): (r: seq<Byte>)
    requires |data| == PAGE && (page + 1) * PAGE <= |f|
    ensures |r| == |f|
  {
    Overlay(f, page * PAGE, seq(PAGE, i requires 0 <= i < PAGE => And(f[page * PAGE + i], data[i])))
  }

  lemma OverlayAt(f: seq<Byte>, a: nat, data: seq<Byte>, i: nat)
    requires a + |data| <= |f| && i < |f|
    ensures Overlay(f, a, data)[i] == if a <= i < a + |data| then data[i - a] else f[i]
  {}

  lemma OverlayTwice(f: seq<Byte>, a: nat, x: seq<Byte>, y: seq<Byte>)
    requires a + |x| + |y| <= |f|
    ensures Overlay(Overlay(f, a, x), a + |x|, y) == Overlay(f, a, x + y)
  {}

  lemma OverlayReads(f: seq<Byte>, a: nat, data: seq<Byte>)
    requires a + |data| <= |f|
    ensures Overlay(f, a, data)[a..a + |data|] == data
    ensures Overlay(f, a, data)[..a] == f[..a] && Overlay(f, a, data)[a + |data|..] == f[a + |data|..]
  {}

  // A sector rewritten with a changed copy of itself: the change alone.
  lemma SectorChange(f: seq<Byte>, a: nat, n: nat, off: nat, chunk: seq<Byte>)
    requires a + n <= |f| && off + |chunk| <= n
    ensures Overlay(f, a, Overlay(f[a..a + n], off, chunk)) == Overlay(f, a + off, chunk)
  {
    var s := f[a..a + n];
    var t := Overlay(s, off, chunk);
    forall i | 0 <= i < |f| ensures Overlay(f, a, t)[i] == Overlay(f, a + off, chunk)[i] {
      OverlayAt(f, a, t, i);
      OverlayAt(f, a + off, chunk, i);
      if a <= i < a + n { OverlayAt(s, off, chunk, i - a); }
    }
  }

  // ---- what tls_fls_write makes of a range -----------------------------------------------

  predicate OneSector(addr: nat, n: nat) { n > 0 && addr / SECTOR == (addr + n - 1) / SECTOR }

  function LastStart(addr: nat, n: nat): nat
    requires n > 0
  {
    (addr + n - 1) / SECTOR * SECTOR
  }

  // Within one sector the data goes where it belongs.  Over several, the part for the last sector
  // is placed at the offset the first one had.
  predicate Fits(addr: nat, n: nat) {
    n > 0 && (!OneSector(addr, n) ==> addr % SECTOR + (addr + n - LastStart(addr, n)) <= SECTOR)
  }

  lemma LastStartIs(addr: nat, n: nat)
    requires n > 0
    ensures LastStart(addr, n) <= addr + n - 1 < LastStart(addr, n) + SECTOR
    ensures LastStart(addr, n) % SECTOR == 0
    ensures OneSector(addr, n) <==> LastStart(addr, n) <= addr
    ensures !OneSector(addr, n) ==> addr < LastStart(addr, n)
  {}

  function Written(f: seq<Byte>, addr: nat, data: seq<Byte>): (r: seq<Byte>)
    requires data != [] && addr + |data| <= |f| && |f| % SECTOR == 0 && Fits(addr, |data|)
    ensures |r| == |f|
  {
    LastStartIs(addr, |data|);
    if OneSector(addr, |data|) then Overlay(f, addr, data)
    else
      var last := LastStart(addr, |data|);
      Overlay(Overlay(f, addr, data[..last - addr]), last + addr % SECTOR, data[last - addr..])
  }

  predicate Proper(addr: nat, n: nat) { addr % SECTOR == 0 || OneSector(addr, n) }

  lemma WrittenProper(f: seq<Byte>, addr: nat, data: seq<Byte>)
    requires data != [] && addr + |data| <= |f| && |f| % SECTOR == 0 && Proper(addr, |data|)
    ensures Fits(addr, |data|) && Written(f, addr, data) == Overlay(f, addr, data)
  {
    LastStartIs(addr, |data|);
    if !OneSector(addr, |data|) {
      var k := LastStart(addr, |data|) - addr;
      OverlayTwice(f, addr, data[..k], data[k..]);
      assert data[..k] + data[k..] == data;
    }
  }

  // Otherwise the first byte of the last sector keeps its old value.
  lemma WrittenMisses(f: seq<Byte>, addr: nat, data: seq<Byte>)
    requires data != [] && addr + |data| <= |f| && |f| % SECTOR == 0 && Fits(addr, |data|) && !Proper(addr, |data|)
    ensures var last := LastStart(addr, |data|);
            addr < last < addr + |data| && Written(f, addr, data)[last] == f[last]
              && Overlay(f, addr, data)[last] == data[last - addr]
  {
    LastStartIs(addr, |data|);
    var last := LastStart(addr, |data|);
    var g := Overlay(f, addr, data[..last - addr]);
    OverlayAt(g, last + addr % SECTOR, data[last - addr..], last);
    OverlayAt(f, addr, data[..last - addr], last);
    OverlayAt(f, addr, data, last);
  }

  // Byte by byte: what starts in the first sector, up to the last, goes where it belongs; the rest to
  // the last sector, as far from its start as addr is from that of the first; nothing else changes.
  lemma WrittenAt(f: seq<Byte>, addr: nat, data: seq<Byte>, i: nat)
    requires data != [] && addr + |data| <= |f| && |f| % SECTOR == 0 && Fits(addr, |data|) && i < |f|
    ensures var last := LastStart(addr, |data|);
            var from := if OneSector(addr, |data|) then addr else last + addr % SECTOR;
            var done := if OneSector(addr, |data|) then 0 else last - addr;
            Written(f, addr, data)[i] ==
              if from <= i < from + |data| - done then data[done + i - from]
              else if addr <= i < addr + done then data[i - addr]
              else f[i]
  {
    hide Overlay, LastStart, OneSector;
    LastStartIs(addr, |data|);
    var last := LastStart(addr, |data|);
    if OneSector(addr, |data|) {
      OverlayAt(f, addr, data, i);
    } else {
      OverlayAt(f, addr, data[..last - addr], i);
      OverlayAt(Overlay(f, addr, data[..last - addr]), last + addr % SECTOR, data[last - addr..], i);
    }
  }

  // Where in the sector cache, and how much, is copied for the i-th sector of a range.
  function SectorCount(addr: nat, n: nat): int
    requires n > 0
  {
    (addr + n - 1) / SECTOR - addr / SECTOR + 1
  }

  function CopyAt(addr: nat, n: nat, i: nat): nat
    requires n > 0
  {
    if i == 0 || i == SectorCount(addr, n) - 1 then addr % SECTOR else 0
  }

  function CopyLength(addr: nat, n: nat, i: nat): int
    requires n > 0
  {
    var copied := if i == 0 then 0 else (addr / SECTOR + i) * SECTOR - addr;
    if i == SectorCount(addr, n) - 1 then n - copied else if i == 0 then SECTOR - addr % SECTOR else SECTOR
  }

  lemma FitsExactly(addr: nat, n: nat)
    requires n > 0
    ensures Fits(addr, n) <==>
      forall i :: 0 <= i < SectorCount(addr, n) ==> CopyAt(addr, n, i) + CopyLength(addr, n, i) <= SECTOR
  {
    LastStartIs(addr, n);
    var last := SectorCount(addr, n) - 1;
    assert LastStart(addr, n) == (addr / SECTOR + last) * SECTOR;
    assert last > 0 ==>
      CopyAt(addr, n, last) + CopyLength(addr, n, last) == addr % SECTOR + (addr + n - LastStart(addr, n));
    assert CopyAt(addr, n, 0) + CopyLength(addr, n, 0) <= SECTOR;
  }

  lemma CopyOverruns()
    ensures CopyAt(1, 8191, 1) + CopyLength(1, 8191, 1) == SECTOR + 1 && !Fits(1, 8191)
  {}

  // A range is written as a flat array would be, whatever the data and the old contents.
  ghost predicate Flat(size: nat, addr: nat, n: nat)
    requires n > 0 && addr + n <= size && size % SECTOR == 0 && Fits(addr, n)
  {
    forall f: seq<Byte>, data: seq<Byte> :: |f| == size && |data| == n ==>
      Written(f, addr, data) == Overlay(f, addr, data)
  }

  // Every copy stays in the sector cache and the bytes go where they belong, exactly when the range
  // starts on a sector boundary or stays within one sector.
  lemma FlatExactly(size: nat, addr: nat, n: nat)
    requires n > 0 && addr + n <= size && size % SECTOR == 0
    ensures Proper(addr, n) <==> Fits(addr, n) && Flat(size, addr, n)
  {
    hide Written, Overlay, Fits;
    if Proper(addr, n) {
      ProperFits(addr, n);
      forall f: seq<Byte>, data: seq<Byte> | |f| == size && |data| == n
        ensures Written(f, addr, data) == Overlay(f, addr, data) {
        WrittenProper(f, addr, data);
      }
    } else if Fits(addr, n) {
      var f: seq<Byte> := seq(size, _ => 0);
      var data: seq<Byte> := seq(n, _ => 1);
      WrittenMisses(f, addr, data);
      assert Written(f, addr, data) != Overlay(f, addr, data);
    }
  }

  lemma ProperFits(addr: nat, n: nat)
    requires n > 0 && Proper(addr, n)
    ensures Fits(addr, n)
  {
    LastStartIs(addr, n);
  }

  // Reading back what was written, through the same clipping.
  function Clip(size: nat, addr: nat, n: nat): (m: nat)
    requires addr < size
    ensures m <= n && addr + m <= size && (m == n || addr + m == size)
  {
    if addr + n > size then size - addr else n
  }

  lemma WriteThenRead(f: seq<Byte>, addr: nat, data: seq<Byte>)
    requires data != [] && addr + |data| <= |f| && |f| % SECTOR == 0 && Proper(addr, |data|)
    ensures Fits(addr, |data|) && Written(f, addr, data)[addr..addr + |data|] == data
  {
    hide Overlay, Written;
    WrittenProper(f, addr, data);
    OverlayReads(f, addr, data);
  }
}

// The firmware update's use of the write-behind buffer: sessions of consecutive writes, begun
// whether or not the last one was ended.
module Firmware {
  import opened FlashSpec
  import opened StreamSpec
  import opened StreamExact
  import opened Flash

  function Contents(chunks: seq<array<Byte>>): (s: seq<seq<Byte>>)
    reads chunks
    ensures |s| == |chunks| && forall i :: 0 <= i < |s| ==> s[i] == chunks[i][..]
  {
    if chunks == [] then [] else Contents(chunks[..|chunks| - 1]) + [chunks[|chunks| - 1][..]]
  }

  ghost predicate Apart(f: Fls, chunks: seq<array<Byte>>)
    reads f
  {
    f.drv != null && forall i :: 0 <= i < |chunks| ==> chunks[i] != f.drv.mem && chunks[i] != f.cache
  }

  // Once a chunk starts beyond the chip all the following do.
  lemma {:induction false} BeyondStays(b: Buffer, addr: nat, chunks: seq<seq<Byte>>, i: nat, wraps: bool)
    requires Sized(b) && i <= |chunks| && addr + |Joined(chunks[..i])| >= |b.mem|
    ensures Calls(b, addr, chunks, wraps) == Calls(b, addr, chunks[..i], wraps)
    ensures addr + |Joined(chunks)| >= |b.mem|
    decreases |chunks| - i
  {
    hide Call;
    if i == |chunks| {
      assert chunks[..i] == chunks;
    } else {
      assert chunks[..i + 1][..i] == chunks[..i];
      BeyondStays(b, addr, chunks, i + 1, wraps);
    }
  }

  lemma {:induction false} PrefixShorter(chunks: seq<seq<Byte>>, i: nat)
    requires i <= |chunks|
    ensures |Joined(chunks[..i])| <= |Joined(chunks)|
    decreases |chunks| - i
  {
    if i == |chunks| {
      assert chunks[..i] == chunks;
    } else {
      assert chunks[..i + 1][..i] == chunks[..i];
      PrefixShorter(chunks, i + 1);
    }
  }

  lemma NextChunk(b: Buffer, at: nat, chunks: seq<seq<Byte>>, i: nat, wraps: bool)
    requires Sized(b) && i < |chunks|
    ensures Joined(chunks[..i + 1]) == Joined(chunks[..i]) + chunks[i]
    ensures Calls(b, at, chunks[..i + 1], wraps) ==
      var c, a := Calls(b, at, chunks[..i], wraps), at + |Joined(chunks[..i])|;
      if chunks[i] == [] || a >= |b.mem| then c else Call(c, a, chunks[i], wraps)
  {
    hide Call;
    assert chunks[..i + 1][..i] == chunks[..i];
  }

  // The chunks of an image as they arrive, empty ones among them.  One that is refused ends the
  // update.
  method WriteChunks(f: Fls, at: nat, chunks: seq<array<Byte>>) returns (ok: bool)
    requires f.Ready() && Apart(f, chunks)
    modifies f`sector, f`secOffset, f`locks, f.cache, f.drv, f.drv.mem
    ensures f.Ready() && f.locks == old(f.locks) && Contents(chunks) == old(Contents(chunks))
    ensures f.drv.reliable ==> f.View() == Calls(old(f.View()), at, Contents(chunks), f.drv.wraps)
    ensures !ok ==> at + |Joined(Contents(chunks))| > f.drv.mem.Length
  {
    hide Calls, Call, Joined;
    ghost var b, all := f.View(), Contents(chunks);
    var i, offset := 0, 0;
    Nothing(b, at, f.drv.wraps);
    assert all[..0] == [];
    while i < |chunks|
      invariant 0 <= i <= |chunks| && f.Ready() && f.locks == old(f.locks) && Contents(chunks) == all
      invariant offset == |Joined(all[..i])|
      invariant f.drv.reliable ==> f.View() == Calls(b, at, all[..i], f.drv.wraps)
    {
      NextChunk(b, at, all, i, f.drv.wraps);
      if chunks[i].Length > 0 {
        var err := f.FastWrite(at + offset, chunks[i], chunks[i].Length);
        if err != OK {
          BeyondStays(b, at, all, i, f.drv.wraps);
          PrefixShorter(all, i + 1);
          return false;
        }
        assert chunks[i][..chunks[i].Length] == all[i];
        offset := offset + chunks[i].Length;
      }
      i := i + 1;
    }
    assert all[..i] == all;
    ok := true;
  }

  lemma Nothing(b: Buffer, at: nat, wraps: bool)
    requires Sized(b)
    ensures Calls(b, at, [], wraps) == b && Joined([]) == []
  {}

  // A session: the buffer is made, or the failure to make it ignored, the image is written and the
  // buffer destroyed.  begun is what the session found or made.  Where an earlier session has
  // broken off its buffer is still there, and is written on.
  method WriteImage(f: Fls, at: nat, chunks: seq<array<Byte>>, memory: bool) returns (ok: bool, ghost begun: Buffer)
    requires f.installed && f.drv != null && f.drv.Valid() && f.secOffset < SECTOR && Apart(f, chunks)
    requires if f.cache == null then memory else f.Ready()
    modifies f`sector, f`secOffset, f`locks, f`cache, f.cache, f.drv, f.drv.mem
    ensures f.locks == old(f.locks) && Contents(chunks) == old(Contents(chunks))
    ensures old(f.cache) != null ==> begun == old(f.View())
    ensures Sized(begun) && begun.mem == old(f.drv.mem[..])
    ensures begun.sector == old(f.sector) && begun.off == old(f.secOffset)
    ensures !ok ==> at + |Joined(Contents(chunks))| > f.drv.mem.Length
    ensures if ok then f.cache == null && f.secOffset == 0 else f.Ready()
    ensures f.drv.reliable ==>
      var r := Calls(begun, at, Contents(chunks), f.drv.wraps);
      if ok then f.drv.mem[..] == End(r, f.drv.wraps) else f.View() == r
    ensures f.drv.reliable && Placed(begun, at, Contents(chunks), f.drv.wraps) ==>
      f.drv.mem[at..at + |Joined(Contents(chunks))|] == Joined(Contents(chunks))
  {
    hide Calls, Joined, End, Placed, OnlySectors, Contents;
    var err := f.FastWriteInit(memory);
    begun := f.View();
    ok := WriteChunks(f, at, chunks);
    if ok { f.FastWriteDestroy(); }
    if Placed(begun, at, Contents(chunks), f.drv.wraps) { PlacedKept(begun, at, Contents(chunks), f.drv.wraps); }
  }

  // The image is in step with the buffer and within the chip, and does not end a chip that wraps
  // round with its first sector in it.
  predicate Placed(b: Buffer, at: nat, chunks: seq<seq<Byte>>, wraps: bool) {
    var n := |Joined(chunks)|;
    && InStep(b.sector, b.off, at) && at + n <= |b.mem|
    && !(wraps && at < SECTOR && n > 0 && at + n == |b.mem|)
  }

  lemma PlacedKept(b: Buffer, at: nat, chunks: seq<seq<Byte>>, wraps: bool)
    requires Sized(b) && Placed(b, at, chunks, wraps)
    ensures at + |Joined(chunks)| <= |b.mem|
    ensures End(Calls(b, at, chunks, wraps), wraps)[at..at + |Joined(chunks)|] == Joined(chunks)
  {
    hide Calls, Joined, End, InStep;
    InStepKept(b, at, chunks, wraps);
  }
}

// The chaining loops over caller buffers.
module AesCbc {
  import opened AesCore
  import opened CbcSpec

  function Enciphering(w: seq<bv32>, nr: nat): Block -> Block
    requires nr > 0 && 4 * nr + 4 <= |w|
  {
    (b: Block) => EncryptBlock(w, nr, b)
  }

  function Deciphering(dw: seq<bv32>, nr: nat): Block -> Block
    requires nr > 0 && 4 * nr + 4 <= |dw|
  {
    (c: Block) => DecryptBlock(dw, nr, c)
  }

  // What out holds after its bytes at o are replaced by the block b.
  function Spliced(out: seq<bv8>, o: nat, b: seq<bv8>): (r: seq<bv8>)
    requires o + |b| <= |out|
    ensures |r| == |out|
  {
    out[..o] + b + out[o + |b|..]
  }

  lemma SplicedTwice(out: seq<bv8>, o: nat, x: seq<bv8>, y: seq<bv8>)
    requires o + |x| <= |out| && |x| == |y|
    ensures Spliced(Spliced(out, o, x), o, y) == Spliced(out, o, y)
    ensures Spliced(out, o, x)[o..o + |x|] == x
  {}

  lemma SplicedAfter(out: seq<bv8>, o: nat, x: seq<bv8>, y: seq<bv8>)
    requires o + |x| + |y| <= |out|
    ensures Spliced(Spliced(out, o, x), o + |x|, y) == Spliced(out, o, x + y)
  {}

  lemma SliceOfTail(a: seq<bv8>, b: seq<bv8>, pos: nat, n: nat)
    requires pos + n <= |a| && pos <= |b| && a[pos..] == b[pos..]
    ensures pos + n <= |b| && a[pos..pos + n] == b[pos..pos + n] && a[pos + n..] == b[pos + n..]
  {
    assert |b| == |a|;
    assert a[pos..pos + n] == a[pos..][..n] && b[pos..pos + n] == b[pos..][..n];
    assert a[pos + n..] == a[pos..][n..] && b[pos + n..] == b[pos..][n..];
  }

  lemma SplicedEnds(out: seq<bv8>, o: nat, x: seq<bv8>)
    requires o + |x| <= |out|
    ensures Spliced(out, o, x)[..o] == out[..o] && Spliced(out, o, x)[..o + |x|] == out[..o] + x
    ensures Spliced(out, o, x)[o + |x|..] == out[o + |x|..]
  {}

  // out[o + n] = src[i + n] ^ iv[v + n] for n < count
  method XorInto(out: array<bv8>, o: nat, src: array<bv8>, i: nat, iv: array<bv8>, v: nat, count: nat)
    requires o + count <= out.Length && i + count <= src.Length && v + count <= iv.Length
    requires (src != out || i == o) && (iv != out || v + count <= o)
    modifies out
    ensures out[..] == Spliced(old(out[..]), o, Xor(old(src[i..i + count]), old(iv[v..v + count])))
  {
    hide XorByte;
    var n := 0;
    while n < count
      invariant n <= count
      invariant forall k :: o <= k < o + n ==> out[k] == XorByte(old(src[k - o + i]), old(iv[k - o + v]))
      invariant forall k :: 0 <= k < out.Length && !(o <= k < o + n) ==> out[k] == old(out[k])
    {
      out[o + n] := XorByte(src[i + n], iv[v + n]);
      n := n + 1;
    }
  }

  // out[o + n] = pad ^ iv[v + n] for from <= n < 16
  method PadInto(out: array<bv8>, o: nat, from: nat, pad: bv8, iv: array<bv8>, v: nat)
    requires from <= 16 && o + 16 <= out.Length && v + 16 <= iv.Length
    requires iv != out || v + 16 <= o
    modifies out
    ensures out[..] == Spliced(old(out[..]), o + from, Xor(seq(16 - from, _ => pad), old(iv[v + from..v + 16])))
  {
    hide XorByte;
    var n := from;
    while n < 16
      invariant from <= n <= 16
      invariant forall k :: o + from <= k < o + n ==> out[k] == XorByte(pad, old(iv[k - o + v]))
      invariant forall k :: 0 <= k < out.Length && !(o + from <= k < o + n) ==> out[k] == old(out[k])
    {
      out[o + n] := XorByte(pad, iv[v + n]);
      n := n + 1;
    }
  }

  method EncryptInPlace(out: array<bv8>, o: nat, key: AesKey)
    requires key.Ready() && o + 16 <= out.Length
    modifies out
    ensures out[..] == Spliced(old(out[..]), o, EncryptBlock(key.rd_key[..], key.rounds, old(out[o..o + 16])))
  {
    Encrypt(out, o, out, o, key);
  }

  lemma XorJoins(a: seq<bv8>, b: seq<bv8>, iv: seq<bv8>)
    requires |a| + |b| == |iv|
    ensures Xor(a, iv[..|a|]) + Xor(b, iv[|a|..]) == Xor(a + b, iv)
  {}

  // One whole block: xor with the chain, then encrypt where it stands.
  method SealOne(input: array<bv8>, out: array<bv8>, pos: nat, key: AesKey, iv: array<bv8>, ivAt: nat)
    requires key.Ready() && pos + 16 <= input.Length && pos + 16 <= out.Length && ivAt + 16 <= iv.Length
    requires iv == out ==> ivAt + 16 <= pos
    modifies out
    ensures out[..] == Spliced(old(out[..]), pos, Enciphering(key.rd_key[..], key.rounds)(
      Xor(old(input[pos..pos + 16]), old(iv[ivAt..ivAt + 16]))))
  {
    hide EncryptBlock, Xor, Spliced;
    ghost var x := Xor(input[pos..pos + 16], iv[ivAt..ivAt + 16]);
    SplicedTwice(out[..], pos, x, EncryptBlock(key.rd_key[..], key.rounds, x));
    XorInto(out, pos, input, pos, iv, ivAt, 16);
    assert out[pos..pos + 16] == out[..][pos..pos + 16];
    EncryptInPlace(out, pos, key);
  }

  // The last, padded block: rest bytes of input and 16 - rest bytes of padding.
  method SealTail(input: array<bv8>, out: array<bv8>, pos: nat, rest: nat, key: AesKey, iv: array<bv8>, ivAt: nat)
    returns (added: nat)
    requires key.Ready() && rest < 16 && pos + rest <= input.Length && pos + 16 <= out.Length && ivAt + 16 <= iv.Length
    requires input != out || pos + rest <= out.Length
    requires iv == out ==> ivAt + 16 <= pos
    modifies out
    ensures added == 16 - rest
    ensures out[..] == Spliced(old(out[..]), pos, Enciphering(key.rd_key[..], key.rounds)(
      Xor(old(input[pos..pos + rest]) + seq(16 - rest, _ => (16 - rest) as bv8), old(iv[ivAt..ivAt + 16]))))
  {
    hide EncryptBlock, Xor, Spliced;
    var paddingLen := if rest > 0 then 16 - rest else 16;
    ghost var before, chain, tail := out[..], iv[ivAt..ivAt + 16], input[pos..pos + rest];
    ghost var fill := seq(16 - rest, _ => (16 - rest) as bv8);
    ghost var x := Xor(tail + fill, chain);
    ghost var x0, x1 := Xor(tail, chain[..rest]), Xor(fill, chain[rest..]);
    XorJoins(tail, fill, chain);
    SplicedAfter(before, pos, x0, x1);
    SplicedTwice(before, pos, x, EncryptBlock(key.rd_key[..], key.rounds, x));
    if rest > 0 {
      assert iv[ivAt..ivAt + rest] == chain[..rest];
      XorInto(out, pos, input, pos, iv, ivAt, rest);
      if iv == out { SplicedEnds(before, pos, x0); assert out[..pos] == before[..pos]; }
    } else {
      assert x0 == [] && before == Spliced(before, pos, x0) by { SplicedEnds(before, pos, []); }
    }
    assert iv[ivAt + rest..ivAt + 16] == chain[rest..];
    PadInto(out, pos, rest, paddingLen as bv8, iv, ivAt);
    assert out[pos..pos + 16] == out[..][pos..pos + 16];
    EncryptInPlace(out, pos, key);
    added := paddingLen;
  }

  // One more block written after those already sealed.
  lemma NextBlock(e: Block -> Block, iv0: Block, p: seq<bv8>, b: Block, was: seq<bv8>, before: seq<bv8>, chain: Block)
    requires |p| % 16 == 0 && |p| + 16 <= |was| == |before|
    requires before[..|p|] == Seal(e, iv0, p) && before[|p|..] == was[|p|..]
    requires chain == if p == [] then iv0 else before[|p| - 16..|p|]
    ensures var out := Spliced(before, |p|, e(Xor(b, chain)));
            out[..|p| + 16] == Seal(e, iv0, p + b) && out[|p| + 16..] == was[|p| + 16..]
  {
    hide Xor, Seal, Spliced;
    assert chain == if p == [] then iv0 else Seal(e, iv0, p)[|p| - 16..];
    SealExtends(e, iv0, p, b);
    SplicedEnds(before, |p|, e(Xor(b, chain)));
    SliceOfTail(before, was, |p|, 16);
  }

  // The blocks before pos are sealed and the others as they were.
  predicate Sealing(e: Block -> Block, iv0: Block, p: seq<bv8>, pos: nat, was: seq<bv8>, now: seq<bv8>) {
    && pos % 16 == 0 && pos <= |p| <= |was| == |now|
    && now[..pos] == Seal(e, iv0, p[..pos]) && now[pos..] == was[pos..]
  }

  lemma SealingBegins(e: Block -> Block, iv0: Block, p: seq<bv8>, was: seq<bv8>)
    requires |p| <= |was|
    ensures Sealing(e, iv0, p, 0, was, was)
  {
    EmptySeal(e, iv0);
    assert p[..0] == [];
  }

  lemma SealingGoesOn(e: Block -> Block, iv0: Block, p: seq<bv8>, pos: nat, was: seq<bv8>, before: seq<bv8>,
      chain: Block)
    requires Sealing(e, iv0, p, pos, was, before) && pos + 16 <= |p|
    requires chain == if pos == 0 then iv0 else before[pos - 16..pos]
    ensures Sealing(e, iv0, p, pos + 16, was, Spliced(before, pos, e(Xor(p[pos..pos + 16], chain))))
  {
    hide Xor, Seal, Spliced;
    assert p[..pos] + p[pos..pos + 16] == p[..pos + 16];
    NextBlock(e, iv0, p[..pos], p[pos..pos + 16], was, before, chain);
  }

  lemma SealingIs(e: Block -> Block, iv0: Block, p: seq<bv8>, pos: nat, was: seq<bv8>, now: seq<bv8>)
    requires Sealing(e, iv0, p, pos, was, now)
    ensures pos % 16 == 0 && pos <= |p| <= |was| == |now|
    ensures now[..pos] == Seal(e, iv0, p[..pos]) && now[pos..] == was[pos..]
  {
    hide Seal;
  }

  // The encrypting loop over the whole blocks of the input; iv points at the last block
  // written, or at the copy of the initial vector.
  method SealBlocks(input: array<bv8>, out: array<bv8>, length: nat, key: AesKey, tempiv: array<bv8>)
    returns (pos: nat, iv: array<bv8>, ivAt: nat)
    requires key.Ready() && tempiv.Length == 16 && length <= input.Length && length <= out.Length
    requires tempiv != out
    modifies out
    ensures pos == length / 16 * 16 && ivAt + 16 <= iv.Length && (iv == out ==> ivAt + 16 <= pos)
    ensures out[..pos] == Seal(Enciphering(key.rd_key[..], key.rounds), tempiv[..], old(input[..pos]))
    ensures out[pos..] == old(out[pos..])
    ensures iv[ivAt..ivAt + 16] == if pos == 0 then tempiv[..] else out[pos - 16..pos]
  {
    hide Seal, Enciphering, Xor, Spliced, Sealing, InputKept;
    ghost var e, iv0: Block := Enciphering(key.rd_key[..], key.rounds), tempiv[..];
    ghost var p, was := input[..length], out[..];
    iv, ivAt, pos := tempiv, 0, 0;
    SealingBegins(e, iv0, p, was);
    InputBegins(input[..], was, p, input == out);
    while length - pos >= 16
      invariant pos <= length && pos % 16 == 0 && Sealing(e, iv0, p, pos, was, out[..])
      invariant InputKept(input[..], out[..], was, p, input == out)
      invariant if pos == 0 then iv == tempiv && ivAt == 0 else iv == out && ivAt == pos - 16
    {
      SealingIs(e, iv0, p, pos, was, out[..]);
      ghost var i0, o0 := input[..], out[..];
      InputAt(i0, o0, was, p, pos, input == out);
      assert input[pos..pos + 16] == i0[pos..pos + 16];
      SealingGoesOn(e, iv0, p, pos, was, o0, iv[ivAt..ivAt + 16]);
      SealOne(input, out, pos, key, iv, ivAt);
      InputStays(i0, o0, input[..], out[..], was, p, input == out);
      iv, ivAt := out, pos;
      pos := pos + 16;
    }
    SealingIs(e, iv0, p, pos, was, out[..]);
    AllBlocks(pos, length);
    assert p[..pos] == old(input[..pos]);
  }

  lemma AllBlocks(pos: nat, length: nat)
    requires pos % 16 == 0 && pos <= length < pos + 16
    ensures pos == length / 16 * 16
  {}

  // The input is what it was, also where it is overwritten behind the loop.
  predicate InputKept(input: seq<bv8>, out: seq<bv8>, was: seq<bv8>, p: seq<bv8>, same: bool) {
    && |p| <= |input| && |p| <= |was|
    && if same then input == out && p == was[..|p|] else input[..|p|] == p
  }

  lemma InputBegins(input: seq<bv8>, was: seq<bv8>, p: seq<bv8>, same: bool)
    requires |p| <= |input| && |p| <= |was| && p == input[..|p|] && (same ==> input == was)
    ensures InputKept(input, was, was, p, same)
  {}

  lemma InputStays(i0: seq<bv8>, o0: seq<bv8>, i1: seq<bv8>, o1: seq<bv8>, was: seq<bv8>, p: seq<bv8>, same: bool)
    requires InputKept(i0, o0, was, p, same) && |i0| == |i1| && if same then i1 == o1 else i1 == i0
    ensures InputKept(i1, o1, was, p, same)
  {}

  lemma InputAt(input: seq<bv8>, out: seq<bv8>, was: seq<bv8>, p: seq<bv8>, pos: nat, same: bool)
    requires InputKept(input, out, was, p, same) && pos + 16 <= |p| && |out| == |was| && out[pos..] == was[pos..]
    ensures pos + 16 <= |input| && input[pos..pos + 16] == p[pos..pos + 16]
  {
    forall k | pos <= k < pos + 16 ensures input[k] == p[k] {
      if same { assert out[pos..][k - pos] == was[pos..][k - pos]; } else { assert input[..|p|][k] == p[k]; }
    }
  }

  lemma EmptySeal(e: Block -> Block, iv: Block)
    ensures Seal(e, iv, []) == []
  {}

  lemma Assemble(e: Block -> Block, iv0: Block, p: seq<bv8>, was: seq<bv8>, before: seq<bv8>, chain: Block, pos: nat)
    requires pos == |p| / 16 * 16 && pos + 16 <= |was| == |before|
    requires before[..pos] == Seal(e, iv0, p[..pos]) && before[pos..] == was[pos..]
    requires chain == if pos == 0 then iv0 else before[pos - 16..pos]
    ensures var tail := p[pos..] + seq(16 - (|p| - pos), _ => (16 - (|p| - pos)) as bv8);
            var out := Spliced(before, pos, e(Xor(tail, chain)));
            out[..pos + 16] == Seal(e, iv0, Pad(p)) && out[pos + 16..] == was[pos + 16..]
  {
    hide Xor, Seal, Spliced;
    var tail := p[pos..] + seq(16 - (|p| - pos), _ => (16 - (|p| - pos)) as bv8);
    assert p[..pos] + tail == Pad(p);
    NextBlock(e, iv0, p[..pos], tail, was, before, chain);
  }

  // The encrypting branch.  out may be the input buffer itself.
  method CbcEncrypt(input: array<bv8>, out: array<bv8>, length: nat, key: AesKey, ivec: array<bv8>)
      returns (outlength: nat)
    requires key.Ready() && ivec.Length >= 16 && length <= input.Length && (length / 16 + 1) * 16 <= out.Length
    modifies out
    ensures outlength == (length / 16 + 1) * 16
    ensures out[..outlength] == Sealed(Enciphering(key.rd_key[..], key.rounds), old(ivec[..16]), old(input[..length]))
    ensures out[outlength..] == old(out[outlength..])
  {
    hide EncryptBlock, Xor, Seal, Spliced;
    ghost var e := Enciphering(key.rd_key[..], key.rounds);
    ghost var p, was := input[..length], out[..];
    var tempiv := new bv8[16](i requires 0 <= i < 16 reads ivec => ivec[i]);
    assert tempiv[..] == old(ivec[..16]);
    var pos, iv, ivAt := SealBlocks(input, out, length, key, tempiv);
    var rest := length - pos;
    ghost var before, chain := out[..], iv[ivAt..ivAt + 16];
    assert p[..pos] == old(input[..pos]);
    Assemble(e, tempiv[..], p, was, before, chain, pos);
    assert input[pos..pos + rest] == p[pos..] by {
      SliceOfTail(before, was, pos, rest);
      if input == out { assert p[pos..] == was[pos..pos + rest]; }
    }
    var added := SealTail(input, out, pos, rest, key, iv, ivAt);
    outlength := length + added;
  }

  // ---- decrypting -----------------------------------------------------------------------

  method Copy(dst: array<bv8>, o: nat, src: array<bv8>, i: nat, count: nat)
    requires o + count <= dst.Length && i + count <= src.Length && dst != src
    modifies dst
    ensures dst[..] == Spliced(old(dst[..]), o, src[i..i + count])
  {
    var n := 0;
    while n < count
      invariant n <= count
      invariant forall k :: o <= k < o + n ==> dst[k] == src[k - o + i]
      invariant forall k :: 0 <= k < dst.Length && !(o <= k < o + n) ==> dst[k] == old(dst[k])
    {
      dst[o + n] := src[i + n];
      n := n + 1;
    }
  }

  // Deciphers the block at i of input to pos of out and takes the chain off it.
  method OpenOne(input: array<bv8>, i: nat, out: array<bv8>, pos: nat, key: AesKey, iv: array<bv8>, ivAt: nat)
    requires key.Ready() && i + 16 <= input.Length && pos + 16 <= out.Length && ivAt + 16 <= iv.Length && iv != out
    modifies out
    ensures out[..] == Spliced(old(out[..]), pos,
      Xor(DecryptBlock(key.rd_key[..], key.rounds, old(input[i..i + 16])), iv[ivAt..ivAt + 16]))
  {
    hide DecryptBlock, Xor, Spliced;
    ghost var x := DecryptBlock(key.rd_key[..], key.rounds, input[i..i + 16]);
    SplicedTwice(out[..], pos, x, Xor(x, iv[ivAt..ivAt + 16]));
    Decrypt(input, i, out, pos, key);
    assert out[..] == Spliced(old(out[..]), pos, x) by { SplicedIs(old(out[..]), pos, x); }
    assert out[pos..pos + 16] == out[..][pos..pos + 16];
    XorInto(out, pos, out, pos, iv, ivAt, 16);
  }

  lemma SplicedIs(out: seq<bv8>, o: nat, x: seq<bv8>)
    requires o + |x| <= |out|
    ensures Spliced(out, o, x) == out[..o] + x + out[o + |x|..]
  {}

  // The chain that block q of c is opened with.
  function Chain(iv: Block, c: seq<bv8>, pos: nat): Block
    requires pos <= |c| && (pos == 0 || pos >= 16)
  {
    if pos == 0 then iv else c[pos - 16..pos]
  }

  lemma OpenNext(d: Block -> Block, iv: Block, c: seq<bv8>, pos: nat, before: seq<bv8>)
    requires pos % 16 == 0 && pos + 16 <= |c| && pos + 16 <= |before| && before[..pos] == Open(d, iv, c[..pos])
    ensures var out := Spliced(before, pos, Xor(d(c[pos..pos + 16]), Chain(iv, c, pos)));
            out[..pos + 16] == Open(d, iv, c[..pos + 16]) && out[pos + 16..] == before[pos + 16..]
  {
    hide Xor, Open, Spliced;
    var b := c[pos..pos + 16];
    assert c[..pos] + b == c[..pos + 16];
    OpenExtends(d, iv, c[..pos], b);
    assert pos > 0 ==> c[..pos][pos - 16..] == c[pos - 16..pos];
    SplicedEnds(before, pos, Xor(d(b), Chain(iv, c, pos)));
  }

  // A last block of which only the first rest bytes are kept.
  lemma OpenPart(d: Block -> Block, iv: Block, c: seq<bv8>, pos: nat, rest: nat, before: seq<bv8>)
    requires pos % 16 == 0 && rest < 16 && pos + 16 <= |c| && pos + rest <= |before|
      && before[..pos] == Open(d, iv, c[..pos])
    ensures var out := Spliced(before, pos, Xor(d(c[pos..pos + 16])[..rest], Chain(iv, c, pos)[..rest]));
            out[..pos + rest] == Open(d, iv, c[..pos + 16])[..pos + rest] && out[pos + rest..] == before[pos + rest..]
  {
    hide Open, Spliced;
    var b := c[pos..pos + 16];
    assert c[..pos] + b == c[..pos + 16];
    OpenExtends(d, iv, c[..pos], b);
    assert pos > 0 ==> c[..pos][pos - 16..] == c[pos - 16..pos];
    var x := Xor(d(b), Chain(iv, c, pos));
    assert x[..rest] == Xor(d(b)[..rest], Chain(iv, c, pos)[..rest]);
    SplicedEnds(before, pos, x[..rest]);
    assert (before[..pos] + x)[..pos + rest] == before[..pos] + x[..rest];
  }

  lemma WholeIs(length: nat, pos: nat)
    requires pos % 16 == 0 && pos <= length < pos + 16
    ensures WholeBlocks(length) == if pos == length then pos else pos + 16
  {}

  lemma EmptyOpen(d: Block -> Block, iv: Block)
    ensures Open(d, iv, []) == []
  {}

  // The loop over whole blocks from one buffer to another: the chain is a pointer into the
  // ciphertext.
  method OpenApartBlocks(input: array<bv8>, out: array<bv8>, length: nat, key: AesKey, tempiv: array<bv8>)
    returns (pos: nat, iv: array<bv8>, ivAt: nat)
    requires key.Ready() && tempiv.Length == 16 && tempiv != out && input != out
    requires length <= out.Length && length <= input.Length
    modifies out
    ensures pos % 16 == 0 && pos <= length < pos + 16
    ensures out[..pos] == Open(Deciphering(key.rd_key[..], key.rounds), tempiv[..], input[..pos])
      && out[pos..] == old(out[pos..])
    ensures iv != out && ivAt + 16 <= iv.Length && iv[ivAt..ivAt + 16] == Chain(tempiv[..], input[..], pos)
  {
    hide DecryptBlock, Xor, Open, Spliced;
    ghost var d := Deciphering(key.rd_key[..], key.rounds);
    ghost var was := out[..];
    iv, ivAt, pos := tempiv, 0, 0;
    EmptyOpen(d, tempiv[..]);
    while length - pos >= 16
      invariant pos <= length && pos % 16 == 0
      invariant out[..pos] == Open(d, tempiv[..], input[..pos]) && out[pos..] == was[pos..]
      invariant iv != out && ivAt + 16 <= iv.Length && iv[ivAt..ivAt + 16] == Chain(tempiv[..], input[..], pos)
    {
      OpenNext(d, tempiv[..], input[..], pos, out[..]);
      SliceOfTail(out[..], was, pos, 16);
      OpenOne(input, pos, out, pos, key, iv, ivAt);
      iv, ivAt := input, pos;
      pos := pos + 16;
    }
  }

  // Deciphers the block at i into tmp and takes the chain off the first rest bytes of it.
  method OpenRestApart(input: array<bv8>, out: array<bv8>, pos: nat, rest: nat, key: AesKey, iv: array<bv8>, ivAt: nat)
    requires key.Ready() && iv != out && rest < 16 && ivAt + 16 <= iv.Length
    requires pos + 16 <= input.Length && pos + rest <= out.Length && input != out
    modifies out
    ensures out[..] == Spliced(old(out[..]), pos,
      Xor(DecryptBlock(key.rd_key[..], key.rounds, input[pos..pos + 16])[..rest], iv[ivAt..ivAt + 16][..rest]))
  {
    hide DecryptBlock, Xor, Spliced;
    var tmp := new bv8[16];
    ghost var x := DecryptBlock(key.rd_key[..], key.rounds, input[pos..pos + 16]);
    Decrypt(input, pos, tmp, 0, key);
    assert tmp[..] == x;
    assert tmp[0..0 + rest] == x[..rest] && iv[ivAt..ivAt + rest] == iv[ivAt..ivAt + 16][..rest];
    XorInto(out, pos, tmp, 0, iv, ivAt, rest);
  }

  method CbcOpenApart(input: array<bv8>, out: array<bv8>, length: nat, key: AesKey, ivec: array<bv8>)
      returns (outlength: nat)
    requires key.Ready() && ivec.Length >= 16 && input != out
    requires 0 < length <= out.Length && WholeBlocks(length) <= input.Length
    modifies out
    ensures out[..length] ==
      Open(Deciphering(key.rd_key[..], key.rounds), old(ivec[..16]), input[..WholeBlocks(length)])[..length]
    ensures out[length..] == old(out[length..])
    ensures outlength == ReportedLength(length, out[length - 1])
  {
    hide DecryptBlock, Xor, Open, Spliced, WholeBlocks;
    ghost var d := Deciphering(key.rd_key[..], key.rounds);
    ghost var was, iv0 := out[..], ivec[..16];
    var tempiv := new bv8[16](i requires 0 <= i < 16 reads ivec => ivec[i]);
    assert tempiv[..] == iv0;
    var pos, iv, ivAt := OpenApartBlocks(input, out, length, key, tempiv);
    var rest := length - pos;
    WholeIs(length, pos);
    if rest > 0 {
      OpenPart(d, iv0, input[..], pos, rest, out[..]);
      SliceOfTail(out[..], was, pos, rest);
      OpenRestApart(input, out, pos, rest, key, iv, ivAt);
    }
    outlength := ReportedLength(length, out[length - 1]);
  }

  // memcpy of one block.
  method CopyBlock(dst: array<bv8>, src: array<bv8>, i: nat)
    requires dst != src && dst.Length >= 16 && i + 16 <= src.Length
    modifies dst
    ensures dst[..16] == src[i..i + 16] && dst[16..] == old(dst[16..])
  {
    Copy(dst, 0, src, i, 16);
  }

  // Deciphers tmp over the 16 bytes at pos, takes the chain off the first rest of them and
  // puts the ciphertext back in the others.
  method OpenRest(out: array<bv8>, pos: nat, rest: nat, key: AesKey, ivec: array<bv8>, tmp: array<bv8>)
    requires key.Ready() && rest < 16 && pos + 16 <= out.Length && ivec.Length >= 16 && tmp.Length == 16
    requires ivec != out && tmp != out && tmp[..] == out[pos..pos + 16]
    modifies out
    ensures out[..] == Spliced(old(out[..]), pos,
      Xor(DecryptBlock(key.rd_key[..], key.rounds, tmp[..])[..rest], ivec[..16][..rest]))
  {
    hide DecryptBlock, Xor, Spliced;
    ghost var was, x := out[..], DecryptBlock(key.rd_key[..], key.rounds, tmp[..]);
    ghost var y := Xor(x[..rest], ivec[..16][..rest]);
    RestorePart(was, pos, x, y, tmp[rest..]);
    Decrypt(tmp, 0, out, pos, key);
    assert tmp[0..0 + 16] == tmp[..];
    assert out[..] == Spliced(was, pos, x) by { SplicedIs(was, pos, x); }
    assert out[pos..pos + rest] == out[..][pos..pos + rest] && ivec[0..0 + rest] == ivec[..16][..rest];
    XorInto(out, pos, out, pos, ivec, 0, rest);
    Copy(out, pos + rest, tmp, rest, 16 - rest);
    assert tmp[rest..rest + (16 - rest)] == tmp[rest..];
  }

  lemma RestorePart(was: seq<bv8>, pos: nat, x: seq<bv8>, y: seq<bv8>, z: seq<bv8>)
    requires |x| == 16 && pos + 16 <= |was| && |y| + |z| == 16 && z == was[pos + |y|..pos + 16]
    ensures Spliced(was, pos, x)[pos..pos + |y|] == x[..|y|]
    ensures Spliced(Spliced(Spliced(was, pos, x), pos, y), pos + |y|, z) == Spliced(was, pos, y)
  {}

  // Decrypting a buffer onto itself: the chain is carried in ivec.
  method OpenInPlaceBlocks(out: array<bv8>, length: nat, key: AesKey, ivec: array<bv8>, tmp: array<bv8>)
      returns (pos: nat)
    requires key.Ready() && ivec.Length >= 16 && ivec != out && tmp.Length == 16 && tmp != out && tmp != ivec
    requires length <= out.Length
    modifies out, ivec, tmp
    ensures pos % 16 == 0 && pos <= length < pos + 16
    ensures out[..pos] == Open(Deciphering(key.rd_key[..], key.rounds), old(ivec[..16]), old(out[..pos]))
    ensures out[pos..] == old(out[pos..])
    ensures ivec[..16] == Chain(old(ivec[..16]), old(out[..]), pos) && ivec[16..] == old(ivec[16..])
  {
    hide DecryptBlock, Xor, Open, Spliced;
    ghost var d := Deciphering(key.rd_key[..], key.rounds);
    ghost var was, iv0 := out[..], ivec[..16];
    pos := 0;
    EmptyOpen(d, iv0);
    while length - pos >= 16
      invariant pos <= length && pos % 16 == 0
      invariant out[..pos] == Open(d, iv0, was[..pos]) && out[pos..] == was[pos..]
      invariant ivec[..16] == Chain(iv0, was, pos) && ivec[16..] == old(ivec[16..])
    {
      ghost var before := out[..];
      OpenNext(d, iv0, was, pos, before);
      SliceOfTail(before, was, pos, 16);
      assert out[pos..pos + 16] == was[pos..pos + 16] && ivec[0..0 + 16] == ivec[..16];
      CopyBlock(tmp, out, pos);
      OpenOne(out, pos, out, pos, key, ivec, 0);
      assert tmp[0..0 + 16] == tmp[..16];
      CopyBlock(ivec, tmp, 0);
      pos := pos + 16;
    }
    assert was[..pos] == old(out[..pos]);
  }

  method CbcOpenInPlace(out: array<bv8>, length: nat, key: AesKey, ivec: array<bv8>) returns (outlength: nat)
    requires key.Ready() && ivec.Length >= 16 && ivec != out
    requires 0 < length && WholeBlocks(length) <= out.Length
    modifies out, ivec
    ensures out[..length] ==
      Open(Deciphering(key.rd_key[..], key.rounds), old(ivec[..16]), old(out[..WholeBlocks(length)]))[..length]
    ensures out[length..] == old(out[length..])
    ensures ivec[..16] == old(out[WholeBlocks(length) - 16..WholeBlocks(length)]) && ivec[16..] == old(ivec[16..])
    ensures outlength == ReportedLength(length, out[length - 1])
  {
    hide DecryptBlock, Xor, Open, Spliced, WholeBlocks;
    ghost var d := Deciphering(key.rd_key[..], key.rounds);
    ghost var was, iv0 := out[..], ivec[..16];
    var tmp := new bv8[16];
    var pos := OpenInPlaceBlocks(out, length, key, ivec, tmp);
    var rest := length - pos;
    WholeIs(length, pos);
    if rest > 0 {
      ghost var before := out[..];
      SliceOfTail(before, was, pos, 16);
      OpenPart(d, iv0, was, pos, rest, before);
      assert out[pos..pos + 16] == was[pos..pos + 16];
      CopyBlock(tmp, out, pos);
      assert tmp[..] == tmp[..16];
      OpenRest(out, pos, rest, key, ivec, tmp);
      assert tmp[0..0 + 16] == tmp[..16];
      CopyBlock(ivec, tmp, 0);
      SliceOfTail(before, was, pos, rest);
    }
    outlength := ReportedLength(length, out[length - 1]);
  }
}

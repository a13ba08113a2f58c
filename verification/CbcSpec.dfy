// Cipher block chaining (section 6.2 of NIST SP 800-38A) with the padding of section 6.3
// of RFC 5652, over any block cipher: e enciphers a block, d deciphers one.
module CbcSpec {
  type Block = b: seq<bv8> | |b| == 16 witness seq(16, _ => 0)

  function XorByte(a: bv8, b: bv8): bv8 { a ^ b }

  function Xor(a: seq<bv8>, b: seq<bv8>): (c: seq<bv8>)
    requires |a| <= |b|
    ensures |c| == |a|
  {
    seq(|a|, i requires 0 <= i < |a| => XorByte(a[i], b[i]))
  }

  function WholeBlocks(n: nat): (m: nat)
    ensures m % 16 == 0 && n <= m < n + 16
  {
    (n + 15) / 16 * 16
  }

  function Seal(e: Block -> Block, iv: Block, p: seq<bv8>): (c: seq<bv8>)
    requires |p| % 16 == 0
    ensures |c| == |p|
    decreases |p|
  {
    if p == [] then []
    else
      var c := e(Xor(p[..16], iv));
      c + Seal(e, c, p[16..])
  }

  function Open(d: Block -> Block, iv: Block, c: seq<bv8>): (p: seq<bv8>)
    requires |c| % 16 == 0
    ensures |p| == |c|
    decreases |c|
  {
    if c == [] then []
    else Xor(d(c[..16]), iv) + Open(d, c[..16], c[16..])
  }

  // Between 1 and 16 bytes, each holding their number, so that whole blocks result.
  function Pad(p: seq<bv8>): (q: seq<bv8>)
    ensures |q| == (|p| / 16 + 1) * 16
  {
    var n := 16 - |p| % 16;
    p + seq(n, _ => n as bv8)
  }

  // A text of any length: padded, then chained.
  function Sealed(e: Block -> Block, iv: Block, p: seq<bv8>): (c: seq<bv8>)
    ensures |c| == (|p| / 16 + 1) * 16
  {
    Seal(e, iv, Pad(p))
  }

  // The number of bytes the decrypting code reports: the unsigned difference of the length
  // and the last byte it produced.
  function ReportedLength(length: nat, last: bv8): nat {
    (length - last as int) % 0x1_0000_0000
  }

  lemma XorTwice(a: seq<bv8>, b: seq<bv8>)
    requires |a| == |b|
    ensures Xor(Xor(a, b), b) == a
  {
    forall i | 0 <= i < |a| ensures XorByte(XorByte(a[i], b[i]), b[i]) == a[i] {}
  }

  lemma {:induction false} OpenUndoesSeal(e: Block -> Block, d: Block -> Block, iv: Block, p: seq<bv8>)
    requires |p| % 16 == 0 && forall b: Block :: d(e(b)) == b
    ensures Open(d, iv, Seal(e, iv, p)) == p
    decreases |p|
  {
    hide Xor;
    if p != [] {
      var x := Xor(p[..16], iv);
      var c: seq<bv8> := e(x);
      var rest := Seal(e, c, p[16..]);
      assert (c + rest)[..16] == c && (c + rest)[16..] == rest;
      XorTwice(p[..16], iv);
      OpenUndoesSeal(e, d, c, p[16..]);
    }
  }

  lemma SmallByte(n: nat)
    requires 1 <= n <= 16
    ensures (n as bv8) as int == n
  {}

  // Decrypting an encryption gives the bytes back, and the reported length is theirs.
  lemma CbcRoundTrip(e: Block -> Block, d: Block -> Block, iv: Block, p: seq<bv8>)
    requires |p| < 0x1_0000_0000 && forall b: Block :: d(e(b)) == b
    ensures var c := Sealed(e, iv, p);
            var q := Open(d, iv, c);
            |c| == (|p| / 16 + 1) * 16 && q[..|p|] == p && ReportedLength(|c|, q[|c| - 1]) == |p|
  {
    hide Seal, Open;
    OpenUndoesSeal(e, d, iv, Pad(p));
    SmallByte(16 - |p| % 16);
  }

  // One more block sealed or opened at the end.
  lemma {:induction false} SealExtends(e: Block -> Block, iv: Block, p: seq<bv8>, b: Block)
    requires |p| % 16 == 0
    ensures Seal(e, iv, p + b) == Seal(e, iv, p) + e(Xor(b, if p == [] then iv else Seal(e, iv, p)[|p| - 16..]))
    decreases |p|
  {
    hide Xor;
    if p == [] {
      assert p + b == b && b[..16] == b && b[16..] == [];
      assert Seal(e, e(Xor(b, iv)), []) == [];
    } else {
      var c: seq<bv8> := e(Xor(p[..16], iv));
      var rest := Seal(e, c, p[16..]);
      assert (p + b)[..16] == p[..16] && (p + b)[16..] == p[16..] + b;
      SealExtends(e, c, p[16..], b);
      assert (c + rest)[|p| - 16..] == if p[16..] == [] then c else rest[|p| - 32..];
    }
  }

  lemma {:induction false} OpenExtends(d: Block -> Block, iv: Block, c: seq<bv8>, b: Block)
    requires |c| % 16 == 0
    ensures Open(d, iv, c + b) == Open(d, iv, c) + Xor(d(b), if c == [] then iv else c[|c| - 16..])
    decreases |c|
  {
    hide Xor;
    if c == [] {
      assert c + b == b && b[..16] == b && b[16..] == [];
      assert Open(d, b, []) == [];
    } else {
      assert (c + b)[..16] == c[..16] && (c + b)[16..] == c[16..] + b;
      OpenExtends(d, c[..16], c[16..], b);
      if c[16..] == [] { assert c == c[..16]; }
    }
  }

  // ---- block by block --------------------------------------------------------------------

  // Block i of a text, and the ciphertext block chained into it.
  function BlockAt(s: seq<bv8>, i: nat): (b: Block)
    requires 16 * i + 16 <= |s|
  {
    s[16 * i..16 * i + 16]
  }

  function Chained(iv: Block, c: seq<bv8>, i: nat): (b: Block)
    requires 16 * i <= |c|
  {
    if i == 0 then iv else BlockAt(c, i - 1)
  }

  predicate IsXor(x: Block, a: Block, b: Block) { forall k :: 0 <= k < 16 ==> x[k] == a[k] ^ b[k] }

  lemma XorIs(a: Block, b: Block)
    ensures IsXor(Xor(a, b), a, b)
  {}

  // Section 6.2 of SP 800-38A: block i of the ciphertext is the cipher of block i of the text plus
  // the ciphertext block before it, or the initial vector.
  lemma {:induction false} SealedBlock(e: Block -> Block, iv: Block, p: seq<bv8>, i: nat) returns (x: Block)
    requires |p| % 16 == 0 && 16 * i + 16 <= |p|
    ensures var c := Seal(e, iv, p);
            BlockAt(c, i) == e(x) && IsXor(x, BlockAt(p, i), Chained(iv, c, i))
    decreases i
  {
    hide Xor, IsXor;
    var c: Block, rest := e(Xor(p[..16], iv)), Seal(e, e(Xor(p[..16], iv)), p[16..]);
    assert Seal(e, iv, p) == c + rest;
    if i == 0 {
      x := Xor(p[..16], iv);
      XorIs(p[..16], iv);
      assert BlockAt(c + rest, 0) == c && BlockAt(p, 0) == p[..16];
    } else {
      x := SealedBlock(e, c, p[16..], i - 1);
      Shifted(p, p[..16], p[16..], i);
      Shifted(c + rest, c, rest, i);
      if i > 1 { Shifted(c + rest, c, rest, i - 1); }
      assert i == 1 ==> BlockAt(c + rest, 0) == c;
    }
  }

  lemma Shifted(s: seq<bv8>, first: Block, rest: seq<bv8>, i: nat)
    requires s == first + rest && 0 < i && 16 * i + 16 <= |s|
    ensures BlockAt(s, i) == BlockAt(rest, i - 1)
  {}

  // The other way: block i of the text is the deciphered block plus the one before it.
  lemma {:induction false} OpenedBlock(d: Block -> Block, iv: Block, c: seq<bv8>, i: nat)
    requires |c| % 16 == 0 && 16 * i + 16 <= |c|
    ensures IsXor(BlockAt(Open(d, iv, c), i), d(BlockAt(c, i)), Chained(iv, c, i))
    decreases i
  {
    hide Xor, IsXor;
    var first: Block, next: Block := c[..16], Xor(d(c[..16]), iv);
    var rest := Open(d, first, c[16..]);
    assert Open(d, iv, c) == next + rest;
    if i == 0 {
      XorIs(d(first), iv);
      assert BlockAt(next + rest, 0) == next && BlockAt(c, 0) == first;
    } else {
      OpenedBlock(d, first, c[16..], i - 1);
      Shifted(next + rest, next, rest, i);
      Shifted(c, first, c[16..], i);
      if i > 1 { Shifted(c, first, c[16..], i - 1); }
      assert i == 1 ==> BlockAt(c, 0) == first;
    }
  }

  // The text is followed by at least one and at most 16 bytes, each of which holds their number.
  lemma PadIs(p: seq<bv8>)
    ensures var q := Pad(p);
            && p <= q && |q| % 16 == 0 && 0 < |q| - |p| <= 16
            && forall k :: |p| <= k < |q| ==> q[k] as int == |q| - |p|
  {
    SmallByte(16 - |p| % 16);
  }
}

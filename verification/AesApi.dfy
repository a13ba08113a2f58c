// The two entry points: a user key, an initial vector and a buffer of any length.
module AesApi {
  import opened AesSpec
  import opened AesCore
  import opened AesKeys
  import opened CbcSpec
  import opened AesCbc

  // A block under the cipher and under the inverse cipher of FIPS 197, for a user key.
  function KeyEncipher(u: seq<bv8>): Block -> Block
    requires ValidKey(u)
  {
    (b: Block) => StateBlock(Cipher(KeySchedule(u), RoundsFor(8 * |u|), BlockState(b)))
  }

  function KeyDecipher(u: seq<bv8>): Block -> Block
    requires ValidKey(u)
  {
    (c: Block) => StateBlock(InvCipher(KeySchedule(u), RoundsFor(8 * |u|), BlockState(c)))
  }

  function StateWord(s: State, j: nat): bv32
    requires j < 4
  {
    if j == 0 then s.c0 else if j == 1 then s.c1 else if j == 2 then s.c2 else s.c3
  }

  function DecryptionSchedule(w: seq<bv32>, nr: nat): (dw: seq<bv32>)
    requires |w| == 4 * nr + 4
    ensures |dw| == 4 * nr + 4
  {
    seq(4 * nr + 4, i requires 0 <= i < 4 * nr + 4 => StateWord(DecryptionKey(w, nr, i / 4), i % 4))
  }

  lemma DecryptionScheduleExists(w: seq<bv32>, nr: nat)
    requires |w| == 4 * nr + 4
    ensures IsDecryptionSchedule(w, DecryptionSchedule(w, nr), nr)
  {
    hide DecryptionKey;
    var dw := DecryptionSchedule(w, nr);
    forall r | 0 <= r <= nr ensures RoundKey(dw, r) == DecryptionKey(w, nr, r) {
      assert (4 * r) / 4 == r && (4 * r + 1) / 4 == r && (4 * r + 2) / 4 == r && (4 * r + 3) / 4 == r;
    }
  }

  lemma KeyDecipherUndoes(u: seq<bv8>, b: Block)
    requires ValidKey(u)
    ensures KeyDecipher(u)(KeyEncipher(u)(b)) == b
  {
    hide Cipher, InvCipher, EqInvCipher, KeySchedule, DecryptionSchedule, IsDecryptionSchedule, StateBlock, BlockState;
    var w, nr := KeySchedule(u), RoundsFor(8 * |u|);
    var dw := DecryptionSchedule(w, nr);
    var s := BlockState(b);
    DecryptionScheduleExists(w, nr);
    BlockOfState(Cipher(w, nr, s));
    EqInvCipherIsInvCipher(w, dw, nr, Cipher(w, nr, s));
    EqInvCipherUndoesCipher(w, dw, nr, s);
    StateOfBlock(b);
  }

  // For every valid key, every initial vector and every plaintext, empty included.
  lemma AesCbcRoundTrip(u: seq<bv8>, iv: Block, p: seq<bv8>)
    requires ValidKey(u) && |p| < 0x1_0000_0000
    ensures hide KeyEncipher, KeyDecipher;
            var c := Sealed(KeyEncipher(u), iv, p);
            var q := Open(KeyDecipher(u), iv, c);
            |c| == (|p| / 16 + 1) * 16 && q[..|p|] == p && ReportedLength(|c|, q[|c| - 1]) == |p|
  {
    hide KeyEncipher, KeyDecipher, Seal, Open, Pad;
    forall b: Block ensures KeyDecipher(u)(KeyEncipher(u)(b)) == b {
      KeyDecipherUndoes(u, b);
    }
    CbcRoundTrip(KeyEncipher(u), KeyDecipher(u), iv, p);
  }

  lemma {:induction false} SealAgrees(e: Block -> Block, e': Block -> Block, iv: Block, p: seq<bv8>)
    requires |p| % 16 == 0 && forall b: Block :: e(b) == e'(b)
    ensures Seal(e, iv, p) == Seal(e', iv, p)
    decreases |p|
  {
    hide Xor;
    if p != [] { SealAgrees(e, e', e(Xor(p[..16], iv)), p[16..]); }
  }

  lemma {:induction false} OpenAgrees(d: Block -> Block, d': Block -> Block, iv: Block, c: seq<bv8>)
    requires |c| % 16 == 0 && forall b: Block :: d(b) == d'(b)
    ensures Open(d, iv, c) == Open(d', iv, c)
    decreases |c|
  {
    hide Xor;
    if c != [] { OpenAgrees(d, d', c[..16], c[16..]); }
  }

  lemma {:induction false} RoundsOnPrefix(w: seq<bv32>, v: seq<bv32>, n: nat, s: State)
    requires 4 * n + 4 <= |w| <= |v| && v[..|w|] == w
    ensures Rounds(w, n, s) == Rounds(v, n, s)
  {
    hide AddRoundKey, Round;
    SameRoundKey(w, v, n);
    if n > 0 { RoundsOnPrefix(w, v, n - 1, s); }
  }

  lemma SameRoundKey(w: seq<bv32>, v: seq<bv32>, r: nat)
    requires 4 * r + 4 <= |w| <= |v| && v[..|w|] == w
    ensures RoundKey(w, r) == RoundKey(v, r)
  {
    assert w[4 * r] == v[..|w|][4 * r] && w[4 * r + 1] == v[..|w|][4 * r + 1];
    assert w[4 * r + 2] == v[..|w|][4 * r + 2] && w[4 * r + 3] == v[..|w|][4 * r + 3];
  }

  lemma EncipheringIs(u: seq<bv8>, w: seq<bv32>, nr: nat)
    requires nr > 0 && IsSchedule(u, w, nr)
    ensures forall b: Block :: Enciphering(w, nr)(b) == KeyEncipher(u)(b)
  {
    hide StateBlock, BlockState, KeySchedule, Rounds, LastRound, RoundKey;
    forall b: Block ensures Enciphering(w, nr)(b) == KeyEncipher(u)(b) {
      RoundsOnPrefix(KeySchedule(u), w, nr - 1, BlockState(b));
      SameRoundKey(KeySchedule(u), w, nr);
    }
  }

  lemma DecipheringIs(u: seq<bv8>, dw: seq<bv32>, nr: nat)
    requires nr > 0 && IsInverseSchedule(u, dw, nr)
    ensures forall c: Block :: Deciphering(dw, nr)(c) == KeyDecipher(u)(c)
  {
    hide StateBlock, BlockState, KeySchedule, InvCipher, EqInvCipher;
    forall c: Block ensures Deciphering(dw, nr)(c) == KeyDecipher(u)(c) {
      EqInvCipherIsInvCipher(KeySchedule(u), dw, nr, BlockState(c));
    }
  }

  method EncryptBuffer(plain: array<bv8>, plainLength: nat, userKey: array<bv8>, keyLength: nat,
                       iv: array<bv8>, cipher: array<bv8>) returns (cipherLength: nat)
    requires keyLength <= userKey.Length && ValidBits(keyLength * 8) && iv.Length >= 16
    requires plainLength <= plain.Length && (plainLength / 16 + 1) * 16 <= cipher.Length
    modifies cipher
    ensures cipherLength == (plainLength / 16 + 1) * 16
    ensures cipher[cipherLength..] == old(cipher[cipherLength..])
    ensures hide KeyEncipher;
            cipher[..cipherLength] ==
              Sealed(KeyEncipher(old(userKey[..keyLength])), old(iv[..16]), old(plain[..plainLength]))
  {
    hide KeyEncipher, Enciphering, Seal, Pad, KeySchedule;
    ghost var u, p, iv0 := userKey[..keyLength], plain[..plainLength], iv[..16];
    var key := new AesKey();
    var status := SetEncryptKey(userKey, keyLength * 8, key);
    EncipheringIs(u, key.rd_key[..], key.rounds);
    SealAgrees(Enciphering(key.rd_key[..], key.rounds), KeyEncipher(u), iv0, Pad(p));
    cipherLength := CbcEncrypt(plain, cipher, plainLength, key, iv);
  }

  // The separate-buffer loop or the in-place loop, as the two pointers differ or not.
  method DecryptBuffer(cipher: array<bv8>, cipherLength: nat, userKey: array<bv8>, keyLength: nat,
                       iv: array<bv8>, plain: array<bv8>) returns (plainLength: nat)
    requires keyLength <= userKey.Length && ValidBits(keyLength * 8) && iv.Length >= 16
    requires 0 < cipherLength <= plain.Length && WholeBlocks(cipherLength) <= cipher.Length
    requires cipher == plain ==> iv != plain
    modifies plain, if cipher == plain then {iv} else {}
    ensures plain[cipherLength..] == old(plain[cipherLength..])
    ensures plainLength == ReportedLength(cipherLength, plain[cipherLength - 1])
    ensures cipher == plain ==> iv[..16] == old(cipher[WholeBlocks(cipherLength) - 16..WholeBlocks(cipherLength)])
    ensures hide KeyDecipher;
            plain[..cipherLength] ==
      Open(KeyDecipher(old(userKey[..keyLength])), old(iv[..16]),
        old(cipher[..WholeBlocks(cipherLength)]))[..cipherLength]
  {
    hide KeyDecipher, Deciphering, Open, KeySchedule, WholeBlocks;
    ghost var u, c, iv0 := userKey[..keyLength], cipher[..WholeBlocks(cipherLength)], iv[..16];
    var key := new AesKey();
    var status := SetDecryptKey(userKey, keyLength * 8, key);
    DecipheringIs(u, key.rd_key[..], key.rounds);
    OpenAgrees(Deciphering(key.rd_key[..], key.rounds), KeyDecipher(u), iv0, c);
    if cipher != plain {
      plainLength := CbcOpenApart(cipher, plain, cipherLength, key, iv);
    } else {
      plainLength := CbcOpenInPlace(plain, cipherLength, key, iv);
    }
  }
}

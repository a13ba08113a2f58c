// The block routines, as the table-driven code computes them.
module AesCore {
  import opened AesField
  import opened AesTables
  import opened AesSpec

  // ---- one word at a time ---------------------------------------------------------------

  // The table look-ups of a full round, for one column.
  function TeSum(x0: bv8, x1: bv8, x2: bv8, x3: bv8): bv32 { Te0(x0) ^ Te1(x1) ^ Te2(x2) ^ Te3(x3) }
  function TdSum(x0: bv8, x1: bv8, x2: bv8, x3: bv8): bv32 { Td0(x0) ^ Td1(x1) ^ Td2(x2) ^ Td3(x3) }

  // The masked look-ups of the last round, and of the key expansion.
  function Te4Sum(x0: bv8, x1: bv8, x2: bv8, x3: bv8): bv32 {
    (Te4(x0) & 0xff00_0000) ^ (Te4(x1) & 0x00ff_0000) ^ (Te4(x2) & 0x0000_ff00) ^ (Te4(x3) & 0x0000_00ff)
  }

  function Td4Sum(x0: bv8, x1: bv8, x2: bv8, x3: bv8): bv32 {
    (Td4(x0) & 0xff00_0000) ^ (Td4(x1) & 0x00ff_0000) ^ (Td4(x2) & 0x0000_ff00) ^ (Td4(x3) & 0x0000_00ff)
  }

  // The inverse MixColumn transform of a schedule word, looked up through both tables.
  function TdOfTe(w: bv32): bv32 {
    TdSum(B3(Te4(B0(w))), B3(Te4(B1(w))), B3(Te4(B2(w))), B3(Te4(B3(w))))
  }

  lemma MaskedBytes(a: bv8, b: bv8, c: bv8, d: bv8)
    ensures (Word(a, a, a, a) & 0xff00_0000) ^ (Word(b, b, b, b) & 0x00ff_0000) ^
            (Word(c, c, c, c) & 0x0000_ff00) ^ (Word(d, d, d, d) & 0x0000_00ff) == Word(a, b, c, d)
  {}

  lemma Te4SumIs(x0: bv8, x1: bv8, x2: bv8, x3: bv8)
    ensures Te4Sum(x0, x1, x2, x3) == Word(S(x0), S(x1), S(x2), S(x3))
  {
    hide S, Word;
    MaskedBytes(S(x0), S(x1), S(x2), S(x3));
  }

  lemma Td4SumIs(x0: bv8, x1: bv8, x2: bv8, x3: bv8)
    ensures Td4Sum(x0, x1, x2, x3) == Word(Si(x0), Si(x1), Si(x2), Si(x3))
  {
    hide Si, Word;
    MaskedBytes(Si(x0), Si(x1), Si(x2), Si(x3));
  }

  lemma TeSumPairs(x0: bv8, x1: bv8, x2: bv8, x3: bv8)
    ensures TeSum(x0, x1, x2, x3) == PlusWord(PlusWord(Te0(x0), Te1(x1)), PlusWord(Te2(x2), Te3(x3)))
  {
    hide Te0, Te1, Te2, Te3;
  }

  lemma TdSumPairs(x0: bv8, x1: bv8, x2: bv8, x3: bv8)
    ensures TdSum(x0, x1, x2, x3) == PlusWord(PlusWord(Td0(x0), Td1(x1)), PlusWord(Td2(x2), Td3(x3)))
  {
    hide Td0, Td1, Td2, Td3;
  }

  lemma Columns4(p0: bv8, p1: bv8, p2: bv8, p3: bv8, q0: bv8, q1: bv8, q2: bv8, q3: bv8,
                 r0: bv8, r1: bv8, r2: bv8, r3: bv8, t0: bv8, t1: bv8, t2: bv8, t3: bv8)
    ensures PlusWord(PlusWord(Word(p0, p1, p2, p3), Word(q0, q1, q2, q3)),
      PlusWord(Word(r0, r1, r2, r3), Word(t0, t1, t2, t3)))
         == Word(Plus4(p0, q0, r0, t0), Plus4(p1, q1, r1, t1), Plus4(p2, q2, r2, t2), Plus4(p3, q3, r3, t3))
  {
    hide Word, Plus, PlusWord;
    XorWord(p0, p1, p2, p3, q0, q1, q2, q3);
    XorWord(r0, r1, r2, r3, t0, t1, t2, t3);
    XorWord(Plus(p0, q0), Plus(p1, q1), Plus(p2, q2), Plus(p3, q3), Plus(r0, t0), Plus(r1, t1), Plus(r2, t2),
      Plus(r3, t3));
  }

  lemma TeSumIs(x0: bv8, x1: bv8, x2: bv8, x3: bv8)
    ensures TeSum(x0, x1, x2, x3) == MixColumn(Word(S(x0), S(x1), S(x2), S(x3)))
  {
    hide S, Word, B0, B1, B2, B3, Plus4, Xtime, By3, PlusWord, TeSum;
    var p, q, r, t := S(x0), S(x1), S(x2), S(x3);
    TeSumPairs(x0, x1, x2, x3);
    Columns4(Xtime(p), p, p, By3(p), By3(q), Xtime(q), q, q, r, By3(r), Xtime(r), r, t, t, By3(t), Xtime(t));
    WordBytes(p, q, r, t);
  }

  lemma Plus4Turns(a: bv8, b: bv8, c: bv8, d: bv8)
    ensures Plus4(a, b, c, d) == Plus4(b, c, d, a)
  {
    hide Plus;
    PlusCommutes(Plus(a, b), Plus(c, d)); PlusCommutes(a, b);
    PlusExchange(c, d, b, a); PlusCommutes(Plus(c, b), Plus(d, a)); PlusCommutes(c, b);
    PlusCommutes(Plus(d, a), Plus(b, c));
  }

  lemma TdSumIs(x0: bv8, x1: bv8, x2: bv8, x3: bv8)
    ensures TdSum(x0, x1, x2, x3) == InvMixColumn(Word(Si(x0), Si(x1), Si(x2), Si(x3)))
  {
    hide Si, Word, B0, B1, B2, B3, Plus4, ByE, ByB, ByD, By9, PlusWord, TdSum;
    var p, q, r, t := Si(x0), Si(x1), Si(x2), Si(x3);
    TdSumPairs(x0, x1, x2, x3);
    Columns4(ByE(p), By9(p), ByD(p), ByB(p), ByB(q), ByE(q), By9(q), ByD(q),
             ByD(r), ByB(r), ByE(r), By9(r), By9(t), ByD(t), ByB(t), ByE(t));
    WordBytes(p, q, r, t);
    Plus4Turns(By9(p), ByE(q), ByB(r), ByD(t));
    Plus4Turns(ByD(p), By9(q), ByE(r), ByB(t)); Plus4Turns(By9(q), ByE(r), ByB(t), ByD(p));
    Plus4Turns(ByE(t), ByB(p), ByD(q), By9(r));
  }

  lemma TdOfTeIs(w: bv32)
    ensures TdOfTe(w) == InvMixColumn(w)
  {
    hide S, Si, Word, B0, B1, B2, B3, TdSum, InvMixColumn;
    var a, b, c, d := B0(w), B1(w), B2(w), B3(w);
    WordBytes(S(a), S(a), S(a), S(a)); WordBytes(S(b), S(b), S(b), S(b));
    WordBytes(S(c), S(c), S(c), S(c)); WordBytes(S(d), S(d), S(d), S(d));
    TdSumIs(S(a), S(b), S(c), S(d));
    SiUndoesS(a); SiUndoesS(b); SiUndoesS(c); SiUndoesS(d);
    BytesWord(w);
  }

  // ---- one round at a time --------------------------------------------------------------

  lemma ColumnsOfRound(s: State, k: State)
    ensures Round(s, k) == State(
      PlusWord(TeSum(B0(s.c0), B1(s.c1), B2(s.c2), B3(s.c3)), k.c0),
      PlusWord(TeSum(B0(s.c1), B1(s.c2), B2(s.c3), B3(s.c0)), k.c1),
      PlusWord(TeSum(B0(s.c2), B1(s.c3), B2(s.c0), B3(s.c1)), k.c2),
      PlusWord(TeSum(B0(s.c3), B1(s.c0), B2(s.c1), B3(s.c2)), k.c3))
  {
    hide S, Word, B0, B1, B2, B3, TeSum, MixColumn, PlusWord, SubWord;
    SubPicks(s.c0); SubPicks(s.c1); SubPicks(s.c2); SubPicks(s.c3);
    TeSumIs(B0(s.c0), B1(s.c1), B2(s.c2), B3(s.c3)); TeSumIs(B0(s.c1), B1(s.c2), B2(s.c3), B3(s.c0));
    TeSumIs(B0(s.c2), B1(s.c3), B2(s.c0), B3(s.c1)); TeSumIs(B0(s.c3), B1(s.c0), B2(s.c1), B3(s.c2));
  }

  lemma ColumnsOfLastRound(s: State, k: State)
    ensures LastRound(s, k) == State(
      PlusWord(Te4Sum(B0(s.c0), B1(s.c1), B2(s.c2), B3(s.c3)), k.c0),
      PlusWord(Te4Sum(B0(s.c1), B1(s.c2), B2(s.c3), B3(s.c0)), k.c1),
      PlusWord(Te4Sum(B0(s.c2), B1(s.c3), B2(s.c0), B3(s.c1)), k.c2),
      PlusWord(Te4Sum(B0(s.c3), B1(s.c0), B2(s.c1), B3(s.c2)), k.c3))
  {
    hide S, Word, B0, B1, B2, B3, Te4Sum, PlusWord, SubWord;
    SubPicks(s.c0); SubPicks(s.c1); SubPicks(s.c2); SubPicks(s.c3);
    Te4SumIs(B0(s.c0), B1(s.c1), B2(s.c2), B3(s.c3)); Te4SumIs(B0(s.c1), B1(s.c2), B2(s.c3), B3(s.c0));
    Te4SumIs(B0(s.c2), B1(s.c3), B2(s.c0), B3(s.c1)); Te4SumIs(B0(s.c3), B1(s.c0), B2(s.c1), B3(s.c2));
  }

  lemma ColumnsOfEqInvRound(s: State, k: State)
    ensures EqInvRound(s, k) == State(
      PlusWord(TdSum(B0(s.c0), B1(s.c3), B2(s.c2), B3(s.c1)), k.c0),
      PlusWord(TdSum(B0(s.c1), B1(s.c0), B2(s.c3), B3(s.c2)), k.c1),
      PlusWord(TdSum(B0(s.c2), B1(s.c1), B2(s.c0), B3(s.c3)), k.c2),
      PlusWord(TdSum(B0(s.c3), B1(s.c2), B2(s.c1), B3(s.c0)), k.c3))
  {
    hide Si, Word, B0, B1, B2, B3, TdSum, InvMixColumn, PlusWord, InvSubWord;
    InvSubPicks(s.c0); InvSubPicks(s.c1); InvSubPicks(s.c2); InvSubPicks(s.c3);
    TdSumIs(B0(s.c0), B1(s.c3), B2(s.c2), B3(s.c1)); TdSumIs(B0(s.c1), B1(s.c0), B2(s.c3), B3(s.c2));
    TdSumIs(B0(s.c2), B1(s.c1), B2(s.c0), B3(s.c3)); TdSumIs(B0(s.c3), B1(s.c2), B2(s.c1), B3(s.c0));
  }

  lemma ColumnsOfEqInvLastRound(s: State, k: State)
    ensures EqInvLastRound(s, k) == State(
      PlusWord(Td4Sum(B0(s.c0), B1(s.c3), B2(s.c2), B3(s.c1)), k.c0),
      PlusWord(Td4Sum(B0(s.c1), B1(s.c0), B2(s.c3), B3(s.c2)), k.c1),
      PlusWord(Td4Sum(B0(s.c2), B1(s.c1), B2(s.c0), B3(s.c3)), k.c2),
      PlusWord(Td4Sum(B0(s.c3), B1(s.c2), B2(s.c1), B3(s.c0)), k.c3))
  {
    hide Si, Word, B0, B1, B2, B3, Td4Sum, PlusWord, InvSubWord;
    InvSubPicks(s.c0); InvSubPicks(s.c1); InvSubPicks(s.c2); InvSubPicks(s.c3);
    Td4SumIs(B0(s.c0), B1(s.c3), B2(s.c2), B3(s.c1)); Td4SumIs(B0(s.c1), B1(s.c0), B2(s.c3), B3(s.c2));
    Td4SumIs(B0(s.c2), B1(s.c1), B2(s.c0), B3(s.c3)); Td4SumIs(B0(s.c3), B1(s.c2), B2(s.c1), B3(s.c0));
  }

  // ---- blocks ---------------------------------------------------------------------------

  function WordAt(b: seq<bv8>, i: nat): bv32
    requires i + 4 <= |b|
  {
    Word(b[i], b[i + 1], b[i + 2], b[i + 3])
  }

  function BlockState(b: seq<bv8>): State
    requires |b| == 16
  {
    State(WordAt(b, 0), WordAt(b, 4), WordAt(b, 8), WordAt(b, 12))
  }

  function WordBytesOf(w: bv32): (b: seq<bv8>)
    ensures |b| == 4
  {
    [B0(w), B1(w), B2(w), B3(w)]
  }

  function StateBlock(s: State): (b: seq<bv8>)
    ensures |b| == 16
  {
    WordBytesOf(s.c0) + WordBytesOf(s.c1) + WordBytesOf(s.c2) + WordBytesOf(s.c3)
  }

  lemma BlockOfState(s: State)
    ensures BlockState(StateBlock(s)) == s
  {
    hide Word, B0, B1, B2, B3;
    BytesWord(s.c0); BytesWord(s.c1); BytesWord(s.c2); BytesWord(s.c3);
  }

  lemma StateOfBlock(b: seq<bv8>)
    requires |b| == 16
    ensures StateBlock(BlockState(b)) == b
  {
    hide Word, B0, B1, B2, B3;
    WordBytes(b[0], b[1], b[2], b[3]); WordBytes(b[4], b[5], b[6], b[7]);
    WordBytes(b[8], b[9], b[10], b[11]); WordBytes(b[12], b[13], b[14], b[15]);
  }

  function EncryptBlock(w: seq<bv32>, nr: nat, b: seq<bv8>): (c: seq<bv8>)
    requires nr > 0 && 4 * nr + 4 <= |w| && |b| == 16
    ensures |c| == 16
  {
    StateBlock(Cipher(w, nr, BlockState(b)))
  }

  function DecryptBlock(dw: seq<bv32>, nr: nat, c: seq<bv8>): (b: seq<bv8>)
    requires nr > 0 && 4 * nr + 4 <= |dw| && |c| == 16
    ensures |b| == 16
  {
    StateBlock(EqInvCipher(dw, nr, BlockState(c)))
  }

  lemma DecryptUndoesEncrypt(w: seq<bv32>, dw: seq<bv32>, nr: nat, b: seq<bv8>)
    requires nr > 0 && |b| == 16 && IsDecryptionSchedule(w, dw, nr)
    ensures DecryptBlock(dw, nr, EncryptBlock(w, nr, b)) == b
  {
    hide StateBlock, BlockState, Cipher, EqInvCipher;
    BlockOfState(Cipher(w, nr, BlockState(b)));
    EqInvCipherUndoesCipher(w, dw, nr, BlockState(b));
    StateOfBlock(b);
  }

  // ---- the block routines ---------------------------------------------------------------

  class AesKey {
    const rd_key: array<bv32>
    var rounds: nat
    constructor ()
      ensures fresh(rd_key) && rd_key.Length == 60
    {
      rd_key := new bv32[60];
      rounds := 0;
    }

    ghost predicate Ready()
      reads this, rd_key
    {
      rd_key.Length == 60 && (rounds == 10 || rounds == 12 || rounds == 14)
    }
  }

  // The 16 bytes of out at o become those of four words, written one word after the other.
  method PutWord(a: array<bv8>, o: nat, w: bv32)
    requires o + 4 <= a.Length
    modifies a
    ensures a[..] == old(a[..o]) + WordBytesOf(w) + old(a[o + 4..])
  {
    hide B0, B1, B2, B3;
    a[o], a[o + 1], a[o + 2], a[o + 3] := B0(w), B1(w), B2(w), B3(w);
  }

  lemma FourWords(a: seq<bv8>, a0: seq<bv8>, a1: seq<bv8>, a2: seq<bv8>, a3: seq<bv8>, o: nat, s: State)
    requires o + 16 <= |a| == |a0| == |a1| == |a2| == |a3|
    requires a0 == a[..o] + WordBytesOf(s.c0) + a[o + 4..]
    requires a1 == a0[..o + 4] + WordBytesOf(s.c1) + a0[o + 8..]
    requires a2 == a1[..o + 8] + WordBytesOf(s.c2) + a1[o + 12..]
    requires a3 == a2[..o + 12] + WordBytesOf(s.c3) + a2[o + 16..]
    ensures a3 == a[..o] + StateBlock(s) + a[o + 16..]
  {
    hide B0, B1, B2, B3, WordBytesOf;
    var w0, w1, w2, w3 := WordBytesOf(s.c0), WordBytesOf(s.c1), WordBytesOf(s.c2), WordBytesOf(s.c3);
    NextWord(a, a, a0, a[..o], w0);
    NextWord(a, a0, a1, a[..o] + w0, w1);
    NextWord(a, a1, a2, a[..o] + w0 + w1, w2);
    NextWord(a, a2, a3, a[..o] + w0 + w1 + w2, w3);
    assert a[..o] + w0 + w1 + w2 + w3 == a[..o] + (w0 + w1 + w2 + w3);
  }

  // after is before with w stored behind what has been stored over a so far.
  lemma NextWord(a: seq<bv8>, before: seq<bv8>, after: seq<bv8>, stored: seq<bv8>, w: seq<bv8>)
    requires |stored| + 4 <= |a| == |before| && |w| == 4
    requires before == stored + a[|stored|..]
    requires after == before[..|stored|] + w + before[|stored| + 4..]
    ensures after == stored + w + a[|stored| + 4..]
  {}

  // One round of table look-ups, under the round key at rk.
  method EncryptRound(s0: bv32, s1: bv32, s2: bv32, s3: bv32, w: array<bv32>, rk: nat, ghost n: nat)
    returns (t0: bv32, t1: bv32, t2: bv32, t3: bv32)
    requires rk == 4 * n && rk + 4 <= w.Length
    ensures State(t0, t1, t2, t3) == Round(State(s0, s1, s2, s3), RoundKey(w[..], n))
  {
    hide B0, B1, B2, B3, TeSum, Round, PlusWord;
    ColumnsOfRound(State(s0, s1, s2, s3), RoundKey(w[..], n));
    t0 := PlusWord(TeSum(B0(s0), B1(s1), B2(s2), B3(s3)), w[rk]);
    t1 := PlusWord(TeSum(B0(s1), B1(s2), B2(s3), B3(s0)), w[rk + 1]);
    t2 := PlusWord(TeSum(B0(s2), B1(s3), B2(s0), B3(s1)), w[rk + 2]);
    t3 := PlusWord(TeSum(B0(s3), B1(s0), B2(s1), B3(s2)), w[rk + 3]);
  }

  // All but the last round, two rounds per pass, leaving the state in t and the position
  // of the last round key in rk.
  method EncryptRounds(input: array<bv8>, i: nat, key: AesKey) returns (t0: bv32, t1: bv32, t2: bv32, t3: bv32, rk: nat)
    requires key.Ready() && i + 16 <= input.Length
    ensures rk == 4 * key.rounds
    ensures State(t0, t1, t2, t3) == Rounds(key.rd_key[..], key.rounds - 1, BlockState(input[i..i + 16]))
  {
    hide Word, B0, B1, B2, B3, Round, PlusWord;
    var w := key.rd_key;
    ghost var b := BlockState(input[i..i + 16]);
    ghost var n := 0;
    rk := 0;
    var s0 := PlusWord(Word(input[i], input[i + 1], input[i + 2], input[i + 3]), w[0]);
    var s1 := PlusWord(Word(input[i + 4], input[i + 5], input[i + 6], input[i + 7]), w[1]);
    var s2 := PlusWord(Word(input[i + 8], input[i + 9], input[i + 10], input[i + 11]), w[2]);
    var s3 := PlusWord(Word(input[i + 12], input[i + 13], input[i + 14], input[i + 15]), w[3]);
    t0, t1, t2, t3 := s0, s1, s2, s3;
    var r := key.rounds / 2;
    while true
      invariant 0 < r && n == key.rounds - 2 * r && rk == 4 * n
      invariant State(s0, s1, s2, s3) == Rounds(w[..], n, b)
      decreases r
    {
      t0, t1, t2, t3 := EncryptRound(s0, s1, s2, s3, w, rk + 4, n + 1);
      rk := rk + 8;
      n := n + 2;
      r := r - 1;
      if r == 0 { break; }
      s0, s1, s2, s3 := EncryptRound(t0, t1, t2, t3, w, rk, n);
    }
  }

  method Encrypt(input: array<bv8>, i: nat, out: array<bv8>, o: nat, key: AesKey)
    requires key.Ready() && i + 16 <= input.Length && o + 16 <= out.Length
    modifies out
    ensures out[..] == old(out[..o]) + EncryptBlock(key.rd_key[..], key.rounds, old(input[i..i + 16])) +
      old(out[o + 16..])
  {
    hide B0, B1, B2, B3, Te4Sum, Rounds, LastRound, PlusWord, WordBytesOf, StateBlock, BlockState;
    var w := key.rd_key;
    ghost var b := BlockState(input[i..i + 16]);
    var t0, t1, t2, t3, rk := EncryptRounds(input, i, key);
    ColumnsOfLastRound(State(t0, t1, t2, t3), RoundKey(w[..], key.rounds));
    ghost var a := out[..];
    var s0 := PlusWord(Te4Sum(B0(t0), B1(t1), B2(t2), B3(t3)), w[rk]);
    PutWord(out, o, s0);
    ghost var a0 := out[..];
    var s1 := PlusWord(Te4Sum(B0(t1), B1(t2), B2(t3), B3(t0)), w[rk + 1]);
    PutWord(out, o + 4, s1);
    ghost var a1 := out[..];
    var s2 := PlusWord(Te4Sum(B0(t2), B1(t3), B2(t0), B3(t1)), w[rk + 2]);
    PutWord(out, o + 8, s2);
    ghost var a2 := out[..];
    var s3 := PlusWord(Te4Sum(B0(t3), B1(t0), B2(t1), B3(t2)), w[rk + 3]);
    PutWord(out, o + 12, s3);
    FourWords(a, a0, a1, a2, out[..], o, State(s0, s1, s2, s3));
    assert State(s0, s1, s2, s3) == Cipher(w[..], key.rounds, b);
  }

  // One round of table look-ups, under the round key at rk.
  method DecryptRound(s0: bv32, s1: bv32, s2: bv32, s3: bv32, w: array<bv32>, rk: nat, ghost n: nat)
    returns (t0: bv32, t1: bv32, t2: bv32, t3: bv32)
    requires rk == 4 * n && rk + 4 <= w.Length
    ensures State(t0, t1, t2, t3) == EqInvRound(State(s0, s1, s2, s3), RoundKey(w[..], n))
  {
    hide B0, B1, B2, B3, TdSum, EqInvRound, PlusWord;
    ColumnsOfEqInvRound(State(s0, s1, s2, s3), RoundKey(w[..], n));
    t0 := PlusWord(TdSum(B0(s0), B1(s3), B2(s2), B3(s1)), w[rk]);
    t1 := PlusWord(TdSum(B0(s1), B1(s0), B2(s3), B3(s2)), w[rk + 1]);
    t2 := PlusWord(TdSum(B0(s2), B1(s1), B2(s0), B3(s3)), w[rk + 2]);
    t3 := PlusWord(TdSum(B0(s3), B1(s2), B2(s1), B3(s0)), w[rk + 3]);
  }

  // All but the last round, two rounds per pass, leaving the state in t and the position
  // of the last round key in rk.
  method DecryptRounds(input: array<bv8>, i: nat, key: AesKey) returns (t0: bv32, t1: bv32, t2: bv32, t3: bv32, rk: nat)
    requires key.Ready() && i + 16 <= input.Length
    ensures rk == 4 * key.rounds
    ensures State(t0, t1, t2, t3) == EqInvRounds(key.rd_key[..], key.rounds - 1, BlockState(input[i..i + 16]))
  {
    hide Word, B0, B1, B2, B3, EqInvRound, PlusWord;
    var w := key.rd_key;
    ghost var b := BlockState(input[i..i + 16]);
    ghost var n := 0;
    rk := 0;
    var s0 := PlusWord(Word(input[i], input[i + 1], input[i + 2], input[i + 3]), w[0]);
    var s1 := PlusWord(Word(input[i + 4], input[i + 5], input[i + 6], input[i + 7]), w[1]);
    var s2 := PlusWord(Word(input[i + 8], input[i + 9], input[i + 10], input[i + 11]), w[2]);
    var s3 := PlusWord(Word(input[i + 12], input[i + 13], input[i + 14], input[i + 15]), w[3]);
    t0, t1, t2, t3 := s0, s1, s2, s3;
    var r := key.rounds / 2;
    while true
      invariant 0 < r && n == key.rounds - 2 * r && rk == 4 * n
      invariant State(s0, s1, s2, s3) == EqInvRounds(w[..], n, b)
      decreases r
    {
      t0, t1, t2, t3 := DecryptRound(s0, s1, s2, s3, w, rk + 4, n + 1);
      rk := rk + 8;
      n := n + 2;
      r := r - 1;
      if r == 0 { break; }
      s0, s1, s2, s3 := DecryptRound(t0, t1, t2, t3, w, rk, n);
    }
  }

  method Decrypt(input: array<bv8>, i: nat, out: array<bv8>, o: nat, key: AesKey)
    requires key.Ready() && i + 16 <= input.Length && o + 16 <= out.Length
    modifies out
    ensures out[..] == old(out[..o]) + DecryptBlock(key.rd_key[..], key.rounds, old(input[i..i + 16])) +
      old(out[o + 16..])
  {
    hide B0, B1, B2, B3, Td4Sum, EqInvRounds, EqInvLastRound, PlusWord, WordBytesOf, StateBlock, BlockState;
    var w := key.rd_key;
    ghost var b := BlockState(input[i..i + 16]);
    var t0, t1, t2, t3, rk := DecryptRounds(input, i, key);
    ColumnsOfEqInvLastRound(State(t0, t1, t2, t3), RoundKey(w[..], key.rounds));
    ghost var a := out[..];
    var s0 := PlusWord(Td4Sum(B0(t0), B1(t3), B2(t2), B3(t1)), w[rk]);
    PutWord(out, o, s0);
    ghost var a0 := out[..];
    var s1 := PlusWord(Td4Sum(B0(t1), B1(t0), B2(t3), B3(t2)), w[rk + 1]);
    PutWord(out, o + 4, s1);
    ghost var a1 := out[..];
    var s2 := PlusWord(Td4Sum(B0(t2), B1(t1), B2(t0), B3(t3)), w[rk + 2]);
    PutWord(out, o + 8, s2);
    ghost var a2 := out[..];
    var s3 := PlusWord(Td4Sum(B0(t3), B1(t2), B2(t1), B3(t0)), w[rk + 3]);
    PutWord(out, o + 12, s3);
    FourWords(a, a0, a1, a2, out[..], o, State(s0, s1, s2, s3));
    assert State(s0, s1, s2, s3) == EqInvCipher(w[..], key.rounds, b);
  }
}

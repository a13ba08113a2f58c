// The cipher of FIPS 197 on a state of four 32-bit columns, most significant byte in
// row 0: the cipher (section 5.1), the key expansion (5.2), the inverse cipher (5.3)
// and the equivalent inverse cipher (5.3.5).
module AesSpec {
  import opened AesField
  import opened AesTables

  datatype State = State(c0: bv32, c1: bv32, c2: bv32, c3: bv32)

  function SubWord(w: bv32): bv32 { Word(S(B0(w)), S(B1(w)), S(B2(w)), S(B3(w))) }
  function InvSubWord(w: bv32): bv32 { Word(Si(B0(w)), Si(B1(w)), Si(B2(w)), Si(B3(w))) }
  function RotWord(w: bv32): bv32 { Word(B1(w), B2(w), B3(w), B0(w)) }

  function SubBytes(s: State): State {
    State(SubWord(s.c0), SubWord(s.c1), SubWord(s.c2), SubWord(s.c3))
  }

  function InvSubBytes(s: State): State {
    State(InvSubWord(s.c0), InvSubWord(s.c1), InvSubWord(s.c2), InvSubWord(s.c3))
  }

  function ShiftRows(s: State): State {
    State(Word(B0(s.c0), B1(s.c1), B2(s.c2), B3(s.c3)), Word(B0(s.c1), B1(s.c2), B2(s.c3), B3(s.c0)),
          Word(B0(s.c2), B1(s.c3), B2(s.c0), B3(s.c1)), Word(B0(s.c3), B1(s.c0), B2(s.c1), B3(s.c2)))
  }

  function InvShiftRows(s: State): State {
    State(Word(B0(s.c0), B1(s.c3), B2(s.c2), B3(s.c1)), Word(B0(s.c1), B1(s.c0), B2(s.c3), B3(s.c2)),
          Word(B0(s.c2), B1(s.c1), B2(s.c0), B3(s.c3)), Word(B0(s.c3), B1(s.c2), B2(s.c1), B3(s.c0)))
  }

  function MixColumns(s: State): State {
    State(MixColumn(s.c0), MixColumn(s.c1), MixColumn(s.c2), MixColumn(s.c3))
  }

  function InvMixColumns(s: State): State {
    State(InvMixColumn(s.c0), InvMixColumn(s.c1), InvMixColumn(s.c2), InvMixColumn(s.c3))
  }

  function AddRoundKey(s: State, k: State): State {
    State(PlusWord(s.c0, k.c0), PlusWord(s.c1, k.c1), PlusWord(s.c2, k.c2), PlusWord(s.c3, k.c3))
  }

  function RoundKey(w: seq<bv32>, r: nat): State
    requires 4 * r + 4 <= |w|
  {
    State(w[4 * r], w[4 * r + 1], w[4 * r + 2], w[4 * r + 3])
  }

  function Round(s: State, k: State): State { AddRoundKey(MixColumns(ShiftRows(SubBytes(s))), k) }
  function LastRound(s: State, k: State): State { AddRoundKey(ShiftRows(SubBytes(s)), k) }
  function EqInvRound(s: State, k: State): State { AddRoundKey(InvMixColumns(InvShiftRows(InvSubBytes(s))), k) }
  function EqInvLastRound(s: State, k: State): State { AddRoundKey(InvShiftRows(InvSubBytes(s)), k) }

  // The state after n full rounds of the cipher.
  function Rounds(w: seq<bv32>, n: nat, s: State): State
    requires 4 * n + 4 <= |w|
  {
    if n == 0 then AddRoundKey(s, RoundKey(w, 0))
    else Round(Rounds(w, n - 1, s), RoundKey(w, n))
  }

  function Cipher(w: seq<bv32>, nr: nat, s: State): State
    requires nr > 0 && 4 * nr + 4 <= |w|
  {
    LastRound(Rounds(w, nr - 1, s), RoundKey(w, nr))
  }

  function InvRounds(w: seq<bv32>, nr: nat, n: nat, s: State): State
    requires n <= nr && 4 * nr + 4 <= |w|
  {
    if n == 0 then AddRoundKey(s, RoundKey(w, nr))
    else InvMixColumns(AddRoundKey(InvSubBytes(InvShiftRows(InvRounds(w, nr, n - 1, s))), RoundKey(w, nr - n)))
  }

  function InvCipher(w: seq<bv32>, nr: nat, s: State): State
    requires nr > 0 && 4 * nr + 4 <= |w|
  {
    AddRoundKey(InvSubBytes(InvShiftRows(InvRounds(w, nr, nr - 1, s))), RoundKey(w, 0))
  }

  function EqInvRounds(dw: seq<bv32>, n: nat, s: State): State
    requires 4 * n + 4 <= |dw|
  {
    if n == 0 then AddRoundKey(s, RoundKey(dw, 0))
    else EqInvRound(EqInvRounds(dw, n - 1, s), RoundKey(dw, n))
  }

  function EqInvCipher(dw: seq<bv32>, nr: nat, s: State): State
    requires nr > 0 && 4 * nr + 4 <= |dw|
  {
    EqInvLastRound(EqInvRounds(dw, nr - 1, s), RoundKey(dw, nr))
  }

  // Section 5.2: word i of the schedule expanded from the key words.
  function PowerOfX(n: nat): bv8 { if n == 0 then 1 else Xtime(PowerOfX(n - 1)) }

  function KeyWord(key: seq<bv32>, i: nat): bv32
    requires |key| > 0
  {
    var nk := |key|;
    if i < nk then key[i]
    else
      var temp := KeyWord(key, i - 1);
      var mixed :=
        if i % nk == 0 then PlusWord(SubWord(RotWord(temp)), Word(PowerOfX(i / nk - 1), 0, 0, 0))
        else if nk > 6 && i % nk == 4 then SubWord(temp)
        else temp;
      PlusWord(KeyWord(key, i - nk), mixed)
  }

  // The decryption schedule: the round keys in reverse order, all but the outer two unmixed.
  function DecryptionKey(w: seq<bv32>, nr: nat, r: nat): State
    requires r <= nr && 4 * nr + 4 <= |w|
  {
    if r == 0 || r == nr then RoundKey(w, nr - r) else InvMixColumns(RoundKey(w, nr - r))
  }

  ghost predicate IsDecryptionSchedule(w: seq<bv32>, dw: seq<bv32>, nr: nat) {
    |w| >= 4 * nr + 4 && |dw| >= 4 * nr + 4 &&
    forall r :: 0 <= r <= nr ==> RoundKey(dw, r) == DecryptionKey(w, nr, r)
  }

  // ---- algebra of the steps -------------------------------------------------------------

  lemma InvSubUndoesSub(w: bv32)
    ensures InvSubWord(SubWord(w)) == w
  {
    hide S, Si, Word, B0, B1, B2, B3;
    SiUndoesS(B0(w)); SiUndoesS(B1(w)); SiUndoesS(B2(w)); SiUndoesS(B3(w));
    WordBytes(S(B0(w)), S(B1(w)), S(B2(w)), S(B3(w)));
    BytesWord(w);
  }

  lemma ShiftUndone(s: State)
    ensures InvShiftRows(ShiftRows(s)) == s
  {
    hide Word, B0, B1, B2, B3;
    WordBytes(B0(s.c0), B1(s.c1), B2(s.c2), B3(s.c3)); WordBytes(B0(s.c1), B1(s.c2), B2(s.c3), B3(s.c0));
    WordBytes(B0(s.c2), B1(s.c3), B2(s.c0), B3(s.c1)); WordBytes(B0(s.c3), B1(s.c0), B2(s.c1), B3(s.c2));
    BytesWord(s.c0); BytesWord(s.c1); BytesWord(s.c2); BytesWord(s.c3);
  }

  lemma InvSubPicks(w: bv32)
    ensures B0(InvSubWord(w)) == Si(B0(w)) && B1(InvSubWord(w)) == Si(B1(w))
    ensures B2(InvSubWord(w)) == Si(B2(w)) && B3(InvSubWord(w)) == Si(B3(w))
  {
    hide Si, Word, B0, B1, B2, B3;
    WordBytes(Si(B0(w)), Si(B1(w)), Si(B2(w)), Si(B3(w)));
  }

  lemma SubPicks(w: bv32)
    ensures B0(SubWord(w)) == S(B0(w)) && B1(SubWord(w)) == S(B1(w))
    ensures B2(SubWord(w)) == S(B2(w)) && B3(SubWord(w)) == S(B3(w))
  {
    hide S, Word, B0, B1, B2, B3;
    WordBytes(S(B0(w)), S(B1(w)), S(B2(w)), S(B3(w)));
  }

  lemma SubAndShiftCommute(s: State)
    ensures InvShiftRows(InvSubBytes(s)) == InvSubBytes(InvShiftRows(s))
  {
    hide Si, Word, B0, B1, B2, B3;
    InvSubPicks(s.c0); InvSubPicks(s.c1); InvSubPicks(s.c2); InvSubPicks(s.c3);
    WordBytes(B0(s.c0), B1(s.c3), B2(s.c2), B3(s.c1)); WordBytes(B0(s.c1), B1(s.c0), B2(s.c3), B3(s.c2));
    WordBytes(B0(s.c2), B1(s.c1), B2(s.c0), B3(s.c3)); WordBytes(B0(s.c3), B1(s.c2), B2(s.c1), B3(s.c0));
  }

  lemma SubShiftUndone(s: State)
    ensures InvShiftRows(InvSubBytes(ShiftRows(SubBytes(s)))) == s
  {
    hide SubWord, InvSubWord, ShiftRows, InvShiftRows;
    SubAndShiftCommute(ShiftRows(SubBytes(s)));
    ShiftUndone(SubBytes(s));
    InvSubUndoesSub(s.c0); InvSubUndoesSub(s.c1); InvSubUndoesSub(s.c2); InvSubUndoesSub(s.c3);
  }

  lemma PlusTwice(x: bv32, y: bv32)
    ensures PlusWord(PlusWord(x, y), y) == x
  {}

  lemma KeyAddedTwice(s: State, k: State)
    ensures AddRoundKey(AddRoundKey(s, k), k) == s
  {
    hide PlusWord;
    PlusTwice(s.c0, k.c0); PlusTwice(s.c1, k.c1); PlusTwice(s.c2, k.c2); PlusTwice(s.c3, k.c3);
  }

  lemma UnmixKeyed(s: State, k: State)
    ensures InvMixColumns(AddRoundKey(s, k)) == AddRoundKey(InvMixColumns(s), InvMixColumns(k))
  {
    hide InvMixColumn, PlusWord;
    InvMixLinear(s.c0, k.c0); InvMixLinear(s.c1, k.c1); InvMixLinear(s.c2, k.c2); InvMixLinear(s.c3, k.c3);
  }

  lemma UnmixMixed(s: State)
    ensures InvMixColumns(MixColumns(s)) == s
  {
    hide MixColumn, InvMixColumn;
    InvMixUndoesMix(s.c0); InvMixUndoesMix(s.c1); InvMixUndoesMix(s.c2); InvMixUndoesMix(s.c3);
  }
  // ---- the equivalent inverse cipher undoes the cipher ----------------------------------

  // After n inverse rounds the state is the one the cipher had before its last n rounds.
  lemma {:induction false} RoundsUndone(w: seq<bv32>, dw: seq<bv32>, nr: nat, n: nat, s: State)
    requires n < nr && IsDecryptionSchedule(w, dw, nr)
    ensures EqInvRounds(dw, n, Cipher(w, nr, s)) == ShiftRows(SubBytes(Rounds(w, nr - 1 - n, s)))
  {
    hide SubBytes, ShiftRows, MixColumns, InvSubBytes, InvShiftRows, InvMixColumns, AddRoundKey, RoundKey;
    assert RoundKey(dw, n) == DecryptionKey(w, nr, n);
    if n == 0 {
      KeyAddedTwice(ShiftRows(SubBytes(Rounds(w, nr - 1, s))), RoundKey(w, nr));
    } else {
      RoundsUndone(w, dw, nr, n - 1, s);
      var m := nr - n;
      var before := ShiftRows(SubBytes(Rounds(w, m - 1, s)));
      SubShiftUndone(Rounds(w, m, s));
      UnmixKeyed(MixColumns(before), RoundKey(w, m));
      UnmixMixed(before);
      KeyAddedTwice(before, InvMixColumns(RoundKey(w, m)));
    }
  }

  lemma EqInvCipherUndoesCipher(w: seq<bv32>, dw: seq<bv32>, nr: nat, s: State)
    requires nr > 0 && IsDecryptionSchedule(w, dw, nr)
    ensures EqInvCipher(dw, nr, Cipher(w, nr, s)) == s
  {
    hide SubBytes, ShiftRows, MixColumns, InvSubBytes, InvShiftRows, InvMixColumns, AddRoundKey, RoundKey;
    RoundsUndone(w, dw, nr, nr - 1, s);
    assert RoundKey(dw, nr) == DecryptionKey(w, nr, nr);
    SubShiftUndone(Rounds(w, 0, s));
    KeyAddedTwice(s, RoundKey(w, 0));
  }

  // Section 5.3.5: with that schedule it is the inverse cipher, for every input.
  lemma {:induction false} EqInvRoundsAreInvRounds(w: seq<bv32>, dw: seq<bv32>, nr: nat, n: nat, s: State)
    requires n < nr && IsDecryptionSchedule(w, dw, nr)
    ensures EqInvRounds(dw, n, s) == InvRounds(w, nr, n, s)
  {
    hide InvSubBytes, InvShiftRows, InvMixColumns, AddRoundKey, RoundKey;
    assert RoundKey(dw, n) == DecryptionKey(w, nr, n);
    if n > 0 {
      EqInvRoundsAreInvRounds(w, dw, nr, n - 1, s);
      var t := InvRounds(w, nr, n - 1, s);
      SubAndShiftCommute(t);
      UnmixKeyed(InvSubBytes(InvShiftRows(t)), RoundKey(w, nr - n));
    }
  }

  lemma EqInvCipherIsInvCipher(w: seq<bv32>, dw: seq<bv32>, nr: nat, s: State)
    requires nr > 0 && IsDecryptionSchedule(w, dw, nr)
    ensures EqInvCipher(dw, nr, s) == InvCipher(w, nr, s)
  {
    hide InvSubBytes, InvShiftRows, InvMixColumns, AddRoundKey, RoundKey;
    EqInvRoundsAreInvRounds(w, dw, nr, nr - 1, s);
    assert RoundKey(dw, nr) == DecryptionKey(w, nr, nr);
    SubAndShiftCommute(InvRounds(w, nr, nr - 1, s));
  }
}

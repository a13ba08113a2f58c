// The two key schedules, filled in place.
module AesKeys {
  import opened AesField
  import opened AesTables
  import opened AesSpec
  import opened AesCore

  const RCON: seq<bv32> := [
    0x0100_0000, 0x0200_0000, 0x0400_0000, 0x0800_0000, 0x1000_0000,
    0x2000_0000, 0x4000_0000, 0x8000_0000, 0x1b00_0000, 0x3600_0000
  ]

  lemma RconIs(i: nat)
    requires i < 10
    ensures RCON[i] == Word(PowerOfX(i), 0, 0, 0)
  {
    assert PowerOfX(0) == 0x01; assert PowerOfX(1) == 0x02; assert PowerOfX(2) == 0x04;
    assert PowerOfX(3) == 0x08; assert PowerOfX(4) == 0x10; assert PowerOfX(5) == 0x20;
    assert PowerOfX(6) == 0x40; assert PowerOfX(7) == 0x80; assert PowerOfX(8) == 0x1b;
    assert PowerOfX(9) == 0x36;
  }

  lemma PlusWordAssociates(a: bv32, b: bv32, c: bv32)
    ensures PlusWord(PlusWord(a, b), c) == PlusWord(a, PlusWord(b, c))
  {}

  lemma SubWordLookups(w: bv32)
    ensures Te4Sum(B0(w), B1(w), B2(w), B3(w)) == SubWord(w)
    ensures Te4Sum(B1(w), B2(w), B3(w), B0(w)) == SubWord(RotWord(w))
  {
    hide S, Word, B0, B1, B2, B3, Te4Sum;
    Te4SumIs(B0(w), B1(w), B2(w), B3(w));
    Te4SumIs(B1(w), B2(w), B3(w), B0(w));
    WordBytes(B1(w), B2(w), B3(w), B0(w));
  }

  // The user key as the words GETU32 reads from it.
  function KeyWords(k: seq<bv8>): (ws: seq<bv32>)
    requires |k| % 4 == 0
    ensures |ws| == |k| / 4
  {
    seq(|k| / 4, j requires 0 <= j < |k| / 4 => WordAt(k, 4 * j))
  }

  // First word of group q, in the order the code adds its terms.
  function FirstOfGroup(before: bv32, temp: bv32, i: nat): bv32
    requires i < 10
  {
    PlusWord(PlusWord(before, Te4Sum(B1(temp), B2(temp), B3(temp), B0(temp))), RCON[i])
  }

  lemma FirstOfGroupIs(k: seq<bv32>, i: nat, at: nat)
    requires (|k| == 4 || |k| == 6 || |k| == 8) && i < 10 && at == |k| * (i + 1)
    ensures KeyWord(k, at) == FirstOfGroup(KeyWord(k, at - |k|), KeyWord(k, at - 1), i)
  {
    hide Word, B0, B1, B2, B3, Te4Sum, PlusWord, SubWord, RotWord, PowerOfX;
    assert at % |k| == 0 && at / |k| == i + 1;
    var temp := KeyWord(k, at - 1);
    SubWordLookups(temp);
    RconIs(i);
    PlusWordAssociates(KeyWord(k, at - |k|), SubWord(RotWord(temp)), Word(PowerOfX(i), 0, 0, 0));
  }

  lemma InsideGroup(k: seq<bv32>, i: nat, r: nat, at: nat)
    requires (|k| == 4 || |k| == 6 || |k| == 8) && 0 < r < |k| && at == |k| * (i + 1) + r
    ensures KeyWord(k, at) == PlusWord(KeyWord(k, at - |k|),
              if |k| == 8 && r == 4 then
                Te4Sum(B0(KeyWord(k, at - 1)), B1(KeyWord(k, at - 1)), B2(KeyWord(k, at - 1)), B3(KeyWord(k, at - 1)))
              else KeyWord(k, at - 1))
  {
    hide Word, B0, B1, B2, B3, Te4Sum, PlusWord, SubWord, RotWord, PowerOfX;
    assert at % |k| == r;
    SubWordLookups(KeyWord(k, at - 1));
  }

  ghost predicate Expanded(k: seq<bv32>, w: seq<bv32>, n: nat)
    requires |k| > 0
  {
    n <= |w| && forall j :: 0 <= j < n ==> w[j] == KeyWord(k, j)
  }

  // Stores the next schedule word.
  method SetWord(w: array<bv32>, at: nat, v: bv32, ghost k: seq<bv32>)
    requires |k| > 0 && at < w.Length && Expanded(k, w[..], at) && v == KeyWord(k, at)
    modifies w
    ensures w[..] == old(w[..])[at := v] && Expanded(k, w[..], at + 1)
  {
    hide KeyWord;
    w[at] := v;
  }

  method Expand128(w: array<bv32>)
    requires w.Length == 60
    modifies w
    ensures Expanded(old(w[..4]), w[..], 44) && w[44..] == old(w[44..])
  {
    hide Te4Sum, PlusWord, B0, B1, B2, B3, KeyWord, FirstOfGroup;
    ghost var k := w[..4];
    KeyItself(k, w[..]);
    var rk, i := 0, 0;
    while true
      invariant i < 10 && rk == 4 * i
      invariant Expanded(k, w[..], rk + 4) && w[44..] == old(w[44..])
      decreases 10 - i
    {
      var temp := w[rk + 3];
      FirstOfGroupIs(k, i, rk + 4);
      SetWord(w, rk + 4, FirstOfGroup(w[rk], temp, i), k);
      InsideGroup(k, i, 1, rk + 5);
      SetWord(w, rk + 5, PlusWord(w[rk + 1], w[rk + 4]), k);
      InsideGroup(k, i, 2, rk + 6);
      SetWord(w, rk + 6, PlusWord(w[rk + 2], w[rk + 5]), k);
      InsideGroup(k, i, 3, rk + 7);
      SetWord(w, rk + 7, PlusWord(w[rk + 3], w[rk + 6]), k);
      i := i + 1;
      if i == 10 { return; }
      rk := rk + 4;
    }
  }

  method Expand192(w: array<bv32>)
    requires w.Length == 60
    modifies w
    ensures Expanded(old(w[..6]), w[..], 52) && w[52..] == old(w[52..])
  {
    hide Te4Sum, PlusWord, B0, B1, B2, B3, KeyWord, FirstOfGroup;
    ghost var k := w[..6];
    KeyItself(k, w[..]);
    var rk, i := 0, 0;
    while true
      invariant i < 8 && rk == 6 * i
      invariant Expanded(k, w[..], rk + 6) && w[52..] == old(w[52..])
      decreases 8 - i
    {
      var temp := w[rk + 5];
      FirstOfGroupIs(k, i, rk + 6);
      SetWord(w, rk + 6, FirstOfGroup(w[rk], temp, i), k);
      InsideGroup(k, i, 1, rk + 7);
      SetWord(w, rk + 7, PlusWord(w[rk + 1], w[rk + 6]), k);
      InsideGroup(k, i, 2, rk + 8);
      SetWord(w, rk + 8, PlusWord(w[rk + 2], w[rk + 7]), k);
      InsideGroup(k, i, 3, rk + 9);
      SetWord(w, rk + 9, PlusWord(w[rk + 3], w[rk + 8]), k);
      i := i + 1;
      if i == 8 { return; }
      InsideGroup(k, i - 1, 4, rk + 10);
      SetWord(w, rk + 10, PlusWord(w[rk + 4], w[rk + 9]), k);
      InsideGroup(k, i - 1, 5, rk + 11);
      SetWord(w, rk + 11, PlusWord(w[rk + 5], w[rk + 10]), k);
      rk := rk + 6;
    }
  }

  // The second half of a group of eight: its first word substitutes without rotating.
  method Expand256Tail(w: array<bv32>, rk: nat, ghost i: nat, ghost k: seq<bv32>)
    requires w.Length == 60 && |k| == 8 && i < 6 && rk == 8 * i && Expanded(k, w[..], rk + 12)
    modifies w
    ensures Expanded(k, w[..], rk + 16) && w[rk + 16..] == old(w[rk + 16..])
  {
    hide Te4Sum, PlusWord, B0, B1, B2, B3, KeyWord;
    var temp := w[rk + 11];
    InsideGroup(k, i, 4, rk + 12);
    SetWord(w, rk + 12, PlusWord(w[rk + 4], Te4Sum(B0(temp), B1(temp), B2(temp), B3(temp))), k);
    InsideGroup(k, i, 5, rk + 13);
    SetWord(w, rk + 13, PlusWord(w[rk + 5], w[rk + 12]), k);
    InsideGroup(k, i, 6, rk + 14);
    SetWord(w, rk + 14, PlusWord(w[rk + 6], w[rk + 13]), k);
    InsideGroup(k, i, 7, rk + 15);
    SetWord(w, rk + 15, PlusWord(w[rk + 7], w[rk + 14]), k);
  }

  method Expand256(w: array<bv32>)
    requires w.Length == 60
    modifies w
    ensures Expanded(old(w[..8]), w[..], 60)
  {
    hide Te4Sum, PlusWord, B0, B1, B2, B3, KeyWord, FirstOfGroup;
    ghost var k := w[..8];
    KeyItself(k, w[..]);
    var rk, i := 0, 0;
    while true
      invariant i < 7 && rk == 8 * i
      invariant Expanded(k, w[..], rk + 8)
      decreases 7 - i
    {
      var temp := w[rk + 7];
      FirstOfGroupIs(k, i, rk + 8);
      SetWord(w, rk + 8, FirstOfGroup(w[rk], temp, i), k);
      InsideGroup(k, i, 1, rk + 9);
      SetWord(w, rk + 9, PlusWord(w[rk + 1], w[rk + 8]), k);
      InsideGroup(k, i, 2, rk + 10);
      SetWord(w, rk + 10, PlusWord(w[rk + 2], w[rk + 9]), k);
      InsideGroup(k, i, 3, rk + 11);
      SetWord(w, rk + 11, PlusWord(w[rk + 3], w[rk + 10]), k);
      i := i + 1;
      if i == 7 { return; }
      Expand256Tail(w, rk, i - 1, k);
      rk := rk + 8;
    }
  }

  lemma KeyItself(k: seq<bv32>, w: seq<bv32>)
    requires 0 < |k| <= |w| && k == w[..|k|]
    ensures Expanded(k, w, |k|)
  {}

  function RoundsFor(bits: int): nat {
    if bits == 128 then 10 else if bits == 192 then 12 else 14
  }

  ghost predicate Loaded(u: seq<bv8>, w: seq<bv32>, n: nat) {
    4 * n <= |u| && n <= |w| && forall j :: 0 <= j < n ==> w[j] == WordAt(u, 4 * j)
  }

  // Reads the next word of the user key into the schedule.
  method LoadWord(u: array<bv8>, w: array<bv32>, n: nat)
    requires n < w.Length && 4 * n + 4 <= u.Length && Loaded(u[..], w[..], n)
    modifies w
    ensures Loaded(u[..], w[..], n + 1)
    ensures forall x :: n < x < w.Length ==> w[x] == old(w[x])
  {
    hide Word;
    w[n] := Word(u[4 * n], u[4 * n + 1], u[4 * n + 2], u[4 * n + 3]);
  }

  lemma LoadedWords(u: seq<bv8>, w: seq<bv32>, n: nat)
    requires Loaded(u, w, n)
    ensures w[..n] == KeyWords(u[..4 * n])
  {
    hide Word;
    assert forall j :: 0 <= j < n ==> WordAt(u, 4 * j) == WordAt(u[..4 * n], 4 * j);
  }

  predicate ValidBits(bits: int) { bits == 128 || bits == 192 || bits == 256 }

  predicate ValidKey(userKey: seq<bv8>) { |userKey| == 16 || |userKey| == 24 || |userKey| == 32 }

  // The schedule of section 5.2 of FIPS 197: 4 * (rounds + 1) words.
  function KeySchedule(userKey: seq<bv8>): (w: seq<bv32>)
    requires ValidKey(userKey)
    ensures |w| == 4 * RoundsFor(8 * |userKey|) + 4
  {
    seq(4 * RoundsFor(8 * |userKey|) + 4, (i: nat) => KeyWord(KeyWords(userKey), i))
  }

  // The words an encryption key holds for a user key, and those a decryption key holds.
  ghost predicate IsSchedule(userKey: seq<bv8>, w: seq<bv32>, nr: nat) {
    ValidKey(userKey) && nr == RoundsFor(8 * |userKey|) && |w| == 60 && w[..4 * nr + 4] == KeySchedule(userKey)
  }

  ghost predicate IsInverseSchedule(userKey: seq<bv8>, w: seq<bv32>, nr: nat) {
    ValidKey(userKey) && nr == RoundsFor(8 * |userKey|) && IsDecryptionSchedule(KeySchedule(userKey), w, nr)
  }

  method SetEncryptKey(userKey: array?<bv8>, bits: int, key: AesKey?) returns (status: int)
    requires userKey != null && ValidBits(bits) ==> userKey.Length >= bits / 8
    requires key != null ==> key.rd_key.Length == 60
    modifies key, if key == null then {} else {key.rd_key}
    ensures status == if userKey == null || key == null then -1 else if !ValidBits(bits) then -2 else 0
    ensures status != 0 && key != null ==> key.rounds == old(key.rounds) && key.rd_key[..] == old(key.rd_key[..])
    ensures status == 0 ==> key.Ready() && key.rounds == RoundsFor(bits)
    ensures status == 0 ==> IsSchedule(old(userKey[..bits / 8]), key.rd_key[..], key.rounds)
    ensures status == 0 ==> key.rd_key[4 * key.rounds + 4..] == old(key.rd_key[4 * RoundsFor(bits) + 4..])
  {
    hide KeyWord;
    if userKey == null || key == null { return -1; }
    if bits != 128 && bits != 192 && bits != 256 { return -2; }
    var w := key.rd_key;
    key.rounds := RoundsFor(bits);
    LoadWord(userKey, w, 0);
    LoadWord(userKey, w, 1);
    LoadWord(userKey, w, 2);
    LoadWord(userKey, w, 3);
    if bits == 128 {
      LoadedWords(userKey[..], w[..], 4);
      assert w[44..] == old(key.rd_key[44..]);
      Expand128(w);
      return 0;
    }
    LoadWord(userKey, w, 4);
    LoadWord(userKey, w, 5);
    if bits == 192 {
      LoadedWords(userKey[..], w[..], 6);
      assert w[52..] == old(key.rd_key[52..]);
      Expand192(w);
      return 0;
    }
    LoadWord(userKey, w, 6);
    LoadWord(userKey, w, 7);
    LoadedWords(userKey[..], w[..], 8);
    Expand256(w);
    return 0;
  }

  // ---- the decryption schedule ----------------------------------------------------------

  method SwapWords(w: array<bv32>, i: nat, j: nat)
    requires i < j < w.Length
    modifies w
    ensures w[i] == old(w[j]) && w[j] == old(w[i])
    ensures forall x :: 0 <= x < w.Length && x != i && x != j ==> w[x] == old(w[x])
  {
    var temp := w[i];
    w[i] := w[j];
    w[j] := temp;
  }

  // Exchanges the round keys at words i and j.
  method SwapKeys(w: array<bv32>, i: nat, j: nat, ghost p: nat, ghost q: nat)
    requires p < q && i == 4 * p && j == 4 * q && j + 4 <= w.Length
    modifies w
    ensures RoundKey(w[..], p) == RoundKey(old(w[..]), q) && RoundKey(w[..], q) == RoundKey(old(w[..]), p)
    ensures forall r :: 0 <= r && r != p && r != q && 4 * r + 4 <= w.Length ==>
      RoundKey(w[..], r) == RoundKey(old(w[..]), r)
    ensures forall x :: j + 4 <= x < w.Length ==> w[x] == old(w[x])
  {
    SwapWords(w, i, j);
    SwapWords(w, i + 1, j + 1);
    SwapWords(w, i + 2, j + 2);
    SwapWords(w, i + 3, j + 3);
  }

  // Applies the inverse MixColumn transform to the round key at word rk.
  method UnmixKey(w: array<bv32>, rk: nat, ghost p: nat)
    requires rk == 4 * p && rk + 4 <= w.Length
    modifies w
    ensures RoundKey(w[..], p) == InvMixColumns(RoundKey(old(w[..]), p))
    ensures forall r :: 0 <= r && r != p && 4 * r + 4 <= w.Length ==> RoundKey(w[..], r) == RoundKey(old(w[..]), r)
    ensures w[rk + 4..] == old(w[rk + 4..])
  {
    hide TdOfTe, InvMixColumn;
    TdOfTeIs(w[rk]); TdOfTeIs(w[rk + 1]); TdOfTeIs(w[rk + 2]); TdOfTeIs(w[rk + 3]);
    w[rk] := TdOfTe(w[rk]);
    w[rk + 1] := TdOfTe(w[rk + 1]);
    w[rk + 2] := TdOfTe(w[rk + 2]);
    w[rk + 3] := TdOfTe(w[rk + 3]);
  }

  // The first p round keys of was exchanged with its last p.
  ghost predicate EndsExchanged(w: seq<bv32>, was: seq<bv32>, rounds: nat, p: nat)
    requires 4 * rounds + 4 <= |w| == |was|
  {
    forall r :: 0 <= r <= rounds ==>
      RoundKey(w, r) == RoundKey(was, if r < p || r > rounds - p then rounds - r else r)
  }

  lemma OneMoreExchanged(w: seq<bv32>, before: seq<bv32>, was: seq<bv32>, rounds: nat, p: nat)
    requires 4 * rounds + 4 <= |w| == |before| == |was| && p < rounds - p
    requires EndsExchanged(before, was, rounds, p)
    requires RoundKey(w, p) == RoundKey(before, rounds - p) && RoundKey(w, rounds - p) == RoundKey(before, p)
    requires forall r :: 0 <= r && r != p && r != rounds - p && 4 * r + 4 <= |w| ==>
      RoundKey(w, r) == RoundKey(before, r)
    ensures EndsExchanged(w, was, rounds, p + 1)
  {
    hide RoundKey;
    forall r | 0 <= r <= rounds
      ensures RoundKey(w, r) == RoundKey(was, if r < p + 1 || r > rounds - (p + 1) then rounds - r else r)
    {
      assert RoundKey(before, r) == RoundKey(was, if r < p || r > rounds - p then rounds - r else r);
      if r != p && r != rounds - p { assert 4 * r + 4 <= |w|; }
    }
  }

  lemma NoneExchanged(was: seq<bv32>, rounds: nat)
    requires 4 * rounds + 4 <= |was|
    ensures EndsExchanged(was, was, rounds, 0)
  {}

  lemma AllExchanged(w: seq<bv32>, was: seq<bv32>, rounds: nat, p: nat)
    requires 4 * rounds + 4 <= |w| == |was| && rounds - p <= p
    requires EndsExchanged(w, was, rounds, p)
    ensures forall r :: 0 <= r <= rounds ==> RoundKey(w, r) == RoundKey(was, rounds - r)
  {
    hide RoundKey;
  }

  method InvertOrder(w: array<bv32>, rounds: nat)
    requires 4 * rounds + 4 <= w.Length
    modifies w
    ensures forall r :: 0 <= r <= rounds ==> RoundKey(w[..], r) == RoundKey(old(w[..]), rounds - r)
    ensures forall x :: 4 * rounds + 4 <= x < w.Length ==> w[x] == old(w[x])
  {
    hide RoundKey, EndsExchanged;
    ghost var was, p := w[..], 0;
    NoneExchanged(was, rounds);
    var i, j := 0, 4 * rounds;
    while i < j
      invariant i == 4 * p && j == 4 * (rounds - p)
      invariant EndsExchanged(w[..], was, rounds, p)
      invariant forall x :: 4 * rounds + 4 <= x < w.Length ==> w[x] == was[x]
    {
      ghost var before := w[..];
      SwapKeys(w, i, j, p, rounds - p);
      OneMoreExchanged(w[..], before, was, rounds, p);
      i, j := i + 4, j - 4;
      p := p + 1;
    }
    AllExchanged(w[..], was, rounds, p);
  }

  method UnmixInner(w: array<bv32>, rounds: nat)
    requires 0 < rounds && 4 * rounds + 4 <= w.Length
    modifies w
    ensures forall r :: 0 <= r <= rounds ==>
      RoundKey(w[..], r) == if r == 0 || r == rounds then RoundKey(old(w[..]), r)
        else InvMixColumns(RoundKey(old(w[..]), r))
    ensures w[4 * rounds + 4..] == old(w[4 * rounds + 4..])
  {
    hide RoundKey, InvMixColumns;
    ghost var was := w[..];
    var rk, i := 0, 1;
    while i < rounds
      invariant 1 <= i <= rounds && rk == 4 * (i - 1)
      invariant forall r :: 0 <= r <= rounds ==>
        RoundKey(w[..], r) == if 0 < r < i then InvMixColumns(RoundKey(was, r)) else RoundKey(was, r)
      invariant w[4 * rounds + 4..] == was[4 * rounds + 4..]
    {
      ghost var before := w[..];
      rk := rk + 4;
      UnmixKey(w, rk, i);
      assert w[4 * rounds + 4..] == w[rk + 4..][4 * (rounds - i)..];
      assert before[4 * rounds + 4..] == before[rk + 4..][4 * (rounds - i)..];
      i := i + 1;
    }
  }

  lemma SameRoundKeys(w: seq<bv32>, v: seq<bv32>, nr: nat)
    requires |w| == 4 * nr + 4 <= |v| && v[..4 * nr + 4] == w
    ensures forall r :: 0 <= r <= nr ==> RoundKey(w, r) == RoundKey(v, r)
  {
    assert forall j :: 0 <= j < 4 * nr + 4 ==> w[j] == v[..4 * nr + 4][j];
  }

  method SetDecryptKey(userKey: array?<bv8>, bits: int, key: AesKey?) returns (status: int)
    requires userKey != null && ValidBits(bits) ==> userKey.Length >= bits / 8
    requires key != null ==> key.rd_key.Length == 60
    modifies key, if key == null then {} else {key.rd_key}
    ensures status == if userKey == null || key == null then -1 else if !ValidBits(bits) then -2 else 0
    ensures status != 0 && key != null ==> key.rounds == old(key.rounds) && key.rd_key[..] == old(key.rd_key[..])
    ensures status == 0 ==> key.Ready() && key.rounds == RoundsFor(bits)
    ensures status == 0 ==> IsInverseSchedule(old(userKey[..bits / 8]), key.rd_key[..], key.rounds)
    ensures status == 0 ==> key.rd_key[4 * key.rounds + 4..] == old(key.rd_key[4 * RoundsFor(bits) + 4..])
  {
    hide RoundKey, KeyWord, InvMixColumns;
    status := SetEncryptKey(userKey, bits, key);
    if status < 0 { return; }
    ghost var enc := key.rd_key[..];
    SameRoundKeys(KeySchedule(old(userKey[..bits / 8])), enc, key.rounds);
    InvertOrder(key.rd_key, key.rounds);
    UnmixInner(key.rd_key, key.rounds);
  }
}

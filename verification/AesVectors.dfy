// The examples of FIPS 197 for the definitions of AesSpec: the key expansions of appendix A and the
// cipher example of appendix B.
module AesVectors {
  import opened AesField
  import opened AesTables
  import opened AesSpec
  import opened AesCore
  import opened AesKeys
  import opened AesApi

  // The g-th group of schedule words, as many as the key has.
  ghost predicate IsGroup(k: seq<bv32>, g: nat, ws: seq<bv32>)
    requires |k| > 0
  {
    |ws| == |k| && forall j :: 0 <= j < |k| ==> KeyWord(k, |k| * g + j) == ws[j]
  }

  // Word j of a group from the word before it and the one at its place in the group before.
  predicate Follows(was: seq<bv32>, now: seq<bv32>, p: bv8, j: nat)
    requires 0 < |was| == |now| && j < |now|
  {
    now[j] == PlusWord(was[j],
      if j == 0 then PlusWord(SubWord(RotWord(was[|was| - 1])), Word(p, 0, 0, 0))
      else if |was| == 8 && j == 4 then SubWord(now[3])
      else now[j - 1])
  }

  predicate GroupFollows(was: seq<bv32>, now: seq<bv32>, p: bv8) {
    0 < |was| == |now| && forall j :: 0 <= j < |now| ==> Follows(was, now, p, j)
  }

  lemma {:induction false} WordFollows(k: seq<bv32>, g: nat, was: seq<bv32>, now: seq<bv32>, j: nat)
    requires (|k| == 4 || |k| == 6 || |k| == 8) && IsGroup(k, g, was) && j < |k|
    requires |now| == |k| && GroupFollows(was, now, PowerOfX(g))
    ensures KeyWord(k, |k| * (g + 1) + j) == now[j]
    decreases j
  {
    hide SubWord, RotWord, Word, PlusWord, PowerOfX, KeyWord;
    assert Follows(was, now, PowerOfX(g), j);
    var at := |k| * (g + 1) + j;
    KeyWordIs(k, g, j, at);
    if j > 0 { WordFollows(k, g, was, now, j - 1); } else { assert at - 1 == |k| * g + (|k| - 1); }
    if j == 4 { WordFollows(k, g, was, now, 3); }
  }

  lemma Place(nk: nat, g: nat, j: nat, at: nat)
    requires (nk == 4 || nk == 6 || nk == 8) && j < nk && at == nk * (g + 1) + j
    ensures at % nk == j && at / nk == g + 1 && at - nk == nk * g + j
  {
    if nk == 4 {} else if nk == 6 {} else {}
  }

  lemma KeyWordIs(k: seq<bv32>, g: nat, j: nat, at: nat)
    requires (|k| == 4 || |k| == 6 || |k| == 8) && j < |k| && at == |k| * (g + 1) + j
    ensures KeyWord(k, at) == PlusWord(KeyWord(k, |k| * g + j),
      if j == 0 then PlusWord(SubWord(RotWord(KeyWord(k, at - 1))), Word(PowerOfX(g), 0, 0, 0))
      else if |k| == 8 && j == 4 then SubWord(KeyWord(k, at - 1))
      else KeyWord(k, at - 1))
  {
    hide SubWord, RotWord, Word, PlusWord, PowerOfX;
    Place(|k|, g, j, at);
  }

  lemma NextGroup(k: seq<bv32>, g: nat, was: seq<bv32>, p: bv8, now: seq<bv32>)
    requires (|k| == 4 || |k| == 6 || |k| == 8) && IsGroup(k, g, was) && p == PowerOfX(g)
    requires |now| == |k| && GroupFollows(was, now, p)
    ensures IsGroup(k, g + 1, now)
  {
    hide KeyWord, GroupFollows, PowerOfX;
    forall j | 0 <= j < |k| ensures KeyWord(k, |k| * (g + 1) + j) == now[j] { WordFollows(k, g, was, now, j); }
  }

  lemma FirstGroup(k: seq<bv32>)
    requires |k| > 0
    ensures IsGroup(k, 0, k)
  {}

  lemma Powers()
    ensures PowerOfX(0) == 0x01 && PowerOfX(1) == 0x02 && PowerOfX(2) == 0x04 && PowerOfX(3) == 0x08
    ensures PowerOfX(4) == 0x10 && PowerOfX(5) == 0x20 && PowerOfX(6) == 0x40 && PowerOfX(7) == 0x80
    ensures PowerOfX(8) == 0x1b && PowerOfX(9) == 0x36
  {
    assert PowerOfX(2) == Xtime(PowerOfX(1));
    assert PowerOfX(4) == Xtime(PowerOfX(3));
    assert PowerOfX(6) == Xtime(PowerOfX(5));
    assert PowerOfX(8) == Xtime(PowerOfX(7));
  }

  lemma GroupOf4(was: seq<bv32>, now: seq<bv32>, p: bv8)
    requires |was| == |now| == 4
    requires Follows(was, now, p, 0) && Follows(was, now, p, 1) && Follows(was, now, p, 2) && Follows(was, now, p, 3)
    ensures GroupFollows(was, now, p)
  {
    hide Follows;
  }

  lemma GroupOf6(was: seq<bv32>, now: seq<bv32>, p: bv8)
    requires |was| == |now| == 6
    requires Follows(was, now, p, 0) && Follows(was, now, p, 1) && Follows(was, now, p, 2) && Follows(was, now, p, 3)
    requires Follows(was, now, p, 4) && Follows(was, now, p, 5)
    ensures GroupFollows(was, now, p)
  {
    hide Follows;
  }

  lemma GroupOf8(was: seq<bv32>, now: seq<bv32>, p: bv8)
    requires |was| == |now| == 8
    requires Follows(was, now, p, 0) && Follows(was, now, p, 1) && Follows(was, now, p, 2) && Follows(was, now, p, 3)
    requires Follows(was, now, p, 4) && Follows(was, now, p, 5) && Follows(was, now, p, 6) && Follows(was, now, p, 7)
    ensures GroupFollows(was, now, p)
  {
    hide Follows;
  }

  // The words of appendix A.1, group by group.
  const KEY128_0: seq<bv32> := [0x2b7e_1516, 0x28ae_d2a6, 0xabf7_1588, 0x09cf_4f3c]
  const KEY128_1: seq<bv32> := [0xa0fa_fe17, 0x8854_2cb1, 0x23a3_3939, 0x2a6c_7605]
  const KEY128_2: seq<bv32> := [0xf2c2_95f2, 0x7a96_b943, 0x5935_807a, 0x7359_f67f]
  const KEY128_3: seq<bv32> := [0x3d80_477d, 0x4716_fe3e, 0x1e23_7e44, 0x6d7a_883b]
  const KEY128_4: seq<bv32> := [0xef44_a541, 0xa852_5b7f, 0xb671_253b, 0xdb0b_ad00]
  const KEY128_5: seq<bv32> := [0xd4d1_c6f8, 0x7c83_9d87, 0xcaf2_b8bc, 0x11f9_15bc]
  const KEY128_6: seq<bv32> := [0x6d88_a37a, 0x110b_3efd, 0xdbf9_8641, 0xca00_93fd]
  const KEY128_7: seq<bv32> := [0x4e54_f70e, 0x5f5f_c9f3, 0x84a6_4fb2, 0x4ea6_dc4f]
  const KEY128_8: seq<bv32> := [0xead2_7321, 0xb58d_bad2, 0x312b_f560, 0x7f8d_292f]
  const KEY128_9: seq<bv32> := [0xac77_66f3, 0x19fa_dc21, 0x28d1_2941, 0x575c_006e]
  const KEY128_10: seq<bv32> := [0xd014_f9a8, 0xc9ee_2589, 0xe13f_0cc8, 0xb663_0ca6]

  // The words of appendix A.2, group by group, as far as the second after the key.
  const KEY192_0: seq<bv32> := [0x8e73_b0f7, 0xda0e_6452, 0xc810_f32b, 0x8090_79e5, 0x62f8_ead2, 0x522c_6b7b]
  const KEY192_1: seq<bv32> := [0xfe0c_91f7, 0x2402_f5a5, 0xec12_068e, 0x6c82_7f6b, 0x0e7a_95b9, 0x5c56_fec2]
  const KEY192_2: seq<bv32> := [0x4db7_b4bd, 0x69b5_4118, 0x85a7_4796, 0xe925_38fd, 0xe75f_ad44, 0xbb09_5386]

  // The words of appendix A.3, group by group, as far as the second after the key.
  const KEY256_0: seq<bv32> := [0x603d_eb10, 0x15ca_71be, 0x2b73_aef0, 0x857d_7781, 0x1f35_2c07, 0x3b61_08d7,
    0x2d98_10a3, 0x0914_dff4]
  const KEY256_1: seq<bv32> := [0x9ba3_5411, 0x8e69_25af, 0xa51a_8b5f, 0x2067_fcde, 0xa8b0_9c1a, 0x93d1_94cd,
    0xbe49_846e, 0xb75d_5b9a]
  const KEY256_2: seq<bv32> := [0xd59a_ecb8, 0x5bf3_c917, 0xfee9_4248, 0xde8e_be96, 0xb5a9_328a, 0x2678_a647,
    0x9831_2229, 0x2f6c_79b3]

  lemma Groups128From0()
    ensures GroupFollows(KEY128_0, KEY128_1, 0x01)
    ensures GroupFollows(KEY128_1, KEY128_2, 0x02)
  {
    hide GroupFollows;
    GroupOf4(KEY128_0, KEY128_1, 0x01);
    GroupOf4(KEY128_1, KEY128_2, 0x02);
  }

  lemma Groups128From2()
    ensures GroupFollows(KEY128_2, KEY128_3, 0x04)
    ensures GroupFollows(KEY128_3, KEY128_4, 0x08)
  {
    hide GroupFollows;
    GroupOf4(KEY128_2, KEY128_3, 0x04);
    GroupOf4(KEY128_3, KEY128_4, 0x08);
  }

  lemma Groups128From4()
    ensures GroupFollows(KEY128_4, KEY128_5, 0x10)
    ensures GroupFollows(KEY128_5, KEY128_6, 0x20)
  {
    hide GroupFollows;
    GroupOf4(KEY128_4, KEY128_5, 0x10);
    GroupOf4(KEY128_5, KEY128_6, 0x20);
  }

  lemma Groups128From6()
    ensures GroupFollows(KEY128_6, KEY128_7, 0x40)
    ensures GroupFollows(KEY128_7, KEY128_8, 0x80)
  {
    hide GroupFollows;
    GroupOf4(KEY128_6, KEY128_7, 0x40);
    GroupOf4(KEY128_7, KEY128_8, 0x80);
  }

  lemma Groups128From8()
    ensures GroupFollows(KEY128_8, KEY128_9, 0x1b)
    ensures GroupFollows(KEY128_9, KEY128_10, 0x36)
  {
    hide GroupFollows;
    GroupOf4(KEY128_8, KEY128_9, 0x1b);
    GroupOf4(KEY128_9, KEY128_10, 0x36);
  }

  lemma Expansion128()
    ensures IsGroup(KEY128_0, 0, KEY128_0)
    ensures IsGroup(KEY128_0, 1, KEY128_1)
    ensures IsGroup(KEY128_0, 2, KEY128_2)
    ensures IsGroup(KEY128_0, 3, KEY128_3)
    ensures IsGroup(KEY128_0, 4, KEY128_4)
    ensures IsGroup(KEY128_0, 5, KEY128_5)
    ensures IsGroup(KEY128_0, 6, KEY128_6)
    ensures IsGroup(KEY128_0, 7, KEY128_7)
    ensures IsGroup(KEY128_0, 8, KEY128_8)
    ensures IsGroup(KEY128_0, 9, KEY128_9)
    ensures IsGroup(KEY128_0, 10, KEY128_10)
  {
    hide IsGroup, GroupFollows, PowerOfX;
    Powers();
    Groups128From0();
    Groups128From2();
    Groups128From4();
    Groups128From6();
    Groups128From8();
    FirstGroup(KEY128_0);
    NextGroup(KEY128_0, 0, KEY128_0, 0x01, KEY128_1);
    NextGroup(KEY128_0, 1, KEY128_1, 0x02, KEY128_2);
    NextGroup(KEY128_0, 2, KEY128_2, 0x04, KEY128_3);
    NextGroup(KEY128_0, 3, KEY128_3, 0x08, KEY128_4);
    NextGroup(KEY128_0, 4, KEY128_4, 0x10, KEY128_5);
    NextGroup(KEY128_0, 5, KEY128_5, 0x20, KEY128_6);
    NextGroup(KEY128_0, 6, KEY128_6, 0x40, KEY128_7);
    NextGroup(KEY128_0, 7, KEY128_7, 0x80, KEY128_8);
    NextGroup(KEY128_0, 8, KEY128_8, 0x1b, KEY128_9);
    NextGroup(KEY128_0, 9, KEY128_9, 0x36, KEY128_10);
  }

  lemma Expansion192()
    ensures IsGroup(KEY192_0, 1, KEY192_1) && IsGroup(KEY192_0, 2, KEY192_2)
  {
    hide IsGroup, GroupFollows, PowerOfX;
    Powers();
    GroupOf6(KEY192_0, KEY192_1, 0x01);
    GroupOf6(KEY192_1, KEY192_2, 0x02);
    FirstGroup(KEY192_0);
    NextGroup(KEY192_0, 0, KEY192_0, 0x01, KEY192_1);
    NextGroup(KEY192_0, 1, KEY192_1, 0x02, KEY192_2);
  }

  lemma Expansion256()
    ensures IsGroup(KEY256_0, 1, KEY256_1) && IsGroup(KEY256_0, 2, KEY256_2)
  {
    hide IsGroup, GroupFollows, PowerOfX;
    Powers();
    GroupOf8(KEY256_0, KEY256_1, 0x01);
    GroupOf8(KEY256_1, KEY256_2, 0x02);
    FirstGroup(KEY256_0);
    NextGroup(KEY256_0, 0, KEY256_0, 0x01, KEY256_1);
    NextGroup(KEY256_0, 1, KEY256_1, 0x02, KEY256_2);
  }

  // ---- appendix B ------------------------------------------------------------------------

  const INPUT: State := State(0x3243_f6a8, 0x885a_308d, 0x3131_98a2, 0xe037_0734)
  const OUTPUT: State := State(0x3925_841d, 0x02dc_09fb, 0xdc11_8597, 0x196a_0b32)

  // The states at the start of each round, after SubBytes and before the round key is added.
  const START1: State := State(0x193d_e3be, 0xa0f4_e22b, 0x9ac6_8d2a, 0xe9f8_4808)
  const START2: State := State(0xa49c_7ff2, 0x689f_352b, 0x6b5b_ea43, 0x026a_5049)
  const START3: State := State(0xaa8f_5f03, 0x61dd_e3ef, 0x82d2_4ad2, 0x6832_469a)
  const START4: State := State(0x486c_4eee, 0x671d_9d0d, 0x4de3_b138, 0xd65f_58e7)
  const START5: State := State(0xe092_7fe8, 0xc863_63c0, 0xd9b1_3550, 0x85b8_be01)
  const START6: State := State(0xf100_6f55, 0xc192_4cef, 0x7cc8_8b32, 0x5db5_d50c)
  const START7: State := State(0x260e_2e17, 0x3d41_b77d, 0xe864_72a9, 0xfdd2_8b25)
  const START8: State := State(0x5a41_42b1, 0x1949_dc1f, 0xa3e0_1965, 0x7a8c_040c)
  const START9: State := State(0xea83_5cf0, 0x0445_332d, 0x655d_98ad, 0x8596_b0c5)
  const START10: State := State(0xeb40_f21e, 0x592e_3884, 0x8ba1_13e7, 0x1bc3_42d2)
  const SUBBED1: State := State(0xd427_11ae, 0xe0bf_98f1, 0xb8b4_5de5, 0x1e41_5230)
  const SUBBED2: State := State(0x49de_d289, 0x45db_96f1, 0x7f39_871a, 0x7702_533b)
  const SUBBED3: State := State(0xac73_cf7b, 0xefc1_11df, 0x13b5_d6b5, 0x4523_5ab8)
  const SUBBED4: State := State(0x5250_2f28, 0x85a4_5ed7, 0xe311_c807, 0xf6cf_6a94)
  const SUBBED5: State := State(0xe14f_d29b, 0xe8fb_fbba, 0x35c8_9653, 0x976c_ae7c)
  const SUBBED6: State := State(0xa163_a8fc, 0x784f_29df, 0x10e8_3d23, 0x4cd5_03fe)
  const SUBBED7: State := State(0xf7ab_31f0, 0x2783_a9ff, 0x9b43_40d3, 0x54b5_3d3f)
  const SUBBED8: State := State(0xbe83_2cc8, 0xd43b_86c0, 0x0ae1_d44d, 0xda64_f2fe)
  const SUBBED9: State := State(0x87ec_4a8c, 0xf26e_c3d8, 0x4d4c_4695, 0x9790_e7a6)
  const SUBBED10: State := State(0xe909_8972, 0xcb31_075f, 0x3d32_7d94, 0xaf2e_2cb5)
  const MIXED1: State := State(0x0466_81e5, 0xe0cb_199a, 0x48f8_d37a, 0x2806_264c)
  const MIXED2: State := State(0x584d_caf1, 0x1b4b_5aac, 0xdbe7_caa8, 0x1b6b_b0e5)
  const MIXED3: State := State(0x75ec_0993, 0x200b_6333, 0x53c0_cf7c, 0xbb25_d0dc)
  const MIXED4: State := State(0x0fd6_daa9, 0x6031_38bf, 0x6fc0_106b, 0x5eb3_1301)
  const MIXED5: State := State(0x25d1_a9ad, 0xbd11_d168, 0xb63a_338e, 0x4c4c_c0b0)
  const MIXED6: State := State(0x4b86_8d6d, 0x2c4a_8980, 0x339d_f4e8, 0x37d2_18d8)
  const MIXED7: State := State(0x1415_b5bf, 0x4616_15ec, 0x2746_56d7, 0x342a_d843)
  const MIXED8: State := State(0x0051_2fd1, 0xb1c8_89ff, 0x5476_6dcd, 0xfa1b_99ea)
  const MIXED9: State := State(0x4737_94ed, 0x40d4_e4a5, 0xa370_3aa6, 0x4c9f_42bc)
  const MIXED10: State := State(0xe931_7db5, 0xcb32_2c72, 0x3d2e_895f, 0xaf09_0794)

  lemma Sub1Left()
    ensures SubWord(START1.c0) == SUBBED1.c0 && SubWord(START1.c1) == SUBBED1.c1
  {}

  lemma Sub1Right()
    ensures SubWord(START1.c2) == SUBBED1.c2 && SubWord(START1.c3) == SUBBED1.c3
  {}

  lemma Sub2Left()
    ensures SubWord(START2.c0) == SUBBED2.c0 && SubWord(START2.c1) == SUBBED2.c1
  {}

  lemma Sub2Right()
    ensures SubWord(START2.c2) == SUBBED2.c2 && SubWord(START2.c3) == SUBBED2.c3
  {}

  lemma Sub3Left()
    ensures SubWord(START3.c0) == SUBBED3.c0 && SubWord(START3.c1) == SUBBED3.c1
  {}

  lemma Sub3Right()
    ensures SubWord(START3.c2) == SUBBED3.c2 && SubWord(START3.c3) == SUBBED3.c3
  {}

  lemma Sub4Left()
    ensures SubWord(START4.c0) == SUBBED4.c0 && SubWord(START4.c1) == SUBBED4.c1
  {}

  lemma Sub4Right()
    ensures SubWord(START4.c2) == SUBBED4.c2 && SubWord(START4.c3) == SUBBED4.c3
  {}

  lemma Sub5Left()
    ensures SubWord(START5.c0) == SUBBED5.c0 && SubWord(START5.c1) == SUBBED5.c1
  {}

  lemma Sub5Right()
    ensures SubWord(START5.c2) == SUBBED5.c2 && SubWord(START5.c3) == SUBBED5.c3
  {}

  lemma Sub6Left()
    ensures SubWord(START6.c0) == SUBBED6.c0 && SubWord(START6.c1) == SUBBED6.c1
  {}

  lemma Sub6Right()
    ensures SubWord(START6.c2) == SUBBED6.c2 && SubWord(START6.c3) == SUBBED6.c3
  {}

  lemma Sub7Left()
    ensures SubWord(START7.c0) == SUBBED7.c0 && SubWord(START7.c1) == SUBBED7.c1
  {}

  lemma Sub7Right()
    ensures SubWord(START7.c2) == SUBBED7.c2 && SubWord(START7.c3) == SUBBED7.c3
  {}

  lemma Sub8Left()
    ensures SubWord(START8.c0) == SUBBED8.c0 && SubWord(START8.c1) == SUBBED8.c1
  {}

  lemma Sub8Right()
    ensures SubWord(START8.c2) == SUBBED8.c2 && SubWord(START8.c3) == SUBBED8.c3
  {}

  lemma Sub9Left()
    ensures SubWord(START9.c0) == SUBBED9.c0 && SubWord(START9.c1) == SUBBED9.c1
  {}

  lemma Sub9Right()
    ensures SubWord(START9.c2) == SUBBED9.c2 && SubWord(START9.c3) == SUBBED9.c3
  {}

  lemma Sub10Left()
    ensures SubWord(START10.c0) == SUBBED10.c0 && SubWord(START10.c1) == SUBBED10.c1
  {}

  lemma Sub10Right()
    ensures SubWord(START10.c2) == SUBBED10.c2 && SubWord(START10.c3) == SUBBED10.c3
  {}

  lemma MixFrom1()
    ensures MixColumns(ShiftRows(SUBBED1)) == MIXED1
    ensures MixColumns(ShiftRows(SUBBED2)) == MIXED2
    ensures MixColumns(ShiftRows(SUBBED3)) == MIXED3
  {}

  lemma MixFrom4()
    ensures MixColumns(ShiftRows(SUBBED4)) == MIXED4
    ensures MixColumns(ShiftRows(SUBBED5)) == MIXED5
    ensures MixColumns(ShiftRows(SUBBED6)) == MIXED6
  {}

  lemma MixFrom7()
    ensures MixColumns(ShiftRows(SUBBED7)) == MIXED7
    ensures MixColumns(ShiftRows(SUBBED8)) == MIXED8
    ensures MixColumns(ShiftRows(SUBBED9)) == MIXED9
  {}

  lemma Shift10()
    ensures ShiftRows(SUBBED10) == MIXED10
  {}

  function KeyState(ws: seq<bv32>): State
    requires |ws| == 4
  {
    State(ws[0], ws[1], ws[2], ws[3])
  }

  lemma KeyFirst()
    ensures AddRoundKey(INPUT, KeyState(KEY128_0)) == START1
  {}

  lemma KeyFrom1()
    ensures AddRoundKey(MIXED1, KeyState(KEY128_1)) == START2
    ensures AddRoundKey(MIXED2, KeyState(KEY128_2)) == START3
    ensures AddRoundKey(MIXED3, KeyState(KEY128_3)) == START4
    ensures AddRoundKey(MIXED4, KeyState(KEY128_4)) == START5
    ensures AddRoundKey(MIXED5, KeyState(KEY128_5)) == START6
  {}

  lemma KeyFrom6()
    ensures AddRoundKey(MIXED6, KeyState(KEY128_6)) == START7
    ensures AddRoundKey(MIXED7, KeyState(KEY128_7)) == START8
    ensures AddRoundKey(MIXED8, KeyState(KEY128_8)) == START9
    ensures AddRoundKey(MIXED9, KeyState(KEY128_9)) == START10
    ensures AddRoundKey(MIXED10, KeyState(KEY128_10)) == OUTPUT
  {}

  lemma KeyOf(w: seq<bv32>, r: nat, ws: seq<bv32>)
    requires |w| == 44 && r <= 10 && forall i :: 0 <= i < 44 ==> w[i] == KeyWord(KEY128_0, i)
    requires IsGroup(KEY128_0, r, ws)
    ensures |ws| == 4 && RoundKey(w, r) == KeyState(ws)
  {
    hide KeyWord;
    assert KeyWord(KEY128_0, 4 * r) == ws[0] by { assert 4 * r + 0 == 4 * r; }
  }

  lemma OneRound(w: seq<bv32>, r: nat, s: State, a: State, b: State, c: State, ws: seq<bv32>, d: State)
    requires |w| == 44 && 0 < r <= 10 && forall i :: 0 <= i < 44 ==> w[i] == KeyWord(KEY128_0, i)
    requires Rounds(w, r - 1, s) == a && SubWord(a.c0) == b.c0 && SubWord(a.c1) == b.c1
    requires SubWord(a.c2) == b.c2 && SubWord(a.c3) == b.c3
    requires (if r < 10 then MixColumns(ShiftRows(b)) else ShiftRows(b)) == c
    requires IsGroup(KEY128_0, r, ws) && |ws| == 4 && AddRoundKey(c, KeyState(ws)) == d
    ensures (if r < 10 then Rounds(w, r, s) else Cipher(w, 10, s)) == d
  {
    hide KeyWord, SubWord, ShiftRows, MixColumns, AddRoundKey, RoundKey, KeyState, IsGroup;
    KeyOf(w, r, ws);
  }

  lemma CipherExample(w: seq<bv32>)
    requires |w| == 44 && forall i :: 0 <= i < 44 ==> w[i] == KeyWord(KEY128_0, i)
    ensures Cipher(w, 10, INPUT) == OUTPUT
  {
    hide KeyWord, SubWord, ShiftRows, MixColumns, AddRoundKey, RoundKey, KeyState, IsGroup, Cipher, Rounds;
    Expansion128();
    FirstRound(w);
    Sub1Left(); Sub1Right(); MixFrom1(); KeyFrom1();
    OneRound(w, 1, INPUT, START1, SUBBED1, MIXED1, KEY128_1, START2);
    Sub2Left(); Sub2Right();
    OneRound(w, 2, INPUT, START2, SUBBED2, MIXED2, KEY128_2, START3);
    Sub3Left(); Sub3Right();
    OneRound(w, 3, INPUT, START3, SUBBED3, MIXED3, KEY128_3, START4);
    Sub4Left(); Sub4Right(); MixFrom4();
    OneRound(w, 4, INPUT, START4, SUBBED4, MIXED4, KEY128_4, START5);
    Sub5Left(); Sub5Right();
    OneRound(w, 5, INPUT, START5, SUBBED5, MIXED5, KEY128_5, START6);
    Sub6Left(); Sub6Right(); KeyFrom6();
    OneRound(w, 6, INPUT, START6, SUBBED6, MIXED6, KEY128_6, START7);
    Sub7Left(); Sub7Right(); MixFrom7();
    OneRound(w, 7, INPUT, START7, SUBBED7, MIXED7, KEY128_7, START8);
    Sub8Left(); Sub8Right();
    OneRound(w, 8, INPUT, START8, SUBBED8, MIXED8, KEY128_8, START9);
    Sub9Left(); Sub9Right();
    OneRound(w, 9, INPUT, START9, SUBBED9, MIXED9, KEY128_9, START10);
    Sub10Left(); Sub10Right(); Shift10();
    OneRound(w, 10, INPUT, START10, SUBBED10, MIXED10, KEY128_10, OUTPUT);
  }

  lemma FirstRound(w: seq<bv32>)
    requires |w| == 44 && (forall i :: 0 <= i < 44 ==> w[i] == KeyWord(KEY128_0, i)) && IsGroup(KEY128_0, 0, KEY128_0)
    ensures Rounds(w, 0, INPUT) == START1
  {
    hide KeyWord, AddRoundKey, RoundKey, KeyState, IsGroup;
    KeyOf(w, 0, KEY128_0);
    KeyFirst();
  }

  // ---- bytes -----------------------------------------------------------------------------

  const KEY_BYTES: seq<bv8> := [0x2b, 0x7e, 0x15, 0x16, 0x28, 0xae, 0xd2, 0xa6, 0xab, 0xf7, 0x15, 0x88, 0x09,
    0xcf, 0x4f, 0x3c]
  const PLAIN_BYTES: seq<bv8> := [0x32, 0x43, 0xf6, 0xa8, 0x88, 0x5a, 0x30, 0x8d, 0x31, 0x31, 0x98, 0xa2, 0xe0,
    0x37, 0x07, 0x34]
  const CIPHER_BYTES: seq<bv8> := [0x39, 0x25, 0x84, 0x1d, 0x02, 0xdc, 0x09, 0xfb, 0xdc, 0x11, 0x85, 0x97, 0x19,
    0x6a, 0x0b, 0x32]

  lemma BytesOfExample()
    ensures KeyWords(KEY_BYTES) == KEY128_0 && BlockState(PLAIN_BYTES) == INPUT && StateBlock(OUTPUT) == CIPHER_BYTES
  {
    assert KeyWords(KEY_BYTES)[0] == KEY128_0[0] && KeyWords(KEY_BYTES)[1] == KEY128_0[1];
    assert KeyWords(KEY_BYTES)[2] == KEY128_0[2] && KeyWords(KEY_BYTES)[3] == KEY128_0[3];
  }

  // The example of appendix B, byte by byte, under the schedule of appendix A.1.
  lemma KnownAnswer()
    ensures KeyEncipher(KEY_BYTES)(PLAIN_BYTES) == CIPHER_BYTES
  {
    hide Cipher, KeyWord, StateBlock, BlockState, KeyWords;
    BytesOfExample();
    CipherExample(KeySchedule(KEY_BYTES));
  }

  // Nr is Nk and six, for every key length.
  lemma RoundsAndWords(bits: int)
    requires ValidBits(bits)
    ensures RoundsFor(bits) == bits / 32 + 6
  {}
}

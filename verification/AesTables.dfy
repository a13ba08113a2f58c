// The lookup tables of the cipher.  The two byte substitutions are held as sixteen
// rows of sixteen bytes, row h holding the entries for the bytes 0xh0 .. 0xhf; the
// column tables Te0 .. Te3 and Td0 .. Td3 are given by their generating identities.
module AesTables {
  import opened AesField
  import opened ByteTable

  // The forward substitution (any byte of Te4).
  function SRow(h: bv8): bv128 {
    if h == 0x0 then 0x637c777b_f26b6fc5_3001672b_fed7ab76
    else if h == 0x1 then 0xca82c97d_fa5947f0_add4a2af_9ca472c0
    else if h == 0x2 then 0xb7fd9326_363ff7cc_34a5e5f1_71d83115
    else if h == 0x3 then 0x04c723c3_1896059a_071280e2_eb27b275
    else if h == 0x4 then 0x09832c1a_1b6e5aa0_523bd6b3_29e32f84
    else if h == 0x5 then 0x53d100ed_20fcb15b_6acbbe39_4a4c58cf
    else if h == 0x6 then 0xd0efaafb_434d3385_45f9027f_503c9fa8
    else if h == 0x7 then 0x51a3408f_929d38f5_bcb6da21_10fff3d2
    else if h == 0x8 then 0xcd0c13ec_5f974417_c4a77e3d_645d1973
    else if h == 0x9 then 0x60814fdc_222a9088_46eeb814_de5e0bdb
    else if h == 0xa then 0xe0323a0a_4906245c_c2d3ac62_9195e479
    else if h == 0xb then 0xe7c8376d_8dd54ea9_6c56f4ea_657aae08
    else if h == 0xc then 0xba78252e_1ca6b4c6_e8dd741f_4bbd8b8a
    else if h == 0xd then 0x703eb566_4803f60e_613557b9_86c11d9e
    else if h == 0xe then 0xe1f89811_69d98e94_9b1e87e9_ce5528df
    else 0x8ca1890d_bfe64268_41992d0f_b054bb16
  }

  function S(x: bv8): bv8 {
    Entry(SRow(x >> 4), x)
  }

  // The inverse substitution (any byte of Td4).
  function SiRow(h: bv8): bv128 {
    if h == 0x0 then 0x52096ad5_3036a538_bf40a39e_81f3d7fb
    else if h == 0x1 then 0x7ce33982_9b2fff87_348e4344_c4dee9cb
    else if h == 0x2 then 0x547b9432_a6c2233d_ee4c950b_42fac34e
    else if h == 0x3 then 0x082ea166_28d924b2_765ba249_6d8bd125
    else if h == 0x4 then 0x72f8f664_86689816_d4a45ccc_5d65b692
    else if h == 0x5 then 0x6c704850_fdedb9da_5e154657_a78d9d84
    else if h == 0x6 then 0x90d8ab00_8cbcd30a_f7e45805_b8b34506
    else if h == 0x7 then 0xd02c1e8f_ca3f0f02_c1afbd03_01138a6b
    else if h == 0x8 then 0x3a911141_4f67dcea_97f2cfce_f0b4e673
    else if h == 0x9 then 0x96ac7422_e7ad3585_e2f937e8_1c75df6e
    else if h == 0xa then 0x47f11a71_1d29c589_6fb7620e_aa18be1b
    else if h == 0xb then 0xfc563e4b_c6d27920_9adbc0fe_78cd5af4
    else if h == 0xc then 0x1fdda833_8807c731_b1121059_2780ec5f
    else if h == 0xd then 0x60517fa9_19b54a0d_2de57a9f_93c99cef
    else if h == 0xe then 0xa0e03b4d_ae2af5b0_c8ebbb3c_83539961
    else 0x172b047e_ba77d626_e1691463_55210c7d
  }

  function Si(x: bv8): bv8 {
    Entry(SiRow(x >> 4), x)
  }

  function Te0(x: bv8): bv32 { Word(Xtime(S(x)), S(x), S(x), By3(S(x))) }
  function Te1(x: bv8): bv32 { Word(By3(S(x)), Xtime(S(x)), S(x), S(x)) }
  function Te2(x: bv8): bv32 { Word(S(x), By3(S(x)), Xtime(S(x)), S(x)) }
  function Te3(x: bv8): bv32 { Word(S(x), S(x), By3(S(x)), Xtime(S(x))) }
  function Te4(x: bv8): bv32 { Word(S(x), S(x), S(x), S(x)) }

  function Td0(x: bv8): bv32 { Word(ByE(Si(x)), By9(Si(x)), ByD(Si(x)), ByB(Si(x))) }
  function Td1(x: bv8): bv32 { Word(ByB(Si(x)), ByE(Si(x)), By9(Si(x)), ByD(Si(x))) }
  function Td2(x: bv8): bv32 { Word(ByD(Si(x)), ByB(Si(x)), ByE(Si(x)), By9(Si(x))) }
  function Td3(x: bv8): bv32 { Word(By9(Si(x)), ByD(Si(x)), ByB(Si(x)), ByE(Si(x))) }
  function Td4(x: bv8): bv32 { Word(Si(x), Si(x), Si(x), Si(x)) }

  lemma SiUndoesSLow(x: bv8)
    requires x < 0x80
    ensures Si(S(x)) == x
  {}

  lemma SiUndoesSHigh(x: bv8)
    requires x >= 0x80
    ensures Si(S(x)) == x
  {}

  lemma SiUndoesS(x: bv8)
    ensures Si(S(x)) == x
  {
    hide S, Si;
    if x < 0x80 { SiUndoesSLow(x); } else { SiUndoesSHigh(x); }
  }

  // Section 5.1.1 of FIPS 197: the substitution is the multiplicative inverse in
  // GF(2^8) followed by an affine map.
  function Times(b: bv8, x: bv8): bv8 {
    (if b & 0x01 != 0 then x else 0) ^ (if b & 0x02 != 0 then Xtime(x) else 0) ^
    (if b & 0x04 != 0 then X4(x) else 0) ^ (if b & 0x08 != 0 then X8(x) else 0) ^
    (if b & 0x10 != 0 then X4(X4(x)) else 0) ^ (if b & 0x20 != 0 then X4(X8(x)) else 0) ^
    (if b & 0x40 != 0 then X8(X8(x)) else 0) ^ (if b & 0x80 != 0 then Xtime(X8(X8(x))) else 0)
  }

  function Rotate(x: bv8, n: nat): bv8
    requires n <= 8
  {
    (x << n) | (x >> (8 - n))
  }

  function Affine(x: bv8): bv8 {
    x ^ Rotate(x, 1) ^ Rotate(x, 2) ^ Rotate(x, 3) ^ Rotate(x, 4) ^ 0x63
  }

  function InvAffine(x: bv8): bv8 { Rotate(x, 1) ^ Rotate(x, 3) ^ Rotate(x, 6) ^ 0x05 }

  lemma AffineInverse(x: bv8)
    ensures Affine(InvAffine(x)) == x
  {}

  lemma FieldInverseLow(x: bv8)
    requires 0 < x < 0x80
    ensures Times(InvAffine(S(x)), x) == 1
  {}

  lemma FieldInverseHigh(x: bv8)
    requires x >= 0x80
    ensures Times(InvAffine(S(x)), x) == 1
  {}

  lemma SIsAffineOfInverse(x: bv8)
    ensures S(x) == Affine(InvAffine(S(x)))
    ensures x != 0 ==> Times(InvAffine(S(x)), x) == 1
    ensures S(0) == Affine(0)
  {
    assert S(0) == Affine(0);
    hide S, Times, Affine, InvAffine;
    AffineInverse(S(x));
    if 0 < x < 0x80 { FieldInverseLow(x); } else if x >= 0x80 { FieldInverseHigh(x); }
  }
}

// CRC-32 on words and bytes as the program holds them: its loops over single bits, and the form
// section 8 of RFC 1952 gives it.
module Crc32Words {
  import opened Crc32
  import opened WordBits

  // ---- section 8 of RFC 1952 -------------------------------------------------------------

  const POLYNOMIAL: bv32 := 0xedb88320

  function ShiftWord(r: bv32): bv32 { if r & 1 == 1 then (r >> 1) ^ POLYNOMIAL else r >> 1 }

  function ShiftsWord(r: bv32, n: nat): bv32 { if n == 0 then r else ShiftWord(ShiftsWord(r, n - 1)) }

  function Wide(b: bv8): bv32 { b as bv32 }

  function StepWord(r: bv32, b: bv8): bv32 { ShiftsWord(r ^ Wide(b), 8) }

  function RegisterWord(data: seq<bv8>): bv32 {
    if data == [] then 0xffffffff else StepWord(RegisterWord(data[..|data| - 1]), data[|data| - 1])
  }

  function Complemented(r: bv32): bv32 { r ^ 0xffffffff }

  function CrcWord(data: seq<bv8>): bv32 { Complemented(RegisterWord(data)) }

  // ---- single bits -----------------------------------------------------------------------

  function Mask(j: nat): bv32
    requires j < 32
  {
    if j == 0 then 0x1
    else if j == 1 then 0x2
    else if j == 2 then 0x4
    else if j == 3 then 0x8
    else if j == 4 then 0x10
    else if j == 5 then 0x20
    else if j == 6 then 0x40
    else if j == 7 then 0x80
    else if j == 8 then 0x100
    else if j == 9 then 0x200
    else if j == 10 then 0x400
    else if j == 11 then 0x800
    else if j == 12 then 0x1000
    else if j == 13 then 0x2000
    else if j == 14 then 0x4000
    else if j == 15 then 0x8000
    else if j == 16 then 0x10000
    else if j == 17 then 0x20000
    else if j == 18 then 0x40000
    else if j == 19 then 0x80000
    else if j == 20 then 0x100000
    else if j == 21 then 0x200000
    else if j == 22 then 0x400000
    else if j == 23 then 0x800000
    else if j == 24 then 0x1000000
    else if j == 25 then 0x2000000
    else if j == 26 then 0x4000000
    else if j == 27 then 0x8000000
    else if j == 28 then 0x10000000
    else if j == 29 then 0x20000000
    else if j == 30 then 0x40000000
    else 0x80000000
  }

  function Bit(w: bv32, j: nat): (b: int)
    requires j < 32
    ensures b == 0 || b == 1
  {
    if Meets(w, Mask(j)) then 1 else 0
  }

  function Bits(w: bv32): (c: Word)
    ensures forall j :: 0 <= j < 32 ==> c[j] == Bit(w, j)
  {
    hide Bit;
    seq(32, j requires 0 <= j < 32 => Bit(w, j))
  }

  function OctetOf(b: bv8): (d: Octet)
    ensures forall j :: 0 <= j < 8 ==> d[j] == Bit(Wide(b), j)
  {
    hide Bit, Wide;
    var w := Wide(b);
    seq(8, j requires 0 <= j < 8 => Bit(w, j))
  }

  lemma XorBit(a: bv32, b: bv32, j: nat)
    requires j < 32
    ensures Bit(Xor(a, b), j) == Odd(Bit(a, j) + Bit(b, j))
  {
    hide Mask, Meets, Xor, Picks;
    MaskPicks(a, j);
    MaskPicks(b, j);
    MeetsXor(a, b, Mask(j));
  }

  lemma MaskPicksLow(w: bv32, j: nat)
    requires j < 16
    ensures Picks(w, Mask(j))
  {}

  lemma MaskPicksHigh(w: bv32, j: nat)
    requires 16 <= j < 32
    ensures Picks(w, Mask(j))
  {}

  lemma MaskPicks(w: bv32, j: nat)
    requires j < 32
    ensures Picks(w, Mask(j))
  {
    hide Mask, Picks;
    if j < 16 { MaskPicksLow(w, j); } else { MaskPicksHigh(w, j); }
  }

  lemma MaskNext0(j: nat)
    requires 0 <= j < 8
    ensures Next(Mask(j), Mask(j + 1))
  {}

  lemma MaskNext1(j: nat)
    requires 8 <= j < 16
    ensures Next(Mask(j), Mask(j + 1))
  {}

  lemma MaskNext2(j: nat)
    requires 16 <= j < 24
    ensures Next(Mask(j), Mask(j + 1))
  {}

  lemma MaskNext3(j: nat)
    requires 24 <= j < 31
    ensures Next(Mask(j), Mask(j + 1))
  {}

  lemma MaskNext(j: nat)
    requires j < 31
    ensures Next(Mask(j), Mask(j + 1))
  {
    hide Mask, Next;
    if j < 8 { MaskNext0(j); } else if j < 16 { MaskNext1(j); } else if j < 24 { MaskNext2(j); } else { MaskNext3(j); }
  }

  lemma ShiftedLow(w: bv32, j: nat)
    requires j < 31
    ensures Bit(w >> 1, j) == Bit(w, j + 1)
  {
    hide Mask, Meets, Next;
    MaskNext(j);
    MeetsShifted(w, Mask(j), Mask(j + 1));
  }

  lemma ShiftedBit(w: bv32, j: nat)
    requires j < 32
    ensures Bit(w >> 1, j) == if j < 31 then Bit(w, j + 1) else 0
  {
    if j < 31 { ShiftedLow(w, j); }
  }

  lemma PolynomialBit(j: nat)
    requires j < 32
    ensures Bit(POLYNOMIAL, j) == Generator(31 - j)
  {}

  lemma HighBit(b: bv8, j: nat)
    requires 8 <= j < 32
    ensures Bit(Wide(b), j) == 0
  {}

  // ---- the bits of the register ----------------------------------------------------------

  lemma LowBit(w: bv32)
    ensures Bit(w, 0) == 1 <==> w & 1 == 1
  {}

  lemma ShiftBits(r: bv32)
    ensures Bits(ShiftWord(r)) == Shift(Bits(r))
  {
    hide Bit, Generator, Shift, Odd;
    LowBit(r);
    forall j | 0 <= j < 32 ensures Bits(ShiftWord(r))[j] == Shift(Bits(r))[j] {
      OneShift(Bits(r), j);
      ShiftedBit(r, j);
      XorBit(r >> 1, POLYNOMIAL, j);
      PolynomialBit(j);
      OddBit(Bit(r >> 1, j));
      assert If(Generator(31 - j), Bit(r, 0)) == if Bit(r, 0) == 1 then Generator(31 - j) else 0;
    }
  }

  lemma {:induction false} ShiftsBits(r: bv32, n: nat)
    ensures Bits(ShiftsWord(r, n)) == Shifts(Bits(r), n)
  {
    hide Shift, ShiftWord, Bits;
    if n > 0 {
      ShiftsBits(r, n - 1);
      ShiftBits(ShiftsWord(r, n - 1));
    }
  }

  lemma FeedBits(r: bv32, b: bv8)
    ensures Bits(r ^ Wide(b)) == Feed(Bits(r), OctetOf(b))
  {
    hide Bit, Odd, Wide;
    forall j | 0 <= j < 32 ensures Bits(r ^ Wide(b))[j] == Feed(Bits(r), OctetOf(b))[j] {
      XorBit(r, Wide(b), j);
      if j >= 8 { HighBit(b, j); OddBit(Bit(r, j)); }
    }
  }

  lemma StepBits(r: bv32, b: bv8)
    ensures Bits(StepWord(r, b)) == Serial(Bits(r), OctetOf(b))
  {
    hide Shifts, ShiftsWord, Feed, Bits, OctetOf, Wide;
    FeedBits(r, b);
    ShiftsBits(r ^ Wide(b), 8);
  }

  lemma AllBitsOf(j: nat)
    requires j < 32
    ensures Bit(0xffffffff, j) == 1 && Bit(0, j) == 0
  {}

  lemma ComplementBits(w: bv32)
    ensures Bits(Complemented(w)) == Complement(Bits(w))
  {
    hide Bit, Odd;
    forall j | 0 <= j < 32 ensures Bits(Complemented(w))[j] == Complement(Bits(w))[j] {
      XorBit(w, 0xffffffff, j);
      AllBitsOf(j);
      OddFlip(Bit(w, j));
    }
  }

  lemma OddFlip(b: int)
    requires b == 0 || b == 1
    ensures Odd(b + 1) == 1 - b
  {}

  function Octets(data: seq<bv8>): (s: seq<Octet>)
    ensures |s| == |data|
  {
    if data == [] then [] else Octets(data[..|data| - 1]) + [OctetOf(data[|data| - 1])]
  }

  // The register on words is the register on bits.
  lemma {:induction false} RegisterBits(data: seq<bv8>)
    ensures Bits(RegisterWord(data)) == Register(Octets(data))
  {
    hide StepWord, Serial, Bit, OctetOf;
    if data == [] {
      forall j | 0 <= j < 32 ensures Bits(0xffffffff)[j] == Ones()[j] { AllBitsOf(j); }
    } else {
      var n := |data| - 1;
      RegisterBits(data[..n]);
      StepBits(RegisterWord(data[..n]), data[n]);
      assert Octets(data)[..n] == Octets(data[..n]);
    }
  }

  lemma CrcBits(data: seq<bv8>)
    ensures Bits(CrcWord(data)) == Checksum(Octets(data))
  {
    hide Bits, RegisterWord, Register, Octets, Complement;
    RegisterBits(data);
    ComplementBits(RegisterWord(data));
  }

  lemma SameMasks(a: bv32, b: bv32)
    requires forall j :: 0 <= j < 32 ==> Bit(a, j) == Bit(b, j)
    ensures a == b
  {
    assert Bit(a, 0) == Bit(b, 0) && Bit(a, 1) == Bit(b, 1) && Bit(a, 2) == Bit(b, 2) && Bit(a, 3) == Bit(b, 3);
    assert Bit(a, 4) == Bit(b, 4) && Bit(a, 5) == Bit(b, 5) && Bit(a, 6) == Bit(b, 6) && Bit(a, 7) == Bit(b, 7);
    assert Bit(a, 8) == Bit(b, 8) && Bit(a, 9) == Bit(b, 9) && Bit(a, 10) == Bit(b, 10) && Bit(a, 11) == Bit(b, 11);
    assert Bit(a, 12) == Bit(b, 12) && Bit(a, 13) == Bit(b, 13) && Bit(a, 14) == Bit(b, 14) && Bit(a, 15) == Bit(b, 15);
    assert Bit(a, 16) == Bit(b, 16) && Bit(a, 17) == Bit(b, 17) && Bit(a, 18) == Bit(b, 18) && Bit(a, 19) == Bit(b, 19);
    assert Bit(a, 20) == Bit(b, 20) && Bit(a, 21) == Bit(b, 21) && Bit(a, 22) == Bit(b, 22) && Bit(a, 23) == Bit(b, 23);
    assert Bit(a, 24) == Bit(b, 24) && Bit(a, 25) == Bit(b, 25) && Bit(a, 26) == Bit(b, 26) && Bit(a, 27) == Bit(b, 27);
    assert Bit(a, 28) == Bit(b, 28) && Bit(a, 29) == Bit(b, 29) && Bit(a, 30) == Bit(b, 30) && Bit(a, 31) == Bit(b, 31);
  }

  // Words with the same bits are the same.
  lemma SameBits(a: bv32, b: bv32)
    requires Bits(a) == Bits(b)
    ensures a == b
  {
    forall j | 0 <= j < 32 ensures Bit(a, j) == Bit(b, j) { assert Bits(a)[j] == Bits(b)[j]; }
    SameMasks(a, b);
  }

  // ---- the program's loops ---------------------------------------------------------------

  lemma {:induction false} MasksApart(i: nat, j: nat)
    requires i < j < 32
    ensures Apart(Mask(i), Mask(j))
    decreases i, 1
  {
    if i == 0 { MaskOdd(j); } else { MasksNext(i, j); }
  }

  lemma {:induction false} MasksNext(i: nat, j: nat)
    requires 0 < i < j < 32
    ensures Apart(Mask(i), Mask(j))
    decreases i, 0
  {
    hide Mask, Apart, Next;
    MasksApart(i - 1, j - 1);
    MaskNext(i - 1);
    MaskNext(j - 1);
    ApartDoubled(Mask(i - 1), Mask(j - 1), Mask(i), Mask(j));
  }

  lemma MaskOdd(j: nat)
    requires 0 < j < 32
    ensures Apart(Mask(0), Mask(j))
  {}

  lemma MaskSome(j: nat)
    requires j < 32
    ensures Mask(j) != 0
  {}

  lemma OrBit(r: bv32, i: nat, j: nat)
    requires i < 32 && j < 32
    ensures Bit(Or(r, Mask(i)), j) == if i == j then 1 else Bit(r, j)
  {
    hide Mask, Meets, Apart, Or;
    if i == j {
      MaskSome(i);
      MeetsOred(r, Mask(i));
    } else {
      if i < j { MasksApart(i, j); } else { MasksApart(j, i); ApartBoth(Mask(j), Mask(i)); }
      MeetsOr(r, Mask(i), Mask(j));
    }
  }

  // Bits packed into a word, one after the other.
  method Pack(bits: array<int>) returns (w: bv32)
    requires bits.Length == 32 && AllBits(bits[..])
    ensures Bits(w) == bits[..]
  {
    hide Bit, Mask, Or;
    w := 0;
    var i := 0;
    forall j | 0 <= j < 32 ensures Bit(0, j) == 0 { AllBitsOf(j); }
    while i < 32
      invariant 0 <= i <= 32 && forall j :: 0 <= j < 32 ==> Bit(w, j) == if j < i then bits[j] else 0
    {
      if bits[i] != 0 {
        assert bits[..][i] == 1;
        forall j | 0 <= j < 32 ensures Bit(Or(w, Mask(i)), j) == if i == j then 1 else Bit(w, j) { OrBit(w, i, j); }
        w := Or(w, Mask(i));
      }
      i := i + 1;
    }
  }

  method Unpack(w: bv32, n: nat) returns (bits: array<int>)
    requires n <= 32
    ensures fresh(bits) && bits.Length == n && forall j :: 0 <= j < n ==> bits[j] == Bit(w, j)
  {
    hide Bit;
    bits := new int[n];
    var i := 0;
    while i < n
      invariant 0 <= i <= n && forall j :: 0 <= j < i ==> bits[j] == Bit(w, j)
    {
      bits[i] := Bit(w, i);
      i := i + 1;
    }
  }

  method CalCrc32(crc: bv32, data: bv8) returns (result: bv32)
    ensures Bits(result) == Equations(Bits(crc), OctetOf(data))
  {
    hide Bit, Equations, Wide;
    var inDataBuf := Unpack(Wide(data), 8);
    var crcBuf := Unpack(crc, 32);
    assert crcBuf[..] == Bits(crc) && inDataBuf[..] == OctetOf(data);
    var out := Equations(crcBuf[..], inDataBuf[..]);
    var crcOut := new int[32](i requires 0 <= i < 32 => out[i]);
    assert crcOut[..] == out;
    result := Pack(crcOut);
  }

  method GetCrc32(data: seq<bv8>) returns (crc: bv32)
    ensures crc == CrcWord(data) && (data == [] ==> crc == 0)
  {
    hide Bit, Equations, OctetOf, RegisterWord, Register, Octets, Complemented;
    var result := 0xffffffff;
    var i := 0;
    FoldedStarts(data[..0]);
    while i < |data|
      invariant 0 <= i <= |data| && Bits(result) == Folded(Octets(data[..i]))
    {
      result := CalCrc32(result, data[i]);
      FoldedGrows(data, i);
      i := i + 1;
    }
    assert data[..|data|] == data;
    var buf := Unpack(result, 32);
    var val := new int[32](k requires 0 <= k < 32 => 0);
    i := 0;
    while i < 32
      invariant 0 <= i <= 32 && forall j :: 0 <= j < 32 ==> buf[j] == Bit(result, j)
      invariant forall j :: 32 - i <= j < 32 ==> val[j] == Bit(result, 31 - j)
    {
      val[31 - i] := buf[i];
      i := i + 1;
    }
    assert val[..] == Reversed(Bits(result));
    var word := Pack(val);
    Folds(data, result, word);
    crc := Complemented(word);
    CrcOfNothing();
  }

  lemma FoldedStarts(data: seq<bv8>)
    requires data == []
    ensures Bits(0xffffffff) == Folded(Octets(data))
  {
    hide Bit;
    forall j | 0 <= j < 32 ensures Bits(0xffffffff)[j] == Ones()[j] { AllBitsOf(j); }
  }

  lemma FoldedGrows(data: seq<bv8>, i: nat)
    requires i < |data|
    ensures Folded(Octets(data[..i + 1])) == Equations(Folded(Octets(data[..i])), OctetOf(data[i]))
  {
    hide Equations, OctetOf;
    assert data[..i + 1][..i] == data[..i];
    assert Octets(data[..i + 1])[..i] == Octets(data[..i]);
  }

  // The folded register, turned round, is the register.
  lemma Folds(data: seq<bv8>, result: bv32, word: bv32)
    requires Bits(result) == Folded(Octets(data)) && Bits(word) == Reversed(Bits(result))
    ensures word == RegisterWord(data)
  {
    hide Bits, RegisterWord, Register, Octets, Folded, Reversed;
    FoldedIsRegister(Octets(data));
    ReversedTwice(Register(Octets(data)));
    RegisterBits(data);
    SameBits(word, RegisterWord(data));
  }

  // ---- what the checksum is --------------------------------------------------------------

  lemma CrcOfNothing()
    ensures CrcWord([]) == 0
  {}

  lemma EightShifts(r: bv32)
    ensures ShiftsWord(r, 8) ==
      ShiftWord(ShiftWord(ShiftWord(ShiftWord(ShiftWord(ShiftWord(ShiftWord(ShiftWord(r))))))))
  {
    hide ShiftWord;
    assert ShiftsWord(r, 3) == ShiftWord(ShiftWord(ShiftWord(r))) by {
      assert ShiftsWord(r, 1) == ShiftWord(ShiftsWord(r, 0));
    }
    assert ShiftsWord(r, 6) == ShiftWord(ShiftWord(ShiftWord(ShiftsWord(r, 3)))) by {
      assert ShiftsWord(r, 4) == ShiftWord(ShiftsWord(r, 3));
    }
  }

  lemma StepOf(r: bv32, b: bv8, x: bv32, s: bv32)
    requires x == r ^ Wide(b)
    requires s == ShiftWord(ShiftWord(ShiftWord(ShiftWord(ShiftWord(ShiftWord(ShiftWord(ShiftWord(x))))))))
    ensures StepWord(r, b) == s
  {
    hide ShiftWord;
    EightShifts(x);
  }

  lemma RegisterNext(data: seq<bv8>, k: nat)
    requires k < |data|
    ensures RegisterWord(data[..k + 1]) == StepWord(RegisterWord(data[..k]), data[k])
  {
    hide StepWord;
    assert data[..k + 1][..k] == data[..k];
  }

  // The digits from 1 to 9.
  function Digits(): seq<bv8> { [49, 50, 51, 52, 53, 54, 55, 56, 57] }

  lemma CheckValue()
    ensures CrcWord(Digits()) == 0xcbf43926
  {
    hide StepWord, RegisterWord;
    var d := Digits();
    RegisterStarts(d[..0]);
    RegisterNext(d, 0);
    StepOf(0xffffffff, 49, 0xffffffce, 0x7c231048);
    RegisterNext(d, 1);
    StepOf(0x7c231048, 50, 0x7c23107a, 0xb0acbb32);
    RegisterNext(d, 2);
    StepOf(0xb0acbb32, 51, 0xb0acbb01, 0x77b79c2d);
    RegisterNext(d, 3);
    StepOf(0x77b79c2d, 52, 0x77b79c19, 0x641c1f5c);
    RegisterNext(d, 4);
    StepOf(0x641c1f5c, 53, 0x641c1f69, 0x340ac5e3);
    RegisterNext(d, 5);
    StepOf(0x340ac5e3, 54, 0x340ac5d5, 0xf68d2c9e);
    RegisterNext(d, 6);
    StepOf(0xf68d2c9e, 55, 0xf68d2ca9, 0xaffc9660);
    RegisterNext(d, 7);
    StepOf(0xaffc9660, 56, 0xaffc9658, 0x651f2550);
    RegisterNext(d, 8);
    StepOf(0x651f2550, 57, 0x651f2569, 0x340bc6d9);
    assert d[..9] == d;
  }

  lemma RegisterStarts(data: seq<bv8>)
    requires data == []
    ensures RegisterWord(data) == 0xffffffff
  {}

  // ---- the residue -----------------------------------------------------------------------

  function Half(r: bv32): bv32 { r >> 1 }
  predicate EndsInOne(r: bv32) { r & 1 == 1 }

  lemma ShiftIs(r: bv32)
    ensures ShiftWord(r) == if EndsInOne(r) then Xor(Half(r), POLYNOMIAL) else Half(r)
  {}

  lemma HalfXor(a: bv32, b: bv32)
    ensures Half(Xor(a, b)) == Xor(Half(a), Half(b))
  {}

  lemma EndsXor(a: bv32, b: bv32)
    ensures EndsInOne(Xor(a, b)) <==> EndsInOne(a) != EndsInOne(b)
  {}

  lemma ShiftLinear(a: bv32, b: bv32)
    ensures ShiftWord(Xor(a, b)) == Xor(ShiftWord(a), ShiftWord(b))
  {
    hide ShiftWord, Xor, Half, EndsInOne;
    ShiftIs(a);
    ShiftIs(b);
    ShiftIs(Xor(a, b));
    HalfXor(a, b);
    EndsXor(a, b);
    XorLaws(Half(a), Half(b), POLYNOMIAL);
  }

  lemma {:induction false} ShiftsLinear(a: bv32, b: bv32, n: nat)
    ensures ShiftsWord(Xor(a, b), n) == Xor(ShiftsWord(a, n), ShiftsWord(b, n))
  {
    hide ShiftWord, Xor;
    if n > 0 {
      ShiftsLinear(a, b, n - 1);
      ShiftLinear(ShiftsWord(a, n - 1), ShiftsWord(b, n - 1));
    }
  }

  // Eight shifts of a word that ends in eight zeros, and of eight ones.
  lemma ShiftsZeros(h: bv32)
    requires h & 0xff == 0
    ensures ShiftsWord(h, 8) == h >> 8
  {
    hide ShiftsWord;
    EightShifts(h);
  }

  lemma ShiftsLiteral(x: bv32, s: bv32)
    requires s == ShiftWord(ShiftWord(ShiftWord(ShiftWord(ShiftWord(ShiftWord(ShiftWord(ShiftWord(x))))))))
    ensures ShiftsWord(x, 8) == s
  {
    hide ShiftWord;
    EightShifts(x);
  }

  function Drop(h: bv32): bv32 { h >> 8 }

  // The low byte of h is the complement of b.
  predicate Opposes(h: bv32, b: bv8) { h & 0xff == Xor(Wide(b), 0xff) }

  // A byte that is the complement of the low one of h, whatever k has been added to h.
  lemma StepComplement(h: bv32, k: bv32, b: bv8, s: bv32, t: bv32)
    requires Opposes(h, b) && s == ShiftsWord(k, 8) && t == Xor(0x2d02ef8d, s)
    ensures StepWord(Xor(h, k), b) == Xor(Drop(h), t)
  {
    hide ShiftsWord, Xor, Wide;
    var high := h & 0xffffff00;
    HighOf(h, Wide(b), k);
    StepIs(Xor(h, k), b);
    ShiftsLinear(Xor(high, 0xff), k, 8);
    ShiftsLinear(high, 0xff, 8);
    HighZeros(h);
    ShiftsZeros(high);
    ShiftsLiteral(0xff, 0x2d02ef8d);
    XorGroups(Drop(h), 0x2d02ef8d, s);
  }

  lemma StepIs(r: bv32, b: bv8)
    ensures StepWord(r, b) == ShiftsWord(Xor(r, Wide(b)), 8)
  {
    hide ShiftsWord, Wide;
  }

  lemma HighZeros(h: bv32)
    ensures (h & 0xffffff00) & 0xff == 0 && (h & 0xffffff00) >> 8 == h >> 8
  {}

  lemma HighOf(h: bv32, w: bv32, k: bv32)
    requires h & 0xff == Xor(w, 0xff)
    ensures Xor(Xor(h, k), w) == Xor(Xor(h & 0xffffff00, 0xff), k)
  {
    assert h == (h & 0xffffff00) ^ (h & 0xff);
    assert h ^ w == (h & 0xffffff00) ^ 0xff;
    XorLaws(h, w, k);
  }

  function Byte(w: bv32, n: nat): bv8
    requires n < 4
  {
    if n == 0 then (w & 0xff) as bv8
    else if n == 1 then ((w >> 8) & 0xff) as bv8
    else if n == 2 then ((w >> 16) & 0xff) as bv8
    else (w >> 24) as bv8
  }

  // A checksum as it is appended, low byte first.
  function Appended(w: bv32): (s: seq<bv8>)
    ensures |s| == 4
  {
    [Byte(w, 0), Byte(w, 1), Byte(w, 2), Byte(w, 3)]
  }

  lemma BytesOppose(r: bv32)
    ensures var c := Complemented(r);
            && Opposes(r, Byte(c, 0)) && Opposes(Drop(r), Byte(c, 1))
            && Opposes(Drop(Drop(r)), Byte(c, 2)) && Opposes(Drop(Drop(Drop(r))), Byte(c, 3))
            && Drop(Drop(Drop(Drop(r)))) == 0
  {}

  lemma FourSteps(r: bv32, b0: bv8, b1: bv8, b2: bv8, b3: bv8)
    requires Opposes(r, b0) && Opposes(Drop(r), b1) && Opposes(Drop(Drop(r)), b2)
    requires Opposes(Drop(Drop(Drop(r))), b3) && Drop(Drop(Drop(Drop(r)))) == 0
    ensures StepWord(StepWord(StepWord(StepWord(r, b0), b1), b2), b3) == 0xdebb20e3
  {
    hide StepWord, ShiftsWord, Xor, Opposes, Drop, ShiftWord;
    StepLiterals();
    XorLiterals(r);
    StepComplement(r, 0, b0, 0, 0x2d02ef8d);
    StepComplement(Drop(r), 0x2d02ef8d, b1, 0x9324fd72, 0xbe2612ff);
    StepComplement(Drop(Drop(r)), 0xbe2612ff, b2, 0x2dbcc99f, 0x00be2612);
    StepComplement(Drop(Drop(Drop(r))), 0x00be2612, b3, 0xf3b9cf6e, 0xdebb20e3);
  }

  lemma StepLiterals()
    ensures ShiftsWord(0, 8) == 0 && ShiftsWord(0x2d02ef8d, 8) == 0x9324fd72
    ensures ShiftsWord(0xbe2612ff, 8) == 0x2dbcc99f && ShiftsWord(0x00be2612, 8) == 0xf3b9cf6e
  {
    hide ShiftsWord;
    ShiftsLiteral(0, 0);
    ShiftsLiteral(0x2d02ef8d, 0x9324fd72);
    ShiftsLiteral(0xbe2612ff, 0x2dbcc99f);
    ShiftsLiteral(0x00be2612, 0xf3b9cf6e);
  }

  lemma XorLiterals(r: bv32)
    ensures Xor(r, 0) == r && Xor(0, 0xdebb20e3) == 0xdebb20e3
    ensures Xor(0x2d02ef8d, 0) == 0x2d02ef8d && Xor(0x2d02ef8d, 0x9324fd72) == 0xbe2612ff
    ensures Xor(0x2d02ef8d, 0x2dbcc99f) == 0x00be2612 && Xor(0x2d02ef8d, 0xf3b9cf6e) == 0xdebb20e3
  {}

  // Whatever the message, the register ends at the residue when its checksum has been fed to it.
  lemma Residue(data: seq<bv8>)
    ensures RegisterWord(data + Appended(CrcWord(data))) == 0xdebb20e3
  {
    hide StepWord, RegisterWord, Byte, Complemented, Opposes, Drop;
    var r := RegisterWord(data);
    var c := CrcWord(data);
    var all := data + Appended(c);
    var n := |data|;
    assert all[..n] == data && all[..n + 4] == all;
    RegisterNext(all, n);
    RegisterNext(all, n + 1);
    RegisterNext(all, n + 2);
    RegisterNext(all, n + 3);
    BytesOppose(r);
    FourSteps(r, Byte(c, 0), Byte(c, 1), Byte(c, 2), Byte(c, 3));
  }
}

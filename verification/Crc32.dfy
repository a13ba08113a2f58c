// The CRC-32 computed with 32 parallel exclusive-or equations a byte, and the serial one it
// should equal.  Words and bytes are their bits, the lowest first; the exclusive or of bits is
// the parity of their sum.
module Crc32 {
  predicate AllBits(s: seq<int>) { forall i :: 0 <= i < |s| ==> s[i] == 0 || s[i] == 1 }
  type Word = s: seq<int> | |s| == 32 && AllBits(s) witness seq(32, _ => 0)
  type Octet = s: seq<int> | |s| == 8 && AllBits(s) witness seq(8, _ => 0)

  function Odd(n: int): (b: int)
    ensures b == 0 || b == 1
  {
    n % 2
  }

  // The generator x^32 + x^26 + x^23 + x^22 + x^16 + x^12 + x^11 + x^10 + x^8 + x^7 + x^5 + x^4 +
  // x^2 + x + 1: its coefficient of x^i, below the leading one.
  function Generator(i: int): int {
    if i == 26 || i == 23 || i == 22 || i == 16 || i == 12 || i == 11 || i == 10 || i == 8 || i == 7 || i == 5 || i == 4
       || i == 2 || i == 1 || i == 0
    then 1 else 0
  }

  function If(g: int, b: int): int { if g == 1 then b else 0 }

  // ---- the serial form: section 8 of RFC 1952 --------------------------------------------

  // One shift towards bit 0, the generator added if a one falls out.
  function ShiftBit(r: Word, j: nat): (b: int)
    requires j < 32
    ensures b == 0 || b == 1
  {
    hide Generator, Odd, If;
    Odd((if j < 31 then r[j + 1] else 0) + If(Generator(31 - j), r[0]))
  }

  function Shift(r: Word): (s: Word) {
    hide ShiftBit;
    seq(32, j requires 0 <= j < 32 => ShiftBit(r, j))
  }

  function Feed(r: Word, d: Octet): (s: Word) {
    seq(32, j requires 0 <= j < 32 => if j < 8 then Odd(r[j] + d[j]) else r[j])
  }

  function Shifts(r: Word, n: nat): (s: Word) {
    if n == 0 then r else Shift(Shifts(r, n - 1))
  }

  function Serial(r: Word, d: Octet): Word { Shifts(Feed(r, d), 8) }

  function Reversed(c: Word): (r: Word) {
    seq(32, j requires 0 <= j < 32 => c[31 - j])
  }

  function Complement(c: Word): (r: Word) {
    seq(32, j requires 0 <= j < 32 => 1 - c[j])
  }

  // What the n-th of eight shifts drops, as a sum of the bits of r.
  function Fed(r: seq<int>, n: nat): int
    requires |r| == 32 && n < 8
  {
    if n < 6 then r[n] else r[n] + r[n - 6]
  }

  // Bit j after n shifts, as a sum: bit j + n, and what the bits dropped have added at j.
  function Left(r: seq<int>, n: nat, j: nat): int
    requires |r| == 32 && n <= 8
  {
    if j >= 32 then 0 else if n == 0 then r[j] else Left(r, n - 1, j + 1) + If(Generator(31 - j), Fed(r, n - 1))
  }

  lemma {:induction false} LeftLow(r: seq<int>, n: nat, j: nat)
    requires |r| == 32 && j + n <= 7
    ensures Left(r, n, j) == if j + n >= 6 && j <= 5 then r[j + n] + r[j + n - 6] else r[j + n]
  {
    if n > 0 { LeftLow(r, n - 1, j + 1); }
  }

  // The eight terms of one bit.
  function From(r: seq<int>, j: nat): int
    requires |r| == 32
  {
    if j < 32 then r[j] else 0
  }

  function Tap(j: int): int { if j < 32 then Generator(31 - j) else 0 }

  lemma LeftFrom(r: seq<int>, n: nat, j: nat)
    requires |r| == 32 && 0 < n <= 8
    ensures Left(r, n, j) == Left(r, n - 1, j + 1) + If(Tap(j), Fed(r, n - 1))
  {}

  lemma LeftEight(r: seq<int>, j: nat)
    requires |r| == 32
    ensures Left(r, 8, j) == From(r, j + 8)
      + If(Tap(j + 7), Fed(r, 0)) + If(Tap(j + 6), Fed(r, 1)) + If(Tap(j + 5), Fed(r, 2)) + If(Tap(j + 4), Fed(r, 3))
      + If(Tap(j + 3), Fed(r, 4)) + If(Tap(j + 2), Fed(r, 5)) + If(Tap(j + 1), Fed(r, 6)) + If(Tap(j), Fed(r, 7))
  {
    hide Tap, If, Fed;
    LeftFrom(r, 8, j);
    LeftFrom(r, 7, j + 1);
    LeftFrom(r, 6, j + 2);
    LeftFrom(r, 5, j + 3);
    LeftFrom(r, 4, j + 4);
    LeftFrom(r, 3, j + 5);
    LeftFrom(r, 2, j + 6);
    LeftFrom(r, 1, j + 7);
  }

  lemma OddSum(a: int, b: int)
    ensures Odd(Odd(a) + Odd(b)) == Odd(a + b) && Odd(Odd(a)) == Odd(a)
  {}

  lemma OneShift(r: Word, j: nat)
    requires j < 32
    ensures Shift(r)[j] == Odd((if j < 31 then r[j + 1] else 0) + If(Generator(31 - j), r[0]))
  {
    hide Generator, Odd, If;
  }

  lemma ShiftSum(s: Word, left: int, fed: int, j: nat)
    requires j < 32 && (if j < 31 then s[j + 1] == Odd(left) else left == 0) && s[0] == Odd(fed)
    ensures Shift(s)[j] == Odd(left + If(Generator(31 - j), fed))
  {
    hide Generator, Shift, Odd;
    OneShift(s, j);
    OddSum(left, If(Generator(31 - j), fed));
    OddSum(0, 0);
    OddZero();
  }

  lemma OddZero()
    ensures Odd(0) == 0
  {}

  lemma {:induction false} ShiftsLeft(s: Word, r: seq<int>, n: nat)
    requires |r| == 32 && n <= 8 && forall j :: 0 <= j < 32 ==> s[j] == Odd(r[j])
    ensures forall j :: 0 <= j < 32 ==> Shifts(s, n)[j] == Odd(Left(r, n, j))
  {
    hide Shift, Generator, Odd, If;
    if n > 0 {
      ShiftsLeft(s, r, n - 1);
      LeftLow(r, n - 1, 0);
      forall j | 0 <= j < 32 ensures Shifts(s, n)[j] == Odd(Left(r, n, j)) {
        ShiftSum(Shifts(s, n - 1), Left(r, n - 1, j + 1), Fed(r, n - 1), j);
      }
    }
  }

  // ---- the parallel form -----------------------------------------------------------------

  function Terms0(c: Word, d: Octet): (t: seq<int>)
    ensures |t| == 8
  {
    [
      d[1] + d[7] + c[30] + c[24],
      d[0] + d[1] + d[6] + d[7] + c[31] + c[30] + c[25] + c[24],
      d[0] + d[1] + d[5] + d[6] + d[7] + c[31] + c[30] + c[26] + c[25] + c[24],
      d[0] + d[4] + d[5] + d[6] + c[31] + c[27] + c[26] + c[25],
      d[1] + d[3] + d[4] + d[5] + d[7] + c[30] + c[28] + c[27] + c[26] + c[24],
      d[0] + d[1] + d[2] + d[3] + d[4] + d[6] + d[7] + c[31] + c[30] + c[29] + c[28] + c[27] + c[25] + c[24],
      d[0] + d[1] + d[2] + d[3] + d[5] + d[6] + c[31] + c[30] + c[29] + c[28] + c[26] + c[25],
      d[0] + d[2] + d[4] + d[5] + d[7] + c[31] + c[29] + c[27] + c[26] + c[24]
    ]
  }

  function Terms1(c: Word, d: Octet): (t: seq<int>)
    ensures |t| == 8
  {
    [
      d[3] + d[4] + d[6] + d[7] + c[28] + c[27] + c[25] + c[24] + c[0],
      d[2] + d[3] + d[5] + d[6] + c[29] + c[28] + c[26] + c[25] + c[1],
      d[2] + d[4] + d[5] + d[7] + c[29] + c[27] + c[26] + c[24] + c[2],
      d[3] + d[4] + d[6] + d[7] + c[28] + c[27] + c[25] + c[24] + c[3],
      d[1] + d[2] + d[3] + d[5] + d[6] + d[7] + c[30] + c[29] + c[28] + c[26] + c[25] + c[24] + c[4],
      d[0] + d[1] + d[2] + d[4] + d[5] + d[6] + c[31] + c[30] + c[29] + c[27] + c[26] + c[25] + c[5],
      d[0] + d[1] + d[3] + d[4] + d[5] + c[31] + c[30] + c[28] + c[27] + c[26] + c[6],
      d[0] + d[2] + d[3] + d[4] + c[31] + c[29] + c[28] + c[27] + c[7]
    ]
  }

  function Terms2(c: Word, d: Octet): (t: seq<int>)
    ensures |t| == 8
  {
    [
      d[2] + d[3] + d[7] + c[29] + c[28] + c[24] + c[8],
      d[1] + d[2] + d[6] + c[30] + c[29] + c[25] + c[9],
      d[0] + d[1] + d[5] + c[31] + c[30] + c[26] + c[10],
      d[0] + d[4] + c[31] + c[27] + c[11],
      d[3] + c[28] + c[12],
      d[2] + c[29] + c[13],
      d[7] + c[24] + c[14],
      d[1] + d[6] + d[7] + c[30] + c[25] + c[24] + c[15]
    ]
  }

  function Terms3(c: Word, d: Octet): (t: seq<int>)
    ensures |t| == 8
  {
    [
      d[0] + d[5] + d[6] + c[31] + c[26] + c[25] + c[16],
      d[4] + d[5] + c[27] + c[26] + c[17],
      d[1] + d[3] + d[4] + d[7] + c[30] + c[28] + c[27] + c[24] + c[18],
      d[0] + d[2] + d[3] + d[6] + c[31] + c[29] + c[28] + c[25] + c[19],
      d[1] + d[2] + d[5] + c[30] + c[29] + c[26] + c[20],
      d[0] + d[1] + d[4] + c[31] + c[30] + c[27] + c[21],
      d[0] + d[3] + c[31] + c[28] + c[22],
      d[2] + c[23] + c[29]
    ]
  }

  // crc_out[i] is the parity of the i-th of these sums.
  function Terms(c: Word, d: Octet): (t: seq<int>)
    ensures |t| == 32
  {
    Terms0(c, d) + Terms1(c, d) + Terms2(c, d) + Terms3(c, d)
  }

  function Equations(c: Word, d: Octet): (o: Word) {
    seq(32, i requires 0 <= i < 32 => Odd(Terms(c, d)[i]))
  }

  // Bit i of the register, held the other way round, eight shifts later.
  function Shifted(c: Word, d: Octet, i: nat): int
    requires i < 32
  {
    Shifts(Feed(Reversed(c), d), 8)[31 - i]
  }

  // The bits of the register and of the byte, added where the byte is fed in.
  function Raw(c: Word, d: Octet): (r: seq<int>)
    ensures |r| == 32
  {
    seq(32, j requires 0 <= j < 32 => c[31 - j] + if j < 8 then d[j] else 0)
  }

  lemma FeedIsRaw(c: Word, d: Octet)
    ensures forall j :: 0 <= j < 32 ==> Feed(Reversed(c), d)[j] == Odd(Raw(c, d)[j])
  {
    hide Odd;
    forall j | 0 <= j < 32 ensures Feed(Reversed(c), d)[j] == Odd(Raw(c, d)[j]) { OddBit(c[31 - j]); }
  }

  lemma OddBit(b: int)
    requires b == 0 || b == 1
    ensures Odd(b) == b
  {}

  lemma ShiftedIs(c: Word, d: Octet, i: nat)
    requires i < 32
    ensures Shifted(c, d, i) == Odd(Left(Raw(c, d), 8, 31 - i))
  {
    hide Shifts, Left, Feed, Odd, Raw;
    FeedIsRaw(c, d);
    ShiftsLeft(Feed(Reversed(c), d), Raw(c, d), 8);
  }

  // The bits that come back twice, and so cancel.
  function Twice(r: seq<int>, i: nat): int
    requires |r| == 32
  {
    If(Tap(38 - i) * Tap(32 - i), r[0]) + If(Tap(37 - i) * Tap(31 - i), r[1])
  }

  lemma RawBits(c: Word, d: Octet)
    ensures forall j :: 0 <= j < 32 ==> Raw(c, d)[j] == c[31 - j] + if j < 8 then d[j] else 0
  {}

  lemma Terms0Low(c: Word, d: Octet)
    ensures forall i :: 0 <= i < 4 ==> Terms0(c, d)[i - 0] + 2 * Twice(Raw(c, d), i) == Left(Raw(c, d), 8, 31 - i)
  {
    hide Left;
    var r := Raw(c, d);
    RawBits(c, d);
    LeftEight(r, 31); LeftEight(r, 30); LeftEight(r, 29); LeftEight(r, 28);
  }

  lemma Terms0High(c: Word, d: Octet)
    ensures forall i :: 4 <= i < 8 ==> Terms0(c, d)[i - 0] + 2 * Twice(Raw(c, d), i) == Left(Raw(c, d), 8, 31 - i)
  {
    hide Left;
    var r := Raw(c, d);
    RawBits(c, d);
    LeftEight(r, 27); LeftEight(r, 26); LeftEight(r, 25); LeftEight(r, 24);
  }

  lemma Terms1Low(c: Word, d: Octet)
    ensures forall i :: 8 <= i < 12 ==> Terms1(c, d)[i - 8] + 2 * Twice(Raw(c, d), i) == Left(Raw(c, d), 8, 31 - i)
  {
    hide Left;
    var r := Raw(c, d);
    RawBits(c, d);
    LeftEight(r, 23); LeftEight(r, 22); LeftEight(r, 21); LeftEight(r, 20);
  }

  lemma Terms1High(c: Word, d: Octet)
    ensures forall i :: 12 <= i < 16 ==> Terms1(c, d)[i - 8] + 2 * Twice(Raw(c, d), i) == Left(Raw(c, d), 8, 31 - i)
  {
    hide Left;
    var r := Raw(c, d);
    RawBits(c, d);
    LeftEight(r, 19); LeftEight(r, 18); LeftEight(r, 17); LeftEight(r, 16);
  }

  lemma Terms2Low(c: Word, d: Octet)
    ensures forall i :: 16 <= i < 20 ==> Terms2(c, d)[i - 16] + 2 * Twice(Raw(c, d), i) == Left(Raw(c, d), 8, 31 - i)
  {
    hide Left;
    var r := Raw(c, d);
    RawBits(c, d);
    LeftEight(r, 15); LeftEight(r, 14); LeftEight(r, 13); LeftEight(r, 12);
  }

  lemma Terms2High(c: Word, d: Octet)
    ensures forall i :: 20 <= i < 24 ==> Terms2(c, d)[i - 16] + 2 * Twice(Raw(c, d), i) == Left(Raw(c, d), 8, 31 - i)
  {
    hide Left;
    var r := Raw(c, d);
    RawBits(c, d);
    LeftEight(r, 11); LeftEight(r, 10); LeftEight(r, 9); LeftEight(r, 8);
  }

  lemma Terms3Low(c: Word, d: Octet)
    ensures forall i :: 24 <= i < 28 ==> Terms3(c, d)[i - 24] + 2 * Twice(Raw(c, d), i) == Left(Raw(c, d), 8, 31 - i)
  {
    hide Left;
    var r := Raw(c, d);
    RawBits(c, d);
    LeftEight(r, 7); LeftEight(r, 6); LeftEight(r, 5); LeftEight(r, 4);
  }

  lemma Terms3High(c: Word, d: Octet)
    ensures forall i :: 28 <= i < 32 ==> Terms3(c, d)[i - 24] + 2 * Twice(Raw(c, d), i) == Left(Raw(c, d), 8, 31 - i)
  {
    hide Left;
    var r := Raw(c, d);
    RawBits(c, d);
    LeftEight(r, 3); LeftEight(r, 2); LeftEight(r, 1); LeftEight(r, 0);
  }

  lemma OddTwice(a: int, k: int)
    ensures Odd(a + 2 * k) == Odd(a)
  {}

  lemma TermsRight(c: Word, d: Octet, i: nat)
    requires i < 32
    ensures Terms(c, d)[i] + 2 * Twice(Raw(c, d), i) == Left(Raw(c, d), 8, 31 - i)
  {
    hide Left, Twice, Raw, Terms0, Terms1, Terms2, Terms3;
    if i < 8 { Terms0Low(c, d); Terms0High(c, d); }
    else if i < 16 { Terms1Low(c, d); Terms1High(c, d); }
    else if i < 24 { Terms2Low(c, d); Terms2High(c, d); }
    else { Terms3Low(c, d); Terms3High(c, d); }
  }

  // One step of the 32 equations is eight shifts of the serial register, held the other way round.
  lemma StepIsSerial(c: Word, d: Octet)
    ensures Equations(c, d) == Reversed(Serial(Reversed(c), d))
  {
    hide Odd, Terms, Left, Shifts, Feed, Raw, Twice;
    forall i | 0 <= i < 32 ensures Equations(c, d)[i] == Reversed(Serial(Reversed(c), d))[i] {
      ShiftedIs(c, d, i);
      TermsRight(c, d, i);
      OddTwice(Terms(c, d)[i], Twice(Raw(c, d), i));
    }
  }

  // ---- whole messages --------------------------------------------------------------------

  function Ones(): Word { seq(32, _ => 1) }

  function Register(data: seq<Octet>): Word {
    if data == [] then Ones() else Serial(Register(data[..|data| - 1]), data[|data| - 1])
  }

  // The CRC-32 of section 8 of RFC 1952.
  function Checksum(data: seq<Octet>): Word { Complement(Register(data)) }

  function Folded(data: seq<Octet>): Word {
    if data == [] then Ones() else Equations(Folded(data[..|data| - 1]), data[|data| - 1])
  }

  lemma ReversedTwice(c: Word)
    ensures Reversed(Reversed(c)) == c
  {}

  lemma {:induction false} FoldedIsRegister(data: seq<Octet>)
    ensures Folded(data) == Reversed(Register(data))
  {
    hide Equations, Serial, Reversed;
    if data == [] {
      OnesReversed();
    } else {
      var n := |data| - 1;
      FoldedIsRegister(data[..n]);
      StepIsSerial(Folded(data[..n]), data[n]);
      ReversedTwice(Register(data[..n]));
    }
  }

  lemma OnesReversed()
    ensures Reversed(Ones()) == Ones()
  {}
}

module AesField {
  function Plus(x: bv8, y: bv8): bv8 { x ^ y }
  function Xtime(x: bv8): bv8 { if x & 0x80 != 0 then (x << 1) ^ 0x1b else x << 1 }
  function PlusWord(v: bv32, w: bv32): bv32 { v ^ w }
  function X4(x: bv8): bv8 { Xtime(Xtime(x)) }
  function X8(x: bv8): bv8 { Xtime(X4(x)) }
  function By3(x: bv8): bv8 { Plus(Xtime(x), x) }
  function By9(x: bv8): bv8 { Plus(X8(x), x) }
  function ByB(x: bv8): bv8 { Plus(X8(x), By3(x)) }
  function ByD(x: bv8): bv8 { Plus(X8(x), Plus(X4(x), x)) }
  function ByE(x: bv8): bv8 { Plus(X8(x), Plus(X4(x), Xtime(x))) }

  function Word(b0: bv8, b1: bv8, b2: bv8, b3: bv8): bv32 {
    (b0 as bv32 << 24) ^ (b1 as bv32 << 16) ^ (b2 as bv32 << 8) ^ b3 as bv32
  }

  function B0(w: bv32): bv8 { (w >> 24) as bv8 }
  function B1(w: bv32): bv8 { ((w >> 16) & 0xff) as bv8 }
  function B2(w: bv32): bv8 { ((w >> 8) & 0xff) as bv8 }
  function B3(w: bv32): bv8 { (w & 0xff) as bv8 }

  lemma WordBytes(b0: bv8, b1: bv8, b2: bv8, b3: bv8)
    ensures var w := Word(b0, b1, b2, b3); B0(w) == b0 && B1(w) == b1 && B2(w) == b2 && B3(w) == b3
  {}

  lemma BytesWord(w: bv32)
    ensures Word(B0(w), B1(w), B2(w), B3(w)) == w
  {}

  function Plus4(a: bv8, b: bv8, c: bv8, d: bv8): bv8 { Plus(Plus(a, b), Plus(c, d)) }
  function InvMixRow(a: bv8, b: bv8, c: bv8, d: bv8): bv8 { Plus4(ByE(a), ByB(b), ByD(c), By9(d)) }

  function MixColumn(w: bv32): bv32 {
    var a, b, c, d := B0(w), B1(w), B2(w), B3(w);
    Word(Plus4(Xtime(a), By3(b), c, d), Plus4(a, Xtime(b), By3(c), d),
         Plus4(a, b, Xtime(c), By3(d)), Plus4(By3(a), b, c, Xtime(d)))
  }

  function InvMixColumn(w: bv32): bv32 {
    var a, b, c, d := B0(w), B1(w), B2(w), B3(w);
    Word(InvMixRow(a, b, c, d), InvMixRow(b, c, d, a), InvMixRow(c, d, a, b), InvMixRow(d, a, b, c))
  }

  lemma PlusAssociates(a: bv8, b: bv8, c: bv8)
    ensures Plus(Plus(a, b), c) == Plus(a, Plus(b, c))
  {}

  lemma PlusCommutes(a: bv8, b: bv8)
    ensures Plus(a, b) == Plus(b, a)
  {}

  lemma PlusExchange(a: bv8, b: bv8, c: bv8, d: bv8)
    ensures Plus(Plus(a, b), Plus(c, d)) == Plus(Plus(a, c), Plus(b, d))
  {
    hide Plus;
    PlusAssociates(a, b, Plus(c, d)); PlusAssociates(b, c, d); PlusCommutes(b, c);
    PlusAssociates(c, b, d); PlusAssociates(a, c, Plus(b, d));
  }

  lemma PlusZero(x: bv8)
    ensures Plus(x, 0) == x && Plus(0, x) == x
  {}

  lemma XtimeLinear(x: bv8, y: bv8)
    ensures Xtime(Plus(x, y)) == Plus(Xtime(x), Xtime(y))
  {
    if x & 0x80 != 0 { if y & 0x80 != 0 {} else {} } else { if y & 0x80 != 0 {} else {} }
  }

  lemma ByLinear(x: bv8, y: bv8)
    ensures By9(Plus(x, y)) == Plus(By9(x), By9(y)) && ByB(Plus(x, y)) == Plus(ByB(x), ByB(y))
    ensures ByD(Plus(x, y)) == Plus(ByD(x), ByD(y)) && ByE(Plus(x, y)) == Plus(ByE(x), ByE(y))
  {
    hide Xtime, Plus;
    XtimeLinear(x, y); XtimeLinear(Xtime(x), Xtime(y)); XtimeLinear(X4(x), X4(y));
    PlusExchange(X8(x), X8(y), x, y);
    PlusExchange(Xtime(x), Xtime(y), x, y);
    PlusExchange(X8(x), X8(y), By3(x), By3(y));
    PlusExchange(X4(x), X4(y), x, y);
    PlusExchange(X8(x), X8(y), Plus(X4(x), x), Plus(X4(y), y));
    PlusExchange(X4(x), X4(y), Xtime(x), Xtime(y));
    PlusExchange(X8(x), X8(y), Plus(X4(x), Xtime(x)), Plus(X4(y), Xtime(y)));
  }

  lemma Plus4Linear(a: bv8, b: bv8, c: bv8, d: bv8, a': bv8, b': bv8, c': bv8, d': bv8)
    ensures Plus4(Plus(a, a'), Plus(b, b'), Plus(c, c'), Plus(d, d')) == Plus(Plus4(a, b, c, d), Plus4(a', b', c', d'))
  {
    hide Plus;
    PlusExchange(a, a', b, b'); PlusExchange(c, c', d, d');
    PlusExchange(Plus(a, b), Plus(a', b'), Plus(c, d), Plus(c', d'));
  }

  lemma InvRowLinear(a: bv8, b: bv8, c: bv8, d: bv8, a': bv8, b': bv8, c': bv8, d': bv8)
    ensures InvMixRow(Plus(a, a'), Plus(b, b'), Plus(c, c'), Plus(d, d')) ==
      Plus(InvMixRow(a, b, c, d), InvMixRow(a', b', c', d'))
  {
    hide By9, ByB, ByD, ByE, Plus, Plus4;
    ByLinear(a, a'); ByLinear(b, b'); ByLinear(c, c'); ByLinear(d, d');
    Plus4Linear(ByE(a), ByB(b), ByD(c), By9(d), ByE(a'), ByB(b'), ByD(c'), By9(d'));
  }

  // What one byte of a column, mixed, contributes to each byte after unmixing:
  // itself in its own place, nothing in the other three.
  lemma OwnPlace(x: bv8)
    ensures InvMixRow(Xtime(x), x, x, By3(x)) == x
  {
    if x < 0x80 {} else {}
  }

  lemma NextPlace(x: bv8)
    ensures InvMixRow(By3(x), Xtime(x), x, x) == 0
  {
    if x < 0x80 {} else {}
  }

  lemma OppositePlace(x: bv8)
    ensures InvMixRow(x, By3(x), Xtime(x), x) == 0
  {
    if x < 0x80 {} else {}
  }

  lemma PreviousPlace(x: bv8)
    ensures InvMixRow(x, x, By3(x), Xtime(x)) == 0
  {
    if x < 0x80 {} else {}
  }

  lemma Coefficients(x: bv8)
    ensures InvMixRow(Xtime(x), x, x, By3(x)) == x && InvMixRow(By3(x), Xtime(x), x, x) == 0
    ensures InvMixRow(x, By3(x), Xtime(x), x) == 0 && InvMixRow(x, x, By3(x), Xtime(x)) == 0
  {
    hide InvMixRow, Xtime, By3;
    OwnPlace(x); NextPlace(x); OppositePlace(x); PreviousPlace(x);
  }

  lemma Unmix(a0: bv8, a1: bv8, a2: bv8, a3: bv8, b0: bv8, b1: bv8, b2: bv8, b3: bv8,
              c0: bv8, c1: bv8, c2: bv8, c3: bv8, d0: bv8, d1: bv8, d2: bv8, d3: bv8)
    ensures InvMixRow(Plus4(a0, b0, c0, d0), Plus4(a1, b1, c1, d1), Plus4(a2, b2, c2, d2), Plus4(a3, b3, c3, d3))
         == Plus4(InvMixRow(a0, a1, a2, a3), InvMixRow(b0, b1, b2, b3), InvMixRow(c0, c1, c2, c3),
           InvMixRow(d0, d1, d2, d3))
  {
    hide InvMixRow, Plus;
    InvRowLinear(a0, a1, a2, a3, b0, b1, b2, b3);
    InvRowLinear(c0, c1, c2, c3, d0, d1, d2, d3);
    InvRowLinear(Plus(a0, b0), Plus(a1, b1), Plus(a2, b2), Plus(a3, b3), Plus(c0, d0), Plus(c1, d1), Plus(c2, d2),
      Plus(c3, d3));
  }

  lemma RowInverse(a: bv8, b: bv8, c: bv8, d: bv8)
    ensures var m0, m1, m2, m3 := Plus4(Xtime(a), By3(b), c, d), Plus4(a, Xtime(b), By3(c), d),
                    Plus4(a, b, Xtime(c), By3(d)), Plus4(By3(a), b, c, Xtime(d));
      InvMixRow(m0, m1, m2, m3) == a && InvMixRow(m1, m2, m3, m0) == b &&
      InvMixRow(m2, m3, m0, m1) == c && InvMixRow(m3, m0, m1, m2) == d
  {
    hide InvMixRow, Xtime, By3, Plus;
    Coefficients(a); Coefficients(b); Coefficients(c); Coefficients(d);
    PlusZero(a); PlusZero(b); PlusZero(c); PlusZero(d); PlusZero(0);
    Unmix(Xtime(a), a, a, By3(a), By3(b), Xtime(b), b, b, c, By3(c), Xtime(c), c, d, d, By3(d), Xtime(d));
    Unmix(a, a, By3(a), Xtime(a), Xtime(b), b, b, By3(b), By3(c), Xtime(c), c, c, d, By3(d), Xtime(d), d);
    Unmix(a, By3(a), Xtime(a), a, b, b, By3(b), Xtime(b), Xtime(c), c, c, By3(c), By3(d), Xtime(d), d, d);
    Unmix(By3(a), Xtime(a), a, a, b, By3(b), Xtime(b), b, c, c, By3(c), Xtime(c), Xtime(d), d, d, By3(d));
  }

  lemma InvMixUndoesMix(w: bv32)
    ensures InvMixColumn(MixColumn(w)) == w
  {
    hide InvMixRow, Word, B0, B1, B2, B3, Xtime, By3, Plus4;
    var a, b, c, d := B0(w), B1(w), B2(w), B3(w);
    WordBytes(Plus4(Xtime(a), By3(b), c, d), Plus4(a, Xtime(b), By3(c), d),
         Plus4(a, b, Xtime(c), By3(d)), Plus4(By3(a), b, c, Xtime(d)));
    RowInverse(a, b, c, d);
    BytesWord(w);
  }

  lemma XorEachByte(v: bv32, w: bv32)
    ensures B0(v ^ w) == B0(v) ^ B0(w) && B1(v ^ w) == B1(v) ^ B1(w)
    ensures B2(v ^ w) == B2(v) ^ B2(w) && B3(v ^ w) == B3(v) ^ B3(w)
  {}

  lemma XorBytes(v: bv32, w: bv32)
    ensures B0(PlusWord(v, w)) == Plus(B0(v), B0(w)) && B1(PlusWord(v, w)) == Plus(B1(v), B1(w))
    ensures B2(PlusWord(v, w)) == Plus(B2(v), B2(w)) && B3(PlusWord(v, w)) == Plus(B3(v), B3(w))
  {
    hide B0, B1, B2, B3;
    XorEachByte(v, w);
  }

  lemma XorWord(a: bv8, b: bv8, c: bv8, d: bv8, a': bv8, b': bv8, c': bv8, d': bv8)
    ensures Word(Plus(a, a'), Plus(b, b'), Plus(c, c'), Plus(d, d')) == PlusWord(Word(a, b, c, d), Word(a', b', c', d'))
  {}

  lemma InvMixLinear(v: bv32, w: bv32)
    ensures InvMixColumn(PlusWord(v, w)) == PlusWord(InvMixColumn(v), InvMixColumn(w))
  {
    hide InvMixRow, Word, B0, B1, B2, B3, Plus, PlusWord;
    XorBytes(v, w);
    var a, b, c, d := B0(v), B1(v), B2(v), B3(v);
    var a', b', c', d' := B0(w), B1(w), B2(w), B3(w);
    InvRowLinear(a, b, c, d, a', b', c', d'); InvRowLinear(b, c, d, a, b', c', d', a');
    InvRowLinear(c, d, a, b, c', d', a', b'); InvRowLinear(d, a, b, c, d', a', b', c');
    XorWord(InvMixRow(a, b, c, d), InvMixRow(b, c, d, a), InvMixRow(c, d, a, b), InvMixRow(d, a, b, c),
      InvMixRow(a', b', c', d'), InvMixRow(b', c', d', a'), InvMixRow(c', d', a', b'), InvMixRow(d', a', b', c'));
  }
}

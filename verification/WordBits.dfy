// Single bits of 32-bit words.
module WordBits {
  function Xor(a: bv32, b: bv32): bv32 { a ^ b }
  function Or(a: bv32, b: bv32): bv32 { a | b }
  function And(a: bv32, b: bv32): bv32 { a & b }
  predicate Meets(w: bv32, m: bv32) { And(w, m) != 0 }
  predicate Apart(m: bv32, n: bv32) { m & n == 0 }

  // n is the mask of the next bit.
  predicate Next(m: bv32, n: bv32) { m & 0x80000000 == 0 && n == m << 1 }

  // Of w the mask picks nothing or itself, as one of a single bit does.
  predicate Picks(w: bv32, m: bv32) { m != 0 && (And(w, m) == 0 || And(w, m) == m) }

  lemma Distributes(a: bv32, b: bv32, m: bv32)
    ensures (a ^ b) & m == (a & m) ^ (b & m)
  {}

  lemma XorMasked(a: bv32, b: bv32, m: bv32)
    ensures And(Xor(a, b), m) == Xor(And(a, m), And(b, m))
  {
    Distributes(a, b, m);
  }

  lemma MeetsXor(a: bv32, b: bv32, m: bv32)
    requires Picks(a, m) && Picks(b, m)
    ensures Meets(Xor(a, b), m) <==> Meets(a, m) != Meets(b, m)
  {
    hide Xor, And;
    XorMasked(a, b, m);
    XorAgain(0);
    XorAgain(m);
    XorSwaps(0, m);
  }

  lemma MeetsOr(r: bv32, m: bv32, n: bv32)
    requires Apart(m, n)
    ensures Meets(Or(r, m), n) == Meets(r, n)
  {}

  lemma MeetsOred(r: bv32, m: bv32)
    requires m != 0
    ensures Meets(Or(r, m), m)
  {}

  lemma MeetsShifted(w: bv32, m: bv32, n: bv32)
    requires Next(m, n)
    ensures Meets(w >> 1, m) == Meets(w, n)
  {}

  lemma ApartBoth(m: bv32, n: bv32)
    ensures Apart(m, n) == Apart(n, m)
  {}

  lemma ApartDoubled(a: bv32, b: bv32, c: bv32, d: bv32)
    requires Apart(a, b) && Next(a, c) && Next(b, d)
    ensures Apart(c, d)
  {}

  lemma XorGroups(a: bv32, b: bv32, c: bv32)
    ensures Xor(a, Xor(b, c)) == Xor(Xor(a, b), c)
  {}

  lemma XorSwaps(a: bv32, b: bv32)
    ensures Xor(a, b) == Xor(b, a)
  {}

  lemma XorAgain(a: bv32)
    ensures Xor(a, a) == 0 && Xor(a, 0) == a
  {}

  lemma XorLaws(a: bv32, b: bv32, c: bv32)
    ensures Xor(Xor(a, c), Xor(b, c)) == Xor(a, b) && Xor(Xor(a, c), b) == Xor(Xor(a, b), c)
    ensures Xor(a, Xor(b, c)) == Xor(Xor(a, b), c)
  {
    hide Xor;
    XorGroups(a, b, c);
    XorGroups(a, c, b);
    XorSwaps(b, c);
    XorGroups(Xor(a, b), c, c);
    XorAgain(c);
    XorAgain(Xor(a, b));
    XorGroups(Xor(a, c), b, c);
  }
}

// The table-driven CRC-8 and its checks.
module Crc8 {
  import opened ByteTable

  function Row(h: bv8): bv128 {
    if h == 0x0 then 0x0091e372_0796e475_0e9fed7c_0998ea7b
    else if h == 0x1 then 0x1c8dff6e_1b8af869_1283f160_1584f667
    else if h == 0x2 then 0x38a9db4a_3faedc4d_36a7d544_31a0d243
    else if h == 0x3 then 0x24b5c756_23b2c051_2abbc958_2dbcce5f
    else if h == 0x4 then 0x70e19302_77e69405_7eef9d0c_79e89a0b
    else if h == 0x5 then 0x6cfd8f1e_6bfa8819_62f38110_65f48617
    else if h == 0x6 then 0x48d9ab3a_4fdeac3d_46d7a534_41d0a233
    else if h == 0x7 then 0x54c5b726_53c2b021_5acbb928_5dccbe2f
    else if h == 0x8 then 0xe0710392_e7760495_ee7f0d9c_e9780a9b
    else if h == 0x9 then 0xfc6d1f8e_fb6a1889_f2631180_f5641687
    else if h == 0xa then 0xd8493baa_df4e3cad_d64735a4_d14032a3
    else if h == 0xb then 0xc45527b6_c35220b1_ca5b29b8_cd5c2ebf
    else if h == 0xc then 0x900173e2_970674e5_9e0f7dec_99087aeb
    else if h == 0xd then 0x8c1d6ffe_8b1a68f9_821361f0_851466f7
    else if h == 0xe then 0xa8394bda_af3e4cdd_a63745d4_a13042d3
    else 0xb42557c6_b32250c1_ba2b59c8_bd2c5ecf
  }

  function Table(x: bv8): bv8 { Entry(Row(x >> 4), x) }
  function Xor(a: bv8, b: bv8): bv8 { a ^ b }

  // One shift of the serial register: towards bit 0, the reflected generator 0xE0 added if a one
  // falls out.  Back undoes it.
  function Shift(x: bv8): bv8 { if x & 1 == 1 then (x >> 1) ^ 0xe0 else x >> 1 }
  function Shifts(x: bv8, n: nat): bv8 { if n == 0 then x else Shift(Shifts(x, n - 1)) }
  function Back(y: bv8): bv8 { if y & 0x80 == 0x80 then ((y ^ 0xe0) << 1) | 1 else y << 1 }

  function Backs(y: bv8, n: nat): bv8
    decreases n
  {
    if n == 0 then y else Backs(Back(y), n - 1)
  }

  lemma EightShifts(x: bv8)
    ensures Shifts(x, 8) == Shift(Shift(Shift(Shift(Shift(Shift(Shift(Shift(x))))))))
  {
    hide Shift;
    assert Shifts(x, 2) == Shift(Shift(x)) by { assert Shifts(x, 1) == Shift(Shifts(x, 0)); }
    assert Shifts(x, 4) == Shift(Shift(Shift(Shift(x)))) by { assert Shifts(x, 3) == Shift(Shifts(x, 2)); }
    assert Shifts(x, 6) == Shift(Shift(Shifts(x, 4))) by { assert Shifts(x, 5) == Shift(Shifts(x, 4)); }
    assert Shifts(x, 8) == Shift(Shift(Shifts(x, 6))) by { assert Shifts(x, 7) == Shift(Shifts(x, 6)); }
  }

  lemma TableLow(x: bv8)
    requires x < 0x80
    ensures Table(x) == Shift(Shift(Shift(Shift(Shift(Shift(Shift(Shift(x))))))))
  {}

  lemma TableHigh(x: bv8)
    requires x >= 0x80
    ensures Table(x) == Shift(Shift(Shift(Shift(Shift(Shift(Shift(Shift(x))))))))
  {}

  // One step of the table is eight shifts.
  lemma TableIsShifts(x: bv8)
    ensures Table(x) == Shifts(x, 8)
  {
    hide Table, Shift, Shifts;
    EightShifts(x);
    if x < 0x80 { TableLow(x); } else { TableHigh(x); }
  }

  lemma BackUndoes(x: bv8)
    ensures Back(Shift(x)) == x
  {}

  lemma {:induction false} BacksUndo(x: bv8, n: nat)
    ensures Backs(Shifts(x, n), n) == x
  {
    hide Back, Shift;
    if n > 0 {
      BackUndoes(Shifts(x, n - 1));
      BacksUndo(x, n - 1);
    }
  }

  lemma TableInjective(x: bv8, y: bv8)
    requires Table(x) == Table(y)
    ensures x == y
  {
    hide Table, Shifts, Backs;
    TableIsShifts(x);
    TableIsShifts(y);
    BacksUndo(x, 8);
    BacksUndo(y, 8);
  }

  lemma XorInjective(a: bv8, x: bv8, y: bv8)
    requires Xor(a, x) == Xor(a, y)
    ensures x == y
  {}

  lemma XorSame(a: bv8, x: bv8)
    ensures Xor(a, x) == 0 <==> x == a
    ensures Xor(a, x) == Xor(x, a)
  {}

  lemma TableZero()
    ensures Table(0) == 0
  {}

  // ---- messages --------------------------------------------------------------------------

  function Crc(crc: bv8, data: seq<bv8>): bv8 {
    if data == [] then crc else Table(Xor(Crc(crc, data[..|data| - 1]), data[|data| - 1]))
  }

  // The serial CRC: every byte is added and shifted eight times.
  function SerialCrc(crc: bv8, data: seq<bv8>): bv8 {
    if data == [] then crc else Shifts(Xor(SerialCrc(crc, data[..|data| - 1]), data[|data| - 1]), 8)
  }

  lemma {:induction false} CrcIsSerial(crc: bv8, data: seq<bv8>)
    ensures Crc(crc, data) == SerialCrc(crc, data)
  {
    hide Table, Shifts, Xor;
    if data != [] {
      CrcIsSerial(crc, data[..|data| - 1]);
      TableIsShifts(Xor(Crc(crc, data[..|data| - 1]), data[|data| - 1]));
    }
  }

  // Computed in pieces it is what it is computed at once.
  lemma {:induction false} CrcInPieces(crc: bv8, a: seq<bv8>, b: seq<bv8>)
    ensures Crc(crc, a + b) == Crc(Crc(crc, a), b)
    decreases |b|
  {
    hide Table, Xor;
    if b == [] {
      assert a + b == a;
    } else {
      var n := |b| - 1;
      assert (a + b)[..|a| + n] == a + b[..n];
      CrcInPieces(crc, a, b[..n]);
    }
  }

  lemma CrcOfByte(crc: bv8, x: bv8)
    ensures Crc(crc, [x]) == Table(Xor(crc, x))
  {
    assert [x][..0] == [];
  }

  lemma {:induction false} CrcInjective(a: bv8, b: bv8, data: seq<bv8>)
    requires Crc(a, data) == Crc(b, data)
    ensures a == b
    decreases |data|
  {
    hide Table, Xor;
    if data != [] {
      var n := |data| - 1;
      var x, y := Crc(a, data[..n]), Crc(b, data[..n]);
      TableInjective(Xor(x, data[n]), Xor(y, data[n]));
      XorSame(x, data[n]);
      XorSame(y, data[n]);
      XorInjective(data[n], x, y);
      CrcInjective(a, b, data[..n]);
    }
  }

  // Two messages of the same length that differ in exactly one byte never share a CRC.
  lemma OneByteDetected(crc: bv8, a: seq<bv8>, x: bv8, y: bv8, b: seq<bv8>)
    ensures Crc(crc, a + [x] + b) == Crc(crc, a + [y] + b) <==> x == y
  {
    hide Table, Xor, Crc;
    var c := Crc(crc, a);
    CrcInPieces(crc, a + [x], b);
    CrcInPieces(crc, a + [y], b);
    CrcInPieces(crc, a, [x]);
    CrcInPieces(crc, a, [y]);
    CrcOfByte(c, x);
    CrcOfByte(c, y);
    if Crc(crc, a + [x] + b) == Crc(crc, a + [y] + b) {
      CrcInjective(Crc(crc, a + [x]), Crc(crc, a + [y]), b);
      TableInjective(Xor(c, x), Xor(c, y));
      XorInjective(c, x, y);
    }
  }

  // Data followed by one byte checks out exactly when that byte is the CRC of the data.
  lemma ChecksExactly(data: seq<bv8>, x: bv8)
    ensures Crc(0, data + [x]) == 0 <==> x == Crc(0, data)
  {
    hide Table, Xor, Crc;
    var c := Crc(0, data);
    CrcInPieces(0, data, [x]);
    CrcOfByte(c, x);
    TableZero();
    XorSame(c, x);
    if Table(Xor(c, x)) == 0 { TableInjective(Xor(c, x), 0); }
  }

  method CalculateCrc8(crc8: bv8, ptr: seq<bv8>) returns (crc: bv8)
    ensures crc == SerialCrc(crc8, ptr)
  {
    hide Table, Xor, SerialCrc;
    crc := crc8;
    var i := 0;
    while i < |ptr|
      invariant 0 <= i <= |ptr| && crc == Crc(crc8, ptr[..i])
    {
      assert ptr[..i + 1][..i] == ptr[..i];
      crc := Table(Xor(crc, ptr[i]));
      i := i + 1;
    }
    assert ptr[..|ptr|] == ptr;
    CrcIsSerial(crc8, ptr);
  }

  method GetCrc8(ptr: seq<bv8>) returns (crc: bv8)
    ensures crc == SerialCrc(0, ptr)
  {
    crc := CalculateCrc8(0, ptr);
  }

  // 0 if the data with its trailing CRC byte checks out, -1 if not.
  method ChkCrc8(ptr: seq<bv8>) returns (result: int)
    ensures result == 0 || result == -1
    ensures ptr != [] ==> (result == 0 <==> ptr[|ptr| - 1] == SerialCrc(0, ptr[..|ptr| - 1]))
    ensures ptr == [] ==> result == 0
  {
    hide SerialCrc, Crc;
    var crc := CalculateCrc8(0, ptr);
    if ptr != [] {
      assert ptr == ptr[..|ptr| - 1] + [ptr[|ptr| - 1]];
      ChecksExactly(ptr[..|ptr| - 1], ptr[|ptr| - 1]);
      CrcIsSerial(0, ptr);
      CrcIsSerial(0, ptr[..|ptr| - 1]);
    } else {
      SerialOfNothing();
    }
    result := if crc == 0 then 0 else -1;
  }

  lemma SerialOfNothing()
    ensures SerialCrc(0, []) == 0
  {}

  // ---- a check value ---------------------------------------------------------------------

  // The digits from 1 to 9.
  const DIGITS: seq<bv8> := [49, 50, 51, 52, 53, 54, 55, 56, 57]

  lemma NextByte(data: seq<bv8>, k: nat, c: bv8, b: bv8)
    requires k < |data| && Crc(0, data[..k]) == c && b == Table(Xor(c, data[k]))
    ensures Crc(0, data[..k + 1]) == b
  {
    hide Table, Xor;
    assert data[..k + 1][..k] == data[..k];
  }

  lemma CheckValue()
    ensures SerialCrc(0, DIGITS) == 0x20
  {
    hide SerialCrc, Crc;
    SerialOfNothing();
    assert DIGITS[..0] == [] && DIGITS[..9] == DIGITS;
    CrcIsSerial(0, []);
    NextByte(DIGITS, 0, 0x00, 0xb5);
    NextByte(DIGITS, 1, 0xb5, 0x95);
    NextByte(DIGITS, 2, 0x95, 0x3c);
    NextByte(DIGITS, 3, 0x3c, 0x0e);
    NextByte(DIGITS, 4, 0x0e, 0x58);
    NextByte(DIGITS, 5, 0x58, 0xa2);
    NextByte(DIGITS, 6, 0xa2, 0x6a);
    NextByte(DIGITS, 7, 0x6a, 0x8f);
    NextByte(DIGITS, 8, 0x8f, 0x20);
    CrcIsSerial(0, DIGITS);
  }
}

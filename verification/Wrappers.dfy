// What several modules share.
module Wrappers {
  datatype Option<+T> = None | Some(value: T)

  function Min(a: nat, b: nat): nat { if a <= b then a else b }

  // A signed number of 16 bits.
  function Wrap16(x: int): (r: int)
    ensures -0x8000 <= r < 0x8000 && (-0x8000 <= x < 0x8000 ==> r == x)
  {
    (x + 0x8000) % 0x10000 - 0x8000
  }
}

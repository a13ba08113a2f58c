// Tables of 256 bytes, held as sixteen rows of sixteen.
module ByteTable {
  // The entry of a row that the low half of x selects, the first entry leftmost.
  function Entry(row: bv128, x: bv8): bv8 {
    var half := if x & 8 == 0 then (row >> 64) as bv64 else (row & 0xffff_ffff_ffff_ffff) as bv64;
    var quarter := if x & 4 == 0 then (half >> 32) as bv32 else (half & 0xffff_ffff) as bv32;
    var pair := if x & 2 == 0 then (quarter >> 16) as bv16 else (quarter & 0xffff) as bv16;
    if x & 1 == 0 then (pair >> 8) as bv8 else (pair & 0xff) as bv8
  }
}

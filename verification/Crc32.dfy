/** src/crc32.c: the table-driven CRC-32 is the bit-by-bit one of RFC 1952, section 8. Operations on
    registers have names here, so that proofs about the one need not look inside the other. */
module Crc32 {
  const POLYNOMIAL: bv32 := 0xEDB88320

  function Xor(x: bv32, y: bv32): bv32 { x ^ y }

  function Mask(x: bv32): bv32 { x ^ 0xFFFF_FFFF }

  /** The register with a byte, or a bit, in its low end. */
  function With(r: bv32, b: bv8): bv32 { r ^ (b as bv32) }

  function WithBit(r: bv32, bit: bool): bv32 { if bit then r ^ 1 else r }

  function LowBit(b: bv8): bool { b & 1 == 1 }

  function OtherBits(b: bv8): bv8 { b >> 1 }

  function LowByte(x: bv32): bv32 { x & 0xff }

  function OtherBytes(x: bv32): bv32 { x >> 8 }

  // ---------------------------------------------------------------- bit by bit

  /** One bit leaves the register at the low end. */
  function Shift(r: bv32): bv32 { if Odd(r) then Xor(Half(r), POLYNOMIAL) else Half(r) }

  predicate Odd(r: bv32) { r & 1 == 1 }

  function Half(r: bv32): bv32 { r >> 1 }

  function Shifts(r: bv32, n: nat): bv32
    decreases n
  {
    if n == 0 then r else Shifts(Shift(r), n - 1)
  }

  /** The bits of a message: each byte's low bit first. */
  function BitsOf(b: bv8, n: nat): seq<bool>
    requires n <= 8
  {
    if n == 0 then [] else [LowBit(b)] + BitsOf(OtherBits(b), n - 1)
  }

  function Bits(buf: seq<bv8>): seq<bool> {
    if buf == [] then [] else Bits(buf[..|buf| - 1]) + BitsOf(buf[|buf| - 1], 8)
  }

  /** The register after a message, one bit at a time. */
  function Feed(r: bv32, bits: seq<bool>): bv32
    decreases |bits|
  {
    if bits == [] then r else Feed(Shift(WithBit(r, bits[0])), bits[1..])
  }

  function Crc(buf: seq<bv8>): bv32 { Mask(Feed(0xFFFF_FFFF, Bits(buf))) }

  // ---------------------------------------------------------------- the table

  // crc32tab, sixteen entries a row
  const ROW_0: seq<bv32> := [
    0x00000000, 0x77073096, 0xee0e612c, 0x990951ba, 0x076dc419, 0x706af48f, 0xe963a535, 0x9e6495a3,
    0x0edb8832, 0x79dcb8a4, 0xe0d5e91e, 0x97d2d988, 0x09b64c2b, 0x7eb17cbd, 0xe7b82d07, 0x90bf1d91]
  const ROW_1: seq<bv32> := [
    0x1db71064, 0x6ab020f2, 0xf3b97148, 0x84be41de, 0x1adad47d, 0x6ddde4eb, 0xf4d4b551, 0x83d385c7,
    0x136c9856, 0x646ba8c0, 0xfd62f97a, 0x8a65c9ec, 0x14015c4f, 0x63066cd9, 0xfa0f3d63, 0x8d080df5]
  const ROW_2: seq<bv32> := [
    0x3b6e20c8, 0x4c69105e, 0xd56041e4, 0xa2677172, 0x3c03e4d1, 0x4b04d447, 0xd20d85fd, 0xa50ab56b,
    0x35b5a8fa, 0x42b2986c, 0xdbbbc9d6, 0xacbcf940, 0x32d86ce3, 0x45df5c75, 0xdcd60dcf, 0xabd13d59]
  const ROW_3: seq<bv32> := [
    0x26d930ac, 0x51de003a, 0xc8d75180, 0xbfd06116, 0x21b4f4b5, 0x56b3c423, 0xcfba9599, 0xb8bda50f,
    0x2802b89e, 0x5f058808, 0xc60cd9b2, 0xb10be924, 0x2f6f7c87, 0x58684c11, 0xc1611dab, 0xb6662d3d]
  const ROW_4: seq<bv32> := [
    0x76dc4190, 0x01db7106, 0x98d220bc, 0xefd5102a, 0x71b18589, 0x06b6b51f, 0x9fbfe4a5, 0xe8b8d433,
    0x7807c9a2, 0x0f00f934, 0x9609a88e, 0xe10e9818, 0x7f6a0dbb, 0x086d3d2d, 0x91646c97, 0xe6635c01]
  const ROW_5: seq<bv32> := [
    0x6b6b51f4, 0x1c6c6162, 0x856530d8, 0xf262004e, 0x6c0695ed, 0x1b01a57b, 0x8208f4c1, 0xf50fc457,
    0x65b0d9c6, 0x12b7e950, 0x8bbeb8ea, 0xfcb9887c, 0x62dd1ddf, 0x15da2d49, 0x8cd37cf3, 0xfbd44c65]
  const ROW_6: seq<bv32> := [
    0x4db26158, 0x3ab551ce, 0xa3bc0074, 0xd4bb30e2, 0x4adfa541, 0x3dd895d7, 0xa4d1c46d, 0xd3d6f4fb,
    0x4369e96a, 0x346ed9fc, 0xad678846, 0xda60b8d0, 0x44042d73, 0x33031de5, 0xaa0a4c5f, 0xdd0d7cc9]
  const ROW_7: seq<bv32> := [
    0x5005713c, 0x270241aa, 0xbe0b1010, 0xc90c2086, 0x5768b525, 0x206f85b3, 0xb966d409, 0xce61e49f,
    0x5edef90e, 0x29d9c998, 0xb0d09822, 0xc7d7a8b4, 0x59b33d17, 0x2eb40d81, 0xb7bd5c3b, 0xc0ba6cad]
  const ROW_8: seq<bv32> := [
    0xedb88320, 0x9abfb3b6, 0x03b6e20c, 0x74b1d29a, 0xead54739, 0x9dd277af, 0x04db2615, 0x73dc1683,
    0xe3630b12, 0x94643b84, 0x0d6d6a3e, 0x7a6a5aa8, 0xe40ecf0b, 0x9309ff9d, 0x0a00ae27, 0x7d079eb1]
  const ROW_9: seq<bv32> := [
    0xf00f9344, 0x8708a3d2, 0x1e01f268, 0x6906c2fe, 0xf762575d, 0x806567cb, 0x196c3671, 0x6e6b06e7,
    0xfed41b76, 0x89d32be0, 0x10da7a5a, 0x67dd4acc, 0xf9b9df6f, 0x8ebeeff9, 0x17b7be43, 0x60b08ed5]
  const ROW_A: seq<bv32> := [
    0xd6d6a3e8, 0xa1d1937e, 0x38d8c2c4, 0x4fdff252, 0xd1bb67f1, 0xa6bc5767, 0x3fb506dd, 0x48b2364b,
    0xd80d2bda, 0xaf0a1b4c, 0x36034af6, 0x41047a60, 0xdf60efc3, 0xa867df55, 0x316e8eef, 0x4669be79]
  const ROW_B: seq<bv32> := [
    0xcb61b38c, 0xbc66831a, 0x256fd2a0, 0x5268e236, 0xcc0c7795, 0xbb0b4703, 0x220216b9, 0x5505262f,
    0xc5ba3bbe, 0xb2bd0b28, 0x2bb45a92, 0x5cb36a04, 0xc2d7ffa7, 0xb5d0cf31, 0x2cd99e8b, 0x5bdeae1d]
  const ROW_C: seq<bv32> := [
    0x9b64c2b0, 0xec63f226, 0x756aa39c, 0x026d930a, 0x9c0906a9, 0xeb0e363f, 0x72076785, 0x05005713,
    0x95bf4a82, 0xe2b87a14, 0x7bb12bae, 0x0cb61b38, 0x92d28e9b, 0xe5d5be0d, 0x7cdcefb7, 0x0bdbdf21]
  const ROW_D: seq<bv32> := [
    0x86d3d2d4, 0xf1d4e242, 0x68ddb3f8, 0x1fda836e, 0x81be16cd, 0xf6b9265b, 0x6fb077e1, 0x18b74777,
    0x88085ae6, 0xff0f6a70, 0x66063bca, 0x11010b5c, 0x8f659eff, 0xf862ae69, 0x616bffd3, 0x166ccf45]
  const ROW_E: seq<bv32> := [
    0xa00ae278, 0xd70dd2ee, 0x4e048354, 0x3903b3c2, 0xa7672661, 0xd06016f7, 0x4969474d, 0x3e6e77db,
    0xaed16a4a, 0xd9d65adc, 0x40df0b66, 0x37d83bf0, 0xa9bcae53, 0xdebb9ec5, 0x47b2cf7f, 0x30b5ffe9]
  const ROW_F: seq<bv32> := [
    0xbdbdf21c, 0xcabac28a, 0x53b39330, 0x24b4a3a6, 0xbad03605, 0xcdd70693, 0x54de5729, 0x23d967bf,
    0xb3667a2e, 0xc4614ab8, 0x5d681b02, 0x2a6f2b94, 0xb40bbe37, 0xc30c8ea1, 0x5a05df1b, 0x2d02ef8d]

  const ROWS: seq<seq<bv32>> := [
    ROW_0, ROW_1, ROW_2, ROW_3, ROW_4, ROW_5, ROW_6, ROW_7,
    ROW_8, ROW_9, ROW_A, ROW_B, ROW_C, ROW_D, ROW_E, ROW_F]

  function Table(i: int): bv32
    requires 0 <= i < 256
  {
    RowLengths();
    ROWS[i / 16][i % 16]
  }

  lemma {:induction false} RowLengths()
    ensures forall k :: 0 <= k < 16 ==> |ROWS[k]| == 16
  {
  }

  /** One byte at a time: crc32tab[(crc ^ buf[i]) & 0xff] ^ (crc >> 8). */
  function Update(r: bv32, b: bv8): bv32 {
    LowByteIsIndex(With(r, b));
    Xor(Table(LowByte(With(r, b)) as int), OtherBytes(r))
  }

  lemma {:induction false} LowByteIsIndex(x: bv32)
    ensures LowByte(x) < 256 && 0 <= LowByte(x) as int < 256
  {
  }

  function Updates(r: bv32, buf: seq<bv8>): bv32
    decreases |buf|
  {
    if buf == [] then r else Update(Updates(r, buf[..|buf| - 1]), buf[|buf| - 1])
  }

  // ---------------------------------------------------------------- shifting is linear

  lemma {:induction false} HalfXor(x: bv32, y: bv32)
    ensures Half(Xor(x, y)) == Xor(Half(x), Half(y))
  {
  }

  lemma {:induction false} OddXor(x: bv32, y: bv32)
    ensures Odd(Xor(x, y)) == (Odd(x) != Odd(y))
  {
  }

  lemma {:induction false} XorMoves(a: bv32, b: bv32, p: bv32)
    ensures Xor(Xor(a, b), p) == Xor(Xor(a, p), b) == Xor(a, Xor(b, p))
  {
  }

  lemma {:induction false} XorTwice(a: bv32, b: bv32, p: bv32)
    ensures Xor(Xor(a, p), Xor(b, p)) == Xor(a, b)
  {
    hide Xor;
    XorMoves(Xor(a, p), b, p);
    XorMoves(a, b, p);
    XorBack(Xor(a, b), p);
  }

  lemma {:induction false} XorBack(x: bv32, p: bv32)
    ensures Xor(Xor(x, p), p) == x
  {
  }

  lemma {:induction false} ShiftXor(x: bv32, y: bv32)
    ensures Shift(Xor(x, y)) == Xor(Shift(x), Shift(y))
  {
    hide Xor;
    hide Odd;
    hide Half;
    HalfXor(x, y);
    OddXor(x, y);
    XorMoves(Half(x), Half(y), POLYNOMIAL);
    XorTwice(Half(x), Half(y), POLYNOMIAL);
  }

  function Shift2(r: bv32): bv32 { Shift(Shift(r)) }

  function Shift4(r: bv32): bv32 { Shift2(Shift2(r)) }

  function Shift8(r: bv32): bv32 { Shift4(Shift4(r)) }

  lemma {:induction false} Shift2Xor(x: bv32, y: bv32)
    ensures Shift2(Xor(x, y)) == Xor(Shift2(x), Shift2(y))
  {
    hide Shift;
    hide Xor;
    ShiftXor(x, y);
    ShiftXor(Shift(x), Shift(y));
  }

  lemma {:induction false} Shift4Xor(x: bv32, y: bv32)
    ensures Shift4(Xor(x, y)) == Xor(Shift4(x), Shift4(y))
  {
    hide Shift2;
    hide Xor;
    Shift2Xor(x, y);
    Shift2Xor(Shift2(x), Shift2(y));
  }

  lemma {:induction false} Shift8Xor(x: bv32, y: bv32)
    ensures Shift8(Xor(x, y)) == Xor(Shift8(x), Shift8(y))
  {
    hide Shift4;
    hide Xor;
    Shift4Xor(x, y);
    Shift4Xor(Shift4(x), Shift4(y));
  }

  lemma {:induction false} Shift2High(x: bv32)
    requires x & 3 == 0
    ensures Shift2(x) == x >> 2
  {
  }

  lemma {:induction false} Shift4High(x: bv32)
    requires x & 15 == 0
    ensures Shift4(x) == x >> 4
  {
    hide Shift2;
    assert x & 3 == 0 && (x >> 2) & 3 == 0 && (x >> 2) >> 2 == x >> 4;
    Shift2High(x);
    Shift2High(x >> 2);
  }

  /** Eight shifts of a register whose low byte is zero only move it. */
  lemma {:induction false} Shift8High(x: bv32)
    requires x & 0xff == 0
    ensures Shift8(x) == OtherBytes(x)
  {
    hide Shift4;
    assert x & 15 == 0 && (x >> 4) & 15 == 0 && (x >> 4) >> 4 == x >> 8;
    Shift4High(x);
    Shift4High(x >> 4);
  }

  // ---------------------------------------------------------------- the table is right

  /** A row, given its first entry: the others differ from it as those of the first row from 0. */
  function Alike(x: bv32): seq<bv32> {
    [Xor(x, ROW_0[0]), Xor(x, ROW_0[1]), Xor(x, ROW_0[2]), Xor(x, ROW_0[3]),
     Xor(x, ROW_0[4]), Xor(x, ROW_0[5]), Xor(x, ROW_0[6]), Xor(x, ROW_0[7]),
     Xor(x, ROW_0[8]), Xor(x, ROW_0[9]), Xor(x, ROW_0[10]), Xor(x, ROW_0[11]),
     Xor(x, ROW_0[12]), Xor(x, ROW_0[13]), Xor(x, ROW_0[14]), Xor(x, ROW_0[15])]
  }

  lemma {:induction false} RowsFrom00()
    ensures ROW_0[0] == Shift8(0x00) && ROW_0 == Alike(ROW_0[0])
    ensures ROW_1[0] == Shift8(0x10) && ROW_1 == Alike(ROW_1[0])
    ensures ROW_2[0] == Shift8(0x20) && ROW_2 == Alike(ROW_2[0])
    ensures ROW_3[0] == Shift8(0x30) && ROW_3 == Alike(ROW_3[0])
  {
  }

  lemma {:induction false} RowsFrom40()
    ensures ROW_4[0] == Shift8(0x40) && ROW_4 == Alike(ROW_4[0])
    ensures ROW_5[0] == Shift8(0x50) && ROW_5 == Alike(ROW_5[0])
    ensures ROW_6[0] == Shift8(0x60) && ROW_6 == Alike(ROW_6[0])
    ensures ROW_7[0] == Shift8(0x70) && ROW_7 == Alike(ROW_7[0])
  {
  }

  lemma {:induction false} RowsFrom80()
    ensures ROW_8[0] == Shift8(0x80) && ROW_8 == Alike(ROW_8[0])
    ensures ROW_9[0] == Shift8(0x90) && ROW_9 == Alike(ROW_9[0])
    ensures ROW_A[0] == Shift8(0xA0) && ROW_A == Alike(ROW_A[0])
    ensures ROW_B[0] == Shift8(0xB0) && ROW_B == Alike(ROW_B[0])
  {
  }

  lemma {:induction false} RowsFromC0()
    ensures ROW_C[0] == Shift8(0xC0) && ROW_C == Alike(ROW_C[0])
    ensures ROW_D[0] == Shift8(0xD0) && ROW_D == Alike(ROW_D[0])
    ensures ROW_E[0] == Shift8(0xE0) && ROW_E == Alike(ROW_E[0])
    ensures ROW_F[0] == Shift8(0xF0) && ROW_F == Alike(ROW_F[0])
  {
  }

  lemma {:induction false} FirstRowFrom0()
    ensures ROW_0[0] == Shift8(0) && ROW_0[1] == Shift8(1)
  {
  }

  lemma {:induction false} FirstRowFrom2()
    ensures ROW_0[2] == Shift8(2) && ROW_0[3] == Shift8(3)
  {
  }

  lemma {:induction false} FirstRowFrom4()
    ensures ROW_0[4] == Shift8(4) && ROW_0[5] == Shift8(5) && ROW_0[6] == Shift8(6) && ROW_0[7] == Shift8(7)
  {
  }

  lemma {:induction false} FirstRowFrom8()
    ensures ROW_0[8] == Shift8(8) && ROW_0[9] == Shift8(9) && ROW_0[10] == Shift8(10) && ROW_0[11] == Shift8(11)
  {
  }

  lemma {:induction false} FirstRowFrom12()
    ensures ROW_0[12] == Shift8(12) && ROW_0[13] == Shift8(13) && ROW_0[14] == Shift8(14) && ROW_0[15] == Shift8(15)
  {
  }

  function LowNibble(x: bv32): bv32 { x & 15 }

  function HighNibble(x: bv32): bv32 { (x & 0xff) >> 4 }

  function HighPart(x: bv32): bv32 { x & 0xf0 }

  lemma {:induction false} Sixteen(x: bv32)
    requires x < 16
    ensures x == 0 || x == 1 || x == 2 || x == 3 || x == 4 || x == 5 || x == 6 || x == 7
            || x == 8 || x == 9 || x == 10 || x == 11 || x == 12 || x == 13 || x == 14 || x == 15
    ensures 0 <= x as int < 16
  {
  }

  lemma {:induction false} Nibbles(x: bv32)
    requires x < 256
    ensures HighNibble(x) < 16 && LowNibble(x) < 16 && x == Xor(HighPart(x), LowNibble(x)) && HighPart(x) == HighNibble(x) << 4
    ensures 0 <= x as int < 256 && x as int == 16 * (HighNibble(x) as int) + (LowNibble(x) as int)
    ensures 0 <= HighNibble(x) as int < 16 && 0 <= LowNibble(x) as int < 16
  {
  }

  lemma {:induction false} RowIs(hi: bv32)
    requires hi < 16
    ensures 0 <= hi as int < 16 && ROWS[hi as int] == Alike(Shift8(hi << 4))
  {
    hide Alike;
    hide Shift8;
    Sixteen(hi);
    RowsFrom00();
    RowsFrom40();
    RowsFrom80();
    RowsFromC0();
  }

  lemma {:induction false} FirstRow(lo: bv32)
    requires lo < 16
    ensures 0 <= lo as int < 16 && ROW_0[lo as int] == Shift8(lo)
  {
    hide Shift8;
    Sixteen(lo);
    FirstRowFrom0();
    FirstRowFrom2();
    FirstRowFrom4();
    FirstRowFrom8();
    FirstRowFrom12();
  }

  lemma {:induction false} AlikeAt(x: bv32, lo: bv32)
    requires lo < 16
    ensures 0 <= lo as int < 16 && Alike(x)[lo as int] == Xor(x, ROW_0[lo as int])
  {
    hide Xor;
    Sixteen(lo);
  }

  lemma {:induction false} TableAt(i: int, hi: int, lo: int)
    requires 0 <= i < 256 && i == 16 * hi + lo && 0 <= hi < 16 && 0 <= lo < 16
    ensures lo < |ROWS[hi]| && Table(i) == ROWS[hi][lo]
  {
    RowLengths();
    assert i / 16 == hi && i % 16 == lo;
  }

  /** Every entry is its index, shifted out bit by bit. */
  lemma {:induction false} TableIsRight(x: bv32)
    requires x < 256
    ensures 0 <= x as int < 256 && Table(x as int) == Shift8(x)
  {
    hide Shift8;
    hide Alike;
    hide Table;
    hide Xor;
    hide LowNibble;
    hide HighNibble;
    hide HighPart;
    Nibbles(x);
    TableAt(x as int, HighNibble(x) as int, LowNibble(x) as int);
    RowIs(HighNibble(x));
    AlikeAt(Shift8(HighPart(x)), LowNibble(x));
    FirstRow(LowNibble(x));
    Shift8Xor(HighPart(x), LowNibble(x));
  }

  // ---------------------------------------------------------------- a byte is eight bits

  function HighBytes(x: bv32): bv32 { x & 0xffff_ff00 }

  lemma {:induction false} ByteAndRest(x: bv32)
    ensures Xor(LowByte(x), HighBytes(x)) == x
    ensures HighBytes(x) & 0xff == 0 && OtherBytes(HighBytes(x)) == OtherBytes(x)
  {
  }

  lemma {:induction false} ByteStaysLow(r: bv32, b: bv8)
    ensures OtherBytes(With(r, b)) == OtherBytes(r)
  {
  }

  /** The table takes the register eight shifts on. */
  lemma {:induction false} UpdateIs(r: bv32, b: bv8)
    ensures Update(r, b) == Shift8(With(r, b))
  {
    hide Shift8;
    hide Table;
    hide Xor;
    hide With;
    hide LowByte;
    hide HighBytes;
    hide OtherBytes;
    var x := With(r, b);
    LowByteIsIndex(x);
    ByteAndRest(x);
    TableIsRight(LowByte(x));
    Shift8High(HighBytes(x));
    Shift8Xor(LowByte(x), HighBytes(x));
    ByteStaysLow(r, b);
  }

  predicate Fits(b: bv8, n: nat)
    decreases n
  {
    if n == 0 then b == 0 else Fits(OtherBits(b), n - 1)
  }

  lemma {:induction false} ByteFits(b: bv8)
    ensures Fits(b, 8)
  {
    assert b >> 8 == 0;
    assert (b >> 7) >> 1 == b >> 8 && (b >> 6) >> 1 == b >> 7 && (b >> 5) >> 1 == b >> 6 && (b >> 4) >> 1 == b >> 5;
    assert (b >> 3) >> 1 == b >> 4 && (b >> 2) >> 1 == b >> 3 && (b >> 1) >> 1 == b >> 2;
    assert Fits(b >> 8, 0);
    assert Fits(b >> 7, 1);
    assert Fits(b >> 6, 2);
    assert Fits(b >> 5, 3);
    assert Fits(b >> 4, 4);
    assert Fits(b >> 3, 5);
    assert Fits(b >> 2, 6);
    assert Fits(b >> 1, 7);
  }

  function Even(b: bv8): bv32 { (b as bv32) & 0xfe }

  lemma {:induction false} BitSplits(r: bv32, b: bv8)
    ensures With(r, b) == Xor(WithBit(r, LowBit(b)), Even(b))
  {
    hide Xor;
    hide With;
    hide WithBit;
    hide LowBit;
    hide Even;
    WithIsXor(r, b);
    EvenIs(b);
    XorSwap(r, Even(b), 1);
  }

  lemma {:induction false} WithIsXor(r: bv32, b: bv8)
    ensures With(r, b) == Xor(r, b as bv32) && WithBit(r, true) == Xor(r, 1) && WithBit(r, false) == r
  {
  }

  lemma {:induction false} EvenIs(b: bv8)
    ensures b as bv32 == if LowBit(b) then Xor(Even(b), 1) else Even(b)
  {
  }

  lemma {:induction false} XorSwap(x: bv32, y: bv32, z: bv32)
    ensures Xor(x, Xor(y, z)) == Xor(Xor(x, z), y)
  {
  }

  lemma {:induction false} EvenShifts(r: bv32, b: bv8)
    ensures Xor(r, Shift(Even(b))) == With(r, OtherBits(b))
  {
  }

  /** One turn of the bitwise loop on a byte that is already in the register. */
  lemma {:induction false} BitAndRest(r: bv32, b: bv8)
    ensures Shift(With(r, b)) == With(Shift(WithBit(r, LowBit(b))), OtherBits(b))
  {
    hide Shift;
    hide Xor;
    hide With;
    hide WithBit;
    hide LowBit;
    hide OtherBits;
    hide Even;
    BitSplits(r, b);
    ShiftXor(WithBit(r, LowBit(b)), Even(b));
    EvenShifts(Shift(WithBit(r, LowBit(b))), b);
  }

  lemma {:induction false} FeedByteBits(r: bv32, b: bv8, n: nat)
    requires n <= 8 && Fits(b, n)
    ensures Feed(r, BitsOf(b, n)) == Shifts(With(r, b), n)
    decreases n
  {
    if n == 0 {
      WithNothing(r, b);
    } else {
      hide Shift;
      hide With;
      hide WithBit;
      hide LowBit;
      hide OtherBits;
      BitAndRest(r, b);
      assert BitsOf(b, n)[1..] == BitsOf(OtherBits(b), n - 1);
      FeedByteBits(Shift(WithBit(r, LowBit(b))), OtherBits(b), n - 1);
    }
  }

  lemma {:induction false} WithNothing(r: bv32, b: bv8)
    requires b == 0
    ensures With(r, b) == r
  {
  }

  lemma {:induction false} ShiftsEight(r: bv32)
    ensures Shifts(r, 8) == Shift8(r)
  {
    hide Shift;
    assert Shifts(r, 8) == Shifts(Shift2(r), 6) == Shifts(Shift4(r), 4) == Shifts(Shift2(Shift4(r)), 2);
  }

  // ---------------------------------------------------------------- messages

  lemma {:induction false} FeedAppend(r: bv32, a: seq<bool>, b: seq<bool>)
    ensures Feed(r, a + b) == Feed(Feed(r, a), b)
    decreases |a|
  {
    hide Shift;
    hide WithBit;
    if a == [] {
      assert a + b == b;
    } else {
      assert (a + b)[1..] == a[1..] + b;
      FeedAppend(Shift(WithBit(r, a[0])), a[1..], b);
    }
  }

  /** The fast form is the bitwise one, from any register and for every message. */
  lemma {:induction false} UpdatesAreBitwise(r: bv32, buf: seq<bv8>)
    ensures Updates(r, buf) == Feed(r, Bits(buf))
    decreases |buf|
  {
    hide Update;
    hide BitsOf;
    hide Shift8;
    hide Shift;
    hide With;
    hide WithBit;
    if buf != [] {
      var front, last := buf[..|buf| - 1], buf[|buf| - 1];
      UpdatesAreBitwise(r, front);
      FeedAppend(r, Bits(front), BitsOf(last, 8));
      UpdateIs(Updates(r, front), last);
      ByteFits(last);
      FeedByteBits(Updates(r, front), last, 8);
      ShiftsEight(With(Updates(r, front), last));
    }
  }

  /** The register carries on where it stopped. */
  lemma {:induction false} UpdatesAppend(r: bv32, a: seq<bv8>, b: seq<bv8>)
    ensures Updates(r, a + b) == Updates(Updates(r, a), b)
    decreases |b|
  {
    hide Update;
    if b == [] {
      assert a + b == a;
    } else {
      assert (a + b)[..|a + b| - 1] == a + b[..|b| - 1];
      UpdatesAppend(r, a, b[..|b| - 1]);
    }
  }

  /** crc32. */
  method Compute(buf: array<bv8>, size: int) returns (r: bv32)
    requires 0 <= size <= buf.Length && size < 0x1_0000_0000
    ensures r == Crc(buf[..size])
  {
    hide Update;
    hide Mask;
    var crc: bv32 := 0xFFFF_FFFF;
    var i := 0;
    assert buf[..0] == [];
    while i < size
      invariant 0 <= i <= size && crc == Updates(0xFFFF_FFFF, buf[..i])
    {
      assert buf[..i + 1][..i] == buf[..i];
      crc := Update(crc, buf[i]);
      i := i + 1;
    }
    UpdatesAreBitwise(0xFFFF_FFFF, buf[..size]);
    return Mask(crc);
  }

  // ---------------------------------------------------------------- what it is for

  lemma {:induction false} ShiftInjective(x: bv32, y: bv32)
    requires Shift(x) == Shift(y)
    ensures x == y
  {
  }

  lemma {:induction false} ShiftsInjective(x: bv32, y: bv32, n: nat)
    requires Shifts(x, n) == Shifts(y, n)
    ensures x == y
    decreases n
  {
    hide Shift;
    if n > 0 {
      ShiftsInjective(Shift(x), Shift(y), n - 1);
      ShiftInjective(x, y);
    }
  }

  lemma {:induction false} UpdateInjective(r: bv32, s: bv32, b: bv8, c: bv8)
    requires Update(r, b) == Update(s, c)
    ensures r == s <==> b == c
  {
    hide Update;
    hide Shift8;
    hide Shifts;
    hide With;
    UpdateIs(r, b);
    UpdateIs(s, c);
    ShiftsEight(With(r, b));
    ShiftsEight(With(s, c));
    ShiftsInjective(With(r, b), With(s, c), 8);
    WithCancels(r, s, b, c);
  }

  lemma {:induction false} WithCancels(r: bv32, s: bv32, b: bv8, c: bv8)
    requires With(r, b) == With(s, c)
    ensures r == s <==> b == c
  {
    if r == s { Cancel(r, b as bv32, c as bv32); }
    if b == c { Cancel(b as bv32, r, s); }
  }

  lemma {:induction false} Cancel(x: bv32, y: bv32, z: bv32)
    ensures x ^ y == x ^ z || y ^ x == z ^ x ==> y == z
  {
  }

  lemma {:induction false} UpdatesInjective(r: bv32, s: bv32, buf: seq<bv8>)
    requires Updates(r, buf) == Updates(s, buf)
    ensures r == s
    decreases |buf|
  {
    hide Update;
    if buf != [] {
      var front := buf[..|buf| - 1];
      UpdateInjective(Updates(r, front), Updates(s, front), buf[|buf| - 1], buf[|buf| - 1]);
      UpdatesInjective(r, s, front);
    }
  }

  /** Changing one byte of a message always changes its checksum. */
  lemma {:induction false} OneByteIsDetected(buf: seq<bv8>, i: nat, b: bv8)
    requires i < |buf| && b != buf[i]
    ensures Crc(buf[i := b]) != Crc(buf)
  {
    hide Update;
    hide Mask;
    hide Feed;
    var a, z := buf[..i], buf[i + 1..];
    var r := Updates(0xFFFF_FFFF, a);
    assert buf == a + [buf[i]] + z && buf[i := b] == a + [b] + z;
    Parts(a, buf[i], z);
    Parts(a, b, z);
    UpdatesAreBitwise(0xFFFF_FFFF, buf);
    UpdatesAreBitwise(0xFFFF_FFFF, buf[i := b]);
    if Crc(buf[i := b]) == Crc(buf) {
      Unmask(Updates(0xFFFF_FFFF, buf), Updates(0xFFFF_FFFF, buf[i := b]));
      UpdatesInjective(Update(r, buf[i]), Update(r, b), z);
      UpdateInjective(r, r, buf[i], b);
    }
  }

  lemma {:induction false} Unmask(x: bv32, y: bv32)
    requires Mask(x) == Mask(y)
    ensures x == y
  {
  }

  lemma {:induction false} Parts(a: seq<bv8>, b: bv8, z: seq<bv8>)
    ensures Updates(0xFFFF_FFFF, a + [b] + z) == Updates(Update(Updates(0xFFFF_FFFF, a), b), z)
  {
    hide Update;
    UpdatesAppend(0xFFFF_FFFF, a + [b], z);
    assert (a + [b])[..|a + [b]| - 1] == a;
  }

  function Low8(x: bv32): bv8 { (x & 0xff) as bv8 }

  /** A checksum as four bytes, the low one first. */
  function LowFirst(x: bv32): seq<bv8> {
    var x1 := OtherBytes(x);
    var x2 := OtherBytes(x1);
    [Low8(x), Low8(x1), Low8(x2), Low8(OtherBytes(x2))]
  }

  /** A byte of the checksum leaves the same in the register, whatever the message was. */
  lemma {:induction false} ChecksumByte(s: bv32, c: bv32, b: bv8)
    requires b as bv32 == LowByte(Mask(s))
    ensures Update(Xor(s, c), b) == Xor(OtherBytes(s), Shift8(Xor(0xff, c)))
  {
    hide Update;
    hide Shift8;
    UpdateIs(Xor(s, c), b);
    assert With(Xor(s, c), b) == Xor(HighBytes(s), Xor(0xff, c));
    ByteAndRest(s);
    hide With;
    hide LowByte;
    hide Mask;
    Shift8Xor(HighBytes(s), Xor(0xff, c));
    Shift8High(HighBytes(s));
  }

  lemma {:induction false} Low8Is(x: bv32)
    ensures Low8(x) as bv32 == LowByte(x)
  {
  }

  /** The bytes of the complement, and of the register as it is moved on. */
  lemma {:induction false} BytesMasked(r: bv32)
    ensures var r1, x1 := OtherBytes(r), OtherBytes(Mask(r));
            var r2, x2 := OtherBytes(r1), OtherBytes(x1);
            && LowByte(x1) == LowByte(Mask(r1)) && LowByte(x2) == LowByte(Mask(r2))
            && LowByte(OtherBytes(x2)) == LowByte(Mask(OtherBytes(r2))) && OtherBytes(OtherBytes(r2)) == 0
  {
  }

  lemma {:induction false} ResidueFirst()
    ensures Shift8(Xor(0xff, 0)) == 0x2d02_ef8d
    ensures Shift8(Xor(0xff, 0x2d02_ef8d)) == 0xbe26_12ff
  {
  }

  lemma {:induction false} ResidueLast()
    ensures Shift8(Xor(0xff, 0xbe26_12ff)) == 0x00be_2612
    ensures Shift8(Xor(0xff, 0x00be_2612)) == 0xdebb_20e3
  {
  }

  lemma {:induction false} FourUpdates(r: bv32, a: bv8, b: bv8, c: bv8, d: bv8)
    ensures Updates(r, [a, b, c, d]) == Update(Update(Update(Update(r, a), b), c), d)
  {
    hide Update;
    assert [a, b, c, d][..3] == [a, b, c] && [a, b, c][..2] == [a, b] && [a, b][..1] == [a] && [a][..0] == [];
    assert Updates(r, [a]) == Update(r, a);
    assert Updates(r, [a, b]) == Update(Updates(r, [a]), b);
    assert Updates(r, [a, b, c]) == Update(Updates(r, [a, b]), c);
    assert Updates(r, [a, b, c, d]) == Update(Updates(r, [a, b, c]), d);
  }

  lemma {:induction false} FourBytes(r: bv32, r1: bv32, r2: bv32, r3: bv32, a: bv8, b: bv8, c: bv8, d: bv8)
    requires r1 == OtherBytes(r) && r2 == OtherBytes(r1) && r3 == OtherBytes(r2) && OtherBytes(r3) == 0
    requires a as bv32 == LowByte(Mask(r)) && b as bv32 == LowByte(Mask(r1))
    requires c as bv32 == LowByte(Mask(r2)) && d as bv32 == LowByte(Mask(r3))
    ensures Updates(r, [a, b, c, d]) == 0xdebb_20e3
  {
    hide Update;
    hide Updates;
    hide Shift8;
    hide Xor;
    hide Mask;
    hide LowByte;
    hide OtherBytes;
    FourUpdates(r, a, b, c, d);
    XorNothing(r);
    ResidueFirst();
    ResidueLast();
    ChecksumByte(r, 0, a);
    ChecksumByte(r1, 0x2d02_ef8d, b);
    ChecksumByte(r2, 0xbe26_12ff, c);
    ChecksumByte(r3, 0x00be_2612, d);
    XorNothing(0xdebb_20e3);
  }

  /** The register after a message and its checksum. */
  lemma {:induction false} ResidueRegister(r: bv32)
    ensures Updates(r, LowFirst(Mask(r))) == 0xdebb_20e3
  {
    hide Updates;
    hide Mask;
    hide LowByte;
    hide OtherBytes;
    hide Low8;
    var r1, x := OtherBytes(r), Mask(r);
    var r2, x1 := OtherBytes(r1), OtherBytes(x);
    var x2 := OtherBytes(x1);
    BytesMasked(r);
    Low8Is(x);
    Low8Is(x1);
    Low8Is(x2);
    Low8Is(OtherBytes(x2));
    FourBytes(r, r1, r2, OtherBytes(r2), Low8(x), Low8(x1), Low8(x2), Low8(OtherBytes(x2)));
  }

  lemma {:induction false} XorNothing(x: bv32)
    ensures Xor(0, x) == x == Xor(x, 0)
  {
  }

  /** A message followed by its checksum, low byte first, has the same checksum whatever the message is; and the empty
      message has the checksum 0. */
  lemma {:induction false} Residue(buf: seq<bv8>)
    ensures Crc(buf + LowFirst(Crc(buf))) == 0x2144_df1c && Crc([]) == 0
  {
    hide Update;
    hide Updates;
    hide Feed;
    hide LowFirst;
    var r := Updates(0xFFFF_FFFF, buf);
    UpdatesAreBitwise(0xFFFF_FFFF, buf);
    UpdatesAreBitwise(0xFFFF_FFFF, buf + LowFirst(Crc(buf)));
    UpdatesAppend(0xFFFF_FFFF, buf, LowFirst(Crc(buf)));
    ResidueRegister(r);
    UpdatesNone(0xFFFF_FFFF);
  }

  lemma {:induction false} UpdatesNone(r: bv32)
    ensures Feed(r, Bits([])) == r
  {
  }
}

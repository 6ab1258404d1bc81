/** The checksum of ZIP entries: CRC-32 with the reversed polynomial 0xEDB88320, bit by bit. */
module Crc32 {
  import opened Bytes

  function Shift(r: bv32): bv32 {
    if r & 1 == 1 then (r >> 1) ^ 0xEDB8_8320 else r >> 1
  }

  function Shifts(r: bv32, n: nat): bv32
    decreases n
  {
    if n == 0 then r else Shifts(Shift(r), n - 1)
  }

  function Bits(x: byte): bv32 {
    x as int as bv32
  }

  /** The register after a sequence of bytes. */
  function Register(s: seq<byte>): bv32 {
    if s == [] then 0xFFFF_FFFF
    else Shifts(Register(s[..|s| - 1]) ^ Bits(s[|s| - 1]), 8)
  }

  function Crc(s: seq<byte>): u32 {
    (Register(s) ^ 0xFFFF_FFFF) as int
  }

  lemma CrcOfNothing()
    ensures Crc([]) == 0
  {
  }

  lemma ShiftsOfZero()
    ensures Shifts(0xFFFF_FFFF, 8) == 0x2DFD_1072
  {
    var r1 := Shift(0xFFFF_FFFF);
    var r2 := Shift(r1);
    var r3 := Shift(r2);
    var r4 := Shift(r3);
    var r5 := Shift(r4);
    var r6 := Shift(r5);
    var r7 := Shift(r6);
    var r8 := Shift(r7);
    assert Shifts(r8, 0) == r8 == 0x2DFD_1072;
    assert Shifts(r7, 1) == r8;
    assert Shifts(r6, 2) == r8;
    assert Shifts(r5, 3) == r8;
    assert Shifts(r4, 4) == r8;
    assert Shifts(r3, 5) == r8;
    assert Shifts(r2, 6) == r8;
    assert Shifts(r1, 7) == r8;
  }

  lemma CrcOfZeroByte()
    ensures Crc([0]) == 0xD202_EF8D
  {
    ShiftsOfZero();
    assert [0][..0] == [];
    var s: seq<byte> := [0];
    assert Register(s[..0]) == 0xFFFF_FFFF;
    assert (0xFFFF_FFFF as bv32) ^ (0 as bv32) == 0xFFFF_FFFF;
  }

  lemma EightShifts(r: bv32)
    ensures Shifts(r, 8) == Shift(Shift(Shift(Shift(Shift(Shift(Shift(Shift(r))))))))
  {
    var r4 := Shift(Shift(Shift(Shift(r))));
    assert Shifts(r, 8) == Shifts(Shift(Shift(r)), 6) == Shifts(r4, 4);
    assert Shifts(r4, 4) == Shifts(Shift(Shift(r4)), 2) == Shift(Shift(Shift(Shift(r4))));
  }

  /** The register takes one more byte, given as a number and as bits. */
  lemma OneMore(front: seq<byte>, x: byte, bits: bv32, before: bv32, after: bv32)
    requires Bits(x) == bits && Register(front) == before
    requires Shift(Shift(Shift(Shift(Shift(Shift(Shift(Shift(before ^ bits)))))))) == after
    ensures Register(front + [x]) == after
  {
    hide Shift, Bits, Shifts;
    EightShifts(before ^ bits);
    assert (front + [x])[..|front|] == front;
  }

  /** The check value that CRC-32 is known by: that of the digits 1 to 9. */
  lemma CheckValue()
    ensures Crc([0x31, 0x32, 0x33, 0x34, 0x35, 0x36, 0x37, 0x38, 0x39]) == 0xCBF4_3926
  {
    hide Register;
    CrcStart();
    OneMore([], 0x31, 0x31, 0xFFFF_FFFF, 0x7C23_1048);
    assert [] + [0x31] == [0x31];
    OneMore([0x31], 0x32, 0x32, 0x7C23_1048, 0xB0AC_BB32);
    assert [0x31] + [0x32] == [0x31, 0x32];
    OneMore([0x31, 0x32], 0x33, 0x33, 0xB0AC_BB32, 0x77B7_9C2D);
    assert [0x31, 0x32] + [0x33] == [0x31, 0x32, 0x33];
    OneMore([0x31, 0x32, 0x33], 0x34, 0x34, 0x77B7_9C2D, 0x641C_1F5C);
    assert [0x31, 0x32, 0x33] + [0x34] == [0x31, 0x32, 0x33, 0x34];
    OneMore([0x31, 0x32, 0x33, 0x34], 0x35, 0x35, 0x641C_1F5C, 0x340A_C5E3);
    assert [0x31, 0x32, 0x33, 0x34] + [0x35] == [0x31, 0x32, 0x33, 0x34, 0x35];
    OneMore([0x31, 0x32, 0x33, 0x34, 0x35], 0x36, 0x36, 0x340A_C5E3, 0xF68D_2C9E);
    assert [0x31, 0x32, 0x33, 0x34, 0x35] + [0x36] == [0x31, 0x32, 0x33, 0x34, 0x35, 0x36];
    OneMore([0x31, 0x32, 0x33, 0x34, 0x35, 0x36], 0x37, 0x37, 0xF68D_2C9E, 0xAFFC_9660);
    assert [0x31, 0x32, 0x33, 0x34, 0x35, 0x36] + [0x37] == [0x31, 0x32, 0x33, 0x34, 0x35, 0x36, 0x37];
    OneMore([0x31, 0x32, 0x33, 0x34, 0x35, 0x36, 0x37], 0x38, 0x38, 0xAFFC_9660, 0x651F_2550);
    assert [0x31, 0x32, 0x33, 0x34, 0x35, 0x36, 0x37] + [0x38] == [0x31, 0x32, 0x33, 0x34, 0x35, 0x36, 0x37, 0x38];
    OneMore([0x31, 0x32, 0x33, 0x34, 0x35, 0x36, 0x37, 0x38], 0x39, 0x39, 0x651F_2550, 0x340B_C6D9);
    assert [0x31, 0x32, 0x33, 0x34, 0x35, 0x36, 0x37, 0x38] + [0x39] == [0x31, 0x32, 0x33, 0x34, 0x35, 0x36, 0x37, 0x38, 0x39];
  }

  lemma CrcStart()
    ensures Register([]) == 0xFFFF_FFFF
  {
  }
}

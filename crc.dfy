/** CRC-32 as used by PNG (section 5.5 of the PNG specification, ISO/IEC
    15948:2003; the catalogue name is CRC-32/ISO-HDLC): the reflected
    polynomial 0xEDB88320, register initialised to 0xFFFFFFFF, and the final
    register XORed with 0xFFFFFFFF. Defined bit by bit. */
module Crc {
  import opened Bytes

  const POLY: bv32 := 0xEDB8_8320

  /** One shift of the reflected register. */
  function ShiftRound(c: bv32): bv32
  {
    if c & 1 == 1 then (c >> 1) ^ POLY else c >> 1
  }

  function ShiftRounds(c: bv32, k: nat): bv32
    decreases k
  {
    if k == 0 then c else ShiftRounds(ShiftRound(c), k - 1)
  }

  /** The register after feeding `data`, byte by byte, least significant bit first. */
  function Register(c: bv32, data: seq<u8>): bv32
    decreases |data|
  {
    if data == [] then c else Register(ShiftRounds(c ^ (data[0] as bv32), 8), data[1..])
  }

  function Crc32(data: seq<u8>): u32
  {
    (Register(0xFFFF_FFFF, data) ^ 0xFFFF_FFFF) as int
  }

  lemma EightRounds(c: bv32, d: bv32)
    requires d == ShiftRound(ShiftRound(ShiftRound(ShiftRound(ShiftRound(ShiftRound(ShiftRound(ShiftRound(c))))))))
    ensures ShiftRounds(c, 8) == d
  {

  }

  lemma RegisterStep(c: bv32, data: seq<u8>, d: bv32)
    requires data != [] && ShiftRounds(c ^ (data[0] as bv32), 8) == d
    ensures Register(c, data) == Register(d, data[1..])
  {
  }

  /** The register after each byte of "123456789", from the last byte back. */
  lemma CheckFrom8()
    ensures Register(0x651F_2550, [57]) == 0x340B_C6D9
  {
    EightRounds(0x651F_2569, 0x340B_C6D9);
    RegisterStep(0x651F_2550, [57], 0x340B_C6D9);
  }

  lemma CheckFrom7()
    ensures Register(0xAFFC_9660, [56, 57]) == 0x340B_C6D9
  {
    EightRounds(0xAFFC_9658, 0x651F_2550);
    RegisterStep(0xAFFC_9660, [56, 57], 0x651F_2550);
    CheckFrom8();
  }

  lemma CheckFrom6()
    ensures Register(0xF68D_2C9E, [55, 56, 57]) == 0x340B_C6D9
  {
    EightRounds(0xF68D_2CA9, 0xAFFC_9660);
    RegisterStep(0xF68D_2C9E, [55, 56, 57], 0xAFFC_9660);
    CheckFrom7();
  }

  lemma CheckFrom5()
    ensures Register(0x340A_C5E3, [54, 55, 56, 57]) == 0x340B_C6D9
  {
    EightRounds(0x340A_C5D5, 0xF68D_2C9E);
    RegisterStep(0x340A_C5E3, [54, 55, 56, 57], 0xF68D_2C9E);
    CheckFrom6();
  }

  lemma CheckFrom4()
    ensures Register(0x641C_1F5C, [53, 54, 55, 56, 57]) == 0x340B_C6D9
  {
    EightRounds(0x641C_1F69, 0x340A_C5E3);
    RegisterStep(0x641C_1F5C, [53, 54, 55, 56, 57], 0x340A_C5E3);
    CheckFrom5();
  }

  lemma CheckFrom3()
    ensures Register(0x77B7_9C2D, [52, 53, 54, 55, 56, 57]) == 0x340B_C6D9
  {
    EightRounds(0x77B7_9C19, 0x641C_1F5C);
    RegisterStep(0x77B7_9C2D, [52, 53, 54, 55, 56, 57], 0x641C_1F5C);
    CheckFrom4();
  }

  lemma CheckFrom2()
    ensures Register(0xB0AC_BB32, [51, 52, 53, 54, 55, 56, 57]) == 0x340B_C6D9
  {
    EightRounds(0xB0AC_BB01, 0x77B7_9C2D);
    RegisterStep(0xB0AC_BB32, [51, 52, 53, 54, 55, 56, 57], 0x77B7_9C2D);
    CheckFrom3();
  }

  lemma CheckFrom1()
    ensures Register(0x7C23_1048, [50, 51, 52, 53, 54, 55, 56, 57]) == 0x340B_C6D9
  {
    EightRounds(0x7C23_107A, 0xB0AC_BB32);
    RegisterStep(0x7C23_1048, [50, 51, 52, 53, 54, 55, 56, 57], 0xB0AC_BB32);
    CheckFrom2();
  }

  lemma CheckFrom0()
    ensures Register(0xFFFF_FFFF, [49, 50, 51, 52, 53, 54, 55, 56, 57]) == 0x340B_C6D9
  {
    EightRounds(0xFFFF_FFCE, 0x7C23_1048);
    RegisterStep(0xFFFF_FFFF, [49, 50, 51, 52, 53, 54, 55, 56, 57], 0x7C23_1048);
    CheckFrom1();
  }

  /** The catalogue check value of CRC-32/ISO-HDLC: the checksum of the
      ASCII text "123456789" is 0xCBF43926. This pins the definition above
      to the algorithm the PNG specification prescribes. */
  lemma CheckValue()
    ensures Crc32([49, 50, 51, 52, 53, 54, 55, 56, 57]) == 0xCBF4_3926
  {
    CheckFrom0();
  }
}

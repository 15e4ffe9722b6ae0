/**
 * The checksum of the PDI protocol: the CRC-32 of ITU-T Recommendation V.42,
 * section 8.1.1.6.2 (reflected generator polynomial 0xEDB88320, register preset
 * to all ones, final complement), computed byte-wise from a 256-entry table as
 * `PDI_CRC` and `m_crc32Tbl` do.
 *
 * The reference definition is bit-serial: `ShiftByte` shifts one byte through the
 * register a bit at a time and `Feed` folds a byte-wise update over the data. The
 * table is proved to hold `ShiftByte` of each index, one table step is proved to be
 * one bit-serial byte step, and `PdiCrc` is proved to return `Crc32`.
 */
module Crc {
  import opened Bytes

  /** The reflected generator polynomial. */
  const Polynomial: bv32 := 0xEDB8_8320

  /**
   * Eight steps of the reflected shift register, one byte shifted through it.
   * Each step shifts the register right by one and XORs in the polynomial when
   * the bit shifted out was set (`0 - (c & 1)` is all ones exactly then).
   */
  function ShiftByte(c: bv32): bv32 {
    var c1 := (c >> 1) ^ (Polynomial & (0 - (c & 1)));
    var c2 := (c1 >> 1) ^ (Polynomial & (0 - (c1 & 1)));
    var c3 := (c2 >> 1) ^ (Polynomial & (0 - (c2 & 1)));
    var c4 := (c3 >> 1) ^ (Polynomial & (0 - (c3 & 1)));
    var c5 := (c4 >> 1) ^ (Polynomial & (0 - (c4 & 1)));
    var c6 := (c5 >> 1) ^ (Polynomial & (0 - (c5 & 1)));
    var c7 := (c6 >> 1) ^ (Polynomial & (0 - (c6 & 1)));
    (c7 >> 1) ^ (Polynomial & (0 - (c7 & 1)))
  }

  /** `data` fed through a byte-wise register update `step`, starting from `init`. */
  function Feed(step: (bv32, byte) -> bv32, init: bv32, data: seq<byte>): bv32
  {
    if data == [] then init
    else step(Feed(step, init, data[..|data| - 1]), data[|data| - 1])
  }

  /** One byte fed through the register bit by bit. */
  function BitStep(c: bv32, b: byte): bv32 {
    ShiftByte(c ^ b as bv32)
  }

  /** CRC-32 of `data`: register preset to all ones, result complemented. */
  function Crc32(data: seq<byte>): bv32 {
    Feed(BitStep, 0xFFFF_FFFF, data) ^ 0xFFFF_FFFF
  }

  /** The CRC of no bytes is zero: the preset and the final complement cancel. */
  lemma Crc32OfEmpty()
    ensures Crc32([]) == 0
  {
  }

  /**
   * The check value of this CRC: the nine ASCII digits "123456789" give
   * 0xCBF43926. Each step feeds one more byte through the register.
   */
  lemma Crc32Check()
    ensures Crc32([0x31, 0x32, 0x33, 0x34, 0x35, 0x36, 0x37, 0x38, 0x39]) == 0xCBF4_3926
  {
    var d: seq<byte> := [0x31, 0x32, 0x33, 0x34, 0x35, 0x36, 0x37, 0x38, 0x39];
    assert d[..0] == [];
    FeedStep(d, 1, 0xFFFF_FFFF, 0x7C23_1048);
    FeedStep(d, 2, 0x7C23_1048, 0xB0AC_BB32);
    FeedStep(d, 3, 0xB0AC_BB32, 0x77B7_9C2D);
    FeedStep(d, 4, 0x77B7_9C2D, 0x641C_1F5C);
    FeedStep(d, 5, 0x641C_1F5C, 0x340A_C5E3);
    FeedStep(d, 6, 0x340A_C5E3, 0xF68D_2C9E);
    FeedStep(d, 7, 0xF68D_2C9E, 0xAFFC_9660);
    FeedStep(d, 8, 0xAFFC_9660, 0x651F_2550);
    FeedStep(d, 9, 0x651F_2550, 0x340B_C6D9);
    assert d[..9] == d;
  }

  /** The register after `k` bytes of `d` is one bit-serial step on the register after `k - 1`. */
  lemma FeedStep(d: seq<byte>, k: nat, before: bv32, after: bv32)
    requires 0 < k <= |d|
    requires Feed(BitStep, 0xFFFF_FFFF, d[..k - 1]) == before
    requires BitStep(before, d[k - 1]) == after
    ensures Feed(BitStep, 0xFFFF_FFFF, d[..k]) == after
  {
    assert d[..k][..k - 1] == d[..k - 1];
  }

  /** Sample values of `ShiftByte`: table entries 0x00, 0x01, 0x80 and 0xFF. */
  lemma KnownShifts()
    ensures ShiftByte(0x00) == 0 && ShiftByte(0x01) == 0x7707_3096
    ensures ShiftByte(0x80) == Polynomial && ShiftByte(0xFF) == 0x2D02_EF8D
  {
  }

  // ---------------------------------------------------------------------------
  // The lookup table `m_crc32Tbl`, 256 entries, in rows of 16
  // ---------------------------------------------------------------------------

  const Row0: seq<bv32> := [
    0x00000000, 0x77073096, 0xEE0E612C, 0x990951BA, 0x076DC419, 0x706AF48F, 0xE963A535, 0x9E6495A3,
    0x0EDB8832, 0x79DCB8A4, 0xE0D5E91E, 0x97D2D988, 0x09B64C2B, 0x7EB17CBD, 0xE7B82D07, 0x90BF1D91
  ]
  const Row1: seq<bv32> := [
    0x1DB71064, 0x6AB020F2, 0xF3B97148, 0x84BE41DE, 0x1ADAD47D, 0x6DDDE4EB, 0xF4D4B551, 0x83D385C7,
    0x136C9856, 0x646BA8C0, 0xFD62F97A, 0x8A65C9EC, 0x14015C4F, 0x63066CD9, 0xFA0F3D63, 0x8D080DF5
  ]
  const Row2: seq<bv32> := [
    0x3B6E20C8, 0x4C69105E, 0xD56041E4, 0xA2677172, 0x3C03E4D1, 0x4B04D447, 0xD20D85FD, 0xA50AB56B,
    0x35B5A8FA, 0x42B2986C, 0xDBBBC9D6, 0xACBCF940, 0x32D86CE3, 0x45DF5C75, 0xDCD60DCF, 0xABD13D59
  ]
  const Row3: seq<bv32> := [
    0x26D930AC, 0x51DE003A, 0xC8D75180, 0xBFD06116, 0x21B4F4B5, 0x56B3C423, 0xCFBA9599, 0xB8BDA50F,
    0x2802B89E, 0x5F058808, 0xC60CD9B2, 0xB10BE924, 0x2F6F7C87, 0x58684C11, 0xC1611DAB, 0xB6662D3D
  ]
  const Row4: seq<bv32> := [
    0x76DC4190, 0x01DB7106, 0x98D220BC, 0xEFD5102A, 0x71B18589, 0x06B6B51F, 0x9FBFE4A5, 0xE8B8D433,
    0x7807C9A2, 0x0F00F934, 0x9609A88E, 0xE10E9818, 0x7F6A0DBB, 0x086D3D2D, 0x91646C97, 0xE6635C01
  ]
  const Row5: seq<bv32> := [
    0x6B6B51F4, 0x1C6C6162, 0x856530D8, 0xF262004E, 0x6C0695ED, 0x1B01A57B, 0x8208F4C1, 0xF50FC457,
    0x65B0D9C6, 0x12B7E950, 0x8BBEB8EA, 0xFCB9887C, 0x62DD1DDF, 0x15DA2D49, 0x8CD37CF3, 0xFBD44C65
  ]
  const Row6: seq<bv32> := [
    0x4DB26158, 0x3AB551CE, 0xA3BC0074, 0xD4BB30E2, 0x4ADFA541, 0x3DD895D7, 0xA4D1C46D, 0xD3D6F4FB,
    0x4369E96A, 0x346ED9FC, 0xAD678846, 0xDA60B8D0, 0x44042D73, 0x33031DE5, 0xAA0A4C5F, 0xDD0D7CC9
  ]
  const Row7: seq<bv32> := [
    0x5005713C, 0x270241AA, 0xBE0B1010, 0xC90C2086, 0x5768B525, 0x206F85B3, 0xB966D409, 0xCE61E49F,
    0x5EDEF90E, 0x29D9C998, 0xB0D09822, 0xC7D7A8B4, 0x59B33D17, 0x2EB40D81, 0xB7BD5C3B, 0xC0BA6CAD
  ]
  const Row8: seq<bv32> := [
    0xEDB88320, 0x9ABFB3B6, 0x03B6E20C, 0x74B1D29A, 0xEAD54739, 0x9DD277AF, 0x04DB2615, 0x73DC1683,
    0xE3630B12, 0x94643B84, 0x0D6D6A3E, 0x7A6A5AA8, 0xE40ECF0B, 0x9309FF9D, 0x0A00AE27, 0x7D079EB1
  ]
  const Row9: seq<bv32> := [
    0xF00F9344, 0x8708A3D2, 0x1E01F268, 0x6906C2FE, 0xF762575D, 0x806567CB, 0x196C3671, 0x6E6B06E7,
    0xFED41B76, 0x89D32BE0, 0x10DA7A5A, 0x67DD4ACC, 0xF9B9DF6F, 0x8EBEEFF9, 0x17B7BE43, 0x60B08ED5
  ]
  const RowA: seq<bv32> := [
    0xD6D6A3E8, 0xA1D1937E, 0x38D8C2C4, 0x4FDFF252, 0xD1BB67F1, 0xA6BC5767, 0x3FB506DD, 0x48B2364B,
    0xD80D2BDA, 0xAF0A1B4C, 0x36034AF6, 0x41047A60, 0xDF60EFC3, 0xA867DF55, 0x316E8EEF, 0x4669BE79
  ]
  const RowB: seq<bv32> := [
    0xCB61B38C, 0xBC66831A, 0x256FD2A0, 0x5268E236, 0xCC0C7795, 0xBB0B4703, 0x220216B9, 0x5505262F,
    0xC5BA3BBE, 0xB2BD0B28, 0x2BB45A92, 0x5CB36A04, 0xC2D7FFA7, 0xB5D0CF31, 0x2CD99E8B, 0x5BDEAE1D
  ]
  const RowC: seq<bv32> := [
    0x9B64C2B0, 0xEC63F226, 0x756AA39C, 0x026D930A, 0x9C0906A9, 0xEB0E363F, 0x72076785, 0x05005713,
    0x95BF4A82, 0xE2B87A14, 0x7BB12BAE, 0x0CB61B38, 0x92D28E9B, 0xE5D5BE0D, 0x7CDCEFB7, 0x0BDBDF21
  ]
  const RowD: seq<bv32> := [
    0x86D3D2D4, 0xF1D4E242, 0x68DDB3F8, 0x1FDA836E, 0x81BE16CD, 0xF6B9265B, 0x6FB077E1, 0x18B74777,
    0x88085AE6, 0xFF0F6A70, 0x66063BCA, 0x11010B5C, 0x8F659EFF, 0xF862AE69, 0x616BFFD3, 0x166CCF45
  ]
  const RowE: seq<bv32> := [
    0xA00AE278, 0xD70DD2EE, 0x4E048354, 0x3903B3C2, 0xA7672661, 0xD06016F7, 0x4969474D, 0x3E6E77DB,
    0xAED16A4A, 0xD9D65ADC, 0x40DF0B66, 0x37D83BF0, 0xA9BCAE53, 0xDEBB9EC5, 0x47B2CF7F, 0x30B5FFE9
  ]
  const RowF: seq<bv32> := [
    0xBDBDF21C, 0xCABAC28A, 0x53B39330, 0x24B4A3A6, 0xBAD03605, 0xCDD70693, 0x54DE5729, 0x23D967BF,
    0xB3667A2E, 0xC4614AB8, 0x5D681B02, 0x2A6F2B94, 0xB40BBE37, 0xC30C8EA1, 0x5A05DF1B, 0x2D02EF8D
  ]

  const Table: seq<bv32> :=
    (((Row0 + Row1) + (Row2 + Row3)) + ((Row4 + Row5) + (Row6 + Row7))) +
    (((Row8 + Row9) + (RowA + RowB)) + ((RowC + RowD) + (RowE + RowF)))

  /** Row 0 of the table holds eight shift steps of each of its indices. */
  lemma Row0Holds()
    ensures Row0 == [
        ShiftByte(0x00), ShiftByte(0x01), ShiftByte(0x02), ShiftByte(0x03),
        ShiftByte(0x04), ShiftByte(0x05), ShiftByte(0x06), ShiftByte(0x07),
        ShiftByte(0x08), ShiftByte(0x09), ShiftByte(0x0A), ShiftByte(0x0B),
        ShiftByte(0x0C), ShiftByte(0x0D), ShiftByte(0x0E), ShiftByte(0x0F)]
  {
  }

  lemma TableRow0(c: bv32)
    requires 0x00 <= c <= 0x0F
    ensures Table[c as int] == ShiftByte(c)
  {
    Row0Holds();
    if c == 0x00 {
    } else if c == 0x01 {
    } else if c == 0x02 {
    } else if c == 0x03 {
    } else if c == 0x04 {
    } else if c == 0x05 {
    } else if c == 0x06 {
    } else if c == 0x07 {
    } else if c == 0x08 {
    } else if c == 0x09 {
    } else if c == 0x0A {
    } else if c == 0x0B {
    } else if c == 0x0C {
    } else if c == 0x0D {
    } else if c == 0x0E {
    } else {
    }
  }

  /** Row 1 of the table holds eight shift steps of each of its indices. */
  lemma Row1Holds()
    ensures Row1 == [
        ShiftByte(0x10), ShiftByte(0x11), ShiftByte(0x12), ShiftByte(0x13),
        ShiftByte(0x14), ShiftByte(0x15), ShiftByte(0x16), ShiftByte(0x17),
        ShiftByte(0x18), ShiftByte(0x19), ShiftByte(0x1A), ShiftByte(0x1B),
        ShiftByte(0x1C), ShiftByte(0x1D), ShiftByte(0x1E), ShiftByte(0x1F)]
  {
  }

  lemma TableRow1(c: bv32)
    requires 0x10 <= c <= 0x1F
    ensures Table[c as int] == ShiftByte(c)
  {
    Row1Holds();
    if c == 0x10 {
    } else if c == 0x11 {
    } else if c == 0x12 {
    } else if c == 0x13 {
    } else if c == 0x14 {
    } else if c == 0x15 {
    } else if c == 0x16 {
    } else if c == 0x17 {
    } else if c == 0x18 {
    } else if c == 0x19 {
    } else if c == 0x1A {
    } else if c == 0x1B {
    } else if c == 0x1C {
    } else if c == 0x1D {
    } else if c == 0x1E {
    } else {
    }
  }

  /** Row 2 of the table holds eight shift steps of each of its indices. */
  lemma Row2Holds()
    ensures Row2 == [
        ShiftByte(0x20), ShiftByte(0x21), ShiftByte(0x22), ShiftByte(0x23),
        ShiftByte(0x24), ShiftByte(0x25), ShiftByte(0x26), ShiftByte(0x27),
        ShiftByte(0x28), ShiftByte(0x29), ShiftByte(0x2A), ShiftByte(0x2B),
        ShiftByte(0x2C), ShiftByte(0x2D), ShiftByte(0x2E), ShiftByte(0x2F)]
  {
  }

  lemma TableRow2(c: bv32)
    requires 0x20 <= c <= 0x2F
    ensures Table[c as int] == ShiftByte(c)
  {
    Row2Holds();
    if c == 0x20 {
    } else if c == 0x21 {
    } else if c == 0x22 {
    } else if c == 0x23 {
    } else if c == 0x24 {
    } else if c == 0x25 {
    } else if c == 0x26 {
    } else if c == 0x27 {
    } else if c == 0x28 {
    } else if c == 0x29 {
    } else if c == 0x2A {
    } else if c == 0x2B {
    } else if c == 0x2C {
    } else if c == 0x2D {
    } else if c == 0x2E {
    } else {
    }
  }

  /** Row 3 of the table holds eight shift steps of each of its indices. */
  lemma Row3Holds()
    ensures Row3 == [
        ShiftByte(0x30), ShiftByte(0x31), ShiftByte(0x32), ShiftByte(0x33),
        ShiftByte(0x34), ShiftByte(0x35), ShiftByte(0x36), ShiftByte(0x37),
        ShiftByte(0x38), ShiftByte(0x39), ShiftByte(0x3A), ShiftByte(0x3B),
        ShiftByte(0x3C), ShiftByte(0x3D), ShiftByte(0x3E), ShiftByte(0x3F)]
  {
  }

  lemma TableRow3(c: bv32)
    requires 0x30 <= c <= 0x3F
    ensures Table[c as int] == ShiftByte(c)
  {
    Row3Holds();
    if c == 0x30 {
    } else if c == 0x31 {
    } else if c == 0x32 {
    } else if c == 0x33 {
    } else if c == 0x34 {
    } else if c == 0x35 {
    } else if c == 0x36 {
    } else if c == 0x37 {
    } else if c == 0x38 {
    } else if c == 0x39 {
    } else if c == 0x3A {
    } else if c == 0x3B {
    } else if c == 0x3C {
    } else if c == 0x3D {
    } else if c == 0x3E {
    } else {
    }
  }

  /** Row 4 of the table holds eight shift steps of each of its indices. */
  lemma Row4Holds()
    ensures Row4 == [
        ShiftByte(0x40), ShiftByte(0x41), ShiftByte(0x42), ShiftByte(0x43),
        ShiftByte(0x44), ShiftByte(0x45), ShiftByte(0x46), ShiftByte(0x47),
        ShiftByte(0x48), ShiftByte(0x49), ShiftByte(0x4A), ShiftByte(0x4B),
        ShiftByte(0x4C), ShiftByte(0x4D), ShiftByte(0x4E), ShiftByte(0x4F)]
  {
  }

  lemma TableRow4(c: bv32)
    requires 0x40 <= c <= 0x4F
    ensures Table[c as int] == ShiftByte(c)
  {
    Row4Holds();
    if c == 0x40 {
    } else if c == 0x41 {
    } else if c == 0x42 {
    } else if c == 0x43 {
    } else if c == 0x44 {
    } else if c == 0x45 {
    } else if c == 0x46 {
    } else if c == 0x47 {
    } else if c == 0x48 {
    } else if c == 0x49 {
    } else if c == 0x4A {
    } else if c == 0x4B {
    } else if c == 0x4C {
    } else if c == 0x4D {
    } else if c == 0x4E {
    } else {
    }
  }

  /** Row 5 of the table holds eight shift steps of each of its indices. */
  lemma Row5Holds()
    ensures Row5 == [
        ShiftByte(0x50), ShiftByte(0x51), ShiftByte(0x52), ShiftByte(0x53),
        ShiftByte(0x54), ShiftByte(0x55), ShiftByte(0x56), ShiftByte(0x57),
        ShiftByte(0x58), ShiftByte(0x59), ShiftByte(0x5A), ShiftByte(0x5B),
        ShiftByte(0x5C), ShiftByte(0x5D), ShiftByte(0x5E), ShiftByte(0x5F)]
  {
  }

  lemma TableRow5(c: bv32)
    requires 0x50 <= c <= 0x5F
    ensures Table[c as int] == ShiftByte(c)
  {
    Row5Holds();
    if c == 0x50 {
    } else if c == 0x51 {
    } else if c == 0x52 {
    } else if c == 0x53 {
    } else if c == 0x54 {
    } else if c == 0x55 {
    } else if c == 0x56 {
    } else if c == 0x57 {
    } else if c == 0x58 {
    } else if c == 0x59 {
    } else if c == 0x5A {
    } else if c == 0x5B {
    } else if c == 0x5C {
    } else if c == 0x5D {
    } else if c == 0x5E {
    } else {
    }
  }

  /** Row 6 of the table holds eight shift steps of each of its indices. */
  lemma Row6Holds()
    ensures Row6 == [
        ShiftByte(0x60), ShiftByte(0x61), ShiftByte(0x62), ShiftByte(0x63),
        ShiftByte(0x64), ShiftByte(0x65), ShiftByte(0x66), ShiftByte(0x67),
        ShiftByte(0x68), ShiftByte(0x69), ShiftByte(0x6A), ShiftByte(0x6B),
        ShiftByte(0x6C), ShiftByte(0x6D), ShiftByte(0x6E), ShiftByte(0x6F)]
  {
  }

  lemma TableRow6(c: bv32)
    requires 0x60 <= c <= 0x6F
    ensures Table[c as int] == ShiftByte(c)
  {
    Row6Holds();
    if c == 0x60 {
    } else if c == 0x61 {
    } else if c == 0x62 {
    } else if c == 0x63 {
    } else if c == 0x64 {
    } else if c == 0x65 {
    } else if c == 0x66 {
    } else if c == 0x67 {
    } else if c == 0x68 {
    } else if c == 0x69 {
    } else if c == 0x6A {
    } else if c == 0x6B {
    } else if c == 0x6C {
    } else if c == 0x6D {
    } else if c == 0x6E {
    } else {
    }
  }

  /** Row 7 of the table holds eight shift steps of each of its indices. */
  lemma Row7Holds()
    ensures Row7 == [
        ShiftByte(0x70), ShiftByte(0x71), ShiftByte(0x72), ShiftByte(0x73),
        ShiftByte(0x74), ShiftByte(0x75), ShiftByte(0x76), ShiftByte(0x77),
        ShiftByte(0x78), ShiftByte(0x79), ShiftByte(0x7A), ShiftByte(0x7B),
        ShiftByte(0x7C), ShiftByte(0x7D), ShiftByte(0x7E), ShiftByte(0x7F)]
  {
  }

  lemma TableRow7(c: bv32)
    requires 0x70 <= c <= 0x7F
    ensures Table[c as int] == ShiftByte(c)
  {
    Row7Holds();
    if c == 0x70 {
    } else if c == 0x71 {
    } else if c == 0x72 {
    } else if c == 0x73 {
    } else if c == 0x74 {
    } else if c == 0x75 {
    } else if c == 0x76 {
    } else if c == 0x77 {
    } else if c == 0x78 {
    } else if c == 0x79 {
    } else if c == 0x7A {
    } else if c == 0x7B {
    } else if c == 0x7C {
    } else if c == 0x7D {
    } else if c == 0x7E {
    } else {
    }
  }

  /** Row 8 of the table holds eight shift steps of each of its indices. */
  lemma Row8Holds()
    ensures Row8 == [
        ShiftByte(0x80), ShiftByte(0x81), ShiftByte(0x82), ShiftByte(0x83),
        ShiftByte(0x84), ShiftByte(0x85), ShiftByte(0x86), ShiftByte(0x87),
        ShiftByte(0x88), ShiftByte(0x89), ShiftByte(0x8A), ShiftByte(0x8B),
        ShiftByte(0x8C), ShiftByte(0x8D), ShiftByte(0x8E), ShiftByte(0x8F)]
  {
  }

  lemma TableRow8(c: bv32)
    requires 0x80 <= c <= 0x8F
    ensures Table[c as int] == ShiftByte(c)
  {
    Row8Holds();
    if c == 0x80 {
    } else if c == 0x81 {
    } else if c == 0x82 {
    } else if c == 0x83 {
    } else if c == 0x84 {
    } else if c == 0x85 {
    } else if c == 0x86 {
    } else if c == 0x87 {
    } else if c == 0x88 {
    } else if c == 0x89 {
    } else if c == 0x8A {
    } else if c == 0x8B {
    } else if c == 0x8C {
    } else if c == 0x8D {
    } else if c == 0x8E {
    } else {
    }
  }

  /** Row 9 of the table holds eight shift steps of each of its indices. */
  lemma Row9Holds()
    ensures Row9 == [
        ShiftByte(0x90), ShiftByte(0x91), ShiftByte(0x92), ShiftByte(0x93),
        ShiftByte(0x94), ShiftByte(0x95), ShiftByte(0x96), ShiftByte(0x97),
        ShiftByte(0x98), ShiftByte(0x99), ShiftByte(0x9A), ShiftByte(0x9B),
        ShiftByte(0x9C), ShiftByte(0x9D), ShiftByte(0x9E), ShiftByte(0x9F)]
  {
  }

  lemma TableRow9(c: bv32)
    requires 0x90 <= c <= 0x9F
    ensures Table[c as int] == ShiftByte(c)
  {
    Row9Holds();
    if c == 0x90 {
    } else if c == 0x91 {
    } else if c == 0x92 {
    } else if c == 0x93 {
    } else if c == 0x94 {
    } else if c == 0x95 {
    } else if c == 0x96 {
    } else if c == 0x97 {
    } else if c == 0x98 {
    } else if c == 0x99 {
    } else if c == 0x9A {
    } else if c == 0x9B {
    } else if c == 0x9C {
    } else if c == 0x9D {
    } else if c == 0x9E {
    } else {
    }
  }

  /** Row A of the table holds eight shift steps of each of its indices. */
  lemma RowAHolds()
    ensures RowA == [
        ShiftByte(0xA0), ShiftByte(0xA1), ShiftByte(0xA2), ShiftByte(0xA3),
        ShiftByte(0xA4), ShiftByte(0xA5), ShiftByte(0xA6), ShiftByte(0xA7),
        ShiftByte(0xA8), ShiftByte(0xA9), ShiftByte(0xAA), ShiftByte(0xAB),
        ShiftByte(0xAC), ShiftByte(0xAD), ShiftByte(0xAE), ShiftByte(0xAF)]
  {
  }

  lemma TableRowA(c: bv32)
    requires 0xA0 <= c <= 0xAF
    ensures Table[c as int] == ShiftByte(c)
  {
    RowAHolds();
    if c == 0xA0 {
    } else if c == 0xA1 {
    } else if c == 0xA2 {
    } else if c == 0xA3 {
    } else if c == 0xA4 {
    } else if c == 0xA5 {
    } else if c == 0xA6 {
    } else if c == 0xA7 {
    } else if c == 0xA8 {
    } else if c == 0xA9 {
    } else if c == 0xAA {
    } else if c == 0xAB {
    } else if c == 0xAC {
    } else if c == 0xAD {
    } else if c == 0xAE {
    } else {
    }
  }

  /** Row B of the table holds eight shift steps of each of its indices. */
  lemma RowBHolds()
    ensures RowB == [
        ShiftByte(0xB0), ShiftByte(0xB1), ShiftByte(0xB2), ShiftByte(0xB3),
        ShiftByte(0xB4), ShiftByte(0xB5), ShiftByte(0xB6), ShiftByte(0xB7),
        ShiftByte(0xB8), ShiftByte(0xB9), ShiftByte(0xBA), ShiftByte(0xBB),
        ShiftByte(0xBC), ShiftByte(0xBD), ShiftByte(0xBE), ShiftByte(0xBF)]
  {
  }

  lemma TableRowB(c: bv32)
    requires 0xB0 <= c <= 0xBF
    ensures Table[c as int] == ShiftByte(c)
  {
    RowBHolds();
    if c == 0xB0 {
    } else if c == 0xB1 {
    } else if c == 0xB2 {
    } else if c == 0xB3 {
    } else if c == 0xB4 {
    } else if c == 0xB5 {
    } else if c == 0xB6 {
    } else if c == 0xB7 {
    } else if c == 0xB8 {
    } else if c == 0xB9 {
    } else if c == 0xBA {
    } else if c == 0xBB {
    } else if c == 0xBC {
    } else if c == 0xBD {
    } else if c == 0xBE {
    } else {
    }
  }

  /** Row C of the table holds eight shift steps of each of its indices. */
  lemma RowCHolds()
    ensures RowC == [
        ShiftByte(0xC0), ShiftByte(0xC1), ShiftByte(0xC2), ShiftByte(0xC3),
        ShiftByte(0xC4), ShiftByte(0xC5), ShiftByte(0xC6), ShiftByte(0xC7),
        ShiftByte(0xC8), ShiftByte(0xC9), ShiftByte(0xCA), ShiftByte(0xCB),
        ShiftByte(0xCC), ShiftByte(0xCD), ShiftByte(0xCE), ShiftByte(0xCF)]
  {
  }

  lemma TableRowC(c: bv32)
    requires 0xC0 <= c <= 0xCF
    ensures Table[c as int] == ShiftByte(c)
  {
    RowCHolds();
    if c == 0xC0 {
    } else if c == 0xC1 {
    } else if c == 0xC2 {
    } else if c == 0xC3 {
    } else if c == 0xC4 {
    } else if c == 0xC5 {
    } else if c == 0xC6 {
    } else if c == 0xC7 {
    } else if c == 0xC8 {
    } else if c == 0xC9 {
    } else if c == 0xCA {
    } else if c == 0xCB {
    } else if c == 0xCC {
    } else if c == 0xCD {
    } else if c == 0xCE {
    } else {
    }
  }

  /** Row D of the table holds eight shift steps of each of its indices. */
  lemma RowDHolds()
    ensures RowD == [
        ShiftByte(0xD0), ShiftByte(0xD1), ShiftByte(0xD2), ShiftByte(0xD3),
        ShiftByte(0xD4), ShiftByte(0xD5), ShiftByte(0xD6), ShiftByte(0xD7),
        ShiftByte(0xD8), ShiftByte(0xD9), ShiftByte(0xDA), ShiftByte(0xDB),
        ShiftByte(0xDC), ShiftByte(0xDD), ShiftByte(0xDE), ShiftByte(0xDF)]
  {
  }

  lemma TableRowD(c: bv32)
    requires 0xD0 <= c <= 0xDF
    ensures Table[c as int] == ShiftByte(c)
  {
    RowDHolds();
    if c == 0xD0 {
    } else if c == 0xD1 {
    } else if c == 0xD2 {
    } else if c == 0xD3 {
    } else if c == 0xD4 {
    } else if c == 0xD5 {
    } else if c == 0xD6 {
    } else if c == 0xD7 {
    } else if c == 0xD8 {
    } else if c == 0xD9 {
    } else if c == 0xDA {
    } else if c == 0xDB {
    } else if c == 0xDC {
    } else if c == 0xDD {
    } else if c == 0xDE {
    } else {
    }
  }

  /** Row E of the table holds eight shift steps of each of its indices. */
  lemma RowEHolds()
    ensures RowE == [
        ShiftByte(0xE0), ShiftByte(0xE1), ShiftByte(0xE2), ShiftByte(0xE3),
        ShiftByte(0xE4), ShiftByte(0xE5), ShiftByte(0xE6), ShiftByte(0xE7),
        ShiftByte(0xE8), ShiftByte(0xE9), ShiftByte(0xEA), ShiftByte(0xEB),
        ShiftByte(0xEC), ShiftByte(0xED), ShiftByte(0xEE), ShiftByte(0xEF)]
  {
  }

  lemma TableRowE(c: bv32)
    requires 0xE0 <= c <= 0xEF
    ensures Table[c as int] == ShiftByte(c)
  {
    RowEHolds();
    if c == 0xE0 {
    } else if c == 0xE1 {
    } else if c == 0xE2 {
    } else if c == 0xE3 {
    } else if c == 0xE4 {
    } else if c == 0xE5 {
    } else if c == 0xE6 {
    } else if c == 0xE7 {
    } else if c == 0xE8 {
    } else if c == 0xE9 {
    } else if c == 0xEA {
    } else if c == 0xEB {
    } else if c == 0xEC {
    } else if c == 0xED {
    } else if c == 0xEE {
    } else {
    }
  }

  /** Row F of the table holds eight shift steps of each of its indices. */
  lemma RowFHolds()
    ensures RowF == [
        ShiftByte(0xF0), ShiftByte(0xF1), ShiftByte(0xF2), ShiftByte(0xF3),
        ShiftByte(0xF4), ShiftByte(0xF5), ShiftByte(0xF6), ShiftByte(0xF7),
        ShiftByte(0xF8), ShiftByte(0xF9), ShiftByte(0xFA), ShiftByte(0xFB),
        ShiftByte(0xFC), ShiftByte(0xFD), ShiftByte(0xFE), ShiftByte(0xFF)]
  {
  }

  lemma TableRowF(c: bv32)
    requires 0xF0 <= c <= 0xFF
    ensures Table[c as int] == ShiftByte(c)
  {
    RowFHolds();
    if c == 0xF0 {
    } else if c == 0xF1 {
    } else if c == 0xF2 {
    } else if c == 0xF3 {
    } else if c == 0xF4 {
    } else if c == 0xF5 {
    } else if c == 0xF6 {
    } else if c == 0xF7 {
    } else if c == 0xF8 {
    } else if c == 0xF9 {
    } else if c == 0xFA {
    } else if c == 0xFB {
    } else if c == 0xFC {
    } else if c == 0xFD {
    } else if c == 0xFE {
    } else {
    }
  }

  /** Entry `c` of the table is the register after eight shift steps from `c`. */
  lemma TableEntry(c: bv32)
    requires c <= 0xFF
    ensures |Table| == 256 && Table[c as int] == ShiftByte(c)
  {
    if c <= 0x0F { TableRow0(c); }
    else if c <= 0x1F { TableRow1(c); }
    else if c <= 0x2F { TableRow2(c); }
    else if c <= 0x3F { TableRow3(c); }
    else if c <= 0x4F { TableRow4(c); }
    else if c <= 0x5F { TableRow5(c); }
    else if c <= 0x6F { TableRow6(c); }
    else if c <= 0x7F { TableRow7(c); }
    else if c <= 0x8F { TableRow8(c); }
    else if c <= 0x9F { TableRow9(c); }
    else if c <= 0xAF { TableRowA(c); }
    else if c <= 0xBF { TableRowB(c); }
    else if c <= 0xCF { TableRowC(c); }
    else if c <= 0xDF { TableRowD(c); }
    else if c <= 0xEF { TableRowE(c); }
    else { TableRowF(c); }
  }

  // ---------------------------------------------------------------------------
  // From the bit-serial definition to the table step
  // ---------------------------------------------------------------------------

  /** Eight steps of `x`: eight steps of its low byte, XORed with the rest of `x` moved down a byte. */
  lemma ShiftByteSplit(x: bv32)
    ensures ShiftByte(x) == ShiftByte(x & 0xFF) ^ (x >> 8)
  {
  }

  lemma XorByteKeepsHighBytes(crc: bv32, b: byte)
    ensures (crc ^ b as bv32) >> 8 == crc >> 8
  {
  }

  /** Feeding one byte through the register bit by bit is one table step. */
  lemma ByteStep(crc: bv32, b: byte)
    ensures ShiftByte((crc ^ b as bv32) & 0xFF) ^ (crc >> 8) == ShiftByte(crc ^ b as bv32)
  {
    ShiftByteSplit(crc ^ b as bv32);
    XorByteKeepsHighBytes(crc, b);
  }

  /** The index `PDI_CRC` looks up: the low byte of the register XOR the next data byte. */
  function TableIndex(crc: bv32, b: byte): (i: nat)
    ensures i < 256
  {
    ((crc ^ b as bv32) & 0xFF) as int
  }

  /** One iteration of the loop in `PDI_CRC`. */
  function TableStep(crc: bv32, b: byte): bv32 {
    Table[TableIndex(crc, b)] ^ (crc >> 8)
  }

  /** A table step shifts one byte through the register. */
  lemma TableStepIsBitStep(crc: bv32, b: byte)
    ensures TableStep(crc, b) == BitStep(crc, b)
  {
    TableEntry((crc ^ b as bv32) & 0xFF);
    ByteStep(crc, b);
  }

  lemma TableStepsAreBitSteps()
    ensures forall crc: bv32, b: byte :: TableStep(crc, b) == BitStep(crc, b)
  {
    forall crc: bv32, b: byte
      ensures TableStep(crc, b) == BitStep(crc, b)
    {
      TableStepIsBitStep(crc, b);
    }
  }

  /** Two updates that agree everywhere give the same register on every input. */
  lemma {:induction false} FeedAgrees(f: (bv32, byte) -> bv32, g: (bv32, byte) -> bv32, init: bv32, data: seq<byte>)
    requires forall c, b :: f(c, b) == g(c, b)
    ensures Feed(f, init, data) == Feed(g, init, data)
  {
    if data != [] {
      FeedAgrees(f, g, init, data[..|data| - 1]);
    }
  }

  /** The table-driven register agrees with the bit-serial one on every input. */
  lemma TableFeedIsBitFeed(init: bv32, data: seq<byte>)
    ensures Feed(TableStep, init, data) == Feed(BitStep, init, data)
  {
    TableStepsAreBitSteps();
    FeedAgrees(TableStep, BitStep, init, data);
  }

  // ---------------------------------------------------------------------------
  // PDI_CRC
  // ---------------------------------------------------------------------------

  /** `PDI_CRC(buffer)`: the table-driven loop computes the CRC-32 of the buffer. */
  method PdiCrc(buffer: array<byte>) returns (crc: bv32)
    ensures crc == Crc32(buffer[..])
  {
    crc := 0;
    crc := crc ^ !0;
    crc := TableLoop(buffer, crc);
    TableFeedIsBitFeed(0xFFFF_FFFF, buffer[..]);
    return crc ^ !0;
  }

  /** The loop of `PDI_CRC`: every byte of the buffer goes through one table step. */
  method TableLoop(buffer: array<byte>, init: bv32) returns (crc: bv32)
    ensures crc == Feed(TableStep, init, buffer[..])
  {
    crc := init;
    for i := 0 to buffer.Length
      invariant crc == Feed(TableStep, init, buffer[..i])
    {
      assert buffer[..i + 1][..i] == buffer[..i];
      crc := Table[TableIndex(crc, buffer[i])] ^ (crc >> 8);
    }
    assert buffer[..buffer.Length] == buffer[..];
  }
}

/** CRC32c as the health checker computes it: a loop that consumes one byte a
    round through a table of 256 words.  The reference is the shift register
    that the CRC32c polynomial defines, one bit a step; the table has to agree
    with it entry by entry.
 */
module Crc32c {

  /** The CRC32c polynomial 0x1EDC6F41 with its bits reversed. */
  const POLYNOMIAL: bv32 := 0x82F63B78

  const ALL_ONES: bv32 := 0xFFFF_FFFF

  // ---- the shift register, one bit a step

  function Xor(x: bv32, y: bv32): bv32 {
    x ^ y
  }

  predicate LowBit(r: bv32) {
    r & 1 == 1
  }

  function Step(r: bv32): bv32 {
    if LowBit(r) then Xor(r >> 1, POLYNOMIAL) else r >> 1
  }

  function Step2(r: bv32): bv32 {
    Step(Step(r))
  }

  function Step4(r: bv32): bv32 {
    Step2(Step2(r))
  }

  function Step8(r: bv32): bv32 {
    Step4(Step4(r))
  }

  /** One message byte: it is added to the low end of the register, which then shifts eight times. */
  function Absorb(r: bv32, b: bv8): bv32 {
    Step8(Xor(r, b as bv32))
  }

  function AbsorbAll(r: bv32, data: seq<bv8>): bv32 {
    if data == [] then r
    else Absorb(AbsorbAll(r, data[..|data| - 1]), data[|data| - 1])
  }

  // ---- struct.pack and struct.unpack of one unsigned 32-bit word

  function PackLittle(w: bv32): (bytes: seq<bv8>)
    ensures |bytes| == 4
  {
    [(w & 0xFF) as bv8, ((w >> 8) & 0xFF) as bv8, ((w >> 16) & 0xFF) as bv8, ((w >> 24) & 0xFF) as bv8]
  }

  function PackBig(w: bv32): (bytes: seq<bv8>)
    ensures |bytes| == 4
  {
    [((w >> 24) & 0xFF) as bv8, ((w >> 16) & 0xFF) as bv8, ((w >> 8) & 0xFF) as bv8, (w & 0xFF) as bv8]
  }

  function UnpackBig(bytes: seq<bv8>): bv32
    requires |bytes| == 4
  {
    (bytes[0] as bv32 << 24) | (bytes[1] as bv32 << 16) | (bytes[2] as bv32 << 8) | (bytes[3] as bv32)
  }

  /** The register is complemented and its bytes are swapped. */
  function Finish(r: bv32): bv32 {
    UnpackBig(PackLittle(!r & 0xFFFF_FFFF))
  }

  /** The checksum of section 6.8 of RFC 9260, bit by bit. */
  function Crc(data: seq<bv8>): bv32 {
    Finish(AbsorbAll(ALL_ONES, data))
  }

  // ---- the table of the program, sixteen entries a row

  const ROW_0: seq<bv32> := [
    0x00000000, 0xF26B8303, 0xE13B70F7, 0x1350F3F4,
    0xC79A971F, 0x35F1141C, 0x26A1E7E8, 0xD4CA64EB,
    0x8AD958CF, 0x78B2DBCC, 0x6BE22838, 0x9989AB3B,
    0x4D43CFD0, 0xBF284CD3, 0xAC78BF27, 0x5E133C24
  ]
  const ROW_1: seq<bv32> := [
    0x105EC76F, 0xE235446C, 0xF165B798, 0x030E349B,
    0xD7C45070, 0x25AFD373, 0x36FF2087, 0xC494A384,
    0x9A879FA0, 0x68EC1CA3, 0x7BBCEF57, 0x89D76C54,
    0x5D1D08BF, 0xAF768BBC, 0xBC267848, 0x4E4DFB4B
  ]
  const ROW_2: seq<bv32> := [
    0x20BD8EDE, 0xD2D60DDD, 0xC186FE29, 0x33ED7D2A,
    0xE72719C1, 0x154C9AC2, 0x061C6936, 0xF477EA35,
    0xAA64D611, 0x580F5512, 0x4B5FA6E6, 0xB93425E5,
    0x6DFE410E, 0x9F95C20D, 0x8CC531F9, 0x7EAEB2FA
  ]
  const ROW_3: seq<bv32> := [
    0x30E349B1, 0xC288CAB2, 0xD1D83946, 0x23B3BA45,
    0xF779DEAE, 0x05125DAD, 0x1642AE59, 0xE4292D5A,
    0xBA3A117E, 0x4851927D, 0x5B016189, 0xA96AE28A,
    0x7DA08661, 0x8FCB0562, 0x9C9BF696, 0x6EF07595
  ]
  const ROW_4: seq<bv32> := [
    0x417B1DBC, 0xB3109EBF, 0xA0406D4B, 0x522BEE48,
    0x86E18AA3, 0x748A09A0, 0x67DAFA54, 0x95B17957,
    0xCBA24573, 0x39C9C670, 0x2A993584, 0xD8F2B687,
    0x0C38D26C, 0xFE53516F, 0xED03A29B, 0x1F682198
  ]
  const ROW_5: seq<bv32> := [
    0x5125DAD3, 0xA34E59D0, 0xB01EAA24, 0x42752927,
    0x96BF4DCC, 0x64D4CECF, 0x77843D3B, 0x85EFBE38,
    0xDBFC821C, 0x2997011F, 0x3AC7F2EB, 0xC8AC71E8,
    0x1C661503, 0xEE0D9600, 0xFD5D65F4, 0x0F36E6F7
  ]
  const ROW_6: seq<bv32> := [
    0x61C69362, 0x93AD1061, 0x80FDE395, 0x72966096,
    0xA65C047D, 0x5437877E, 0x4767748A, 0xB50CF789,
    0xEB1FCBAD, 0x197448AE, 0x0A24BB5A, 0xF84F3859,
    0x2C855CB2, 0xDEEEDFB1, 0xCDBE2C45, 0x3FD5AF46
  ]
  const ROW_7: seq<bv32> := [
    0x7198540D, 0x83F3D70E, 0x90A324FA, 0x62C8A7F9,
    0xB602C312, 0x44694011, 0x5739B3E5, 0xA55230E6,
    0xFB410CC2, 0x092A8FC1, 0x1A7A7C35, 0xE811FF36,
    0x3CDB9BDD, 0xCEB018DE, 0xDDE0EB2A, 0x2F8B6829
  ]
  const ROW_8: seq<bv32> := [
    0x82F63B78, 0x709DB87B, 0x63CD4B8F, 0x91A6C88C,
    0x456CAC67, 0xB7072F64, 0xA457DC90, 0x563C5F93,
    0x082F63B7, 0xFA44E0B4, 0xE9141340, 0x1B7F9043,
    0xCFB5F4A8, 0x3DDE77AB, 0x2E8E845F, 0xDCE5075C
  ]
  const ROW_9: seq<bv32> := [
    0x92A8FC17, 0x60C37F14, 0x73938CE0, 0x81F80FE3,
    0x55326B08, 0xA759E80B, 0xB4091BFF, 0x466298FC,
    0x1871A4D8, 0xEA1A27DB, 0xF94AD42F, 0x0B21572C,
    0xDFEB33C7, 0x2D80B0C4, 0x3ED04330, 0xCCBBC033
  ]
  const ROW_A: seq<bv32> := [
    0xA24BB5A6, 0x502036A5, 0x4370C551, 0xB11B4652,
    0x65D122B9, 0x97BAA1BA, 0x84EA524E, 0x7681D14D,
    0x2892ED69, 0xDAF96E6A, 0xC9A99D9E, 0x3BC21E9D,
    0xEF087A76, 0x1D63F975, 0x0E330A81, 0xFC588982
  ]
  const ROW_B: seq<bv32> := [
    0xB21572C9, 0x407EF1CA, 0x532E023E, 0xA145813D,
    0x758FE5D6, 0x87E466D5, 0x94B49521, 0x66DF1622,
    0x38CC2A06, 0xCAA7A905, 0xD9F75AF1, 0x2B9CD9F2,
    0xFF56BD19, 0x0D3D3E1A, 0x1E6DCDEE, 0xEC064EED
  ]
  const ROW_C: seq<bv32> := [
    0xC38D26C4, 0x31E6A5C7, 0x22B65633, 0xD0DDD530,
    0x0417B1DB, 0xF67C32D8, 0xE52CC12C, 0x1747422F,
    0x49547E0B, 0xBB3FFD08, 0xA86F0EFC, 0x5A048DFF,
    0x8ECEE914, 0x7CA56A17, 0x6FF599E3, 0x9D9E1AE0
  ]
  const ROW_D: seq<bv32> := [
    0xD3D3E1AB, 0x21B862A8, 0x32E8915C, 0xC083125F,
    0x144976B4, 0xE622F5B7, 0xF5720643, 0x07198540,
    0x590AB964, 0xAB613A67, 0xB831C993, 0x4A5A4A90,
    0x9E902E7B, 0x6CFBAD78, 0x7FAB5E8C, 0x8DC0DD8F
  ]
  const ROW_E: seq<bv32> := [
    0xE330A81A, 0x115B2B19, 0x020BD8ED, 0xF0605BEE,
    0x24AA3F05, 0xD6C1BC06, 0xC5914FF2, 0x37FACCF1,
    0x69E9F0D5, 0x9B8273D6, 0x88D28022, 0x7AB90321,
    0xAE7367CA, 0x5C18E4C9, 0x4F48173D, 0xBD23943E
  ]
  const ROW_F: seq<bv32> := [
    0xF36E6F75, 0x0105EC76, 0x12551F82, 0xE03E9C81,
    0x34F4F86A, 0xC69F7B69, 0xD5CF889D, 0x27A40B9E,
    0x79B737BA, 0x8BDCB4B9, 0x988C474D, 0x6AE7C44E,
    0xBE2DA0A5, 0x4C4623A6, 0x5F16D052, 0xAD7D5351
  ]

  const ROWS: seq<seq<bv32>> :=
    [ROW_0, ROW_1, ROW_2, ROW_3, ROW_4, ROW_5, ROW_6, ROW_7,
     ROW_8, ROW_9, ROW_A, ROW_B, ROW_C, ROW_D, ROW_E, ROW_F]

  const CRC_C: seq<bv32> := Flatten(ROWS)

  function Flatten(rows: seq<seq<bv32>>): seq<bv32> {
    if rows == [] then [] else rows[0] + Flatten(rows[1..])
  }

  lemma {:induction false} FlattenAt(rows: seq<seq<bv32>>, i: nat, k: nat)
    requires forall row :: row in rows ==> |row| == 16
    requires i < |rows| && k < 16
    ensures |Flatten(rows)| == 16 * |rows|
    ensures Flatten(rows)[16 * i + k] == rows[i][k]
  {
    if |rows| > 1 {
      FlattenAt(rows[1..], if i == 0 then 0 else i - 1, k);
    }
  }

  /** The row that starts at index b: entry k is what eight shifts make of b ^ k. */
  function SteppedRow(b: bv32): seq<bv32> {
    [Step8(b ^ 0), Step8(b ^ 1), Step8(b ^ 2), Step8(b ^ 3),
     Step8(b ^ 4), Step8(b ^ 5), Step8(b ^ 6), Step8(b ^ 7),
     Step8(b ^ 8), Step8(b ^ 9), Step8(b ^ 10), Step8(b ^ 11),
     Step8(b ^ 12), Step8(b ^ 13), Step8(b ^ 14), Step8(b ^ 15)]
  }

  lemma SteppedRowAt(b: bv32, k: bv32)
    requires k < 16
    ensures SteppedRow(b)[k as int] == Step8(b ^ k)
  {
    hide Step8;
    if k < 8 {
      assert k == 0 || k == 1 || k == 2 || k == 3 || k == 4 || k == 5 || k == 6 || k == 7;
    } else {
      assert k == 8 || k == 9 || k == 10 || k == 11 || k == 12 || k == 13 || k == 14 || k == 15;
    }
  }

  lemma Row0IsStepped()
    ensures ROW_0 == SteppedRow(0x00)
  {
  }

  lemma Row1IsStepped()
    ensures ROW_1 == SteppedRow(0x10)
  {
  }

  lemma Row2IsStepped()
    ensures ROW_2 == SteppedRow(0x20)
  {
  }

  lemma Row3IsStepped()
    ensures ROW_3 == SteppedRow(0x30)
  {
  }

  lemma Row4IsStepped()
    ensures ROW_4 == SteppedRow(0x40)
  {
  }

  lemma Row5IsStepped()
    ensures ROW_5 == SteppedRow(0x50)
  {
  }

  lemma Row6IsStepped()
    ensures ROW_6 == SteppedRow(0x60)
  {
  }

  lemma Row7IsStepped()
    ensures ROW_7 == SteppedRow(0x70)
  {
  }

  lemma Row8IsStepped()
    ensures ROW_8 == SteppedRow(0x80)
  {
  }

  lemma Row9IsStepped()
    ensures ROW_9 == SteppedRow(0x90)
  {
  }

  lemma RowAIsStepped()
    ensures ROW_A == SteppedRow(0xA0)
  {
  }

  lemma RowBIsStepped()
    ensures ROW_B == SteppedRow(0xB0)
  {
  }

  lemma RowCIsStepped()
    ensures ROW_C == SteppedRow(0xC0)
  {
  }

  lemma RowDIsStepped()
    ensures ROW_D == SteppedRow(0xD0)
  {
  }

  lemma RowEIsStepped()
    ensures ROW_E == SteppedRow(0xE0)
  {
  }

  lemma RowFIsStepped()
    ensures ROW_F == SteppedRow(0xF0)
  {
  }


  lemma RowsInOrder()
    ensures |ROWS| == 16
    ensures ROWS[0] == ROW_0 && ROWS[1] == ROW_1 && ROWS[2] == ROW_2 && ROWS[3] == ROW_3
    ensures ROWS[4] == ROW_4 && ROWS[5] == ROW_5 && ROWS[6] == ROW_6 && ROWS[7] == ROW_7
    ensures ROWS[8] == ROW_8 && ROWS[9] == ROW_9 && ROWS[10] == ROW_A && ROWS[11] == ROW_B
    ensures ROWS[12] == ROW_C && ROWS[13] == ROW_D && ROWS[14] == ROW_E && ROWS[15] == ROW_F
  {
    hide ROW_0, ROW_1, ROW_2, ROW_3, ROW_4, ROW_5, ROW_6, ROW_7;
    hide ROW_8, ROW_9, ROW_A, ROW_B, ROW_C, ROW_D, ROW_E, ROW_F;
  }

  lemma RowsAreStepped(h: bv32)
    requires h < 16
    ensures |ROWS| == 16 && ROWS[h as int] == SteppedRow(h << 4)
  {
    hide *;
    RowsInOrder();
    if h == 0x0 {
      Row0IsStepped();
    } else if h == 0x1 {
      Row1IsStepped();
    } else if h == 0x2 {
      Row2IsStepped();
    } else if h == 0x3 {
      Row3IsStepped();
    } else if h == 0x4 {
      Row4IsStepped();
    } else if h == 0x5 {
      Row5IsStepped();
    } else if h == 0x6 {
      Row6IsStepped();
    } else if h == 0x7 {
      Row7IsStepped();
    } else if h == 0x8 {
      Row8IsStepped();
    } else if h == 0x9 {
      Row9IsStepped();
    } else if h == 0xA {
      RowAIsStepped();
    } else if h == 0xB {
      RowBIsStepped();
    } else if h == 0xC {
      RowCIsStepped();
    } else if h == 0xD {
      RowDIsStepped();
    } else if h == 0xE {
      RowEIsStepped();
    } else if h == 0xF {
      RowFIsStepped();
    }
  }

  lemma RowLengths()
    ensures forall row :: row in ROWS ==> |row| == 16
  {
  }

  lemma NibblesOf(b: bv32)
    requires b < 256
    ensures (b >> 4) < 16 && (b & 15) < 16
    ensures b as int == 16 * ((b >> 4) as int) + ((b & 15) as int)
    ensures ((b >> 4) << 4) ^ (b & 15) == b
  {
  }

  lemma TableIsFlattened()
    ensures CRC_C == Flatten(ROWS)
  {
    hide Flatten, ROWS;
  }

  /** Every entry of the table is what eight shifts of the register make of its index. */
  lemma TableIsStepped(b: bv32)
    requires b < 256
    ensures |CRC_C| == 256 && CRC_C[b as int] == Step8(b)
  {
    hide *;
    var h, k := b >> 4, b & 15;
    NibblesOf(b);
    RowsAreStepped(h);
    RowLengths();
    TableIsFlattened();
    FlattenAt(ROWS, h as int, k as int);
    SteppedRowAt(h << 4, k);
  }

  // ---- the register is linear and one-to-one

  lemma XorShift(x: bv32, y: bv32)
    ensures Xor(x, y) >> 1 == Xor(x >> 1, y >> 1)
    ensures LowBit(Xor(x, y)) <==> LowBit(x) != LowBit(y)
  {
    assert (x ^ y) >> 1 == (x >> 1) ^ (y >> 1);
    assert (x ^ y) & 1 == (x & 1) ^ (y & 1);
    assert x & 1 == 0 || x & 1 == 1;
    assert y & 1 == 0 || y & 1 == 1;
  }

  lemma XorRearrange(x: bv32, y: bv32, z: bv32)
    ensures Xor(Xor(x, z), y) == Xor(Xor(x, y), z)
    ensures Xor(x, Xor(y, z)) == Xor(Xor(x, y), z)
    ensures Xor(Xor(x, z), Xor(y, z)) == Xor(x, y)
  {
  }

  lemma XorZero(r: bv32)
    ensures Xor(r, 0) == r
  {
  }

  lemma StepIsLinear(x: bv32, y: bv32)
    ensures Step(Xor(x, y)) == Xor(Step(x), Step(y))
  {
    hide Xor, LowBit;
    XorShift(x, y);
    XorRearrange(x >> 1, y >> 1, POLYNOMIAL);
  }

  lemma Step8IsLinear(x: bv32, y: bv32)
    ensures Step8(Xor(x, y)) == Xor(Step8(x), Step8(y))
  {
    hide Step, Xor;
    StepIsLinear(x, y);
    StepIsLinear(Step(x), Step(y));
    StepIsLinear(Step2(x), Step2(y));
    StepIsLinear(Step(Step2(x)), Step(Step2(y)));
    StepIsLinear(Step4(x), Step4(y));
    StepIsLinear(Step(Step4(x)), Step(Step4(y)));
    StepIsLinear(Step2(Step4(x)), Step2(Step4(y)));
    StepIsLinear(Step(Step2(Step4(x))), Step(Step2(Step4(y))));
  }

  lemma StepIsInjective(x: bv32, y: bv32)
    requires Step(x) == Step(y)
    ensures x == y
  {
  }

  lemma Step8IsInjective(x: bv32, y: bv32)
    requires Step8(x) == Step8(y)
    ensures x == y
  {
    hide Step;
    StepIsInjective(Step(Step2(Step4(x))), Step(Step2(Step4(y))));
    StepIsInjective(Step2(Step4(x)), Step2(Step4(y)));
    StepIsInjective(Step(Step4(x)), Step(Step4(y)));
    StepIsInjective(Step4(x), Step4(y));
    StepIsInjective(Step(Step2(x)), Step(Step2(y)));
    StepIsInjective(Step2(x), Step2(y));
    StepIsInjective(Step(x), Step(y));
    StepIsInjective(x, y);
  }

  // ---- the loop of the program computes the checksum

  lemma HighPartShiftsOut(x: bv32)
    requires x & 0xFF == 0
    ensures Step8(x) == x >> 8
  {
  }

  function High(x: bv32): bv32 {
    x & 0xFFFF_FF00
  }

  function Low(x: bv32): (low: bv32)
    ensures low < 256
  {
    x & 0xFF
  }

  lemma SplitLowByte(x: bv32)
    ensures x == Xor(High(x), Low(x))
  {
  }

  lemma HighPart(x: bv32)
    ensures High(x) & 0xFF == 0
    ensures High(x) >> 8 == x >> 8
  {
  }

  lemma TableHas256()
    ensures |CRC_C| == 256
  {
    hide Step8;
    TableIsStepped(0);
  }

  /** The table entry that the low byte of x selects. */
  function TableWord(x: bv32): bv32 {
    TableHas256();
    CRC_C[(x & 0xFF) as int]
  }

  lemma TableWordIsStepped(x: bv32)
    ensures TableWord(x) == Step8(Low(x))
  {
    hide Step8, CRC_C;
    TableIsStepped(Low(x));
  }

  /** One round of the program's loop. */
  function TableRound(r: bv32, c: bv32): bv32 {
    (r >> 8) ^ TableWord(r ^ c)
  }

  lemma RoundByXor(r: bv32, b: bv8)
    ensures TableRound(r, b as bv32) == Xor(Xor(r, b as bv32) >> 8, TableWord(Xor(r, b as bv32)))
  {
    hide TableWord;
    assert (r ^ (b as bv32)) >> 8 == r >> 8;
  }

  lemma TableRoundIsAbsorb(r: bv32, b: bv8)
    ensures TableRound(r, b as bv32) == Absorb(r, b)
  {
    hide Step8, Xor, High, Low, TableRound, TableWord;
    var x := Xor(r, b as bv32);
    RoundByXor(r, b);
    TableWordIsStepped(x);
    SplitLowByte(x);
    Step8IsLinear(High(x), Low(x));
    HighPart(x);
    HighPartShiftsOut(High(x));
  }

  /** The method is the program's loop; its result is the bit-by-bit checksum. */
  method Crc32c(data: seq<bv8>) returns (crc: bv32)
    ensures crc == Crc(data)
  {
    hide Absorb, TableRound, Finish;
    var crc32: bv32 := 0xFFFF_FFFF;
    for i := 0 to |data|
      invariant crc32 == AbsorbAll(ALL_ONES, data[..i])
    {
      TableRoundIsAbsorb(crc32, data[i]);
      assert data[..i + 1][..i] == data[..i];
      crc32 := TableRound(crc32, data[i] as bv32);
    }
    assert data[..|data|] == data;
    crc := Finish(crc32);
  }

  // ---- the published check value

  lemma DigitRegisters()
    ensures Absorb(ALL_ONES, 0x31) == 0x6F0A661C
    ensures Absorb(0x6F0A661C, 0x32) == 0x8CAA3B9F
    ensures Absorb(0x8CAA3B9F, 0x33) == 0xEF84D04D
    ensures Absorb(0xEF84D04D, 0x34) == 0x09C50B11
    ensures Absorb(0x09C50B11, 0x35) == 0xE72EDCCA
    ensures Absorb(0xE72EDCCA, 0x36) == 0xBECA8E79
    ensures Absorb(0xBECA8E79, 0x37) == 0xEDBD6815
    ensures Absorb(0xEDBD6815, 0x38) == 0x9F787F65
    ensures Absorb(0x9F787F65, 0x39) == 0x1CF96D7C
    ensures Finish(0x1CF96D7C) == 0x839206E3
  {
  }

  lemma AbsorbsNext(r: bv32, data: seq<bv8>, k: nat)
    requires k < |data|
    ensures AbsorbAll(r, data[..k + 1]) == Absorb(AbsorbAll(r, data[..k]), data[k])
  {
    hide Absorb;
    assert data[..k + 1][..k] == data[..k];
  }

  const DIGITS: seq<bv8> := [0x31, 0x32, 0x33, 0x34, 0x35, 0x36, 0x37, 0x38, 0x39]

  /** The digits 1 to 9 have the check value of CRC-32C, 0xE3069283; the program swaps its bytes. */
  lemma CheckValue()
    ensures Crc(DIGITS) == 0x839206E3
  {
    hide Absorb, AbsorbAll, Finish, ALL_ONES;
    DigitRegisters();
    NothingAbsorbed(ALL_ONES);
    assert DIGITS[..0] == [] && DIGITS[..9] == DIGITS;
    AbsorbsNext(ALL_ONES, DIGITS, 0);
    AbsorbsNext(ALL_ONES, DIGITS, 1);
    AbsorbsNext(ALL_ONES, DIGITS, 2);
    AbsorbsNext(ALL_ONES, DIGITS, 3);
    AbsorbsNext(ALL_ONES, DIGITS, 4);
    AbsorbsNext(ALL_ONES, DIGITS, 5);
    AbsorbsNext(ALL_ONES, DIGITS, 6);
    AbsorbsNext(ALL_ONES, DIGITS, 7);
    AbsorbsNext(ALL_ONES, DIGITS, 8);
  }

  lemma NothingAbsorbed(r: bv32)
    ensures AbsorbAll(r, []) == r
  {
  }
}

// The 256-entry table of crc/crc_ccitt.c and why one look-up advances the register by eight bits.
module CrcTable {

  import opened CrcRegister

  const ROW_0: seq<bv16> := [
    0x0000, 0x1021, 0x2042, 0x3063, 0x4084, 0x50A5, 0x60C6, 0x70E7,
    0x8108, 0x9129, 0xA14A, 0xB16B, 0xC18C, 0xD1AD, 0xE1CE, 0xF1EF]

  const ROW_1: seq<bv16> := [
    0x1231, 0x0210, 0x3273, 0x2252, 0x52B5, 0x4294, 0x72F7, 0x62D6,
    0x9339, 0x8318, 0xB37B, 0xA35A, 0xD3BD, 0xC39C, 0xF3FF, 0xE3DE]

  const ROW_2: seq<bv16> := [
    0x2462, 0x3443, 0x0420, 0x1401, 0x64E6, 0x74C7, 0x44A4, 0x5485,
    0xA56A, 0xB54B, 0x8528, 0x9509, 0xE5EE, 0xF5CF, 0xC5AC, 0xD58D]

  const ROW_3: seq<bv16> := [
    0x3653, 0x2672, 0x1611, 0x0630, 0x76D7, 0x66F6, 0x5695, 0x46B4,
    0xB75B, 0xA77A, 0x9719, 0x8738, 0xF7DF, 0xE7FE, 0xD79D, 0xC7BC]

  const ROW_4: seq<bv16> := [
    0x48C4, 0x58E5, 0x6886, 0x78A7, 0x0840, 0x1861, 0x2802, 0x3823,
    0xC9CC, 0xD9ED, 0xE98E, 0xF9AF, 0x8948, 0x9969, 0xA90A, 0xB92B]

  const ROW_5: seq<bv16> := [
    0x5AF5, 0x4AD4, 0x7AB7, 0x6A96, 0x1A71, 0x0A50, 0x3A33, 0x2A12,
    0xDBFD, 0xCBDC, 0xFBBF, 0xEB9E, 0x9B79, 0x8B58, 0xBB3B, 0xAB1A]

  const ROW_6: seq<bv16> := [
    0x6CA6, 0x7C87, 0x4CE4, 0x5CC5, 0x2C22, 0x3C03, 0x0C60, 0x1C41,
    0xEDAE, 0xFD8F, 0xCDEC, 0xDDCD, 0xAD2A, 0xBD0B, 0x8D68, 0x9D49]

  const ROW_7: seq<bv16> := [
    0x7E97, 0x6EB6, 0x5ED5, 0x4EF4, 0x3E13, 0x2E32, 0x1E51, 0x0E70,
    0xFF9F, 0xEFBE, 0xDFDD, 0xCFFC, 0xBF1B, 0xAF3A, 0x9F59, 0x8F78]

  const ROW_8: seq<bv16> := [
    0x9188, 0x81A9, 0xB1CA, 0xA1EB, 0xD10C, 0xC12D, 0xF14E, 0xE16F,
    0x1080, 0x00A1, 0x30C2, 0x20E3, 0x5004, 0x4025, 0x7046, 0x6067]

  const ROW_9: seq<bv16> := [
    0x83B9, 0x9398, 0xA3FB, 0xB3DA, 0xC33D, 0xD31C, 0xE37F, 0xF35E,
    0x02B1, 0x1290, 0x22F3, 0x32D2, 0x4235, 0x5214, 0x6277, 0x7256]

  const ROW_A: seq<bv16> := [
    0xB5EA, 0xA5CB, 0x95A8, 0x8589, 0xF56E, 0xE54F, 0xD52C, 0xC50D,
    0x34E2, 0x24C3, 0x14A0, 0x0481, 0x7466, 0x6447, 0x5424, 0x4405]

  const ROW_B: seq<bv16> := [
    0xA7DB, 0xB7FA, 0x8799, 0x97B8, 0xE75F, 0xF77E, 0xC71D, 0xD73C,
    0x26D3, 0x36F2, 0x0691, 0x16B0, 0x6657, 0x7676, 0x4615, 0x5634]

  const ROW_C: seq<bv16> := [
    0xD94C, 0xC96D, 0xF90E, 0xE92F, 0x99C8, 0x89E9, 0xB98A, 0xA9AB,
    0x5844, 0x4865, 0x7806, 0x6827, 0x18C0, 0x08E1, 0x3882, 0x28A3]

  const ROW_D: seq<bv16> := [
    0xCB7D, 0xDB5C, 0xEB3F, 0xFB1E, 0x8BF9, 0x9BD8, 0xABBB, 0xBB9A,
    0x4A75, 0x5A54, 0x6A37, 0x7A16, 0x0AF1, 0x1AD0, 0x2AB3, 0x3A92]

  const ROW_E: seq<bv16> := [
    0xFD2E, 0xED0F, 0xDD6C, 0xCD4D, 0xBDAA, 0xAD8B, 0x9DE8, 0x8DC9,
    0x7C26, 0x6C07, 0x5C64, 0x4C45, 0x3CA2, 0x2C83, 0x1CE0, 0x0CC1]

  const ROW_F: seq<bv16> := [
    0xEF1F, 0xFF3E, 0xCF5D, 0xDF7C, 0xAF9B, 0xBFBA, 0x8FD9, 0x9FF8,
    0x6E17, 0x7E36, 0x4E55, 0x5E74, 0x2E93, 0x3EB2, 0x0ED1, 0x1EF0]

  // The table, its rows of 16 laid end to end.
  function CcittTable(i: int): bv16
    requires 0 <= i < 256
  {
    if i < 16 then ROW_0[i]
    else if i < 32 then ROW_1[i - 16]
    else if i < 48 then ROW_2[i - 32]
    else if i < 64 then ROW_3[i - 48]
    else if i < 80 then ROW_4[i - 64]
    else if i < 96 then ROW_5[i - 80]
    else if i < 112 then ROW_6[i - 96]
    else if i < 128 then ROW_7[i - 112]
    else if i < 144 then ROW_8[i - 128]
    else if i < 160 then ROW_9[i - 144]
    else if i < 176 then ROW_A[i - 160]
    else if i < 192 then ROW_B[i - 176]
    else if i < 208 then ROW_C[i - 192]
    else if i < 224 then ROW_D[i - 208]
    else if i < 240 then ROW_E[i - 224]
    else ROW_F[i - 240]
  }

  // What the table has to hold for the byte of value i.
  function Entry(i: int): bv16 {
    if 0 <= i < 256 then MulPow(((i as bv8) as bv16) << 8, 8) else 0
  }

  function Sixteen<T>(f: int -> T, i: int): seq<T> {
    [f(i), f(i + 1), f(i + 2), f(i + 3), f(i + 4), f(i + 5), f(i + 6), f(i + 7),
     f(i + 8), f(i + 9), f(i + 10), f(i + 11), f(i + 12), f(i + 13), f(i + 14), f(i + 15)]
  }

  lemma SixteenAt<T>(f: int -> T, i: int, k: int)
    requires 0 <= k < 16
    ensures Sixteen(f, i)[k] == f(i + k)
  {
  }

  lemma Row0(k: int)
    requires 0 <= k < 16
    ensures ROW_0[k] == Entry(0 + k)
  {
    assert ROW_0 == Sixteen(Entry, 0);
    SixteenAt(Entry, 0, k);
  }

  lemma Row1(k: int)
    requires 0 <= k < 16
    ensures ROW_1[k] == Entry(16 + k)
  {
    assert ROW_1 == Sixteen(Entry, 16);
    SixteenAt(Entry, 16, k);
  }

  lemma Row2(k: int)
    requires 0 <= k < 16
    ensures ROW_2[k] == Entry(32 + k)
  {
    assert ROW_2 == Sixteen(Entry, 32);
    SixteenAt(Entry, 32, k);
  }

  lemma Row3(k: int)
    requires 0 <= k < 16
    ensures ROW_3[k] == Entry(48 + k)
  {
    assert ROW_3 == Sixteen(Entry, 48);
    SixteenAt(Entry, 48, k);
  }

  lemma Row4(k: int)
    requires 0 <= k < 16
    ensures ROW_4[k] == Entry(64 + k)
  {
    assert ROW_4 == Sixteen(Entry, 64);
    SixteenAt(Entry, 64, k);
  }

  lemma Row5(k: int)
    requires 0 <= k < 16
    ensures ROW_5[k] == Entry(80 + k)
  {
    assert ROW_5 == Sixteen(Entry, 80);
    SixteenAt(Entry, 80, k);
  }

  lemma Row6(k: int)
    requires 0 <= k < 16
    ensures ROW_6[k] == Entry(96 + k)
  {
    assert ROW_6 == Sixteen(Entry, 96);
    SixteenAt(Entry, 96, k);
  }

  lemma Row7(k: int)
    requires 0 <= k < 16
    ensures ROW_7[k] == Entry(112 + k)
  {
    assert ROW_7 == Sixteen(Entry, 112);
    SixteenAt(Entry, 112, k);
  }

  lemma Row8(k: int)
    requires 0 <= k < 16
    ensures ROW_8[k] == Entry(128 + k)
  {
    assert ROW_8 == Sixteen(Entry, 128);
    SixteenAt(Entry, 128, k);
  }

  lemma Row9(k: int)
    requires 0 <= k < 16
    ensures ROW_9[k] == Entry(144 + k)
  {
    assert ROW_9 == Sixteen(Entry, 144);
    SixteenAt(Entry, 144, k);
  }

  lemma RowA(k: int)
    requires 0 <= k < 16
    ensures ROW_A[k] == Entry(160 + k)
  {
    assert ROW_A == Sixteen(Entry, 160);
    SixteenAt(Entry, 160, k);
  }

  lemma RowB(k: int)
    requires 0 <= k < 16
    ensures ROW_B[k] == Entry(176 + k)
  {
    assert ROW_B == Sixteen(Entry, 176);
    SixteenAt(Entry, 176, k);
  }

  lemma RowC(k: int)
    requires 0 <= k < 16
    ensures ROW_C[k] == Entry(192 + k)
  {
    assert ROW_C == Sixteen(Entry, 192);
    SixteenAt(Entry, 192, k);
  }

  lemma RowD(k: int)
    requires 0 <= k < 16
    ensures ROW_D[k] == Entry(208 + k)
  {
    assert ROW_D == Sixteen(Entry, 208);
    SixteenAt(Entry, 208, k);
  }

  lemma RowE(k: int)
    requires 0 <= k < 16
    ensures ROW_E[k] == Entry(224 + k)
  {
    assert ROW_E == Sixteen(Entry, 224);
    SixteenAt(Entry, 224, k);
  }

  lemma RowF(k: int)
    requires 0 <= k < 16
    ensures ROW_F[k] == Entry(240 + k)
  {
    assert ROW_F == Sixteen(Entry, 240);
    SixteenAt(Entry, 240, k);
  }

  lemma TableIs(i: int)
    requires 0 <= i < 256
    ensures CcittTable(i) == Entry(i)
  {
    if i < 16 { Row0(i - 0); }
    else if i < 32 { Row1(i - 16); }
    else if i < 48 { Row2(i - 32); }
    else if i < 64 { Row3(i - 48); }
    else if i < 80 { Row4(i - 64); }
    else if i < 96 { Row5(i - 80); }
    else if i < 112 { Row6(i - 96); }
    else if i < 128 { Row7(i - 112); }
    else if i < 144 { Row8(i - 128); }
    else if i < 160 { Row9(i - 144); }
    else if i < 176 { RowA(i - 160); }
    else if i < 192 { RowB(i - 176); }
    else if i < 208 { RowC(i - 192); }
    else if i < 224 { RowD(i - 208); }
    else if i < 240 { RowE(i - 224); }
    else { RowF(i - 240); }
  }

  lemma ByteValue(b: bv8)
    ensures 0 <= b as int < 256
    ensures (b as int) as bv8 == b
  {
  }

  lemma EntryAt(i: int, b: bv8)
    requires 0 <= i < 256 && i as bv8 == b
    ensures Entry(i) == MulPow((b as bv16) << 8, 8)
  {
  }

  lemma TableAt(i: int, b: bv8)
    requires 0 <= i < 256 && i as bv8 == b
    ensures CcittTable(i) == MulPow((b as bv16) << 8, 8)
  {
    TableIs(i);
    EntryAt(i, b);
  }

}

/**
 The 256-entry lookup table of the CRC, sixteen entries to a row, and what its
 entries mean: entry i is the CRC register after the byte i has been clocked
 through it, starting from an empty register.
 */
module Crc16Table {
  function Xor(a: bv16, b: bv16): bv16 { a ^ b }

  function Top(c: bv16): bool { c & 0x8000 != 0 }

  function Shl1(c: bv16): bv16 { c << 1 }

  /** One clock of the register: the generator without its leading term is 0x8005. */
  function Shift(c: bv16): bv16 {
    if Top(c) then Xor(Shl1(c), 0x8005) else Shl1(c)
  }

  /** The register after n clocks with no input. */
  function Clocks(c: bv16, n: nat): bv16
    decreases n
  {
    if n == 0 then c else Clocks(Shift(c), n - 1)
  }

  /** The u8-indexed table lookup. */
  function TableEntry(index: bv8): bv16 {
    Entry(index >> 4, index & 0xf)
  }

  function Entry(high: bv8, low: bv8): bv16 {
    match high
    case 0 => Row0(low)
    case 1 => Row1(low)
    case 2 => Row2(low)
    case 3 => Row3(low)
    case 4 => Row4(low)
    case 5 => Row5(low)
    case 6 => Row6(low)
    case 7 => Row7(low)
    case 8 => Row8(low)
    case 9 => Row9(low)
    case 10 => RowA(low)
    case 11 => RowB(low)
    case 12 => RowC(low)
    case 13 => RowD(low)
    case 14 => RowE(low)
    case 15 => RowF(low)
    case _ => 0
  }

  function Row0(low: bv8): bv16 {
    match low
    case 0 => 0x0000 case 1 => 0x8005 case 2 => 0x800f case 3 => 0x000a
    case 4 => 0x801b case 5 => 0x001e case 6 => 0x0014 case 7 => 0x8011
    case 8 => 0x8033 case 9 => 0x0036 case 10 => 0x003c case 11 => 0x8039
    case 12 => 0x0028 case 13 => 0x802d case 14 => 0x8027 case 15 => 0x0022
    case _ => 0
  }

  function Row1(low: bv8): bv16 {
    match low
    case 0 => 0x8063 case 1 => 0x0066 case 2 => 0x006c case 3 => 0x8069
    case 4 => 0x0078 case 5 => 0x807d case 6 => 0x8077 case 7 => 0x0072
    case 8 => 0x0050 case 9 => 0x8055 case 10 => 0x805f case 11 => 0x005a
    case 12 => 0x804b case 13 => 0x004e case 14 => 0x0044 case 15 => 0x8041
    case _ => 0
  }

  function Row2(low: bv8): bv16 {
    match low
    case 0 => 0x80c3 case 1 => 0x00c6 case 2 => 0x00cc case 3 => 0x80c9
    case 4 => 0x00d8 case 5 => 0x80dd case 6 => 0x80d7 case 7 => 0x00d2
    case 8 => 0x00f0 case 9 => 0x80f5 case 10 => 0x80ff case 11 => 0x00fa
    case 12 => 0x80eb case 13 => 0x00ee case 14 => 0x00e4 case 15 => 0x80e1
    case _ => 0
  }

  function Row3(low: bv8): bv16 {
    match low
    case 0 => 0x00a0 case 1 => 0x80a5 case 2 => 0x80af case 3 => 0x00aa
    case 4 => 0x80bb case 5 => 0x00be case 6 => 0x00b4 case 7 => 0x80b1
    case 8 => 0x8093 case 9 => 0x0096 case 10 => 0x009c case 11 => 0x8099
    case 12 => 0x0088 case 13 => 0x808d case 14 => 0x8087 case 15 => 0x0082
    case _ => 0
  }

  function Row4(low: bv8): bv16 {
    match low
    case 0 => 0x8183 case 1 => 0x0186 case 2 => 0x018c case 3 => 0x8189
    case 4 => 0x0198 case 5 => 0x819d case 6 => 0x8197 case 7 => 0x0192
    case 8 => 0x01b0 case 9 => 0x81b5 case 10 => 0x81bf case 11 => 0x01ba
    case 12 => 0x81ab case 13 => 0x01ae case 14 => 0x01a4 case 15 => 0x81a1
    case _ => 0
  }

  function Row5(low: bv8): bv16 {
    match low
    case 0 => 0x01e0 case 1 => 0x81e5 case 2 => 0x81ef case 3 => 0x01ea
    case 4 => 0x81fb case 5 => 0x01fe case 6 => 0x01f4 case 7 => 0x81f1
    case 8 => 0x81d3 case 9 => 0x01d6 case 10 => 0x01dc case 11 => 0x81d9
    case 12 => 0x01c8 case 13 => 0x81cd case 14 => 0x81c7 case 15 => 0x01c2
    case _ => 0
  }

  function Row6(low: bv8): bv16 {
    match low
    case 0 => 0x0140 case 1 => 0x8145 case 2 => 0x814f case 3 => 0x014a
    case 4 => 0x815b case 5 => 0x015e case 6 => 0x0154 case 7 => 0x8151
    case 8 => 0x8173 case 9 => 0x0176 case 10 => 0x017c case 11 => 0x8179
    case 12 => 0x0168 case 13 => 0x816d case 14 => 0x8167 case 15 => 0x0162
    case _ => 0
  }

  function Row7(low: bv8): bv16 {
    match low
    case 0 => 0x8123 case 1 => 0x0126 case 2 => 0x012c case 3 => 0x8129
    case 4 => 0x0138 case 5 => 0x813d case 6 => 0x8137 case 7 => 0x0132
    case 8 => 0x0110 case 9 => 0x8115 case 10 => 0x811f case 11 => 0x011a
    case 12 => 0x810b case 13 => 0x010e case 14 => 0x0104 case 15 => 0x8101
    case _ => 0
  }

  function Row8(low: bv8): bv16 {
    match low
    case 0 => 0x8303 case 1 => 0x0306 case 2 => 0x030c case 3 => 0x8309
    case 4 => 0x0318 case 5 => 0x831d case 6 => 0x8317 case 7 => 0x0312
    case 8 => 0x0330 case 9 => 0x8335 case 10 => 0x833f case 11 => 0x033a
    case 12 => 0x832b case 13 => 0x032e case 14 => 0x0324 case 15 => 0x8321
    case _ => 0
  }

  function Row9(low: bv8): bv16 {
    match low
    case 0 => 0x0360 case 1 => 0x8365 case 2 => 0x836f case 3 => 0x036a
    case 4 => 0x837b case 5 => 0x037e case 6 => 0x0374 case 7 => 0x8371
    case 8 => 0x8353 case 9 => 0x0356 case 10 => 0x035c case 11 => 0x8359
    case 12 => 0x0348 case 13 => 0x834d case 14 => 0x8347 case 15 => 0x0342
    case _ => 0
  }

  function RowA(low: bv8): bv16 {
    match low
    case 0 => 0x03c0 case 1 => 0x83c5 case 2 => 0x83cf case 3 => 0x03ca
    case 4 => 0x83db case 5 => 0x03de case 6 => 0x03d4 case 7 => 0x83d1
    case 8 => 0x83f3 case 9 => 0x03f6 case 10 => 0x03fc case 11 => 0x83f9
    case 12 => 0x03e8 case 13 => 0x83ed case 14 => 0x83e7 case 15 => 0x03e2
    case _ => 0
  }

  function RowB(low: bv8): bv16 {
    match low
    case 0 => 0x83a3 case 1 => 0x03a6 case 2 => 0x03ac case 3 => 0x83a9
    case 4 => 0x03b8 case 5 => 0x83bd case 6 => 0x83b7 case 7 => 0x03b2
    case 8 => 0x0390 case 9 => 0x8395 case 10 => 0x839f case 11 => 0x039a
    case 12 => 0x838b case 13 => 0x038e case 14 => 0x0384 case 15 => 0x8381
    case _ => 0
  }

  function RowC(low: bv8): bv16 {
    match low
    case 0 => 0x0280 case 1 => 0x8285 case 2 => 0x828f case 3 => 0x028a
    case 4 => 0x829b case 5 => 0x029e case 6 => 0x0294 case 7 => 0x8291
    case 8 => 0x82b3 case 9 => 0x02b6 case 10 => 0x02bc case 11 => 0x82b9
    case 12 => 0x02a8 case 13 => 0x82ad case 14 => 0x82a7 case 15 => 0x02a2
    case _ => 0
  }

  function RowD(low: bv8): bv16 {
    match low
    case 0 => 0x82e3 case 1 => 0x02e6 case 2 => 0x02ec case 3 => 0x82e9
    case 4 => 0x02f8 case 5 => 0x82fd case 6 => 0x82f7 case 7 => 0x02f2
    case 8 => 0x02d0 case 9 => 0x82d5 case 10 => 0x82df case 11 => 0x02da
    case 12 => 0x82cb case 13 => 0x02ce case 14 => 0x02c4 case 15 => 0x82c1
    case _ => 0
  }

  function RowE(low: bv8): bv16 {
    match low
    case 0 => 0x8243 case 1 => 0x0246 case 2 => 0x024c case 3 => 0x8249
    case 4 => 0x0258 case 5 => 0x825d case 6 => 0x8257 case 7 => 0x0252
    case 8 => 0x0270 case 9 => 0x8275 case 10 => 0x827f case 11 => 0x027a
    case 12 => 0x826b case 13 => 0x026e case 14 => 0x0264 case 15 => 0x8261
    case _ => 0
  }

  function RowF(low: bv8): bv16 {
    match low
    case 0 => 0x0220 case 1 => 0x8225 case 2 => 0x822f case 3 => 0x022a
    case 4 => 0x823b case 5 => 0x023e case 6 => 0x0234 case 7 => 0x8231
    case 8 => 0x8213 case 9 => 0x0216 case 10 => 0x021c case 11 => 0x8219
    case 12 => 0x0208 case 13 => 0x820d case 14 => 0x8207 case 15 => 0x0202
    case _ => 0
  }

  // ---- the register is linear ----

  lemma XorUnit(a: bv16)
    ensures Xor(a, 0) == a && Xor(0, a) == a && Xor(a, a) == 0
  {
  }

  lemma XorAssoc(a: bv16, b: bv16, c: bv16)
    ensures Xor(Xor(a, b), c) == Xor(a, Xor(b, c))
  {
  }

  lemma XorComm(a: bv16, b: bv16)
    ensures Xor(a, b) == Xor(b, a)
  {
  }

  lemma XorFour(a: bv16, b: bv16, c: bv16, d: bv16)
    ensures Xor(Xor(a, b), Xor(c, d)) == Xor(Xor(a, c), Xor(b, d))
  {
    XorAssoc(a, b, Xor(c, d));
    XorAssoc(b, c, d);
    XorComm(b, c);
    XorAssoc(c, b, d);
    XorAssoc(a, c, Xor(b, d));
  }

  lemma Shl1Xor(a: bv16, b: bv16)
    ensures Shl1(Xor(a, b)) == Xor(Shl1(a), Shl1(b))
  {
  }

  lemma TopXor(a: bv16, b: bv16)
    ensures Top(Xor(a, b)) == (Top(a) != Top(b))
  {
  }

  lemma ShiftLinear(a: bv16, b: bv16)
    ensures Shift(Xor(a, b)) == Xor(Shift(a), Shift(b))
  {
    var g: bv16 := 0x8005;
    Shl1Xor(a, b);
    TopXor(a, b);
    XorFour(Shl1(a), if Top(a) then g else 0, Shl1(b), if Top(b) then g else 0);
    XorUnit(Shl1(a));
    XorUnit(Shl1(b));
    XorUnit(g);
    XorUnit(Xor(Shl1(a), Shl1(b)));
  }

  lemma {:induction false} ClocksLinear(a: bv16, b: bv16, n: nat)
    ensures Clocks(Xor(a, b), n) == Xor(Clocks(a, n), Clocks(b, n))
    decreases n
  {
    if n > 0 {
      ShiftLinear(a, b);
      ClocksLinear(Shift(a), Shift(b), n - 1);
    }
  }

  lemma OddIsNotShifted(c: bv16)
    ensures Xor(Shl1(c), 0x8005) != 0
    ensures Shl1(c) == 0 && !Top(c) ==> c == 0
  {
  }

  /** Only the empty register clocks to the empty register: the generator ends in 1. */
  lemma ShiftKernel(c: bv16)
    requires Shift(c) == 0
    ensures c == 0
  {
    OddIsNotShifted(c);
  }

  lemma {:induction false} ClocksKernel(c: bv16, n: nat)
    requires Clocks(c, n) == 0
    ensures c == 0
    decreases n
  {
    if n > 0 {
      ClocksKernel(Shift(c), n - 1);
      ShiftKernel(c);
    }
  }

  lemma {:induction false} ClocksAdd(c: bv16, m: nat, n: nat)
    ensures Clocks(c, m + n) == Clocks(Clocks(c, m), n)
    decreases m
  {
    if m > 0 {
      ClocksAdd(Shift(c), m - 1, n);
    }
  }

  // ---- the table ----

  lemma Row0IsClocked(low: bv8)
    requires low <= 0xf
    ensures Row0(low) == Clocks((low as bv16) << 8, 8)
  {
    match low
    case 0 => assert Clocks(0x000, 8) == 0x0000;
    case 1 => assert Clocks(0x100, 8) == 0x8005;
    case 2 => assert Clocks(0x200, 8) == 0x800f;
    case 3 => assert Clocks(0x300, 8) == 0x000a;
    case 4 => assert Clocks(0x400, 8) == 0x801b;
    case 5 => assert Clocks(0x500, 8) == 0x001e;
    case 6 => assert Clocks(0x600, 8) == 0x0014;
    case 7 => assert Clocks(0x700, 8) == 0x8011;
    case 8 => assert Clocks(0x800, 8) == 0x8033;
    case 9 => assert Clocks(0x900, 8) == 0x0036;
    case 10 => assert Clocks(0xa00, 8) == 0x003c;
    case 11 => assert Clocks(0xb00, 8) == 0x8039;
    case 12 => assert Clocks(0xc00, 8) == 0x0028;
    case 13 => assert Clocks(0xd00, 8) == 0x802d;
    case 14 => assert Clocks(0xe00, 8) == 0x8027;
    case 15 => assert Clocks(0xf00, 8) == 0x0022;
    case _ => assert false;
  }

  lemma Row1IsShifted(low: bv8)
    requires low <= 0xf
    ensures Row1(low) == Xor(0x8063, Row0(low))
  {
  }

  lemma Row2IsShifted(low: bv8)
    requires low <= 0xf
    ensures Row2(low) == Xor(0x80c3, Row0(low))
  {
  }

  lemma Row3IsShifted(low: bv8)
    requires low <= 0xf
    ensures Row3(low) == Xor(0x00a0, Row0(low))
  {
  }

  lemma Row4IsShifted(low: bv8)
    requires low <= 0xf
    ensures Row4(low) == Xor(0x8183, Row0(low))
  {
  }

  lemma Row5IsShifted(low: bv8)
    requires low <= 0xf
    ensures Row5(low) == Xor(0x01e0, Row0(low))
  {
  }

  lemma Row6IsShifted(low: bv8)
    requires low <= 0xf
    ensures Row6(low) == Xor(0x0140, Row0(low))
  {
  }

  lemma Row7IsShifted(low: bv8)
    requires low <= 0xf
    ensures Row7(low) == Xor(0x8123, Row0(low))
  {
  }

  lemma Row8IsShifted(low: bv8)
    requires low <= 0xf
    ensures Row8(low) == Xor(0x8303, Row0(low))
  {
  }

  lemma Row9IsShifted(low: bv8)
    requires low <= 0xf
    ensures Row9(low) == Xor(0x0360, Row0(low))
  {
  }

  lemma RowAIsShifted(low: bv8)
    requires low <= 0xf
    ensures RowA(low) == Xor(0x03c0, Row0(low))
  {
  }

  lemma RowBIsShifted(low: bv8)
    requires low <= 0xf
    ensures RowB(low) == Xor(0x83a3, Row0(low))
  {
  }

  lemma RowCIsShifted(low: bv8)
    requires low <= 0xf
    ensures RowC(low) == Xor(0x0280, Row0(low))
  {
  }

  lemma RowDIsShifted(low: bv8)
    requires low <= 0xf
    ensures RowD(low) == Xor(0x82e3, Row0(low))
  {
  }

  lemma RowEIsShifted(low: bv8)
    requires low <= 0xf
    ensures RowE(low) == Xor(0x8243, Row0(low))
  {
  }

  lemma RowFIsShifted(low: bv8)
    requires low <= 0xf
    ensures RowF(low) == Xor(0x0220, Row0(low))
  {
  }

  /** The leading entry of each row. */
  function HighPart(high: bv8): bv16 {
    match high
    case 0 => 0x0000 case 1 => 0x8063 case 2 => 0x80c3 case 3 => 0x00a0
    case 4 => 0x8183 case 5 => 0x01e0 case 6 => 0x0140 case 7 => 0x8123
    case 8 => 0x8303 case 9 => 0x0360 case 10 => 0x03c0 case 11 => 0x83a3
    case 12 => 0x0280 case 13 => 0x82e3 case 14 => 0x8243 case 15 => 0x0220
    case _ => 0
  }

  lemma HighPartIsClocked(high: bv8)
    requires high <= 0xf
    ensures HighPart(high) == Clocks((high as bv16) << 12, 8)
  {
    match high
    case 0 => assert Clocks(0x0000, 8) == 0x0000;
    case 1 => assert Clocks(0x1000, 8) == 0x8063;
    case 2 => assert Clocks(0x2000, 8) == 0x80c3;
    case 3 => assert Clocks(0x3000, 8) == 0x00a0;
    case 4 => assert Clocks(0x4000, 8) == 0x8183;
    case 5 => assert Clocks(0x5000, 8) == 0x01e0;
    case 6 => assert Clocks(0x6000, 8) == 0x0140;
    case 7 => assert Clocks(0x7000, 8) == 0x8123;
    case 8 => assert Clocks(0x8000, 8) == 0x8303;
    case 9 => assert Clocks(0x9000, 8) == 0x0360;
    case 10 => assert Clocks(0xa000, 8) == 0x03c0;
    case 11 => assert Clocks(0xb000, 8) == 0x83a3;
    case 12 => assert Clocks(0xc000, 8) == 0x0280;
    case 13 => assert Clocks(0xd000, 8) == 0x82e3;
    case 14 => assert Clocks(0xe000, 8) == 0x8243;
    case 15 => assert Clocks(0xf000, 8) == 0x0220;
    case _ => assert false;
  }

  lemma Xor0(low: bv8)
    ensures Xor(0, Row0(low)) == Row0(low)
  {
  }

  /** Every row is the first row shifted by the row's own leading entry. */
  lemma EntrySplits(high: bv8, low: bv8)
    requires high <= 0xf && low <= 0xf
    ensures Entry(high, low) == Xor(HighPart(high), Row0(low))
  {
    if high == 0 {
      Xor0(low);
    } else if high == 1 {
      Row1IsShifted(low);
    } else if high == 2 {
      Row2IsShifted(low);
    } else if high == 3 {
      Row3IsShifted(low);
    } else if high == 4 {
      Row4IsShifted(low);
    } else if high == 5 {
      Row5IsShifted(low);
    } else if high == 6 {
      Row6IsShifted(low);
    } else if high == 7 {
      Row7IsShifted(low);
    } else if high == 8 {
      Row8IsShifted(low);
    } else if high == 9 {
      Row9IsShifted(low);
    } else if high == 10 {
      RowAIsShifted(low);
    } else if high == 11 {
      RowBIsShifted(low);
    } else if high == 12 {
      RowCIsShifted(low);
    } else if high == 13 {
      RowDIsShifted(low);
    } else if high == 14 {
      RowEIsShifted(low);
    } else if high == 15 {
      RowFIsShifted(low);
    }
  }

  lemma NibblesOf(i: bv8)
    ensures i >> 4 <= 0xf && i & 0xf <= 0xf
    ensures Xor(((i >> 4) as bv16) << 12, ((i & 0xf) as bv16) << 8) == (i as bv16) << 8
  {
  }

  /** Entry i of the table is the byte i clocked through the empty register. */
  lemma TableIsClocked(i: bv8)
    ensures TableEntry(i) == Clocks((i as bv16) << 8, 8)
  {
    NibblesOf(i);
    EntrySplits(i >> 4, i & 0xf);
    Row0IsClocked(i & 0xf);
    HighPartIsClocked(i >> 4);
    ClocksLinear(((i >> 4) as bv16) << 12, ((i & 0xf) as bv16) << 8, 8);
  }
}

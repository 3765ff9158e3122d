/**
 The CRC that guards every SPI access: the table-driven loop, the bit-serial
 register and the long division it stands for, and the errors it always detects.
 */
module Crc16 {
  import opened Crc16Table

  const CRC_INIT: bv16 := 0xffff

  // ---- the reference: bits, most significant first, into a 16-bit register ----

  /** The register after one message bit. */
  function Clock(crc: bv16, bit: bool): bv16 {
    Shift(if bit then Xor(crc, 0x8000) else crc)
  }

  function Serial(crc: bv16, bits: seq<bool>): bv16
    decreases |bits|
  {
    if bits == [] then crc else Serial(Clock(crc, bits[0]), bits[1..])
  }

  /** The top n bits of w, most significant first. */
  function TopBits(w: bv16, n: nat): (bits: seq<bool>)
    ensures |bits| == n
    decreases n
  {
    if n == 0 then [] else [Top(w)] + TopBits(Shl1(w), n - 1)
  }

  function BitsOfByte(b: bv8): (bits: seq<bool>)
    ensures |bits| == 8
  {
    TopBits((b as bv16) << 8, 8)
  }

  function BitsOf(data: seq<bv8>): (bits: seq<bool>)
    ensures |bits| == 8 * |data|
  {
    if data == [] then [] else BitsOfByte(data[0]) + BitsOf(data[1..])
  }

  function Zeros(n: nat): seq<bool> { seq(n, i => false) }

  /** Bitwise difference; the longer operand sticks out unchanged. */
  function XorFront(a: seq<bool>, b: seq<bool>): (r: seq<bool>)
    requires |a| <= |b|
    ensures |r| == |b|
  {
    seq(|b|, i requires 0 <= i < |b| => if i < |a| then a[i] != b[i] else b[i])
  }

  /** The coefficients of x^16 + x^15 + x^2 + 1, highest first. */
  const GENERATOR: seq<bool> := [true] + TopBits(0x8005, 16)

  /** Long division by the generator, highest coefficient first; what is left is the remainder. */
  function Remainder(dividend: seq<bool>): (r: seq<bool>)
    requires |dividend| >= 16
    ensures |r| == 16
    decreases |dividend|
  {
    if |dividend| == 16 then dividend
    else if dividend[0] then Remainder(XorFront(GENERATOR, dividend)[1..])
    else Remainder(dividend[1..])
  }

  // ---- the table-driven code ----

  function Crc16Byte(crc: bv16, data: bv8): bv16 {
    var index := ((crc >> 8) as bv8) ^ data;
    Xor(crc << 8, TableEntry(index))
  }

  function CrcOver(crc: bv16, buffer: seq<bv8>): bv16
    decreases |buffer|
  {
    if buffer == [] then crc else CrcOver(Crc16Byte(crc, buffer[0]), buffer[1..])
  }

  method Crc16Loop(crc0: bv16, buffer: array<bv8>, len: nat) returns (crc: bv16)
    requires len <= buffer.Length
    ensures crc == Serial(crc0, BitsOf(buffer[..len]))
  {
    crc := crc0;
    var at := 0;
    var left := len;
    while left > 0
      invariant at + left == len
      invariant CrcOver(crc, buffer[at..len]) == CrcOver(crc0, buffer[..len])
    {
      left := left - 1;
      assert buffer[at..len][1..] == buffer[at + 1..len];
      crc := Crc16Byte(crc, buffer[at]);
      at := at + 1;
    }
    TableCrcIsSerial(crc0, buffer[..len]);
  }

  method Compute(data: array<bv8>, size: nat) returns (crc: bv16)
    requires size <= data.Length
    ensures crc == CrcOf(data[..size])
  {
    crc := Crc16Loop(CRC_INIT, data, size);
  }

  method Compute2(cmd: array<bv8>, cmdSize: nat, data: array<bv8>, dataSize: nat) returns (crc: bv16)
    requires cmdSize <= cmd.Length && dataSize <= data.Length
    ensures crc == CrcOf(cmd[..cmdSize] + data[..dataSize])
  {
    crc := Compute(cmd, cmdSize);
    crc := Crc16Loop(crc, data, dataSize);
    BitsOfConcat(cmd[..cmdSize], data[..dataSize]);
    SerialConcat(CRC_INIT, BitsOf(cmd[..cmdSize]), BitsOf(data[..dataSize]));
  }

  /** The CRC of a message, by the bit-serial reference. */
  function CrcOf(message: seq<bv8>): bv16 { Serial(CRC_INIT, BitsOf(message)) }

  // ---- the table loop is the bit-serial register ----

  function Shl(w: bv16, n: nat): bv16
    decreases n
  {
    if n == 0 then w else Shl(Shl1(w), n - 1)
  }

  lemma TopBitParts(w: bv16)
    ensures w == Xor(if Top(w) then 0x8000 else 0, w & 0x7fff)
    ensures !Top(w & 0x7fff) && Shl1(w & 0x7fff) == Shl1(w)
  {
  }

  /** Adding a word to the register feeds its top bit and leaves the rest waiting. */
  lemma ClockWord(c: bv16, w: bv16)
    ensures Shift(Xor(c, w)) == Xor(Clock(c, Top(w)), Shl1(w))
  {
    var top: bv16 := if Top(w) then 0x8000 else 0;
    var rest := w & 0x7fff;
    TopBitParts(w);
    XorAssoc(c, top, rest);
    ShiftLinear(Xor(c, top), rest);
    XorUnit(c);
  }

  lemma {:induction false} SerialWord(c: bv16, w: bv16, n: nat)
    ensures Clocks(Xor(c, w), n) == Xor(Serial(c, TopBits(w, n)), Shl(w, n))
    decreases n
  {
    if n > 0 {
      ClockWord(c, w);
      SerialWord(Clock(c, Top(w)), Shl1(w), n - 1);
      assert TopBits(w, n)[1..] == TopBits(Shl1(w), n - 1);
    }
  }

  lemma {:induction false} TopBitsAt(w: bv16, n: nat, k: nat)
    requires k < n
    ensures TopBits(w, n)[k] == Top(Shl(w, k))
    decreases n
  {
    if k > 0 {
      TopBitsAt(Shl1(w), n - 1, k - 1);
    }
  }

  lemma ShlEight(w: bv16)
    ensures Shl(w, 8) == w << 8
  {
    var w4 := Shl1(Shl1(Shl1(Shl1(w))));
    ShlAdd(w, 4, 4);
    assert Shl(w, 4) == w4;
    assert Shl(w4, 4) == Shl1(Shl1(Shl1(Shl1(w4))));
    ShiftedParts(w);
  }

  lemma ShiftedParts(w: bv16)
    ensures Shl1(Shl1(Shl1(Shl1(Shl1(Shl1(Shl1(Shl1(w)))))))) == w << 8
  {
  }

  lemma ByteParts(crc: bv16, data: bv8)
    ensures Xor(crc & 0xff, ((((crc >> 8) as bv8) ^ data) as bv16) << 8) == Xor(crc, (data as bv16) << 8)
  {
  }

  predicate QuietFor(w: bv16, n: nat)
    decreases n
  {
    n > 0 ==> !Top(w) && QuietFor(Shl1(w), n - 1)
  }

  /** While nothing reaches the top bit, clocking only moves the register left. */
  lemma {:induction false} QuietClocks(w: bv16, n: nat)
    requires QuietFor(w, n)
    ensures Clocks(w, n) == Shl(w, n)
    decreases n
  {
    if n > 0 {
      QuietClocks(Shl1(w), n - 1);
    }
  }

  lemma LowByteClocks(c: bv16)
    ensures Clocks(c & 0xff, 8) == c << 8
  {
    var low := c & 0xff;
    LowByteParts(c);
    assert QuietFor(Shl1(Shl1(Shl1(Shl1(low)))), 4);
    QuietClocks(low, 8);
    ShlEight(low);
  }

  lemma {:induction false} EmptyStaysEmpty(n: nat)
    ensures Clocks(0, n) == 0
    decreases n
  {
    if n > 0 {
      EmptyStaysEmpty(n - 1);
    }
  }

  lemma LowByteParts(c: bv16)
    ensures var d := c & 0xff;
            && !Top(d) && !Top(Shl1(d)) && !Top(Shl1(Shl1(d))) && !Top(Shl1(Shl1(Shl1(d))))
            && !Top(Shl1(Shl1(Shl1(Shl1(d))))) && !Top(Shl1(Shl1(Shl1(Shl1(Shl1(d))))))
            && !Top(Shl1(Shl1(Shl1(Shl1(Shl1(Shl1(d))))))) && !Top(Shl1(Shl1(Shl1(Shl1(Shl1(Shl1(Shl1(d))))))))
            && d << 8 == c << 8
  {
  }

  lemma HighByteParts(b: bv8)
    ensures ((b as bv16) << 8) << 8 == 0
  {
  }

  /** One table step is eight clocks fed with the byte, most significant bit first. */
  lemma ByteIsEightClocks(crc: bv16, data: bv8)
    ensures Crc16Byte(crc, data) == Serial(crc, BitsOfByte(data))
  {
    var index := ((crc >> 8) as bv8) ^ data;
    TableIsClocked(index);
    LowByteClocks(crc);
    ClocksLinear(crc & 0xff, (index as bv16) << 8, 8);
    ByteParts(crc, data);
    SerialWord(crc, (data as bv16) << 8, 8);
    ShlEight((data as bv16) << 8);
    HighByteParts(data);
    XorUnit(Serial(crc, BitsOfByte(data)));
  }

  lemma {:induction false} SerialConcat(crc: bv16, a: seq<bool>, b: seq<bool>)
    ensures Serial(crc, a + b) == Serial(Serial(crc, a), b)
    decreases |a|
  {
    if a == [] {
      assert a + b == b;
    } else {
      assert (a + b)[1..] == a[1..] + b;
      SerialConcat(Clock(crc, a[0]), a[1..], b);
    }
  }

  lemma {:induction false} BitsOfConcat(a: seq<bv8>, b: seq<bv8>)
    ensures BitsOf(a + b) == BitsOf(a) + BitsOf(b)
    decreases |a|
  {
    if a == [] {
      assert a + b == b;
    } else {
      assert (a + b)[1..] == a[1..] + b;
      BitsOfConcat(a[1..], b);
    }
  }

  /** The table-driven CRC of any buffer is the bit-serial CRC of its bits. */
  lemma {:induction false} TableCrcIsSerial(crc: bv16, buffer: seq<bv8>)
    ensures CrcOver(crc, buffer) == Serial(crc, BitsOf(buffer))
    decreases |buffer|
  {
    if buffer != [] {
      ByteIsEightClocks(crc, buffer[0]);
      TableCrcIsSerial(Crc16Byte(crc, buffer[0]), buffer[1..]);
      SerialConcat(crc, BitsOfByte(buffer[0]), BitsOf(buffer[1..]));
    }
  }

  // ---- the register holds the remainder of a polynomial division ----

  lemma {:induction false} ShlXor(a: bv16, b: bv16, n: nat)
    ensures Shl(Xor(a, b), n) == Xor(Shl(a, n), Shl(b, n))
    decreases n
  {
    if n > 0 {
      Shl1Xor(a, b);
      ShlXor(Shl1(a), Shl1(b), n - 1);
    }
  }

  lemma TopBitsXorAt(a: bv16, b: bv16, n: nat, k: nat)
    requires k < n
    ensures TopBits(Xor(a, b), n)[k] == (TopBits(a, n)[k] != TopBits(b, n)[k])
  {
    TopBitsAt(a, n, k);
    TopBitsAt(b, n, k);
    TopBitsAt(Xor(a, b), n, k);
    ShlXor(a, b, k);
    TopXor(Shl(a, k), Shl(b, k));
  }

  lemma TopBitsXor(a: bv16, b: bv16, n: nat)
    ensures TopBits(Xor(a, b), n) == XorFront(TopBits(a, n), TopBits(b, n))
  {
    hide TopBits, Xor;
    forall k: nat | k < n
      ensures TopBits(Xor(a, b), n)[k] == (TopBits(a, n)[k] != TopBits(b, n)[k])
    {
      TopBitsXorAt(a, b, n, k);
    }
  }

  lemma {:induction false} TopBitsSnoc(w: bv16, n: nat)
    ensures TopBits(w, n + 1) == TopBits(w, n) + [Top(Shl(w, n))]
    decreases n
  {
    if n > 0 {
      TopBitsSnoc(Shl1(w), n - 1);
    }
  }

  lemma WordShiftsOut(w: bv16)
    ensures Shl(w, 16) == 0
  {
    ShlAdd(w, 8, 8);
    ShlEight(w);
    ShlEight(w << 8);
    TwoBytes(w);
  }

  lemma TwoBytes(w: bv16)
    ensures (w << 8) << 8 == 0
  {
  }

  lemma {:induction false} ShlAdd(w: bv16, m: nat, n: nat)
    ensures Shl(w, m + n) == Shl(Shl(w, m), n)
    decreases m
  {
    if m > 0 {
      ShlAdd(Shl1(w), m - 1, n);
    }
  }

  lemma TopBitsCons(w: bv16, n: nat)
    ensures TopBits(w, n + 1)[1..] == TopBits(Shl1(w), n)
  {
  }

  /** Moving the register left drops its leading bit and brings in a zero. */
  lemma ShiftedBits(c: bv16)
    ensures TopBits(Shl1(c), 16) == TopBits(c, 16)[1..] + [false]
  {
    TopBitsSnoc(Shl1(c), 15);
    WordShiftsOut(c);
    assert Shl(c, 16) == Shl(Shl1(c), 15);
    TopBitsCons(c, 15);
    assert !Top(0);
  }

  lemma ClockCases(c: bv16, bit: bool)
    ensures Top(c) != bit ==> Clock(c, bit) == Xor(Shl1(c), 0x8005)
    ensures Top(c) == bit ==> Clock(c, bit) == Shl1(c)
  {
    FlipTop(c);
  }

  lemma FlipTop(c: bv16)
    ensures Top(Xor(c, 0x8000)) == !Top(c)
    ensures Shl1(Xor(c, 0x8000)) == Shl1(c)
  {
  }

  /** One division step on a dividend whose first sixteen coefficients carry the register. */
  lemma DivideOnce(word: seq<bool>, next: seq<bool>, feedback: seq<bool>, bits: seq<bool>)
    requires |word| == |next| == |feedback| == 16 && bits != []
    requires next == if word[0] != bits[0] then XorFront(word[1..] + [false], feedback) else word[1..] + [false]
    ensures var d := XorFront(word, bits + Zeros(16));
            XorFront(next, bits[1..] + Zeros(16))
              == if d[0] then XorFront([true] + feedback, d)[1..] else d[1..]
  {
  }

  /** One clock of the register is one step of the division. */
  lemma DivisionStep(c: bv16, bits: seq<bool>)
    requires bits != []
    ensures var d := XorFront(TopBits(c, 16), bits + Zeros(16));
            XorFront(TopBits(Clock(c, bits[0]), 16), bits[1..] + Zeros(16))
              == if d[0] then XorFront(GENERATOR, d)[1..] else d[1..]
  {
    ClockCases(c, bits[0]);
    ShiftedBits(c);
    TopBitsXor(Shl1(c), 0x8005, 16);
    DivideOnce(TopBits(c, 16), TopBits(Clock(c, bits[0]), 16), TopBits(0x8005, 16), bits);
  }

  /**
   The register after a message is the remainder, modulo the generator, of the
   message times x^16 with the start value added to its leading coefficients.
   */
  lemma {:induction false} SerialIsRemainder(c: bv16, bits: seq<bool>)
    ensures TopBits(Serial(c, bits), 16) == Remainder(XorFront(TopBits(c, 16), bits + Zeros(16)))
    decreases |bits|
  {
    if bits == [] {
      assert XorFront(TopBits(c, 16), bits + Zeros(16)) == TopBits(c, 16);
    } else {
      DivisionStep(c, bits);
      SerialIsRemainder(Clock(c, bits[0]), bits[1..]);
    }
  }

  // ---- error detection ----

  lemma ClockLinear(c1: bv16, b1: bool, c2: bv16, b2: bool)
    ensures Clock(Xor(c1, c2), b1 != b2) == Xor(Clock(c1, b1), Clock(c2, b2))
  {
    var t1: bv16 := if b1 then 0x8000 else 0;
    var t2: bv16 := if b2 then 0x8000 else 0;
    XorUnit(c1);
    XorUnit(c2);
    XorUnit(Xor(c1, c2));
    XorUnit(t1);
    XorUnit(t2);
    XorFour(c1, t1, c2, t2);
    ShiftLinear(Xor(c1, t1), Xor(c2, t2));
  }

  /** Two runs of the register differ by a run fed with the difference of their inputs. */
  lemma {:induction false} SerialLinear(c1: bv16, a: seq<bool>, c2: bv16, b: seq<bool>)
    requires |a| == |b|
    ensures Serial(Xor(c1, c2), XorFront(a, b)) == Xor(Serial(c1, a), Serial(c2, b))
    decreases |a|
  {
    if a != [] {
      ClockLinear(c1, a[0], c2, b[0]);
      assert XorFront(a, b)[1..] == XorFront(a[1..], b[1..]);
      SerialLinear(Clock(c1, a[0]), a[1..], Clock(c2, b[0]), b[1..]);
    }
  }

  lemma {:induction false} SerialZeros(c: bv16, bits: seq<bool>)
    requires forall i | 0 <= i < |bits| :: !bits[i]
    ensures Serial(c, bits) == Clocks(c, |bits|)
    decreases |bits|
  {
    if bits != [] {
      SerialZeros(Clock(c, false), bits[1..]);
    }
  }

  function LowMask(n: nat): bv16
    decreases n
  {
    if n == 0 then 0xffff else LowMask(n - 1) >> 1
  }

  lemma LowMaskOdd(n: nat)
    requires n <= 15
    ensures LowMask(n) & 1 == 1
  {
    if n <= 7 {
      assert LowMask(0) & 1 == 1 && LowMask(1) & 1 == 1 && LowMask(2) & 1 == 1 && LowMask(3) & 1 == 1;
      assert LowMask(4) & 1 == 1 && LowMask(5) & 1 == 1 && LowMask(6) & 1 == 1 && LowMask(7) & 1 == 1;
    } else {
      assert LowMask(8) & 1 == 1 && LowMask(9) & 1 == 1 && LowMask(10) & 1 == 1 && LowMask(11) & 1 == 1;
      assert LowMask(12) & 1 == 1 && LowMask(13) & 1 == 1 && LowMask(14) & 1 == 1 && LowMask(15) & 1 == 1;
    }
  }

  lemma UnclockParts(c: bv16, m: bv16)
    ensures m & 1 == 1 ==> Xor(Shl1(c), 0x8005) & m != 0
    ensures Shl1(c) & m == 0 ==> c & (m >> 1) == 0
  {
  }

  /** A register that can be emptied within n bits has its low 16 - n bits empty already. */
  lemma {:induction false} EmptiedWithin(c: bv16, bits: seq<bool>)
    requires |bits| <= 15
    requires Serial(c, bits) == 0
    ensures c & LowMask(|bits|) == 0
    decreases |bits|
  {
    if bits == [] {
      AllOnes(c);
    } else {
      var m := LowMask(|bits| - 1);
      EmptiedWithin(Clock(c, bits[0]), bits[1..]);
      LowMaskOdd(|bits| - 1);
      UnclockParts(c, m);
      ClockCases(c, bits[0]);
    }
  }

  lemma AllOnes(c: bv16)
    requires c == 0
    ensures c & 0xffff == 0
  {
  }

  /** No nonzero burst of at most sixteen bits, wherever it lies, leaves the register empty. */
  lemma {:induction false} BurstLeavesTrace(bits: seq<bool>, first: nat)
    requires first < |bits| && bits[first]
    requires forall i | 0 <= i < |bits| && (i < first || i >= first + 16) :: !bits[i]
    ensures Serial(0, bits) != 0
    decreases |bits|
  {
    if first > 0 {
      assert Clock(0, bits[0]) == 0;
      BurstLeavesTrace(bits[1..], first - 1);
    } else {
      var rest := bits[1..];
      var k := if |rest| < 15 then |rest| else 15;
      var s := Serial(0x8005, rest[..k]);
      assert rest == rest[..k] + rest[k..];
      ClockCases(0, true);
      SerialConcat(0x8005, rest[..k], rest[k..]);
      SerialZeros(s, rest[k..]);
      LowMaskOdd(k);
      OddMeetsOdd(LowMask(k));
      if s == 0 {
        EmptiedWithin(0x8005, rest[..k]);
      }
      if Clocks(s, |rest[k..]|) == 0 {
        ClocksKernel(s, |rest[k..]|);
      }
    }
  }

  lemma OddMeetsOdd(m: bv16)
    requires m & 1 == 1
    ensures 0x8005 & m != 0
  {
  }

  /** Two messages that differ, and only inside a window of sixteen bits, have different CRCs. */
  lemma BurstDetected(a: seq<bool>, b: seq<bool>, start: nat, init: bv16)
    requires |a| == |b| && a != b
    requires forall i | 0 <= i < |a| && (i < start || i >= start + 16) :: a[i] == b[i]
    ensures Serial(init, a) != Serial(init, b)
  {
    var d := XorFront(a, b);
    var first := FirstDifference(a, b);
    BurstLeavesTrace(d, first);
    SerialLinear(init, a, init, b);
    XorUnit(init);
    XorUnit(Serial(init, a));
  }

  function FirstDifference(a: seq<bool>, b: seq<bool>): (k: nat)
    requires |a| == |b| && a != b
    ensures k < |a| && a[k] != b[k]
    ensures forall i | 0 <= i < k :: a[i] == b[i]
    decreases |a|
  {
    if a[0] != b[0] then 0
    else
      assert a == [a[0]] + a[1..] && b == [b[0]] + b[1..];
      1 + FirstDifference(a[1..], b[1..])
  }

  /** Corruption confined to two adjacent bytes of a message of any length is always detected. */
  lemma AdjacentBytesDetected(head: seq<bv8>, a: seq<bv8>, b: seq<bv8>, tail: seq<bv8>)
    requires |a| == |b| <= 2 && a != b
    ensures CrcOf(head + a + tail) != CrcOf(head + b + tail)
  {
    BitsOfThree(head, a, tail);
    BitsOfThree(head, b, tail);
    BitsOfInjective(a, b);
    var ma, mb := BitsOf(head + a + tail), BitsOf(head + b + tail);
    assert ma[8 * |head|..8 * |head| + 8 * |a|] == BitsOf(a);
    assert mb[8 * |head|..8 * |head| + 8 * |b|] == BitsOf(b);
    BurstDetected(ma, mb, 8 * |head|, CRC_INIT);
  }

  lemma BitsOfThree(a: seq<bv8>, b: seq<bv8>, c: seq<bv8>)
    ensures BitsOf(a + b + c) == BitsOf(a) + BitsOf(b) + BitsOf(c)
  {
    BitsOfConcat(a + b, c);
    BitsOfConcat(a, b);
  }

  lemma SameHighByte(a: bv8, b: bv8)
    requires Xor((a as bv16) << 8, (b as bv16) << 8) == 0
    ensures a == b
  {
  }

  lemma ByteBitsInjective(a: bv8, b: bv8)
    requires BitsOfByte(a) == BitsOfByte(b)
    ensures a == b
  {
    var v, w := (a as bv16) << 8, (b as bv16) << 8;
    SerialWord(0, v, 8);
    SerialWord(0, w, 8);
    ShlEight(v);
    ShlEight(w);
    HighByteParts(a);
    HighByteParts(b);
    XorUnit(v);
    XorUnit(w);
    XorUnit(Clocks(v, 8));
    ClocksLinear(v, w, 8);
    ClocksKernel(Xor(v, w), 8);
    SameHighByte(a, b);
  }

  lemma {:induction false} BitsOfInjective(a: seq<bv8>, b: seq<bv8>)
    requires |a| == |b| && a != b
    ensures BitsOf(a) != BitsOf(b)
    decreases |a|
  {
    assert a == [a[0]] + a[1..] && b == [b[0]] + b[1..];
    if a[0] != b[0] && BitsOfByte(a[0]) == BitsOfByte(b[0]) {
      ByteBitsInjective(a[0], b[0]);
    }
    if a[0] == b[0] {
      BitsOfInjective(a[1..], b[1..]);
      assert BitsOf(a)[8..] == BitsOf(a[1..]) && BitsOf(b)[8..] == BitsOf(b[1..]);
    } else {
      assert BitsOf(a)[..8] == BitsOfByte(a[0]) && BitsOf(b)[..8] == BitsOfByte(b[0]);
    }
  }

  // ---- errors in an odd number of bits ----

  function OddOnes(bits: seq<bool>): bool {
    bits != [] && (bits[0] != OddOnes(bits[1..]))
  }

  /** In how many places two bit strings differ. */
  function Differences(a: seq<bool>, b: seq<bool>): nat
    requires |a| == |b|
  {
    if a == [] then 0 else (if a[0] != b[0] then 1 else 0) + Differences(a[1..], b[1..])
  }

  lemma {:induction false} OddOnesSnoc(bits: seq<bool>)
    ensures OddOnes(bits + [false]) == OddOnes(bits)
  {
    if bits != [] {
      assert (bits + [false])[1..] == bits[1..] + [false];
      OddOnesSnoc(bits[1..]);
    }
  }

  lemma {:induction false} OddOnesXor(a: seq<bool>, b: seq<bool>)
    requires |a| == |b|
    ensures OddOnes(XorFront(a, b)) == (OddOnes(a) != OddOnes(b))
    ensures OddOnes(XorFront(a, b)) == (Differences(a, b) % 2 == 1)
  {
    if a != [] {
      assert XorFront(a, b)[1..] == XorFront(a[1..], b[1..]);
      OddOnesXor(a[1..], b[1..]);
    }
  }

  function WordParity(c: bv16): bool { OddOnes(TopBits(c, 16)) }

  lemma ShiftedParity(c: bv16)
    ensures WordParity(Shl1(c)) == (WordParity(c) != Top(c))
  {
    ShiftedBits(c);
    TopBitsCons(c, 15);
    OddOnesSnoc(TopBits(c, 16)[1..]);
    TopBitsAt(c, 16, 0);
  }

  lemma {:induction false} QuietParity(w: bv16, n: nat)
    requires QuietFor(w, n)
    ensures WordParity(Shl(w, n)) == WordParity(w)
    decreases n
  {
    if n > 0 {
      ShiftedParity(w);
      QuietParity(Shl1(w), n - 1);
    }
  }

  lemma EmptyParity()
    ensures !WordParity(0)
  {
    XorUnit(0);
    TopBitsXor(0, 0, 16);
    OddOnesXor(TopBits(0, 16), TopBits(0, 16));
  }

  lemma GeneratorShifts()
    ensures Shl1(0x8005) == 0xa && Top(0x8005)
    ensures QuietFor(0xa, 12) && Shl(0xa, 12) == 0xa000
    ensures Top(0xa000) && Shl1(0xa000) == 0x4000
    ensures !Top(0x4000) && Shl1(0x4000) == 0x8000
    ensures Top(0x8000) && Shl1(0x8000) == 0
  {
  }

  lemma {:induction false} QuietBits(w: bv16, n: nat, m: nat)
    requires QuietFor(w, n)
    ensures TopBits(w, n + m) == Zeros(n) + TopBits(Shl(w, n), m)
    decreases n
  {
    if n > 0 {
      QuietBits(Shl1(w), n - 1, m);
    }
  }

  /** The generator polynomial, coefficient by coefficient: x^16, x^15, x^2 and 1. */
  lemma GeneratorIs()
    ensures GENERATOR == [true, true] + Zeros(12) + [true, false, true]
  {
    GeneratorShifts();
    QuietBits(0xa, 12, 3);
    var a, b := Shl1(0xa000), Shl1(Shl1(0xa000));
    assert TopBits(0xa000, 3) == [true] + ([false] + ([true] + TopBits(Shl1(b), 0)));
    assert TopBits(0x8005, 16) == [true] + TopBits(0xa, 15);
  }

  /** 0x8005 has three ones: shift it out of the register and count what falls off the end. */
  lemma GeneratorParity(g: bv16, low: bv16, high: bv16, next: bv16, last: bv16)
    requires Top(g) && Shl1(g) == low && QuietFor(low, 12) && Shl(low, 12) == high
    requires Top(high) && Shl1(high) == next && !Top(next) && Shl1(next) == last && Top(last) && Shl1(last) == 0
    ensures WordParity(g)
  {
    ShiftedParity(g);
    QuietParity(low, 12);
    ShiftedParity(high);
    ShiftedParity(next);
    ShiftedParity(last);
    EmptyParity();
  }

  lemma FedBackParity(c: bv16)
    ensures WordParity(Xor(c, 0x8005)) == !WordParity(c)
  {
    TopBitsXor(c, 0x8005, 16);
    OddOnesXor(TopBits(c, 16), TopBits(0x8005, 16));
    GeneratorShifts();
    GeneratorParity(0x8005, 0xa, 0xa000, 0x4000, 0x8000);
  }

  /** The generator has an even number of terms, so the register's parity follows the message's. */
  lemma ClockParity(c: bv16, bit: bool)
    ensures WordParity(Clock(c, bit)) == (WordParity(c) != bit)
  {
    ClockCases(c, bit);
    ShiftedParity(c);
    FedBackParity(Shl1(c));
  }

  lemma {:induction false} SerialParity(c: bv16, bits: seq<bool>)
    ensures WordParity(Serial(c, bits)) == (WordParity(c) != OddOnes(bits))
    decreases |bits|
  {
    if bits != [] {
      ClockParity(c, bits[0]);
      SerialParity(Clock(c, bits[0]), bits[1..]);
    }
  }

  /** Two messages that differ in an odd number of bits have different CRCs. */
  lemma OddErrorDetected(a: seq<bv8>, b: seq<bv8>)
    requires |a| == |b| && Differences(BitsOf(a), BitsOf(b)) % 2 == 1
    ensures CrcOf(a) != CrcOf(b)
  {
    SerialParity(CRC_INIT, BitsOf(a));
    SerialParity(CRC_INIT, BitsOf(b));
    OddOnesXor(BitsOf(a), BitsOf(b));
  }

  /** The CRC of a message is the remainder of a polynomial division, start value 0xffff. */
  lemma CrcIsRemainder(message: seq<bv8>)
    ensures TopBits(CrcOf(message), 16)
         == Remainder(XorFront(TopBits(0xffff, 16), BitsOf(message) + Zeros(16)))
  {
    SerialIsRemainder(CRC_INIT, BitsOf(message));
  }
}

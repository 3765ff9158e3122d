/**
 The I2C engine bit-banged through the CH36x output register: bit 0 drives SDA, bit 1 SCL.
 What is on the wire is the wired-AND of driver and slave, which holds its level for a whole
 clock pulse. A listener decodes the wire as in sections 3.1.3 to 3.1.5 of UM10204: SDA
 falling or rising while SCL is high is a START or a STOP, and a clock pulse without either
 is a bit.
 */
module I2c {
  import opened Frames
  import RingIndex

  // ---- the listener ----

  datatype Level = Level(sda: bool, scl: bool)

  datatype Sym = StartC | StopC | Bit(b: bool)

  /** pulse: the level of SDA since SCL rose, if nothing but a bit has been seen since. */
  datatype Listener = Listener(last: Level, pulse: Option<bool>, syms: seq<Sym>)

  function Hear(d: Listener, l: Level): Listener {
    if d.last.scl && l.scl then
      if d.last.sda == l.sda then d
      else Listener(l, None, d.syms + [if l.sda then StopC else StartC])
    else if !d.last.scl && l.scl then Listener(l, Some(l.sda), d.syms)
    else if d.last.scl && !l.scl then
      Listener(l, None, if d.pulse.Some? then d.syms + [Bit(d.pulse.value)] else d.syms)
    else Listener(l, d.pulse, d.syms)
  }

  /** The listener's view of a trace of wire levels that begins on an idle bus. */
  function Decode(trace: seq<Level>): Listener {
    if trace == [] then Listener(Level(true, true), None, [])
    else Hear(Decode(trace[..|trace| - 1]), trace[|trace| - 1])
  }

  lemma DecodeMore(trace: seq<Level>, l: Level)
    ensures Decode(trace + [l]) == Hear(Decode(trace), l)
  {
    assert (trace + [l])[..|trace|] == trace;
  }

  // ---- bytes as bits ----

  /** n bits of b from the most significant one on, as SendByte shifts them out. */
  function BitsOf(b: Byte, n: nat): (r: seq<bool>)
    ensures |r| == n
    decreases n
  {
    if n == 0 then [] else [b >= 128] + BitsOf(b * 2 % 256, n - 1)
  }

  function Shifted(ch: Byte, bit: bool): Byte { (ch * 2 + if bit then 1 else 0) % 256 }

  /** What a receiver shifting in the bits ends up with. */
  function ShiftIn(ch: Byte, bits: seq<bool>): Byte
    decreases |bits|
  {
    if bits == [] then ch else ShiftIn(Shifted(ch, bits[0]), bits[1..])
  }

  lemma {:induction false} ShiftInSnoc(ch: Byte, bits: seq<bool>, bit: bool)
    ensures ShiftIn(ch, bits + [bit]) == Shifted(ShiftIn(ch, bits), bit)
    decreases |bits|
  {
    if bits == [] {
      assert [] + [bit] == [bit] && [bit][1..] == [];
    } else {
      assert (bits + [bit])[1..] == bits[1..] + [bit];
      ShiftInSnoc(Shifted(ch, bits[0]), bits[1..], bit);
    }
  }

  function Weight(n: nat): (w: nat)
    requires n <= 8
    ensures w > 0
  {
    if n == 0 then 1 else if n == 1 then 2 else if n == 2 then 4 else if n == 3 then 8 else if n == 4 then 16
    else if n == 5 then 32 else if n == 6 then 64 else if n == 7 then 128 else 256
  }

  /** The lowest n bits of a byte, moved to its top. */
  function Top(rem: nat, n: nat): nat
    requires n <= 8
  {
    rem * Weight(8 - n)
  }

  /** One shift: the top bit of the rest goes over to the receiver. */
  predicate BitMoves(ch: nat, rem: nat, n: nat)
    requires 0 < n <= 8
  {
    var bit := Top(rem, n) >= 128;
    var next := if bit then rem - Weight(n - 1) else rem;
    && Top(rem, n) < 256 && 0 <= next < Weight(n - 1) && Top(rem, n) * 2 % 256 == Top(next, n - 1) < 256
    && ch < 256 && Shifted(ch, bit) * Weight(n - 1) + next == ch * Weight(n) + rem
  }

  lemma MulMinus(a: nat, b: nat, c: nat)
    ensures (a - b) * c == a * c - b * c && (a - b) * (2 * c) == 2 * (a * c) - 2 * (b * c)
  {
  }

  /** The rest rem, moved up by u, has its top bit set exactly when rem reaches the next weight v. */
  lemma TopBit(rem: nat, v: nat, u: nat)
    requires v * u == 128 && rem < 2 * v
    ensures rem * u < 256 && (rem * u >= 128 <==> rem >= v)
    ensures (if rem >= v then rem - v else rem) * (2 * u) == rem * u * 2 % 256
  {
    MulMinus(rem, v, u);
    MulMinus(rem, 0, u);
    MulMinus(2 * v, 1, u);
    RingIndex.MulMonotone(rem, 2 * v - 1, u);
    if rem >= v {
      RingIndex.MulMonotone(v, rem, u);
    } else {
      MulMinus(v, 1, u);
      RingIndex.MulMonotone(rem, v - 1, u);
    }
  }

  lemma ShiftedIs(ch: nat, bit: bool)
    requires ch < 128
    ensures Shifted(ch, bit) == ch * 2 + if bit then 1 else 0
  {
  }

  lemma Weights(n: nat)
    requires 0 < n <= 8
    ensures Weight(n) == 2 * Weight(n - 1) && Weight(9 - n) == 2 * Weight(8 - n) && Weight(n - 1) * Weight(8 - n) == 128
  {
  }

  lemma ReceiverRoom(ch: nat, rem: nat, v: nat)
    requires v > 0 && ch * (2 * v) + rem < 256
    ensures ch < 128 && (ch * 2 + 1) * v == ch * (2 * v) + v && ch * 2 * v == ch * (2 * v)
  {
    RingIndex.MulMonotone(1, v, ch * 2);
  }

  lemma OneBit(ch: nat, rem: nat, n: nat)
    requires 0 < n <= 8 && rem < Weight(n) && ch * Weight(n) + rem < 256
    ensures BitMoves(ch, rem, n)
  {
    Weights(n);
    hide Weight, Shifted;
    ReceiverRoom(ch, rem, Weight(n - 1));
    ShiftedIs(ch, Top(rem, n) >= 128);
    TopBit(rem, Weight(n - 1), Weight(8 - n));
  }

  lemma {:induction false} ShiftsBack(ch: nat, rem: nat, n: nat)
    requires n <= 8 && rem < Weight(n) && ch * Weight(n) + rem < 256
    ensures Top(rem, n) < 256 && ch < 256 && ShiftIn(ch, BitsOf(Top(rem, n), n)) == ch * Weight(n) + rem
    decreases n
  {
    if n > 0 {
      OneBit(ch, rem, n);
      hide Weight, Top, Shifted;
      var bit := Top(rem, n) >= 128;
      var bits := BitsOf(Top(rem, n), n);
      ShiftsBack(Shifted(ch, bit), if bit then rem - Weight(n - 1) else rem, n - 1);
      assert bits[0] == bit && bits[1..] == BitsOf(Top(rem, n) * 2 % 256, n - 1);
    }
  }

  /** The bits of a byte, most significant first, read back as the byte. */
  lemma ByteReadsBack(b: Byte)
    ensures ShiftIn(0, BitsOf(b, 8)) == b
  {
    ShiftsBack(0, b, 8);
  }

  lemma OneMoreShift(bits: seq<bool>, k: nat)
    requires k < |bits| && ShiftIn(0, bits[..k]) < 128
    ensures ShiftIn(0, bits[..k + 1]) == 2 * ShiftIn(0, bits[..k]) + One(bits[k])
  {
    hide ShiftIn;
    ShiftInSnoc(0, bits[..k], bits[k]);
    assert bits[..k] + [bits[k]] == bits[..k + 1];
  }

  lemma TwoMoreShifts(bits: seq<bool>, k: nat)
    requires k + 1 < |bits| && ShiftIn(0, bits[..k]) < 64
    ensures ShiftIn(0, bits[..k + 2]) == 4 * ShiftIn(0, bits[..k]) + 2 * One(bits[k]) + One(bits[k + 1])
    ensures ShiftIn(0, bits[..k + 2]) <= 4 * ShiftIn(0, bits[..k]) + 3
  {
    hide ShiftIn;
    OneMoreShift(bits, k);
    OneMoreShift(bits, k + 1);
  }

  /** Eight bits shifted in: the first one weighs 128, the last one 1. */
  lemma ShiftOrder(bits: seq<bool>)
    requires |bits| == 8
    ensures ShiftIn(0, bits)
      == 128 * One(bits[0]) + 64 * One(bits[1]) + 32 * One(bits[2]) + 16 * One(bits[3])
         + 8 * One(bits[4]) + 4 * One(bits[5]) + 2 * One(bits[6]) + One(bits[7])
  {
    assert ShiftIn(0, bits[..0]) == 0;
    hide ShiftIn, One;
    TwoMoreShifts(bits, 0);
    TwoMoreShifts(bits, 2);
    TwoMoreShifts(bits, 4);
    TwoMoreShifts(bits, 6);
    assert bits[..8] == bits;
  }

  /** The bits of a byte as they are sent: the first one weighs 128, the last one 1. */
  lemma BitOrder(b: Byte)
    ensures var bits := BitsOf(b, 8);
            b == 128 * One(bits[0]) + 64 * One(bits[1]) + 32 * One(bits[2]) + 16 * One(bits[3])
                 + 8 * One(bits[4]) + 4 * One(bits[5]) + 2 * One(bits[6]) + One(bits[7])
  {
    ByteReadsBack(b);
    ShiftOrder(BitsOf(b, 8));
  }

  lemma OneMoreBit(sent: seq<bool>, b: Byte, n: nat)
    requires n > 0
    ensures sent + BitsOf(b, n) == (sent + [b >= 128]) + BitsOf(b * 2 % 256, n - 1)
  {
  }

  /** The bit sent last is the lowest one. */
  lemma LastBit(b: Byte)
    ensures BitsOf(b, 8)[7] == (b % 2 == 1)
  {
    hide BitsOf, ShiftIn;
    var bits := BitsOf(b, 8);
    ByteReadsBack(b);
    ShiftInSnoc(0, bits[..7], bits[7]);
    assert bits[..7] + [bits[7]] == bits;
  }

  // ---- what transactions look like on the wire ----

  function BitSyms(bits: seq<bool>): (r: seq<Sym>)
    ensures |r| == |bits|
  {
    seq(|bits|, i requires 0 <= i < |bits| => Bit(bits[i]))
  }

  lemma NoBits(start: seq<Sym>)
    ensures start + BitSyms([]) == start
  {
  }

  lemma BitSymsSnoc(start: seq<Sym>, bits: seq<bool>, bit: bool)
    ensures (start + BitSyms(bits)) + [Bit(bit)] == start + BitSyms(bits + [bit])
  {
  }

  /** Bytes of the driver, each followed by the slave's acknowledge. */
  function AckedBytes(bytes: seq<Byte>): seq<Sym> {
    if bytes == [] then [] else AckedBytes(bytes[..|bytes| - 1]) + BitSyms(BitsOf(bytes[|bytes| - 1], 8)) + [Bit(false)]
  }

  // ---- the register ----

  const SDA_BIT: bv8 := 0x01
  const SCL_BIT: bv8 := 0x02

  function WithBit(r: bv8, bit: bv8): bv8 { r | bit }

  function WithoutBit(r: bv8, bit: bv8): bv8 { r & !bit }

  predicate HasBit(r: bv8, bit: bv8) { r & bit != 0 }

  function OtherBits(r: bv8): bv8 { r & 0xFC }

  lemma BitWrites(r: bv8)
    ensures HasBit(WithBit(r, SDA_BIT), SDA_BIT) && HasBit(WithBit(r, SDA_BIT), SCL_BIT) == HasBit(r, SCL_BIT)
    ensures !HasBit(WithoutBit(r, SDA_BIT), SDA_BIT) && HasBit(WithoutBit(r, SDA_BIT), SCL_BIT) == HasBit(r, SCL_BIT)
    ensures HasBit(WithBit(r, SCL_BIT), SCL_BIT) && HasBit(WithBit(r, SCL_BIT), SDA_BIT) == HasBit(r, SDA_BIT)
    ensures !HasBit(WithoutBit(r, SCL_BIT), SCL_BIT) && HasBit(WithoutBit(r, SCL_BIT), SDA_BIT) == HasBit(r, SDA_BIT)
    ensures OtherBits(WithBit(r, SDA_BIT)) == OtherBits(WithoutBit(r, SDA_BIT)) == OtherBits(r)
    ensures OtherBits(WithBit(r, SCL_BIT)) == OtherBits(WithoutBit(r, SCL_BIT)) == OtherBits(r)
  {
  }

  /** SDA is bit 0 of the register and SCL is bit 1. */
  lemma PinsAre(r: bv8)
    ensures HasBit(r, SDA_BIT) == (r & 0x01 != 0) && HasBit(r, SCL_BIT) == (r & 0x02 != 0)
    ensures WithBit(r, SDA_BIT) == r | 0x01 && WithoutBit(r, SDA_BIT) == r & 0xFE
    ensures WithBit(r, SCL_BIT) == r | 0x02 && WithoutBit(r, SCL_BIT) == r & 0xFD
  {
  }

  class Bus {
    var gpor: bv8
    const slave: seq<bool>    // the level the slave leaves SDA at during each clock pulse
    var pulses: nat           // clock pulses so far
    var hold: bool            // the slave's level in the present pulse
    ghost var trace: seq<Level>

    predicate Sda()
      reads this
    {
      HasBit(gpor, SDA_BIT)
    }

    predicate Scl()
      reads this
    {
      HasBit(gpor, SCL_BIT)
    }

    function Wire(): Level
      reads this
    {
      Level(Sda() && (Scl() ==> hold), Scl())
    }

    ghost function Heard(): Listener
      reads this
    {
      Decode(trace)
    }

    ghost function Syms(): seq<Sym>
      reads this
    {
      Heard().syms
    }

    ghost predicate Valid()
      reads this
    {
      Heard().last == Wire() && (!Scl() ==> Heard().pulse == None)
    }

    /** The slave's level in pulse k; beyond its script it has let go. */
    predicate Drive(k: nat) { k < |slave| ==> slave[k] }

    ghost predicate IdleBus()
      reads this
    {
      Valid() && Sda() && Scl() && hold && Heard().pulse == None
    }

    constructor (gpor: bv8, slave: seq<bool>)
      requires HasBit(gpor, SDA_BIT) && HasBit(gpor, SCL_BIT)
      ensures IdleBus() && Syms() == [] && pulses == 0 && this.slave == slave && this.gpor == gpor
    {
      this.gpor := gpor;
      this.slave := slave;
      pulses, hold, trace := 0, true, [];
    }

    method SdaSet()
      requires Valid()
      modifies this`gpor, this`trace
      ensures Valid() && Sda() && Scl() == old(Scl()) && OtherBits(gpor) == OtherBits(old(gpor))
      ensures gpor == old(gpor) | 0x01
      ensures Heard() == Hear(old(Heard()), Wire())
    {
      hide WithBit, WithoutBit, HasBit, OtherBits, Decode;
      PinsAre(gpor);
      BitWrites(gpor);
      gpor := WithBit(gpor, SDA_BIT);
      DecodeMore(trace, Wire());
      trace := trace + [Wire()];
    }

    method SdaClr()
      requires Valid()
      modifies this`gpor, this`trace
      ensures Valid() && !Sda() && Scl() == old(Scl()) && OtherBits(gpor) == OtherBits(old(gpor))
      ensures gpor == old(gpor) & 0xFE
      ensures Heard() == Hear(old(Heard()), Wire())
    {
      hide WithBit, WithoutBit, HasBit, OtherBits, Decode;
      PinsAre(gpor);
      BitWrites(gpor);
      gpor := WithoutBit(gpor, SDA_BIT);
      DecodeMore(trace, Wire());
      trace := trace + [Wire()];
    }

    /** A rising clock begins a pulse, for which the slave sets its level. */
    method SclSet()
      requires Valid()
      modifies this`gpor, this`trace, this`pulses, this`hold
      ensures Valid() && Scl() && Sda() == old(Sda()) && OtherBits(gpor) == OtherBits(old(gpor))
      ensures gpor == old(gpor) | 0x02
      ensures if old(Scl()) then hold == old(hold) && pulses == old(pulses)
              else hold == Drive(old(pulses)) && pulses == old(pulses) + 1
      ensures Heard() == Hear(old(Heard()), Wire())
    {
      hide WithBit, WithoutBit, HasBit, OtherBits, Decode;
      PinsAre(gpor);
      BitWrites(gpor);
      if !HasBit(gpor, SCL_BIT) {
        hold := Drive(pulses);
        pulses := pulses + 1;
      }
      gpor := WithBit(gpor, SCL_BIT);
      DecodeMore(trace, Wire());
      trace := trace + [Wire()];
    }

    method SclClr()
      requires Valid()
      modifies this`gpor, this`trace
      ensures Valid() && !Scl() && Sda() == old(Sda()) && OtherBits(gpor) == OtherBits(old(gpor))
      ensures gpor == old(gpor) & 0xFD
      ensures Heard() == Hear(old(Heard()), Wire())
    {
      hide WithBit, WithoutBit, HasBit, OtherBits, Decode;
      PinsAre(gpor);
      BitWrites(gpor);
      gpor := WithoutBit(gpor, SCL_BIT);
      DecodeMore(trace, Wire());
      trace := trace + [Wire()];
    }

    /** From an idle bus, or between bytes with the clock low: a START and nothing else. */
    method Start()
      requires IdleBus() || (Valid() && !Scl() && Drive(pulses))
      modifies this
      ensures Valid() && !Scl() && OtherBits(gpor) == OtherBits(old(gpor))
      ensures Syms() == old(Syms()) + [StartC] && pulses == old(pulses) + One(!old(Scl()))
    {
      hide Decode, HasBit, OtherBits;
      SdaSet();
      SclSet();
      SdaClr();
      SclClr();
    }

    /**
     With the clock low: a STOP and nothing else. Entered with the clock high on a free SDA, as
     the failure path of WaitAck does, it makes a START first.
     */
    method Stop()
      requires Valid() && Drive(pulses) && (Scl() ==> Sda() && hold)
      modifies this
      ensures IdleBus() && OtherBits(gpor) == OtherBits(old(gpor)) && pulses == old(pulses) + 1
      ensures Syms() == old(Syms()) + if old(Scl()) then [StartC, StopC] else [StopC]
    {
      hide Decode, HasBit, OtherBits;
      ghost var before := Syms();
      SdaClr();
      SclClr();
      assert Syms() == if old(Scl()) then before + [StartC] else before;
      SclSet();
      SdaSet();
      assert before + [StartC] + [StopC] == before + [StartC, StopC];
    }

    /** The input register shows the wire. */
    method SdaGet() returns (level: bool)
      requires Valid()
      ensures level == Wire().sda
    {
      level := Wire().sda;
    }

    /** The symbols, with the bit of the present clock pulse already counted. */
    ghost function Settled(): seq<Sym>
      reads this
    {
      Syms() + if Heard().pulse.Some? then [Bit(Heard().pulse.value)] else []
    }

    /** In the middle of a byte: between pulses, or in the pulse of the last bit. */
    ghost predicate MidByte()
      reads this
    {
      Valid() && (Scl() ==> Heard().pulse.Some?)
    }

    /** One turn of SendByte's loop. */
    method PutBit(high: bool)
      requires MidByte() && Drive(pulses)
      modifies this
      ensures MidByte() && Scl() && Sda() == high && pulses == old(pulses) + 1
      ensures OtherBits(gpor) == OtherBits(old(gpor))
      ensures Settled() == old(Settled()) + [Bit(high)]
    {
      hide Decode, HasBit, OtherBits;
      SclClr();
      assert Syms() == old(Settled());
      if high {
        SdaSet();
      } else {
        SdaClr();
      }
      SclSet();
    }

    /** The clock low after a pulse: its bit is complete. */
    method EndPulse()
      requires MidByte()
      modifies this
      ensures Valid() && !Scl() && Sda() == old(Sda()) && pulses == old(pulses)
      ensures OtherBits(gpor) == OtherBits(old(gpor))
      ensures Syms() == old(Settled())
    {
      hide Decode, HasBit, OtherBits;
      SclClr();
    }

    /** The slave leaves SDA alone in the n pulses from k on. */
    ghost predicate Released(k: nat, n: nat) { forall i | k <= i < k + n :: Drive(i) }

    method SendByte(b: Byte)
      requires Valid() && !Scl() && Released(pulses, 8)
      modifies this
      ensures Valid() && !Scl() && Sda() == (b % 2 == 1) && pulses == old(pulses) + 8
      ensures OtherBits(gpor) == OtherBits(old(gpor))
      ensures Syms() == old(Syms()) + BitSyms(BitsOf(b, 8))
    {
      hide Decode, HasBit, OtherBits, Drive, BitsOf, BitSyms;
      ghost var start, from := Syms(), pulses;
      var ibyte: int := b;
      ghost var sent: seq<bool> := [];
      assert start + BitSyms([]) == Settled() by { NoBits(start); }
      var bit := 0;
      while bit < 8
        invariant 0 <= bit <= 8 && 0 <= ibyte < 256 && MidByte() && pulses == from + bit && |sent| == bit
        invariant sent + BitsOf(ibyte, 8 - bit) == BitsOf(b, 8) && Settled() == start + BitSyms(sent)
        invariant bit > 0 ==> Sda() == sent[bit - 1]
        invariant OtherBits(gpor) == OtherBits(old(gpor))
      {
        OneMoreBit(sent, ibyte, 8 - bit);
        BitSymsSnoc(start, sent, ibyte >= 128);
        PutBit(ibyte >= 128);
        sent := sent + [ibyte >= 128];
        ibyte := ibyte * 2 % 256;
        bit := bit + 1;
      }
      EndPulse();
      LastBit(b);
      assert sent == BitsOf(b, 8);
    }

    /** The clock is high while the driver looks for SDA low; it gives up after 251 looks. */
    method WaitAck() returns (err: int, ghost looks: nat)
      requires Valid() && !Scl() && (Sda() && Drive(pulses) ==> Drive(pulses + 1))
      modifies this
      ensures OtherBits(gpor) == OtherBits(old(gpor))
      ensures !(old(Sda()) && Drive(old(pulses))) ==>
        && err == 0 && looks == 1 && Valid() && !Scl() && Sda() == old(Sda()) && pulses == old(pulses) + 1
        && Syms() == old(Syms()) + [Bit(false)]
      ensures old(Sda()) && Drive(old(pulses)) ==>
        err == -1 && looks == 251 && IdleBus() && pulses == old(pulses) + 2 && Syms() == old(Syms()) + [StartC, StopC]
    {
      hide Decode, HasBit, OtherBits, Drive;
      SclSet();
      var errTimes := 0;
      var level := SdaGet();
      looks := 1;
      while level
        invariant 0 <= errTimes <= 250 && level == Wire().sda && looks == errTimes + 1
        invariant errTimes > 0 ==> level
        invariant Valid() && Scl() && Sda() == old(Sda()) && hold == Drive(old(pulses)) && pulses == old(pulses) + 1
        invariant Heard() == Hear(old(Heard()), Wire()) && OtherBits(gpor) == OtherBits(old(gpor))
        decreases 251 - errTimes
      {
        errTimes := errTimes + 1;
        if errTimes > 250 {
          Stop();
          return -1, looks;
        }
        level := SdaGet();
        looks := looks + 1;
      }
      SclClr();
      err := 0;
    }

    method SendAck()
      requires MidByte()
      modifies this
      ensures Valid() && !Scl() && Sda() && pulses == old(pulses) + 1 && OtherBits(gpor) == OtherBits(old(gpor))
      ensures Syms() == old(Settled()) + [Bit(false)]
    {
      hide Decode, HasBit, OtherBits, Drive;
      EndPulse();
      SdaClr();
      SclSet();
      SclClr();
      SdaSet();
    }

    method SendNack()
      requires MidByte() && Drive(pulses)
      modifies this
      ensures Valid() && !Scl() && Sda() && pulses == old(pulses) + 1 && OtherBits(gpor) == OtherBits(old(gpor))
      ensures Syms() == old(Settled()) + [Bit(true)]
    {
      hide Decode, HasBit, OtherBits, Drive;
      EndPulse();
      SdaSet();
      SclSet();
      SclClr();
    }

    /** The levels of the slave in the eight pulses from k on. */
    ghost function SlaveBits(k: nat): (r: seq<bool>)
      ensures |r| == 8
    {
      seq(8, i requires 0 <= i < 8 => Drive(k + i))
    }

    /** One turn of ReadByte's loop: SDA is released, the wire shows the slave's bit. */
    method GetBit() returns (level: bool)
      requires MidByte() && Sda()
      modifies this
      ensures MidByte() && Sda() && pulses == old(pulses) + 1 && OtherBits(gpor) == OtherBits(old(gpor))
      ensures level == Drive(old(pulses)) && Settled() == old(Settled()) + [Bit(level)]
    {
      hide Decode, HasBit, OtherBits, Drive;
      EndPulse();
      SclSet();
      level := SdaGet();
    }

    method ReadByte(ack: bool) returns (ch: Byte)
      requires Valid() && !Scl() && Sda() && (!ack ==> Drive(pulses + 8))
      modifies this
      ensures Valid() && !Scl() && Sda() && pulses == old(pulses) + 9 && OtherBits(gpor) == OtherBits(old(gpor))
      ensures ch == ShiftIn(0, SlaveBits(old(pulses)))
      ensures Syms() == old(Syms()) + BitSyms(SlaveBits(old(pulses))) + [Bit(!ack)]
    {
      hide Decode, HasBit, OtherBits, Drive;
      ghost var start, from := Syms(), pulses;
      ghost var got: seq<bool> := [];
      ch := 0;
      var bit := 0;
      while bit < 8
        invariant 0 <= bit <= 8 && MidByte() && Sda() && pulses == from + bit && |got| == bit
        invariant got == SlaveBits(from)[..bit] && ch == ShiftIn(0, got) && Settled() == start + BitSyms(got)
        invariant OtherBits(gpor) == OtherBits(old(gpor))
      {
        var level := GetBit();
        ShiftInSnoc(0, got, level);
        ch := (ch * 2 + if level then 1 else 0) % 256;
        got := got + [level];
        bit := bit + 1;
      }
      assert got == SlaveBits(from);
      if ack {
        SendAck();
      } else {
        SendNack();
      }
    }

    /** The slave acknowledges the byte sent in the nine pulses from k on, or the byte's own low bit looks like it. */
    ghost predicate Acked(b: Byte, k: nat) { b % 2 == 0 || !Drive(k + 8) }

    /** A byte and its acknowledge; without one the transaction is given up with a second STOP. */
    method PutByte(b: Byte) returns (ok: bool)
      requires Valid() && !Scl() && Released(pulses, 8) && (!Acked(b, pulses) ==> Released(pulses + 9, 2))
      modifies this
      ensures ok == Acked(b, old(pulses)) && OtherBits(gpor) == OtherBits(old(gpor))
      ensures ok ==> Valid() && !Scl() && Sda() == (b % 2 == 1) && pulses == old(pulses) + 9
      ensures ok ==> Syms() == old(Syms()) + BitSyms(BitsOf(b, 8)) + [Bit(false)]
      ensures !ok ==> IdleBus() && Syms() == old(Syms()) + BitSyms(BitsOf(b, 8)) + [StartC, StopC, StartC, StopC]
    {
      hide Decode, HasBit, OtherBits, Drive, BitsOf, BitSyms;
      ghost var start := Syms() + BitSyms(BitsOf(b, 8));
      SendByte(b);
      var err, looks := WaitAck();
      if err != 0 {
        Stop();
        assert start + [StartC, StopC] + [StartC, StopC] == start + [StartC, StopC, StartC, StopC];
        return false;
      }
      ok := true;
    }

    /** From pulse k on the slave drives SDA only in acknowledge pulses. */
    ghost predicate OnlyAcks(k: nat) { forall i: nat | k <= i && (i - k) % 9 != 8 :: Drive(i) }

    lemma QuietByte(k: nat, j: nat)
      requires OnlyAcks(k)
      ensures Released(k + 9 * j, 8) && Released(k + 9 * j + 9, 2)
    {
    }

    ghost predicate AllAcked(bytes: seq<Byte>, k: nat, n: nat)
      requires n <= |bytes|
    {
      forall j: nat | j < n :: Acked(bytes[j], k + 9 * j)
    }

    lemma AllAckedMore(bytes: seq<Byte>, k: nat, n: nat)
      requires n < |bytes| && AllAcked(bytes, k, n) && Acked(bytes[n], k + 9 * n)
      ensures AllAcked(bytes, k, n + 1)
    {
      hide Acked;
    }

    lemma NoneToAck(bytes: seq<Byte>, k: nat)
      ensures AllAcked(bytes, k, 0)
    {
    }

    /**
     A write transaction. The wire shows START, the address with the write bit, the register and
     the data, each byte acknowledged, and STOP. It gives up at the first byte that is not
     acknowledged (bad), and what the wire shows then is a spurious START and STOP, twice.
     */
    method Write(addr: Byte, reg: Byte, data: seq<Byte>) returns (ret: int, ghost bad: nat)
      requires IdleBus() && OnlyAcks(pulses)
      modifies this
      ensures IdleBus() && OtherBits(gpor) == OtherBits(old(gpor)) && (ret == 0 || ret == -1)
      ensures var bytes := [addr * 2 % 256, reg] + data;
              && (ret == 0 ==>
                    && AllAcked(bytes, old(pulses), |bytes|)
                    && Syms() == old(Syms()) + [StartC] + AckedBytes(bytes) + [StopC])
              && (ret == -1 ==>
                    && bad < |bytes| && !Acked(bytes[bad], old(pulses) + 9 * bad) && AllAcked(bytes, old(pulses), bad)
                    && Syms() == old(Syms()) + [StartC] + AckedBytes(bytes[..bad]) + BitSyms(BitsOf(bytes[bad], 8))
                                 + [StartC, StopC, StartC, StopC])
    {
      hide Decode, HasBit, OtherBits, Drive, BitsOf, BitSyms, AckedBytes, OnlyAcks, Released, Acked, AllAcked;
      ghost var bytes := [addr * 2 % 256, reg] + data;
      ghost var from := pulses;
      bad := 0;
      Start();
      ghost var start := Syms();
      NothingAcked(start);
      NoneToAck(bytes, from);
      assert bytes[..0] == [];
      var ok := PutNext(addr * 2 % 256, start, bytes, from, 0);
      if !ok {
        return -1, 0;
      }
      ok := PutNext(reg, start, bytes, from, 1);
      if !ok {
        return -1, 1;
      }
      var i := 0;
      while i < |data|
        invariant 0 <= i <= |data| && Valid() && !Scl() && pulses == from + 9 * (i + 2)
        invariant Syms() == start + AckedBytes(bytes[..i + 2]) && OtherBits(gpor) == OtherBits(old(gpor))
        invariant AllAcked(bytes, from, i + 2)
      {
        ok := PutNext(data[i], start, bytes, from, i + 2);
        if !ok {
          return -1, i + 2;
        }
        i := i + 1;
      }
      QuietStop(from, |bytes|);
      assert bytes[..|bytes|] == bytes;
      Stop();
      ret := 0;
    }

    /** Byte n of a write transaction. */
    method PutNext(b: Byte, ghost start: seq<Sym>, ghost bytes: seq<Byte>, ghost from: nat, ghost n: nat)
      returns (ok: bool)
      requires Valid() && !Scl() && n < |bytes| && b == bytes[n] && OnlyAcks(from) && pulses == from + 9 * n
      requires AllAcked(bytes, from, n) && Syms() == start + AckedBytes(bytes[..n])
      modifies this
      ensures ok == Acked(b, from + 9 * n) && OtherBits(gpor) == OtherBits(old(gpor))
      ensures ok ==> Valid() && !Scl() && pulses == from + 9 * (n + 1) && AllAcked(bytes, from, n + 1)
      ensures ok ==> Syms() == start + AckedBytes(bytes[..n + 1])
      ensures !ok ==>
        IdleBus() && Syms() == start + AckedBytes(bytes[..n]) + BitSyms(BitsOf(b, 8)) + [StartC, StopC, StartC, StopC]
    {
      hide Decode, HasBit, OtherBits, Drive, BitsOf, BitSyms, AckedBytes, OnlyAcks, Released, Acked, AllAcked;
      QuietByte(from, n);
      OneMoreAcked(start, bytes, n);
      ok := PutByte(b);
      if ok {
        AllAckedMore(bytes, from, n);
      }
    }

    lemma QuietStop(k: nat, j: nat)
      requires OnlyAcks(k)
      ensures Drive(k + 9 * j)
    {
    }

    /**
     The wire while n bytes are read from pulse k on: the slave's bits and the driver's
     acknowledges, the last one negative.
     */
    ghost function ReadSyms(k: nat, n: nat, total: nat): seq<Sym> {
      if n == 0 then [] else ReadSyms(k, n - 1, total) + BitSyms(SlaveBits(k + 9 * (n - 1))) + [Bit(n == total)]
    }

    /** The slave drives SDA in its acknowledges and its own bits, and lets go for the last acknowledge and the STOP. */
    ghost predicate ReadScript(k: nat, total: nat) {
      && Released(k, 8) && Released(k + 9, 8) && Released(k + 18, 9)
      && (Drive(k + 27) ==> Released(k + 28, 2))
      && (total > 0 ==> Drive(k + 28 + 9 * total - 1)) && Drive(k + 28 + 9 * total)
    }

    /**
     A read transaction: START, address and register as in a write, a repeated START, the address
     with the read bit, and then the bytes the slave sends, which end up in obuffer. The first
     two bytes can only be refused when their low bit is set.
     */
    method Read(addr: Byte, reg: Byte, obuffer: array<Byte>) returns (ret: int)
      requires IdleBus() && ReadScript(pulses, obuffer.Length)
      requires !Acked(reg, pulses + 9) ==> Released(pulses + 18, 2)
      modifies this, obuffer
      ensures IdleBus() && OtherBits(gpor) == OtherBits(old(gpor))
      ensures ret == if Acked(reg, old(pulses) + 9) && !Drive(old(pulses) + 27) then 0 else -1
      ensures !Acked(reg, old(pulses) + 9) ==>
        Syms() == old(Syms()) + [StartC] + AckedBytes([addr * 2 % 256]) + BitSyms(BitsOf(reg, 8))
                    + [StartC, StopC, StartC, StopC]
      ensures Acked(reg, old(pulses) + 9) && Drive(old(pulses) + 27) ==>
        Syms() == old(Syms()) + [StartC] + AckedBytes([addr * 2 % 256, reg])
                    + [StartC] + BitSyms(BitsOf(addr * 2 % 256 + 1, 8)) + [StartC, StopC, StartC, StopC]
      ensures ret == 0 ==>
        && Syms() == old(Syms()) + [StartC] + AckedBytes([addr * 2 % 256, reg])
                     + [StartC] + AckedBytes([addr * 2 % 256 + 1])
                     + ReadSyms(old(pulses) + 28, obuffer.Length, obuffer.Length) + [StopC]
        && forall i | 0 <= i < obuffer.Length :: obuffer[i] == ShiftIn(0, SlaveBits(old(pulses) + 28 + 9 * i))
    {
      hide Decode, HasBit, OtherBits, BitsOf, BitSyms, AckedBytes, Released, Drive, ReadSyms, SlaveBits, ShiftIn;
      ghost var before, from := Syms(), pulses;
      ghost var bytes := [addr * 2 % 256, reg];
      Start();
      ghost var start := Syms();
      NothingAcked(start);
      assert bytes[..0] == [] && bytes[..1] == [addr * 2 % 256] && bytes[..2] == bytes;
      OneMoreAcked(start, bytes, 0);
      OneMoreAcked(start, bytes, 1);
      var ok := PutByte(addr * 2 % 256);
      assert ok;
      if !ok {
        return -1;
      }
      ok := PutByte(reg);
      if !ok {
        return -1;
      }
      assert Drive(pulses) && Released(pulses + 1, 8) by { FirstOf(from + 18); }
      Start();
      ghost var again := Syms();
      ghost var addressed := [addr * 2 % 256 + 1];
      NothingAcked(again);
      OneMoreAcked(again, addressed, 0);
      assert addressed[..0] == [] && addressed[..1] == addressed;
      ok := PutByte(addr * 2 % 256 + 1);
      if !ok {
        return -1;
      }
      ReadData(obuffer, from + 28);
      Stop();
      ret := 0;
    }

    method ReadData(obuffer: array<Byte>, ghost from: nat)
      requires Valid() && !Scl() && Sda() && pulses == from
      requires obuffer.Length > 0 ==> Drive(from + 9 * obuffer.Length - 1)
      modifies this, obuffer
      ensures Valid() && !Scl() && Sda() && pulses == from + 9 * obuffer.Length
      ensures OtherBits(gpor) == OtherBits(old(gpor))
      ensures Syms() == old(Syms()) + ReadSyms(from, obuffer.Length, obuffer.Length)
      ensures forall i | 0 <= i < obuffer.Length :: obuffer[i] == ShiftIn(0, SlaveBits(from + 9 * i))
    {
      hide Decode, HasBit, OtherBits, BitsOf, BitSyms, Drive, ReadSyms, SlaveBits, ShiftIn;
      ghost var base := Syms();
      NothingRead(base, from, obuffer.Length);
      var i := 0;
      while i < obuffer.Length
        invariant 0 <= i <= obuffer.Length && Valid() && !Scl() && Sda() && pulses == from + 9 * i
        invariant Syms() == base + ReadSyms(from, i, obuffer.Length) && OtherBits(gpor) == OtherBits(old(gpor))
        invariant forall j | 0 <= j < i :: obuffer[j] == ShiftIn(0, SlaveBits(from + 9 * j))
      {
        OneMoreRead(base, from, i, obuffer.Length);
        var b := ReadByte(i != obuffer.Length - 1);
        obuffer[i] := b;
        i := i + 1;
      }
    }

    lemma FirstOf(k: nat)
      requires Released(k, 9)
      ensures Drive(k) && Released(k + 1, 8)
    {
    }

    lemma NothingRead(base: seq<Sym>, k: nat, total: nat)
      ensures base + ReadSyms(k, 0, total) == base
    {
    }

    lemma OneMoreRead(base: seq<Sym>, k: nat, n: nat, total: nat)
      ensures base + ReadSyms(k, n + 1, total)
           == (base + ReadSyms(k, n, total)) + BitSyms(SlaveBits(k + 9 * n)) + [Bit(n + 1 == total)]
    {
      hide BitSyms, SlaveBits;
    }
  }

  lemma NothingAcked(start: seq<Sym>)
    ensures start + AckedBytes([]) == start
  {
  }

  lemma OneMoreAcked(start: seq<Sym>, bytes: seq<Byte>, i: nat)
    requires i < |bytes|
    ensures start + AckedBytes(bytes[..i + 1])
         == (start + AckedBytes(bytes[..i])) + BitSyms(BitsOf(bytes[i], 8)) + [Bit(false)]
  {
    hide BitSyms, BitsOf;
    assert bytes[..i + 1][..i] == bytes[..i];
  }
}

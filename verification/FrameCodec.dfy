/**
 CAN and CAN FD frames as objects in the MCP251xFD's RAM: the driver's encoder, which
 reuses one buffer per transmit object, and its decoder for received objects. DLC coding
 is that of ISO 11898-1, control field.
 */
module FrameCodec {
  import Crc16
  import opened Frames
  import RegmapCrc

  /** A socket buffer's frame: id word with its flag bits, FD frame or classic, FD flags, payload. */
  datatype Skb = Skb(canId: bv32, isFd: bool, flags: bv8, data: seq<bv8>)

  datatype HwObj = HwObj(id: bv32, flags: bv32, data: seq<bv8>)

  const CAN_EFF_FLAG: bv32 := 0x8000_0000
  const CAN_RTR_FLAG: bv32 := 0x4000_0000
  const CANFD_BRS: bv8 := 0x01
  const CANFD_ESI: bv8 := 0x02

  const OBJ_FLAGS_ESI: bv32 := 0x100
  const OBJ_FLAGS_FDF: bv32 := 0x80
  const OBJ_FLAGS_BRS: bv32 := 0x40
  const OBJ_FLAGS_RTR: bv32 := 0x20
  const OBJ_FLAGS_IDE: bv32 := 0x10

  /** What the kernel lets through to the driver. */
  predicate ValidSkb(f: Skb) { |f.data| <= if f.isFd then 64 else 8 }

  // ---- data length codes ----

  /** The code in the low four bits, as an index. */
  function CodeOf(dlc: bv32): (code: nat)
    ensures code < 16
  {
    var d := dlc & 0xF;
    if d == 0 then 0 else if d == 1 then 1 else if d == 2 then 2 else if d == 3 then 3
    else if d == 4 then 4 else if d == 5 then 5 else if d == 6 then 6 else if d == 7 then 7
    else if d == 8 then 8 else if d == 9 then 9 else if d == 10 then 10 else if d == 11 then 11
    else if d == 12 then 12 else if d == 13 then 13 else if d == 14 then 14 else 15
  }

  function Dlc2Len(dlc: bv32): (len: nat)
    ensures len <= 64
  {
    LongestPayload(CodeOf(dlc));
    DLC_TO_LEN[CodeOf(dlc)]
  }

  function ClassicDlc2Len(dlc: bv32): (len: nat)
    ensures len <= 8
  {
    if Dlc2Len(dlc) <= 8 then Dlc2Len(dlc) else 8
  }

  function Len2Dlc(len: nat): (dlc: bv32)
    requires len <= 64
    ensures dlc <= 15
  {
    if len == 0 then 0 else if len == 1 then 1 else if len == 2 then 2 else if len == 3 then 3 else if len == 4 then 4
    else if len == 5 then 5 else if len == 6 then 6 else if len == 7 then 7 else if len == 8 then 8
    else if len <= 12 then 9 else if len <= 16 then 10 else if len <= 20 then 11
    else if len <= 24 then 12 else if len <= 32 then 13 else if len <= 48 then 14 else 15
  }

  lemma LowNibble(d: bv32)
    requires d <= 15
    ensures d & 0xF == d
  {
  }

  /** The code of a length is the code of the smallest DLC size that holds it. */
  lemma Len2DlcIsSmallest(len: nat, d: bv32)
    requires len <= 64 && d <= 15
    ensures len <= Dlc2Len(d) <==> Len2Dlc(len) <= d
  {
    LowNibble(d);
  }

  /** The sixteen sizes: 0 to 8, then in steps of four to 24, then 32, 48 and 64. */
  lemma DlcSizes(dlc: bv32)
    ensures var code := (dlc & 0xF) as int;
      && Dlc2Len(dlc) == (if code <= 8 then code else if code <= 12 then 4 * (code - 6) else 16 * (code - 11))
      && ClassicDlc2Len(dlc) == (if code <= 8 then code else 8)
  {
    CodeIsLowNibble(dlc);
  }

  lemma CodeIsLowNibble(dlc: bv32)
    ensures CodeOf(dlc) == (dlc & 0xF) as int
  {
  }

  /** Classic frames have codes 0 to 8, their own lengths. */
  lemma ClassicLen(len: nat)
    requires len <= 8
    ensures Dlc2Len(Len2Dlc(len)) == len == ClassicDlc2Len(Len2Dlc(len))
  {
    LowNibble(Len2Dlc(len));
  }

  // ---- the id and flags words ----

  predicate Has(word: bv32, bit: bv32) { word & bit != 0 }

  function Or(a: bv32, b: bv32): bv32 { a | b }

  function SetIf(word: bv32, cond: bool, bit: bv32): bv32 { if cond then Or(word, bit) else word }

  function Nibble(word: bv32): bv32 { word & 0xF }

  /** The bits a received object shares with the transmitted one; above them the chip puts its own. */
  function Low9(word: bv32): bv32 { word & 0x1FF }

  function SeqField(word: bv32): bv32 { (word & 0xFFFF_FE00) >> 9 }

  /** A 29-bit identifier: the chip keeps its lower 18 bits above its upper 11. */
  function PackExt(canId: bv32): bv32 {
    var sid := (canId & 0x1FFC_0000) >> 18;
    var eid := canId & 0x0003_FFFF;
    ((eid << 11) & 0x1FFF_F800) | (sid & 0x7FF)
  }

  function UnpackExt(id: bv32): bv32 {
    var eid := (id & 0x1FFF_F800) >> 11;
    var sid := id & 0x7FF;
    CAN_EFF_FLAG | (eid & 0x0003_FFFF) | ((sid << 18) & 0x1FFC_0000)
  }

  function EncodeId(canId: bv32): bv32 { if Has(canId, CAN_EFF_FLAG) then PackExt(canId) else canId & 0x7FF }

  function DecodeId(id: bv32, flags: bv32): bv32 { if Has(flags, OBJ_FLAGS_IDE) then UnpackExt(id) else id & 0x7FF }

  function SeqAndDlc(seqNo: bv32, dlc: bv32): bv32 { ((seqNo << 9) & 0xFFFF_FE00) | (dlc & 0xF) }

  function FlagsWord(ide: bool, rtr: bool, fd: bool, esi: bool, brs: bool, seqNo: bv32, dlc: bv32): bv32 {
    var start: bv32 := if ide then OBJ_FLAGS_IDE else 0;
    var classic := SetIf(Or(start, SeqAndDlc(seqNo, dlc)), rtr, OBJ_FLAGS_RTR);
    if fd then SetIf(Or(SetIf(classic, esi, OBJ_FLAGS_ESI), OBJ_FLAGS_FDF), brs, OBJ_FLAGS_BRS) else classic
  }

  predicate HasEsi(f: Skb) { f.flags & CANFD_ESI != 0 }

  predicate HasBrs(f: Skb) { f.flags & CANFD_BRS != 0 }

  function EncodeFlags(f: Skb, seqNo: bv32): bv32
    requires |f.data| <= 64
  {
    FlagsWord(Has(f.canId, CAN_EFF_FLAG), Has(f.canId, CAN_RTR_FLAG), f.isFd, HasEsi(f), HasBrs(f), seqNo,
              Len2Dlc(|f.data|))
  }

  /** Every field of the flags word can be read back, whatever the chip puts above bit 8. */
  lemma FlagsReadBack(ide: bool, rtr: bool, fd: bool, esi: bool, brs: bool, seqNo: bv32, dlc: bv32, w: bv32)
    requires Low9(w) == Low9(FlagsWord(ide, rtr, fd, esi, brs, seqNo, dlc))
    ensures Has(w, OBJ_FLAGS_IDE) == ide && Has(w, OBJ_FLAGS_RTR) == rtr && Has(w, OBJ_FLAGS_FDF) == fd
    ensures fd ==> Has(w, OBJ_FLAGS_ESI) == esi && Has(w, OBJ_FLAGS_BRS) == brs
    ensures Nibble(w) == Nibble(dlc)
  {
  }

  lemma LowBitKeepsSeq(word: bv32, bit: bv32)
    requires Low9(bit) == bit
    ensures SeqField(Or(word, bit)) == SeqField(word)
  {
  }

  lemma SeqAlone(low: bv32, seqNo: bv32, dlc: bv32)
    requires Low9(low) == low
    ensures SeqField(Or(low, SeqAndDlc(seqNo, dlc))) == seqNo & 0x7F_FFFF
  {
  }

  /** The sequence number the TEF gives back: 23 bits of the driver's head counter. */
  lemma SequenceReadBack(ide: bool, rtr: bool, fd: bool, esi: bool, brs: bool, seqNo: bv32, dlc: bv32)
    ensures SeqField(FlagsWord(ide, rtr, fd, esi, brs, seqNo, dlc)) == seqNo & 0x7F_FFFF
  {
    var start: bv32 := if ide then OBJ_FLAGS_IDE else 0;
    SeqAlone(start, seqNo, dlc);
    hide SeqField, Or, SeqAndDlc;
    var w0 := Or(start, SeqAndDlc(seqNo, dlc));
    LowBitKeepsSeq(w0, OBJ_FLAGS_RTR);
    var w1 := SetIf(w0, rtr, OBJ_FLAGS_RTR);
    LowBitKeepsSeq(w1, OBJ_FLAGS_ESI);
    var w2 := SetIf(w1, esi, OBJ_FLAGS_ESI);
    LowBitKeepsSeq(w2, OBJ_FLAGS_FDF);
    LowBitKeepsSeq(Or(w2, OBJ_FLAGS_FDF), OBJ_FLAGS_BRS);
  }

  // ---- where each bit lies ----

  /**
   The object's words bit by bit. Id: SID in bits 10 to 0, EID in bits 28 to 11. Flags: ESI, FDF,
   BRS, RTR, IDE in bits 8 to 4, the sequence number above them, the length code below.
   */
  predicate LaidOut(f: Skb, seqNo: bv32, id: bv32, flags: bv32)
    requires |f.data| <= 64
  {
    IdLaidOut(f.canId, id) && FlagsLaidOut(f, seqNo, flags)
  }

  predicate IdLaidOut(canId: bv32, id: bv32) {
    if canId & 0x8000_0000 != 0 then id & 0x7FF == (canId >> 18) & 0x7FF && id >> 11 == canId & 0x3_FFFF
    else id == canId & 0x7FF
  }

  predicate FlagsLaidOut(f: Skb, seqNo: bv32, flags: bv32)
    requires |f.data| <= 64
  {
    && (flags & 0x100 != 0 <==> f.isFd && f.flags & 0x02 != 0)
    && (flags & 0x80 != 0 <==> f.isFd)
    && (flags & 0x40 != 0 <==> f.isFd && f.flags & 0x01 != 0)
    && (flags & 0x20 != 0 <==> f.canId & 0x4000_0000 != 0)
    && (flags & 0x10 != 0 <==> f.canId & 0x8000_0000 != 0)
    && flags >> 9 == seqNo & 0x7F_FFFF
    && flags & 0xF == Len2Dlc(|f.data|)
  }

  /** A received object's id word read: the frame's id, its extended and remote flags, no error flag. */
  predicate IdReads(canId: bv32, id: bv32, ext: bool, rtr: bool) {
    && (if ext then (canId >> 18) & 0x7FF == id & 0x7FF && canId & 0x3_FFFF == (id >> 11) & 0x3_FFFF
        else canId & 0x1FFF_FFFF == id & 0x7FF)
    && canId & 0xE000_0000 == (if ext then 0x8000_0000 else 0) | (if rtr then 0x4000_0000 else 0)
  }

  /** A received object read bit by bit; the remote flag only of classic frames, which end at eight bytes. */
  predicate ReadsAs(o: HwObj, f: Skb) {
    var code := (o.flags & 0xF) as int;
    && IdReads(f.canId, o.id, o.flags & 0x10 != 0, !f.isFd && o.flags & 0x20 != 0)
    && (f.isFd <==> o.flags & 0x80 != 0)
    && f.flags == (if f.isFd && o.flags & 0x100 != 0 then 0x02 else 0)
                | (if f.isFd && o.flags & 0x40 != 0 then 0x01 else 0)
    && f.data <= o.data
    && |f.data| == if code <= 8 then code else if !f.isFd then 8
                   else if code <= 12 then 4 * (code - 6) else 16 * (code - 11)
  }

  lemma IdLayout(canId: bv32)
    ensures IdLaidOut(canId, EncodeId(canId))
  {
  }

  lemma LowFlagsLayout(ide: bool, rtr: bool, fd: bool, esi: bool, brs: bool, seqNo: bv32, dlc: bv32)
    ensures var w := FlagsWord(ide, rtr, fd, esi, brs, seqNo, dlc);
      && w & 0xF == dlc & 0xF
      && (w & 0x10 != 0 <==> ide) && (w & 0x20 != 0 <==> rtr)
      && (w & 0x40 != 0 <==> fd && brs) && (w & 0x80 != 0 <==> fd) && (w & 0x100 != 0 <==> fd && esi)
  {
  }

  lemma SeqFieldIs(w: bv32)
    ensures SeqField(w) == w >> 9
  {
  }

  lemma FlagsLayout(f: Skb, seqNo: bv32)
    requires |f.data| <= 64
    ensures FlagsLaidOut(f, seqNo, EncodeFlags(f, seqNo))
  {
    hide FlagsWord, Len2Dlc, SeqField;
    var ide, rtr := Has(f.canId, CAN_EFF_FLAG), Has(f.canId, CAN_RTR_FLAG);
    var dlc := Len2Dlc(|f.data|);
    LowFlagsLayout(ide, rtr, f.isFd, HasEsi(f), HasBrs(f), seqNo, dlc);
    SequenceReadBack(ide, rtr, f.isFd, HasEsi(f), HasBrs(f), seqNo, dlc);
    SeqFieldIs(EncodeFlags(f, seqNo));
    LowNibble(dlc);
  }

  // ---- decoding ----

  function SkbFlags(esi: bool, brs: bool): bv8 { (if esi then CANFD_ESI else 0) | (if brs then CANFD_BRS else 0) }

  function Decode(o: HwObj): Skb
    requires |o.data| == 64
  {
    var canId := DecodeId(o.id, o.flags);
    if Has(o.flags, OBJ_FLAGS_FDF) then
      Skb(canId, true, SkbFlags(Has(o.flags, OBJ_FLAGS_ESI), Has(o.flags, OBJ_FLAGS_BRS)),
          o.data[..Dlc2Len(Nibble(o.flags))])
    else
      Skb(SetIf(canId, Has(o.flags, OBJ_FLAGS_RTR), CAN_RTR_FLAG), false, 0, o.data[..ClassicDlc2Len(Nibble(o.flags))])
  }

  lemma ExtRead(id: bv32)
    ensures IdReads(UnpackExt(id), id, true, false)
  {
  }

  lemma RemoteRead(canId: bv32, id: bv32, ext: bool)
    requires IdReads(canId, id, ext, false)
    ensures IdReads(Or(canId, CAN_RTR_FLAG), id, ext, true)
  {
  }

  lemma StdRead(id: bv32)
    ensures IdReads(id & 0x7FF, id, false, false)
  {
  }

  lemma FlagsRead(esi: bool, brs: bool)
    ensures SkbFlags(esi, brs) == (if esi then 0x02 else 0) | (if brs then 0x01 else 0)
    ensures SkbFlags(false, false) == 0
  {
  }

  lemma FlagsTests(w: bv32)
    ensures Has(w, OBJ_FLAGS_IDE) == (w & 0x10 != 0) && Has(w, OBJ_FLAGS_RTR) == (w & 0x20 != 0)
    ensures Has(w, OBJ_FLAGS_BRS) == (w & 0x40 != 0) && Has(w, OBJ_FLAGS_FDF) == (w & 0x80 != 0)
    ensures Has(w, OBJ_FLAGS_ESI) == (w & 0x100 != 0)
  {
  }

  lemma IdReadLayout(id: bv32, ide: bool, rtr: bool)
    ensures IdReads(SetIf(if ide then UnpackExt(id) else id & 0x7FF, rtr, CAN_RTR_FLAG), id, ide, rtr)
  {
    ExtRead(id);
    StdRead(id);
    hide UnpackExt, Or, IdReads;
    RemoteRead(if ide then UnpackExt(id) else id & 0x7FF, id, ide);
  }

  lemma LengthRead(w: bv32)
    ensures var code := (w & 0xF) as int;
      && Dlc2Len(Nibble(w)) == (if code <= 8 then code else if code <= 12 then 4 * (code - 6) else 16 * (code - 11))
      && ClassicDlc2Len(Nibble(w)) == (if code <= 8 then code else 8)
  {
    DlcSizes(Nibble(w));
    LowNibble(Nibble(w));
    hide Dlc2Len, ClassicDlc2Len;
  }

  lemma ReadLayout(o: HwObj)
    requires |o.data| == 64
    ensures ReadsAs(o, Decode(o))
  {
    IdReadLayout(o.id, Has(o.flags, OBJ_FLAGS_IDE), Has(o.flags, OBJ_FLAGS_RTR) && !Has(o.flags, OBJ_FLAGS_FDF));
    FlagsRead(Has(o.flags, OBJ_FLAGS_ESI), Has(o.flags, OBJ_FLAGS_BRS));
    LengthRead(o.flags);
    FlagsTests(o.flags);
    hide UnpackExt, Dlc2Len, ClassicDlc2Len, SkbFlags, Or, IdReads, Has, Nibble;
  }

  /** The decoder as written: id, FD flags or remote flag, and as many bytes as the length code says. */
  method HwRxObjToSkb(o: HwObj) returns (f: Skb)
    requires |o.data| == 64
    ensures f == Decode(o)
    ensures ReadsAs(o, f)
  {
    hide Has, UnpackExt, Dlc2Len, ClassicDlc2Len, Nibble, Or, ReadsAs;
    ReadLayout(o);
    var canId, flags: bv8, len := o.id & 0x7FF, 0, 0;
    if Has(o.flags, OBJ_FLAGS_IDE) {
      canId := UnpackExt(o.id);
    }
    var isFd := Has(o.flags, OBJ_FLAGS_FDF);
    if isFd {
      if Has(o.flags, OBJ_FLAGS_ESI) {
        flags := flags | CANFD_ESI;
      }
      if Has(o.flags, OBJ_FLAGS_BRS) {
        flags := flags | CANFD_BRS;
      }
      len := Dlc2Len(Nibble(o.flags));
    } else {
      if Has(o.flags, OBJ_FLAGS_RTR) {
        canId := Or(canId, CAN_RTR_FLAG);
      }
      len := ClassicDlc2Len(Nibble(o.flags));
    }
    f := Skb(canId, isFd, flags, o.data[..len]);
  }

  // ---- the round trip ----

  /** The id a frame keeps: 29 or 11 bits; the error flag never, the remote flag only on classic frames. */
  function KeptId(canId: bv32, isFd: bool): bv32 {
    SetIf(KeptNumber(canId), !isFd && Has(canId, CAN_RTR_FLAG), CAN_RTR_FLAG)
  }

  function KeptNumber(canId: bv32): bv32 {
    if Has(canId, CAN_EFF_FLAG) then canId & 0x9FFF_FFFF else canId & 0x7FF
  }

  function RoundDown4(x: nat): nat { x - x % 4 }

  function RoundUp4(x: nat): nat { RoundDown4(x + 3) }

  function Zeros(n: nat): seq<bv8> { seq(n, i => 0) }

  function DlcSize(len: nat): (size: nat)
    requires len <= 64
    ensures len <= size <= RoundUp4(size) < size + 4 && RoundUp4(size) % 4 == 0 && RoundUp4(size) <= 64
    ensures Dlc2Len(Nibble(Len2Dlc(len))) == size
  {
    LowNibble(Len2Dlc(len));
    Dlc2Len(Len2Dlc(len))
  }

  /** The payload padded with zeros up to the DLC size. */
  function Padded(data: seq<bv8>): (r: seq<bv8>)
    requires |data| <= 64
    ensures |r| == DlcSize(|data|)
  {
    data + Zeros(DlcSize(|data|) - |data|)
  }

  function KeptFlags(f: Skb): bv8 { if f.isFd then FdFlags(f.flags) else 0 }

  function FdFlags(flags: bv8): bv8 { flags & (CANFD_ESI | CANFD_BRS) }

  lemma ExtReadBack(canId: bv32)
    requires Has(canId, CAN_EFF_FLAG)
    ensures UnpackExt(PackExt(canId)) == canId & 0x9FFF_FFFF
  {
  }

  lemma StdReadBack(canId: bv32)
    ensures (canId & 0x7FF) & 0x7FF == canId & 0x7FF
  {
  }

  lemma IdReadBack(canId: bv32, w: bv32)
    requires Has(w, OBJ_FLAGS_IDE) <==> Has(canId, CAN_EFF_FLAG)
    ensures DecodeId(EncodeId(canId), w) == KeptNumber(canId)
  {
    hide Has, PackExt, UnpackExt;
    if Has(canId, CAN_EFF_FLAG) {
      ExtReadBack(canId);
    } else {
      StdReadBack(canId);
    }
  }

  lemma FlagBits(f: Skb)
    ensures SkbFlags(HasEsi(f), HasBrs(f)) == FdFlags(f.flags)
  {
  }

  /** What a receiver finds in its RAM: the sender's id, the low flag bits, the transmitted bytes. */
  predicate Arrived(f: Skb, seqNo: bv32, o: HwObj)
    requires |f.data| <= 64
  {
    && o.id == EncodeId(f.canId) && Low9(o.flags) == Low9(EncodeFlags(f, seqNo))
    && |o.data| == 64 && Padded(f.data) <= o.data
  }

  /**
   Encoding a frame and decoding the object gives the frame back, with its payload padded
   with zeros to the smallest DLC size.
   */
  lemma RoundTrip(f: Skb, seqNo: bv32, o: HwObj)
    requires ValidSkb(f) && Arrived(f, seqNo, o)
    ensures Decode(o) == Skb(KeptId(f.canId, f.isFd), f.isFd, KeptFlags(f), Padded(f.data))
  {
    hide Padded, EncodeId, DecodeId, Len2Dlc, Dlc2Len, ClassicDlc2Len, FlagsWord, Has, HasEsi, HasBrs,
         SkbFlags, KeptNumber, Nibble, Low9, FdFlags, DlcSize, Or;
    var dlc := Len2Dlc(|f.data|);
    FlagsReadBack(Has(f.canId, CAN_EFF_FLAG), Has(f.canId, CAN_RTR_FLAG), f.isFd, HasEsi(f), HasBrs(f), seqNo, dlc,
                  o.flags);
    IdReadBack(f.canId, o.flags);
    FlagBits(f);
    var size := DlcSize(|f.data|);
    assert o.data[..size] == Padded(f.data);
    if !f.isFd {
      ClassicLen(|f.data|);
      ClassicNibble(|f.data|);
    }
  }

  lemma ClassicNibble(len: nat)
    requires len <= 8
    ensures ClassicDlc2Len(Nibble(Len2Dlc(len))) == DlcSize(len)
  {
  }

  /** The id comes back unchanged exactly when the frame says nothing the object has no room for. */
  lemma IdSurvivesIff(canId: bv32, isFd: bool)
    ensures KeptId(canId, isFd) == canId <==>
      && !Has(canId, 0x2000_0000)
      && (!Has(canId, CAN_EFF_FLAG) ==> !Has(canId, 0x1FFF_F800))
      && !(isFd && Has(canId, CAN_RTR_FLAG))
  {
    hide Has, Or;
    if Has(canId, CAN_EFF_FLAG) {
      ExtSurvives(canId);
    } else {
      StdSurvives(canId);
    }
  }

  lemma ExtSurvives(canId: bv32)
    requires Has(canId, CAN_EFF_FLAG)
    ensures canId & 0x9FFF_FFFF == canId <==> !Has(canId, 0x2000_0000) && !Has(canId, CAN_RTR_FLAG)
    ensures Or(canId & 0x9FFF_FFFF, CAN_RTR_FLAG) == canId <==> !Has(canId, 0x2000_0000) && Has(canId, CAN_RTR_FLAG)
  {
  }

  lemma StdSurvives(canId: bv32)
    requires !Has(canId, CAN_EFF_FLAG)
    ensures canId & 0x7FF == canId
       <==> !Has(canId, 0x2000_0000) && !Has(canId, 0x1FFF_F800) && !Has(canId, CAN_RTR_FLAG)
    ensures Or(canId & 0x7FF, CAN_RTR_FLAG) == canId
       <==> !Has(canId, 0x2000_0000) && !Has(canId, 0x1FFF_F800) && Has(canId, CAN_RTR_FLAG)
  {
  }

  /** The payload comes back unpadded exactly when its length is one of the sixteen DLC sizes. */
  lemma PayloadSurvivesIff(data: seq<bv8>)
    requires |data| <= 64
    ensures Padded(data) == data <==> exists d: bv32 :: d <= 15 && Dlc2Len(d) == |data|
  {
    hide Dlc2Len, Len2Dlc;
    var c := Len2Dlc(|data|);
    Len2DlcIsSmallest(|data|, c);
    LowNibble(c);
    if d: bv32 :| d <= 15 && Dlc2Len(d) == |data| {
      Len2DlcIsSmallest(|data|, d);
      DlcMonotone(c, d);
      assert Zeros(0) == [];
    } else {
      assert c <= 15;
      assert Dlc2Len(c) != |data|;
    }
  }

  lemma DlcMonotone(c: bv32, d: bv32)
    requires c <= d <= 15
    ensures Dlc2Len(c) <= Dlc2Len(d)
  {
    LowNibble(c);
    LowNibble(d);
  }

  // ---- the encoder as written ----

  // ---- bytes on the SPI bus ----

  function Le32(w: bv32): (b: seq<bv8>)
    ensures |b| == 4
  {
    [(w & 0xFF) as bv8, ((w >> 8) & 0xFF) as bv8, ((w >> 16) & 0xFF) as bv8, ((w >> 24) & 0xFF) as bv8]
  }

  function Be16(w: bv16): (b: seq<bv8>)
    ensures |b| == 2
  {
    [(w >> 8) as bv8, (w & 0xFF) as bv8]
  }

  /** The words come out of their bytes again. */
  lemma BytesReadBack(w: bv32, v: bv16)
    ensures var b := Le32(w);
            (b[0] as bv32) | ((b[1] as bv32) << 8) | ((b[2] as bv32) << 16) | ((b[3] as bv32) << 24) == w
    ensures RegmapCrc.BigEndian16(Be16(v)[0], Be16(v)[1]) == v
  {
  }

  class TxObjBuf {
    const cmd: bv16    // the write command with the object's address
    var id: bv32
    var flags: bv32
    const data: array<bv8>

    predicate Valid()
      reads this
    {
      data.Length == 64
    }

    constructor (cmd: bv16)
      ensures Valid() && fresh(data) && this.cmd == cmd
    {
      this.cmd, id, flags := cmd, 0, 0;
      data := new bv8[64];
    }

    /**
     Fills the object, whatever the last frame left in it, and returns the bytes to be written over
     SPI: command, object up to the padded payload, and with the CRC quirk the length in words and
     a CRC that the chip's check accepts.
     */
    method FromSkb(f: Skb, seqNo: bv32, quirkCrcTx: bool) returns (load: seq<bv8>)
      requires Valid() && ValidSkb(f)
      modifies this`id, this`flags, data
      ensures Valid() && id == EncodeId(f.canId) && flags == EncodeFlags(f, seqNo)
      ensures LaidOut(f, seqNo, id, flags)
      ensures var end := RoundUp4(DlcSize(|f.data|));
              && Filled(data[..], f.data) && data[end..] == old(data[end..])
              && var obj := Le32(id) + Le32(flags) + data[..end];
                 if quirkCrcTx then
                   && |load| == 8 + end + 5
                   && load[..|load| - 2] == Be16(cmd) + [((8 + end) / 4) as bv8] + obj
                   && RegmapCrc.CrcMatches([], load)
                 else load == Be16(cmd) + obj
    {
      hide EncodeId, EncodeFlags, Filled, DlcSize, RoundUp4, IdLaidOut, FlagsLaidOut;
      PutWords(f, seqNo);
      IdLayout(f.canId);
      FlagsLayout(f, seqNo);
      var end := FillData(f);
      ghost var filled := data[..];
      var len := 4 + 4 + end;
      var obj := Le32(id) + Le32(flags) + data[..end];
      if quirkCrcTx {
        load := AppendCrc(Be16(cmd) + [(len / 4) as bv8] + obj);
      } else {
        load := Be16(cmd) + obj;
      }
      assert data[..] == filled;
    }

    static method AppendCrc(message: seq<bv8>) returns (load: seq<bv8>)
      ensures |load| == |message| + 2 && load[..|message|] == message && RegmapCrc.CrcMatches([], load)
    {
      var buf := new bv8[|message|](i requires 0 <= i < |message| => message[i]);
      assert buf[..|message|] == message;
      var crc := Crc16.Compute(buf, |message|);
      load := message + Be16(crc);
      AppendedCrcMatches(message, crc);
    }

    /** The id and flags words. */
    method PutWords(f: Skb, seqNo: bv32)
      requires Valid() && |f.data| <= 64
      modifies this`id, this`flags
      ensures id == EncodeId(f.canId) && flags == EncodeFlags(f, seqNo)
    {
      hide PackExt, Has, FlagsWord, HasEsi, HasBrs, Len2Dlc;
      var start: bv32 := 0;
      if Has(f.canId, CAN_EFF_FLAG) {
        id := PackExt(f.canId);
        start := OBJ_FLAGS_IDE;
      } else {
        id := f.canId & 0x7FF;
      }
      flags := BuildFlags(start, Has(f.canId, CAN_EFF_FLAG), Has(f.canId, CAN_RTR_FLAG), f.isFd, HasEsi(f), HasBrs(f),
                          seqNo, Len2Dlc(|f.data|));
    }

    static method BuildFlags(start: bv32, ghost ide: bool, rtr: bool, fd: bool, esi: bool, brs: bool,
                             seqNo: bv32, dlc: bv32)
      returns (w: bv32)
      requires start == if ide then OBJ_FLAGS_IDE else 0
      ensures w == FlagsWord(ide, rtr, fd, esi, brs, seqNo, dlc)
    {
      hide Or, SeqAndDlc;
      w := Or(start, SeqAndDlc(seqNo, dlc));
      if rtr {
        w := Or(w, OBJ_FLAGS_RTR);
      }
      if fd {
        if esi {
          w := Or(w, OBJ_FLAGS_ESI);
        }
        w := Or(w, OBJ_FLAGS_FDF);
        if brs {
          w := Or(w, OBJ_FLAGS_BRS);
        }
      }
    }

    /** The tail is cleared from the last whole word of the payload on, then the payload is copied. */
    method FillData(f: Skb) returns (end: nat)
      requires Valid() && |f.data| <= 64
      modifies data
      ensures end == RoundUp4(DlcSize(|f.data|))
      ensures Filled(data[..], f.data) && data[end..] == old(data[end..])
    {
      hide Len2Dlc, Dlc2Len;
      var offset := RoundDown4(|f.data|);
      end := RoundUp4(DlcSize(|f.data|));
      if offset < end {
        forall k | offset <= k < end {
          data[k] := 0;
        }
      }
      forall k | 0 <= k < |f.data| {
        data[k] := f.data[k];
      }
    }
  }

  lemma AppendedCrcMatches(message: seq<bv8>, crc: bv16)
    requires crc == Crc16.CrcOf(message)
    ensures RegmapCrc.CrcMatches([], message + Be16(crc))
  {
    BytesReadBack(0, crc);
    hide Be16, RegmapCrc.BigEndian16, Crc16.CrcOf;
    var load := message + Be16(crc);
    assert [] + load[..|message|] == message;
  }

  /** The object's buffer holds the payload and zeros up to the next whole word of the DLC size. */
  ghost predicate Filled(buf: seq<bv8>, payload: seq<bv8>)
    requires |payload| <= 64
  {
    var end := RoundUp4(DlcSize(|payload|));
    |buf| == 64 && forall k | 0 <= k < end :: buf[k] == if k < |payload| then payload[k] else 0
  }

  /** What the chip sends from a filled object is the padded payload, which is what Arrived describes. */
  lemma FilledObjectSendsPadded(payload: seq<bv8>, buf: seq<bv8>)
    requires |payload| <= 64 && Filled(buf, payload)
    ensures Padded(payload) <= buf
  {
    hide Len2Dlc, Dlc2Len;
    assert DlcSize(|payload|) <= RoundUp4(DlcSize(|payload|));
  }
}

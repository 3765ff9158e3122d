/**
 Transmit path of the MCP251xFD driver as a transition system: the xmit path, the
 interrupt thread working through the transmit event FIFO (TEF), the SPI queue and
 the chip take their steps in any order. Counters are the driver's 32-bit ones; the
 chip's own counts and the logs (accepted, sent, reported) are there to state what
 every interleaving keeps.
 */
module TefProtocol {
  import opened RingIndex
  import opened Frames

  /** A transmit object: the frame and the sequence number written into its flags word. */
  datatype TxObj = TxObj(frame: Frame, seqNo: nat)

  /** The sequence number field of the MCP2518FD has 23 bits; only 7 of them are compared. */
  const SEQ_MCP2518FD := 0x80_0000

  /** Where mcp251xfd_start_xmit stands. */
  datatype XmitPc =
    | XIdle
    | XStopped(frame: Frame)   // found the ring full and stopped the queue; about to look again
    | XReady(frame: Frame)     // found room
    | XBumped(frame: Frame)    // object filled, head advanced
    | XFull(frame: Frame)      // found the ring now full; about to stop the queue
    | XCounted(frame: Frame)   // about to store the echo
    | XEchoed                  // about to queue the SPI message

  /**
   One pass of mcp251xfd_handle_tefif: the chip's completion count when FIFOSTA was read,
   the TEF tail the pass began with, the sequence numbers of the objects read, and the
   completion count at the moment each of them was read.
   */
  datatype Ctx = Ctx(c0: nat, base: nat, buf: seq<nat>, seen: seq<nat>)

  datatype IrqPc =
    | Idle
    | GotTail(chipTxTail: nat, c0: nat)
    | Reading(p: Ctx)
    | Looping(p: Ctx, i: nat)
    | Reported(p: Ctx, i: nat)    // echo handed out, before UINC
    | Released(p: Ctx, i: nat)    // after UINC, before tef.tail++
    | TefBumped(p: Ctx, i: nat)   // before tx.tail++
    | Ending(p: Ctx)
    | Waking                      // saw free objects, about to wake the queue
    | Failed

  datatype State = State(
    n: nat,                       // objects in the TX and TEF rings
    seqMod: nat,                  // sequence numbers the chip's TEF objects can hold: 128 or more
    // driver
    txHead: nat, txTail: nat, tefHead: nat, tefTail: nat,
    obj: seq<TxObj>,
    echo: seq<Option<Frame>>,
    stopped: bool,
    queued: nat,                  // SPI messages handed to spi_async
    xpc: XmitPc,
    ipc: IrqPc,
    // chip
    loaded: nat, completed: nat, released: nat,
    chipTx: seq<TxObj>,
    tefRam: seq<nat>,
    overflow: bool,
    // logs
    accepted: seq<Frame>,
    sent: seq<Frame>,
    reported: seq<Option<Frame>>)

  datatype Action =
    | XmitCall(frame: Frame) | XmitRecheck | XmitFill | XmitCount | XmitStop | XmitEcho | XmitQueue
    | SpiLoad | Complete
    | ReadFifoSta | UpdateHead | ReadObj | ReadDone | CheckSeq | Uinc | BumpTef | BumpTx | Finish | Wake | SpiFail

  function Init(n: nat, seqMod: nat): State {
    var nothing := TxObj(Frame(0, []), 0);
    State(n, seqMod, 0, 0, 0, 0, seq(n, i => nothing), seq(n, i => None), false, 0, XIdle, Idle,
          0, 0, 0, seq(n, i => nothing), seq(n, i => 0), false, [], [], [])
  }

  /** The RAM slot the k-th object of a pass is read from: one linear read, then one from slot 0. */
  function SlotRead(n: nat, head: nat, tail: nat, k: nat): int
    requires n > 0
  {
    var l := LinearLen(n, head, tail);
    if k < l then tail % n + k else k - l
  }

  /** The comparison of mcp251xfd_handle_tefif_one: seven bits of the sequence number. */
  predicate SeqMatches(teqSeq: nat, tefTail: nat) { teqSeq % 128 == tefTail % 128 }

  predicate InPass(pc: IrqPc) { !pc.Idle? && !pc.Failed? }

  predicate Shaped(s: State) {
    RingSize(s.n) && |s.obj| == |s.echo| == |s.chipTx| == |s.tefRam| == s.n && s.seqMod > 0 && s.seqMod % 128 == 0
  }

  // ---- the xmit path ----

  function XmitCallStep(s: State, f: Frame): State {
    if Free(s.n, s.txHead, s.txTail) > 0 then s.(xpc := XReady(f))
    else s.(stopped := true, xpc := XStopped(f))
  }

  function XmitRecheckStep(s: State): State
    requires s.xpc.XStopped?
  {
    if Free(s.n, s.txHead, s.txTail) == 0 then s.(xpc := XIdle)
    else s.(stopped := false, xpc := XReady(s.xpc.frame))
  }

  function XmitFillStep(s: State): State
    requires Shaped(s) && s.xpc.XReady?
  {
    s.(obj := s.obj[s.txHead % s.n := TxObj(s.xpc.frame, s.txHead % SEQ_MCP2518FD)],
       txHead := (s.txHead + 1) % U32,
       accepted := s.accepted + [s.xpc.frame],
       xpc := XBumped(s.xpc.frame))
  }

  function XmitCountStep(s: State): State
    requires s.xpc.XBumped?
  {
    s.(xpc := if Sub32(s.txHead, s.txTail) >= s.n then XFull(s.xpc.frame) else XCounted(s.xpc.frame))
  }

  function XmitStopStep(s: State): State
    requires s.xpc.XFull?
  {
    s.(stopped := true, xpc := XCounted(s.xpc.frame))
  }

  function XmitEchoStep(s: State): State
    requires Shaped(s) && s.xpc.XCounted?
  {
    s.(echo := s.echo[Sub32(s.txHead, 1) % s.n := Some(s.xpc.frame)], xpc := XEchoed)
  }

  function XmitQueueStep(s: State): State { s.(queued := s.queued + 1, xpc := XIdle) }

  // ---- the chip ----

  function SpiLoadStep(s: State): State
    requires Shaped(s)
  {
    s.(chipTx := s.chipTx[s.loaded % s.n := s.obj[s.loaded % s.n]], loaded := s.loaded + 1)
  }

  /** A frame goes out; its event is stored unless the TEF is full. */
  function CompleteStep(s: State): State
    requires Shaped(s)
  {
    var o := s.chipTx[s.completed % s.n];
    var room := s.completed < s.released + s.n;
    s.(sent := s.sent + [o.frame],
       completed := s.completed + 1,
       tefRam := if room then s.tefRam[s.completed % s.n := o.seqNo % s.seqMod] else s.tefRam,
       overflow := s.overflow || !room)
  }

  // ---- the interrupt thread ----

  function ReadFifoStaStep(s: State): State
    requires s.n > 0
  {
    s.(ipc := GotTail(s.completed % s.n, s.completed))
  }

  function UpdateHeadStep(s: State): State
    requires s.n > 0 && s.ipc.GotTail?
  {
    s.(tefHead := RebuiltTefHead(s.n, s.tefHead, s.ipc.chipTxTail, s.txHead),
       ipc := Reading(Ctx(s.ipc.c0, s.tefTail, [], [])))
  }

  function ReadObjStep(s: State): State
    requires s.n > 0 && s.ipc.Reading? && 0 <= SlotRead(s.n, s.tefHead, s.tefTail, |s.ipc.p.buf|) < |s.tefRam|
  {
    var p := s.ipc.p;
    s.(ipc := Reading(p.(buf := p.buf + [s.tefRam[SlotRead(s.n, s.tefHead, s.tefTail, |p.buf|)]],
                         seen := p.seen + [s.completed])))
  }

  function CheckSeqStep(s: State): State
    requires Shaped(s) && s.ipc.Looping? && s.ipc.i < |s.ipc.p.buf|
  {
    if SeqMatches(s.ipc.p.buf[s.ipc.i], s.tefTail) then
      s.(reported := s.reported + [s.echo[s.tefTail % s.n]],
         echo := s.echo[s.tefTail % s.n := None],
         ipc := Reported(s.ipc.p, s.ipc.i))
    else if s.overflow then s.(ipc := Failed)
    else s.(ipc := Ending(s.ipc.p))
  }

  function FinishStep(s: State): State
    requires s.ipc.Looping? || s.ipc.Ending?
  {
    if s.ipc.Looping? then s.(ipc := Ending(s.ipc.p))
    else s.(ipc := if Free(s.n, s.txHead, s.txTail) != 0 then Waking else Idle)
  }

  predicate Enabled(s: State, a: Action) {
    && Shaped(s)
    && match a
       case XmitCall(_) => s.xpc.XIdle? && !s.stopped
       case XmitRecheck => s.xpc.XStopped?
       case XmitFill => s.xpc.XReady?
       case XmitCount => s.xpc.XBumped?
       case XmitStop => s.xpc.XFull?
       case XmitEcho => s.xpc.XCounted?
       case XmitQueue => s.xpc.XEchoed?
       case SpiLoad => s.loaded < s.queued
       case Complete => s.completed < s.loaded
       case ReadFifoSta => s.ipc.Idle? && s.released < s.completed   // the TEF-not-empty interrupt
       case UpdateHead => s.ipc.GotTail?
       case ReadObj =>
         && s.ipc.Reading? && |s.ipc.p.buf| < Len(s.tefHead, s.tefTail)
         && 0 <= SlotRead(s.n, s.tefHead, s.tefTail, |s.ipc.p.buf|) < s.n
       case ReadDone => s.ipc.Reading? && |s.ipc.p.buf| == Len(s.tefHead, s.tefTail)
       case CheckSeq => s.ipc.Looping? && s.ipc.i < |s.ipc.p.buf|
       case Uinc => s.ipc.Reported?
       case BumpTef => s.ipc.Released?
       case BumpTx => s.ipc.TefBumped?
       case Finish => s.ipc.Ending? || (s.ipc.Looping? && s.ipc.i == |s.ipc.p.buf|)
       case Wake => s.ipc.Waking?
       case SpiFail => InPass(s.ipc) && !s.ipc.Waking?
  }

  function Next(s: State, a: Action): State
    requires Enabled(s, a)
  {
    match a
    case XmitCall(f) => XmitCallStep(s, f)
    case XmitRecheck => XmitRecheckStep(s)
    case XmitFill => XmitFillStep(s)
    case XmitCount => XmitCountStep(s)
    case XmitStop => XmitStopStep(s)
    case XmitEcho => XmitEchoStep(s)
    case XmitQueue => XmitQueueStep(s)
    case SpiLoad => SpiLoadStep(s)
    case Complete => CompleteStep(s)
    case ReadFifoSta => ReadFifoStaStep(s)
    case UpdateHead => UpdateHeadStep(s)
    case ReadObj => ReadObjStep(s)
    case ReadDone => s.(ipc := Looping(s.ipc.p, 0))
    case CheckSeq => CheckSeqStep(s)
    case Uinc => s.(released := s.released + 1, ipc := Released(s.ipc.p, s.ipc.i))
    case BumpTef => s.(tefTail := (s.tefTail + 1) % U32, ipc := TefBumped(s.ipc.p, s.ipc.i))
    case BumpTx => s.(txTail := (s.txTail + 1) % U32, ipc := Looping(s.ipc.p, s.ipc.i + 1))
    case Finish => FinishStep(s)
    case Wake => s.(stopped := false, ipc := Idle)
    case SpiFail => s.(ipc := Failed)
  }

  // ---- the invariant ----

  predicate Uncounted(pc: XmitPc) { pc.XBumped? || pc.XFull? || pc.XCounted? }

  /** The driver's four counters, the chip's three counts and the SPI queue, in order. */
  predicate Counters(s: State) {
    && s.txHead == |s.accepted| && s.txHead + s.n < U32
    && s.txTail <= s.tefTail <= s.tefHead <= s.txHead <= s.txTail + s.n
    && s.tefTail <= s.released <= |s.reported| <= s.completed <= s.loaded <= s.queued
    && |s.reported| <= s.tefTail + 1
    && s.txHead == s.queued + One(Uncounted(s.xpc) || s.xpc.XEchoed?)
    && (!s.ipc.Failed? ==>
          && |s.reported| == s.tefTail + One(s.ipc.Reported? || s.ipc.Released?)
          && s.released == s.tefTail + One(s.ipc.Released?)
          && s.tefTail == s.txTail + One(s.ipc.TefBumped?))
    && (s.xpc.XReady? ==> s.txHead < s.txTail + s.n)
    && !s.overflow
  }

  /** The slots of the counters lo .. hi - 1 hold the objects of those frames. */
  ghost predicate Hold(n: nat, slots: seq<TxObj>, accepted: seq<Frame>, lo: nat, hi: nat) {
    && 0 < n == |slots| && hi <= |accepted|
    && forall k: nat | lo <= k < hi :: slots[k % n] == TxObj(accepted[k], k % SEQ_MCP2518FD)
  }

  ghost predicate EchoesHold(n: nat, echo: seq<Option<Frame>>, accepted: seq<Frame>, lo: nat, hi: int) {
    && 0 < n == |echo| && hi <= |accepted|
    && forall k: nat | lo <= k < hi :: echo[k % n] == Some(accepted[k])
  }

  /** Report k is the echo of frame k. */
  ghost predicate OwnEchoes(reported: seq<Option<Frame>>, accepted: seq<Frame>) {
    |reported| <= |accepted| && forall k | 0 <= k < |reported| :: reported[k] == Some(accepted[k])
  }

  /** The chip put the frames on the bus in the order the driver accepted them. */
  ghost predicate BusOrder(sent: seq<Frame>, accepted: seq<Frame>) { sent <= accepted }

  /** What the slot of counter k holds: frame k, the frame one lap before it, or the initial zero. */
  function SlotNumber(n: nat, completed: nat, k: nat): nat {
    if k < completed then k else if k >= n then k - n else 0
  }

  function SlotSeq(n: nat, seqMod: nat, completed: nat, k: nat): nat
    requires seqMod > 0
  {
    SlotNumber(n, completed, k) % SEQ_MCP2518FD % seqMod
  }

  ghost predicate TefHolds(n: nat, seqMod: nat, ram: seq<nat>, completed: nat) {
    && 0 < n == |ram| && seqMod > 0
    && forall k: nat | completed <= k + n && k < completed + n :: ram[k % n] == SlotSeq(n, seqMod, completed, k)
  }

  /** What a pass has read: each object as it was when the chip had completed seen[j] frames. */
  ghost predicate ReadSoFar(n: nat, seqMod: nat, p: Ctx, completed: nat) {
    && |p.buf| == |p.seen| && p.base < p.c0 <= completed && seqMod > 0
    && (forall j | 0 <= j < |p.seen| :: p.c0 <= p.seen[j] <= completed)
    && (forall j | 0 <= j < |p.buf| :: p.buf[j] == SlotSeq(n, seqMod, p.seen[j], p.base + j))
  }

  /** The first i objects of the pass had been completed when they were read. */
  ghost predicate CompleteWhenRead(p: Ctx, i: int) {
    i <= |p.seen| && forall j | 0 <= j < i :: p.base + j < p.seen[j]
  }

  /** Inside the loop: done objects are handled, their frames were complete when read. */
  ghost predicate InLoop(s: State, p: Ctx, i: int, done: int) {
    && ReadSoFar(s.n, s.seqMod, p, s.completed) && p.base + |p.buf| == s.tefHead && p.c0 <= s.tefHead <= p.base + s.n
    && s.tefTail == p.base + i && CompleteWhenRead(p, done)
  }

  ghost predicate Pass(s: State) {
    match s.ipc
    case GotTail(chip, c0) => s.n > 0 && chip == c0 % s.n && s.tefTail < c0 <= s.completed
    case Reading(p) =>
      && p.base == s.tefTail && p.base + |p.buf| <= s.tefHead && p.c0 <= s.tefHead <= p.base + s.n
      && ReadSoFar(s.n, s.seqMod, p, s.completed)
    case Looping(p, i) => InLoop(s, p, i, i)
    case Reported(p, i) => InLoop(s, p, i, i + 1)
    case Released(p, i) => InLoop(s, p, i, i + 1)
    case TefBumped(p, i) => InLoop(s, p, i + 1, i + 1)
    case Ending(p) => PassResult(s, p)
    case _ => true
  }

  /**
   What a pass that ends without an SPI error has achieved: everything completed when it
   read FIFOSTA is reported, and nothing that was not complete when its own TEF object was read.
   */
  ghost predicate PassResult(s: State, p: Ctx) {
    && p.base < p.c0 <= s.tefTail == |s.reported|
    && CompleteWhenRead(p, s.tefTail - p.base)
    && forall j | 0 <= j < |p.seen| :: p.c0 <= p.seen[j] <= s.completed
  }

  /** A stopped queue has someone left to wake it. */
  predicate WakeupPending(s: State) {
    s.stopped ==> s.xpc.XStopped? || s.txTail < s.txHead || InPass(s.ipc) || s.ipc.Failed?
  }

  ghost predicate Memory(s: State) {
    && Hold(s.n, s.obj, s.accepted, s.txTail, s.txHead)
    && Hold(s.n, s.chipTx, s.accepted, s.completed, s.loaded)
    && EchoesHold(s.n, s.echo, s.accepted, |s.reported|, |s.accepted| - One(Uncounted(s.xpc)))
    && TefHolds(s.n, s.seqMod, s.tefRam, s.completed)
  }

  ghost predicate Inv(s: State) {
    && Shaped(s) && Counters(s) && Memory(s) && Pass(s) && WakeupPending(s)
    && OwnEchoes(s.reported, s.accepted)
    && BusOrder(s.sent, s.accepted) && |s.sent| == s.completed
    && (Uncounted(s.xpc) ==> s.txHead > 0 && s.xpc.frame == s.accepted[s.txHead - 1])
  }

  // ---- facts about single slots ----

  /** The two linear reads of a pass fetch exactly the slots of the counters tail .. head - 1. */
  lemma LinearReadsFetchTheRing(n: nat, head: nat, tail: nat, k: nat)
    requires RingSize(n) && tail <= head <= tail + n && head < U32 && k < head - tail
    ensures Len(head, tail) == head - tail
    ensures SlotRead(n, head, tail, k) == (tail + k) % n
  {
    SmallMod(head);
    SmallMod(tail);
    LenWrapped(head, tail);
    ModAdd(tail, k, n);
  }

  /**
   A TEF slot read for counter k passes the 7-bit comparison exactly when frame k had been
   completed by then. It needs that some frame of the pass was complete: before that, a
   zeroed slot 0 would be taken for frame 0.
   */
  lemma SeqMatchesIffComplete(n: nat, seqMod: nat, completed: nat, k: nat)
    requires RingSize(n) && seqMod > 0 && seqMod % 128 == 0
    requires 0 < completed <= k + n && k < completed + n
    ensures SeqMatches(SlotSeq(n, seqMod, completed, k), k) <==> k < completed
  {
    var number := SlotNumber(n, completed, k);
    ModOfMod(number, SEQ_MCP2518FD);
    ModOfMod(number % SEQ_MCP2518FD, seqMod);
    if k >= completed && k >= n {
      IndexDistinct(k - n, k, 128);
    }
  }

  lemma ModOfMod(x: nat, m: nat)
    requires m > 0 && m % 128 == 0
    ensures (x % m) % 128 == x % 128
  {
    var a, b := x / m, m / 128;
    assert x == a * m + x % m && m == b * 128;
    MulAssoc(a, b, 128);
    var r := x % m;
    MulDistributes(a * b, r / 128, 128);
    DivModUnique(x, 128, a * b + r / 128, r % 128);
  }
}

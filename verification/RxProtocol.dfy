/**
 Receive path of the MCP251xFD driver as a transition system: the chip stores frames in
 its RX FIFO while the interrupt thread rebuilds the ring head, reads the ring in linear
 batches, delivers the frames and releases them. The ring counters are 32-bit and wrap;
 buffers can be allocated and SPI accesses succeed. `stored` and `delivered` log the frames
 the chip accepted and the frames handed to the network stack.
 */
module RxProtocol {
  import opened RingIndex
  import opened Frames

  /** r0 is the chip's receive count when FIFOSTA was read, batches the linear reads begun so far. */
  datatype RxPc =
    | RxIdle
    | GotHead(chipRxHead: nat, r0: nat)
    | Draining(r0: nat, batches: nat)
    | ReadingBatch(r0: nat, batches: nat, base: nat, len: nat, buf: seq<Frame>)
    | Handling(r0: nat, batches: nat, base: nat, buf: seq<Frame>, i: nat)
    | Queued(r0: nat, batches: nat, base: nat, buf: seq<Frame>, i: nat)   // delivered, before tail++
    | Bumped(r0: nat, batches: nat, base: nat, buf: seq<Frame>, i: nat)   // before UINC
    | PassDone(r0: nat, batches: nat)

  datatype RxState = RxState(
    n: nat,
    head: nat, tail: nat,
    pc: RxPc,
    received: nat, released: nat,
    ram: seq<Frame>,
    stored: seq<Frame>, delivered: seq<Frame>)

  datatype RxAction =
    | Receive(frame: Frame)
    | ReadFifoSta | UpdateHead | StartBatch | ReadObj | BatchRead | Deliver | BumpTail | Uinc | NextBatch | Leave

  predicate RxShaped(s: RxState) { RingSize(s.n) && |s.ram| == s.n }

  function RxInit(n: nat): RxState {
    RxState(n, 0, 0, RxIdle, 0, 0, seq(n, i => Frame(0, [])), [], [])
  }

  /** A frame arriving at a full FIFO is lost in the chip; it never counts as stored. */
  function ReceiveStep(s: RxState, f: Frame): RxState
    requires RxShaped(s)
  {
    if s.received < s.released + s.n then
      s.(ram := s.ram[s.received % s.n := f], received := s.received + 1, stored := s.stored + [f])
    else s
  }

  function UpdateHeadStep(s: RxState): RxState
    requires RxShaped(s) && s.pc.GotHead?
  {
    s.(head := RebuiltHead(s.n, s.head, s.pc.chipRxHead), pc := Draining(s.pc.r0, 0))
  }

  function StartBatchStep(s: RxState): RxState
    requires RxShaped(s) && s.pc.Draining?
  {
    var len := LinearLen(s.n, s.head, s.tail);
    if len <= 0 then s.(pc := PassDone(s.pc.r0, s.pc.batches))
    else s.(pc := ReadingBatch(s.pc.r0, s.pc.batches + 1, |s.delivered|, len, []))
  }

  function ReadObjStep(s: RxState): RxState
    requires RxShaped(s) && s.pc.ReadingBatch? && s.tail % s.n + |s.pc.buf| < s.n
  {
    s.(pc := ReadingBatch(s.pc.r0, s.pc.batches, s.pc.base, s.pc.len, s.pc.buf + [s.ram[s.tail % s.n + |s.pc.buf|]]))
  }

  function DeliverStep(s: RxState): RxState
    requires s.pc.Handling? && s.pc.i < |s.pc.buf|
  {
    s.(delivered := s.delivered + [s.pc.buf[s.pc.i]], pc := Queued(s.pc.r0, s.pc.batches, s.pc.base, s.pc.buf, s.pc.i))
  }

  predicate RxEnabled(s: RxState, a: RxAction) {
    && RxShaped(s)
    && match a
       case Receive(_) => true
       case ReadFifoSta => s.pc.RxIdle? && s.released < s.received   // the RX-FIFO-not-empty interrupt
       case UpdateHead => s.pc.GotHead?
       case StartBatch => s.pc.Draining?
       case ReadObj => s.pc.ReadingBatch? && |s.pc.buf| < s.pc.len && s.tail % s.n + |s.pc.buf| < s.n
       case BatchRead => s.pc.ReadingBatch? && |s.pc.buf| == s.pc.len
       case Deliver => s.pc.Handling? && s.pc.i < |s.pc.buf|
       case BumpTail => s.pc.Queued?
       case Uinc => s.pc.Bumped?
       case NextBatch => s.pc.Handling? && s.pc.i == |s.pc.buf|
       case Leave => s.pc.PassDone?
  }

  function RxNext(s: RxState, a: RxAction): RxState
    requires RxEnabled(s, a)
  {
    match a
    case Receive(f) => ReceiveStep(s, f)
    case ReadFifoSta => s.(pc := GotHead(s.received % s.n, s.received))
    case UpdateHead => UpdateHeadStep(s)
    case StartBatch => StartBatchStep(s)
    case ReadObj => ReadObjStep(s)
    case BatchRead => s.(pc := Handling(s.pc.r0, s.pc.batches, s.pc.base, s.pc.buf, 0))
    case Deliver => DeliverStep(s)
    case BumpTail => s.(tail := (s.tail + 1) % U32, pc := Bumped(s.pc.r0, s.pc.batches, s.pc.base, s.pc.buf, s.pc.i))
    case Uinc => s.(released := s.released + 1, pc := Handling(s.pc.r0, s.pc.batches, s.pc.base, s.pc.buf, s.pc.i + 1))
    case NextBatch => s.(pc := Draining(s.pc.r0, s.pc.batches))
    case Leave => s.(pc := RxIdle)
  }

  // ---- the invariant ----

  predicate RxCounts(s: RxState) {
    && s.received == |s.stored| && |s.delivered| <= s.received <= s.released + s.n
    && |s.delivered| == s.released + One(s.pc.Queued? || s.pc.Bumped?)
    && s.tail == (|s.delivered| - One(s.pc.Queued?)) % U32
  }

  ghost predicate Stores(n: nat, ram: seq<Frame>, stored: seq<Frame>, lo: nat) {
    0 < n == |ram| && forall k: nat | lo <= k < |stored| :: ram[k % n] == stored[k]
  }

  /** The objects of the batch are the stored frames base, base + 1, ... */
  ghost predicate BatchIs(stored: seq<Frame>, base: nat, buf: seq<Frame>) {
    base + |buf| <= |stored| && buf == stored[base..base + |buf|]
  }

  /** Between batches: the ring is drained, or only the part after the wrap is left. */
  predicate Between(s: RxState, r0: nat, batches: nat, at: nat) {
    && at <= r0 <= s.received
    && (batches == 0 ==> at < r0 <= at + s.n)
    && (batches == 1 ==> at == r0 || (s.n > 0 && at % s.n == 0 && r0 <= at + s.n))
    && (batches == 2 ==> at == r0)
    && batches <= 2
  }

  ghost predicate RxPass(s: RxState) {
    match s.pc
    case RxIdle => s.head == s.tail
    case GotHead(chip, r0) =>
      && s.n > 0 && chip == r0 % s.n && s.head == s.tail
      && |s.delivered| < r0 <= s.received && r0 <= |s.delivered| + s.n
    case Draining(r0, batches) => s.head == r0 % U32 && Between(s, r0, batches, |s.delivered|)
    case ReadingBatch(r0, batches, base, len, buf) =>
      && s.head == r0 % U32 && base == |s.delivered| && len > 0 && |buf| <= len && s.n > 0 && base % s.n + len <= s.n
      && Between(s, r0, batches, base + len) && BatchIs(s.stored, base, buf)
    case Handling(r0, batches, base, buf, i) =>
      && s.head == r0 % U32 && i <= |buf| && |s.delivered| == base + i
      && Between(s, r0, batches, base + |buf|) && BatchIs(s.stored, base, buf)
    case Queued(r0, batches, base, buf, i) =>
      && s.head == r0 % U32 && i < |buf| && |s.delivered| == base + i + 1
      && Between(s, r0, batches, base + |buf|) && BatchIs(s.stored, base, buf)
    case Bumped(r0, batches, base, buf, i) =>
      && s.head == r0 % U32 && i < |buf| && |s.delivered| == base + i + 1
      && Between(s, r0, batches, base + |buf|) && BatchIs(s.stored, base, buf)
    case PassDone(r0, batches) => s.head == s.tail && |s.delivered| == r0 && 1 <= batches <= 2
  }

  ghost predicate RxInv(s: RxState) {
    && RxShaped(s) && RxCounts(s) && Stores(s.n, s.ram, s.stored, s.released)
    && s.delivered <= s.stored && RxPass(s)
  }

  // ---- steps ----

  lemma StorePut(n: nat, ram: seq<Frame>, stored: seq<Frame>, lo: nat, f: Frame)
    requires Stores(n, ram, stored, lo) && |stored| < lo + n
    ensures Stores(n, ram[|stored| % n := f], stored + [f], lo)
  {
    forall k: nat | lo <= k < |stored|
      ensures k % n != |stored| % n
    {
      IndexDistinct(k, |stored|, n);
    }
  }

  lemma BatchStays(stored: seq<Frame>, base: nat, buf: seq<Frame>, f: Frame)
    requires BatchIs(stored, base, buf)
    ensures BatchIs(stored + [f], base, buf)
  {
  }

  lemma ReceiveKeeps(s: RxState, f: Frame)
    requires RxInv(s)
    ensures RxInv(ReceiveStep(s, f))
  {
    hide Stores, BatchIs, RingSize;
    if s.received < s.released + s.n {
      StorePut(s.n, s.ram, s.stored, s.released, f);
      if s.pc.ReadingBatch? || s.pc.Handling? || s.pc.Queued? || s.pc.Bumped? {
        BatchStays(s.stored, s.pc.base, s.pc.buf, f);
      }
    }
  }

  lemma RxUpdateHeadKeeps(s: RxState)
    requires RxInv(s) && s.pc.GotHead?
    ensures RxInv(UpdateHeadStep(s))
  {
    hide Stores, RebuiltHead;
    RebuiltHeadIs(s.n, |s.delivered|, s.pc.r0);
  }

  lemma LinearLenWrapped(n: nat, head: nat, tail: nat)
    requires RingSize(n) && tail <= head <= tail + n
    ensures LinearLen(n, head % U32, tail % U32) == Min(head - tail, n - tail % n)
  {
    LenWrapped(head, tail);
    IndexOfWrapped(tail, n);
  }

  /** A batch that does not reach the head ends at the wrap. */
  lemma BatchEnd(n: nat, at: nat, left: nat)
    requires RingSize(n) && left <= n
    ensures n - at % n < left ==> (at + (n - at % n)) % n == 0
  {
    ModAdd(at, n - at % n, n);
  }

  lemma StartBatchKeeps(s: RxState)
    requires RxInv(s) && s.pc.Draining?
    ensures RxInv(StartBatchStep(s))
  {
    hide Stores, LinearLen, RingSize;
    var at, r0 := |s.delivered|, s.pc.r0;
    LinearLenWrapped(s.n, r0, at);
    BatchEnd(s.n, at, r0 - at);
    assert s.stored[at..at] == [];
  }

  lemma BatchGrows(n: nat, ram: seq<Frame>, stored: seq<Frame>, lo: nat, base: nat, buf: seq<Frame>)
    requires Stores(n, ram, stored, lo) && BatchIs(stored, base, buf) && lo <= base
    requires base + |buf| < |stored| && base % n + |buf| < n
    ensures BatchIs(stored, base, buf + [ram[base % n + |buf|]])
  {
    ModAdd(base, |buf|, n);
    assert ram[(base + |buf|) % n] == stored[base + |buf|];
  }

  lemma RxReadObjKeeps(s: RxState)
    requires RxInv(s) && RxEnabled(s, ReadObj)
    ensures RxInv(ReadObjStep(s))
  {
    hide RingSize, Stores, BatchIs;
    IndexOfWrapped(|s.delivered|, s.n);
    BatchGrows(s.n, s.ram, s.stored, s.released, s.pc.base, s.pc.buf);
  }

  lemma DeliverKeeps(s: RxState)
    requires RxInv(s) && RxEnabled(s, Deliver)
    ensures RxInv(DeliverStep(s))
  {
    hide Stores, RingSize;
    var p := s.pc;
    assert p.buf[p.i] == s.stored[p.base + p.i];
  }

  lemma ReleaseLess(n: nat, ram: seq<Frame>, stored: seq<Frame>, lo: nat)
    requires Stores(n, ram, stored, lo)
    ensures Stores(n, ram, stored, lo + 1)
  {
  }

  lemma RxFlowKeeps(s: RxState, a: RxAction)
    requires RxInv(s) && RxEnabled(s, a)
    requires a.ReadFifoSta? || a.BatchRead? || a.BumpTail? || a.Uinc? || a.NextBatch? || a.Leave?
    ensures RxInv(RxNext(s, a))
  {
    hide Stores, BatchIs, RingSize;
    ReleaseLess(s.n, s.ram, s.stored, s.released);
    if s.pc.Queued? {
      WrappedMove(|s.delivered| - 1, 1);
    }
  }

  lemma RxStepKeeps(s: RxState, a: RxAction)
    requires RxInv(s) && RxEnabled(s, a)
    ensures RxInv(RxNext(s, a))
  {
    hide RxInv;
    match a
    case Receive(f) => ReceiveKeeps(s, f);
    case UpdateHead => RxUpdateHeadKeeps(s);
    case StartBatch => StartBatchKeeps(s);
    case ReadObj => RxReadObjKeeps(s);
    case Deliver => DeliverKeeps(s);
    case _ => RxFlowKeeps(s, a);
  }

  // ---- whole runs ----

  ghost predicate RxRun(n: nat, states: seq<RxState>, acts: seq<RxAction>) {
    && RingSize(n) && |states| == |acts| + 1 && states[0] == RxInit(n)
    && forall i | 0 <= i < |acts| :: RxEnabled(states[i], acts[i]) && states[i + 1] == RxNext(states[i], acts[i])
  }

  lemma RxInitKeeps(n: nat)
    requires RingSize(n)
    ensures RxInv(RxInit(n))
  {
    assert n > 0;
    hide RingSize;
    var s := RxInit(n);
    assert Stores(n, s.ram, [], 0);
    hide Stores;
  }

  lemma {:induction false} RxRunKeepsInv(n: nat, states: seq<RxState>, acts: seq<RxAction>, i: nat)
    requires RxRun(n, states, acts) && i < |states|
    ensures RxInv(states[i])
  {
    hide RxInv, RxEnabled, RxNext, RxInit;
    if i == 0 {
      RxInitKeeps(n);
    } else {
      RxRunKeepsInv(n, states, acts, i - 1);
      assert states[i - 1 + 1] == RxNext(states[i - 1], acts[i - 1]);
      RxStepKeeps(states[i - 1], acts[i - 1]);
    }
  }

  /**
   Frames are delivered exactly once and in arrival order, however often the counters wrap; the
   head a pass works towards is the receive count it began with.
   */
  lemma ReceiveExactlyOnce(n: nat, states: seq<RxState>, acts: seq<RxAction>, i: nat)
    requires RxRun(n, states, acts) && i < |states|
    ensures var s := states[i];
            && s.delivered <= s.stored
            && (s.pc.PassDone? ==> |s.delivered| == s.pc.r0 && s.tail == s.head && 1 <= s.pc.batches <= 2)
            && (s.pc.Draining? ==> s.head == s.pc.r0 % U32)
  {
    RxRunKeepsInv(n, states, acts, i);
  }

  predicate HasPass(pc: RxPc) { !pc.RxIdle? }

  function BatchesOf(pc: RxPc): nat
    requires HasPass(pc)
  {
    if pc.GotHead? then 0 else pc.batches
  }

  /** The linear reads finished by the steps from .. to - 1. */
  function ReadsBetween(acts: seq<RxAction>, from: nat, to: nat): nat
    requires from <= to <= |acts|
  {
    if from == to then 0 else ReadsBetween(acts, from, to - 1) + One(acts[to - 1].BatchRead?)
  }

  lemma PassCarries(s: RxState, a: RxAction)
    requires RxEnabled(s, a) && !a.ReadFifoSta? && HasPass(RxNext(s, a).pc)
    ensures HasPass(s.pc) && RxNext(s, a).pc.r0 == s.pc.r0
    ensures BatchesOf(RxNext(s, a).pc) - One(RxNext(s, a).pc.ReadingBatch?)
         == BatchesOf(s.pc) - One(s.pc.ReadingBatch?) + One(a.BatchRead?)
  {
    hide RxShaped, LinearLen, RebuiltHead;
  }

  /** What the pass remembers is what happened in the run since step r read FIFOSTA. */
  lemma {:induction false} RxRemembers(n: nat, states: seq<RxState>, acts: seq<RxAction>, r: nat, e: nat)
    requires RxRun(n, states, acts) && r < e < |states| && acts[r].ReadFifoSta?
    requires forall j | r < j < e :: !acts[j].ReadFifoSta?
    requires HasPass(states[e].pc)
    ensures states[e].pc.r0 == states[r].received
    ensures BatchesOf(states[e].pc) == ReadsBetween(acts, r, e) + One(states[e].pc.ReadingBatch?)
    decreases e
  {
    var s, a := states[e - 1], acts[e - 1];
    assert RxEnabled(s, a) && states[e - 1 + 1] == RxNext(s, a);
    if e - 1 == r {
      assert ReadsBetween(acts, r, r) == 0;
    } else {
      hide RxEnabled, RxNext;
      PassCarries(s, a);
      RxRemembers(n, states, acts, r, e - 1);
    }
  }

  /**
   A pass that read FIFOSTA at step r ends, at step e, with everything delivered that the chip
   had stored at step r and nothing else, after one or two linear reads, and with tail equal to head.
   */
  lemma PassDelivers(n: nat, states: seq<RxState>, acts: seq<RxAction>, r: nat, e: nat)
    requires RxRun(n, states, acts) && r < e < |states| && acts[r].ReadFifoSta?
    requires forall j | r < j < e :: !acts[j].ReadFifoSta?
    requires states[e].pc.PassDone?
    ensures states[r].received <= |states[e].stored|
    ensures states[e].delivered == states[e].stored[..states[r].received]
    ensures states[e].tail == states[e].head == states[r].received % U32
    ensures 1 <= ReadsBetween(acts, r, e) <= 2
  {
    RxRemembers(n, states, acts, r, e);
    RxRunKeepsInv(n, states, acts, e);
  }
}

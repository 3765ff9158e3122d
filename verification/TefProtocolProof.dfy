/**
 Every step keeps the invariant of the transmit path; the theorems about whole runs.
 */
module TefProtocolProof {
  import opened RingIndex
  import opened Frames
  import opened TefProtocol

  lemma InitKeeps(n: nat, seqMod: nat)
    requires RingSize(n) && seqMod > 0 && seqMod % 128 == 0
    ensures Inv(Init(n, seqMod))
  {
    ZeroRam(n, seqMod, Init(n, seqMod).tefRam);
  }

  lemma ZeroRam(n: nat, seqMod: nat, ram: seq<nat>)
    requires 0 < n == |ram| && seqMod > 0 && forall i | 0 <= i < n :: ram[i] == 0
    ensures TefHolds(n, seqMod, ram, 0)
  {
  }

  // ---- slots ----

  lemma HoldPut(n: nat, slots: seq<TxObj>, accepted: seq<Frame>, lo: nat, hi: nat, o: TxObj)
    requires Hold(n, slots, accepted, lo, hi) && hi < |accepted| && hi < lo + n
    requires o == TxObj(accepted[hi], hi % SEQ_MCP2518FD)
    ensures Hold(n, slots[hi % n := o], accepted, lo, hi + 1)
  {
    forall k: nat | lo <= k < hi
      ensures k % n != hi % n
    {
      IndexDistinct(k, hi, n);
    }
  }

  lemma HoldMore(n: nat, slots: seq<TxObj>, accepted: seq<Frame>, lo: nat, hi: nat, f: Frame)
    requires Hold(n, slots, accepted, lo, hi)
    ensures Hold(n, slots, accepted + [f], lo, hi)
  {
  }

  lemma HoldLess(n: nat, slots: seq<TxObj>, accepted: seq<Frame>, lo: nat, hi: nat)
    requires Hold(n, slots, accepted, lo, hi)
    ensures Hold(n, slots, accepted, lo + 1, hi)
  {
  }

  lemma EchoMore(n: nat, echo: seq<Option<Frame>>, accepted: seq<Frame>, lo: nat, hi: int, f: Frame)
    requires EchoesHold(n, echo, accepted, lo, hi)
    ensures EchoesHold(n, echo, accepted + [f], lo, hi)
  {
  }

  lemma EchoPut(n: nat, echo: seq<Option<Frame>>, accepted: seq<Frame>, lo: nat, hi: nat)
    requires EchoesHold(n, echo, accepted, lo, hi) && hi < |accepted| && hi < lo + n
    ensures EchoesHold(n, echo[hi % n := Some(accepted[hi])], accepted, lo, hi + 1)
  {
    forall k: nat | lo <= k < hi
      ensures k % n != hi % n
    {
      IndexDistinct(k, hi, n);
    }
  }

  lemma EchoTake(n: nat, echo: seq<Option<Frame>>, accepted: seq<Frame>, lo: nat, hi: nat)
    requires EchoesHold(n, echo, accepted, lo, hi) && lo < hi <= lo + n
    ensures echo[lo % n] == Some(accepted[lo])
    ensures EchoesHold(n, echo[lo % n := None], accepted, lo + 1, hi)
  {
    forall k: nat | lo < k < hi
      ensures k % n != lo % n
    {
      IndexDistinct(lo, k, n);
    }
  }

  lemma TefPut(n: nat, seqMod: nat, ram: seq<nat>, c: nat)
    requires TefHolds(n, seqMod, ram, c)
    ensures TefHolds(n, seqMod, ram[c % n := c % SEQ_MCP2518FD % seqMod], c + 1)
  {
    var after := ram[c % n := c % SEQ_MCP2518FD % seqMod];
    forall k: nat | c + 1 <= k + n && k < c + 1 + n
      ensures after[k % n] == SlotSeq(n, seqMod, c + 1, k)
    {
      if k == c + n {
        SameIndex(c, n);
      } else if k < c {
        IndexDistinct(k, c, n);
      } else if k > c {
        IndexDistinct(c, k, n);
      }
    }
  }

  // ---- the xmit path ----

  lemma FreeIs(s: State)
    requires Shaped(s) && Counters(s)
    ensures Free(s.n, s.txHead, s.txTail) == s.n - (s.txHead - s.txTail)
    ensures Sub32(s.txHead, s.txTail) == s.txHead - s.txTail
  {
    SmallMod(s.txHead);
    SmallMod(s.txTail);
    Sub32Wrapped(s.txHead, s.txTail);
  }

  lemma XmitCallKeeps(s: State, f: Frame)
    requires Inv(s) && s.xpc.XIdle?
    ensures Inv(XmitCallStep(s, f))
  {
    hide RingSize, Hold, EchoesHold, TefHolds, ReadSoFar, CompleteWhenRead, OwnEchoes;
    FreeIs(s);
  }

  lemma XmitRecheckKeeps(s: State)
    requires Inv(s) && s.xpc.XStopped?
    ensures Inv(XmitRecheckStep(s))
  {
    hide Hold, EchoesHold, TefHolds, ReadSoFar, CompleteWhenRead, OwnEchoes;
    FreeIs(s);
  }

  lemma XmitFillKeeps(s: State)
    requires Inv(s) && s.xpc.XReady? && |s.accepted| + 1 + s.n < U32
    ensures Inv(XmitFillStep(s))
  {
    hide RingSize, Hold, EchoesHold, TefHolds, ReadSoFar, CompleteWhenRead;
    var f := s.xpc.frame;
    SmallMod(s.txHead + 1);
    HoldMore(s.n, s.obj, s.accepted, s.txTail, s.txHead, f);
    HoldPut(s.n, s.obj, s.accepted + [f], s.txTail, s.txHead, TxObj(f, s.txHead % SEQ_MCP2518FD));
    HoldMore(s.n, s.chipTx, s.accepted, s.completed, s.loaded, f);
    EchoMore(s.n, s.echo, s.accepted, |s.reported|, |s.accepted|, f);
  }

  lemma XmitCountKeeps(s: State)
    requires Inv(s) && s.xpc.XBumped?
    ensures Inv(XmitCountStep(s))
  {
    hide RingSize, Hold, EchoesHold, TefHolds, ReadSoFar, CompleteWhenRead, OwnEchoes;
  }

  lemma XmitStopKeeps(s: State)
    requires Inv(s) && s.xpc.XFull?
    ensures Inv(XmitStopStep(s))
  {
    hide RingSize, Hold, EchoesHold, TefHolds, ReadSoFar, CompleteWhenRead, OwnEchoes;
  }

  lemma XmitEchoKeeps(s: State)
    requires Inv(s) && s.xpc.XCounted?
    ensures Inv(XmitEchoStep(s))
  {
    hide RingSize, Hold, EchoesHold, TefHolds, ReadSoFar, CompleteWhenRead, OwnEchoes;
    SmallMod(s.txHead - 1);
    EchoPut(s.n, s.echo, s.accepted, |s.reported|, s.txHead - 1);
  }

  lemma XmitQueueKeeps(s: State)
    requires Inv(s) && s.xpc.XEchoed?
    ensures Inv(XmitQueueStep(s))
  {
    hide RingSize, Hold, EchoesHold, TefHolds, ReadSoFar, CompleteWhenRead, OwnEchoes;
  }

  // ---- the chip ----

  lemma NextToLoad(s: State)
    requires Shaped(s) && Counters(s) && Memory(s) && s.loaded < s.queued
    ensures s.obj[s.loaded % s.n] == TxObj(s.accepted[s.loaded], s.loaded % SEQ_MCP2518FD)
  {
  }

  lemma SpiLoadKeeps(s: State)
    requires Inv(s) && s.loaded < s.queued
    ensures Inv(SpiLoadStep(s))
  {
    hide RingSize, Hold, EchoesHold, TefHolds, OwnEchoes, CompleteWhenRead, ReadSoFar;
    NextToLoad(s);
    HoldPut(s.n, s.chipTx, s.accepted, s.completed, s.loaded, s.obj[s.loaded % s.n]);
  }

  /** What a pass has read stays true when the chip moves on. */
  lemma PassOutlives(s: State, t: State)
    requires Pass(s) && Counters(s) && t.ipc == s.ipc && t.n == s.n && t.seqMod == s.seqMod
    requires t.tefHead == s.tefHead && t.tefTail == s.tefTail && t.reported == s.reported
    requires t.completed == s.completed + 1
    ensures Pass(t)
  {
    hide CompleteWhenRead, ReadSoFar, Counters, SlotSeq;
    if s.ipc.Reading? || s.ipc.Looping? || s.ipc.Reported? || s.ipc.Released? || s.ipc.TefBumped? {
      ReadShape(s.n, s.seqMod, s.ipc.p, s.completed);
    }
  }

  lemma CompleteKeeps(s: State)
    requires Inv(s) && s.completed < s.loaded
    ensures Inv(CompleteStep(s))
  {
    hide RingSize, Hold, EchoesHold, TefHolds, OwnEchoes, CompleteWhenRead, ReadSoFar, Pass, SlotSeq;
    NextToSend(s);
    PassOutlives(s, CompleteStep(s));
    TefPut(s.n, s.seqMod, s.tefRam, s.completed);
    HoldLess(s.n, s.chipTx, s.accepted, s.completed, s.loaded);
  }

  lemma NextToSend(s: State)
    requires Shaped(s) && Counters(s) && Memory(s) && s.completed < s.loaded
    requires BusOrder(s.sent, s.accepted) && |s.sent| == s.completed
    ensures s.chipTx[s.completed % s.n] == TxObj(s.accepted[s.completed], s.completed % SEQ_MCP2518FD)
    ensures s.sent + [s.accepted[s.completed]] <= s.accepted
  {
  }

  // ---- the interrupt thread ----

  lemma ReadFifoStaKeeps(s: State)
    requires Inv(s) && s.ipc.Idle? && s.released < s.completed
    ensures Inv(ReadFifoStaStep(s))
  {
    hide RingSize, Hold, EchoesHold, TefHolds, ReadSoFar, CompleteWhenRead, OwnEchoes;
  }

  lemma UpdateHeadKeeps(s: State)
    requires Inv(s) && s.ipc.GotTail?
    ensures Inv(UpdateHeadStep(s))
  {
    hide RingSize, Hold, EchoesHold, TefHolds, OwnEchoes, CompleteWhenRead, RebuiltTefHead;
    RebuiltTefHeadIs(s.n, s.tefTail, s.tefHead, s.ipc.c0, s.txHead);
  }

  lemma LenOfPass(s: State)
    requires Shaped(s) && Counters(s)
    ensures Len(s.tefHead, s.tefTail) == s.tefHead - s.tefTail
  {
    SmallMod(s.tefHead);
    SmallMod(s.tefTail);
    LenWrapped(s.tefHead, s.tefTail);
  }

  lemma ReadOne(n: nat, seqMod: nat, p: Ctx, completed: nat, ram: seq<nat>)
    requires ReadSoFar(n, seqMod, p, completed) && TefHolds(n, seqMod, ram, completed)
    requires completed <= p.base + |p.buf| + n && p.base + |p.buf| < completed + n
    ensures var more := p.(buf := p.buf + [ram[(p.base + |p.buf|) % n]], seen := p.seen + [completed]);
            ReadSoFar(n, seqMod, more, completed)
  {
    hide SlotSeq;
    assert ram[(p.base + |p.buf|) % n] == SlotSeq(n, seqMod, completed, p.base + |p.buf|);
  }

  lemma ReadShape(n: nat, seqMod: nat, p: Ctx, completed: nat)
    requires ReadSoFar(n, seqMod, p, completed)
    ensures |p.buf| == |p.seen| && p.base < p.c0 <= completed
    ensures ReadSoFar(n, seqMod, p, completed + 1)
  {
  }

  lemma ReadObjKeeps(s: State)
    requires Inv(s) && Enabled(s, ReadObj)
    ensures Inv(ReadObjStep(s))
  {
    hide RingSize, Hold, EchoesHold, TefHolds, OwnEchoes, CompleteWhenRead, ReadSoFar, SlotRead, Len;
    LenOfPass(s);
    var p := s.ipc.p;
    ReadShape(s.n, s.seqMod, p, s.completed);
    LinearReadsFetchTheRing(s.n, s.tefHead, s.tefTail, |p.buf|);
    ReadOne(s.n, s.seqMod, p, s.completed, s.tefRam);
  }

  lemma ReadDoneKeeps(s: State)
    requires Inv(s) && Enabled(s, ReadDone)
    ensures Inv(Next(s, ReadDone))
  {
    hide RingSize, Hold, EchoesHold, TefHolds, OwnEchoes;
    LenOfPass(s);
  }

  /** The comparison passes exactly for objects that were complete when they were read. */
  lemma CheckDecides(s: State)
    requires Inv(s) && s.ipc.Looping? && s.ipc.i < |s.ipc.p.buf|
    ensures |s.ipc.p.seen| == |s.ipc.p.buf| && s.ipc.p.c0 <= s.ipc.p.seen[s.ipc.i] <= s.completed
    ensures SeqMatches(s.ipc.p.buf[s.ipc.i], s.tefTail) <==> s.tefTail < s.ipc.p.seen[s.ipc.i]
  {
    SeqMatchesIffComplete(s.n, s.seqMod, s.ipc.p.seen[s.ipc.i], s.tefTail);
  }

  lemma OneMoreComplete(p: Ctx, i: nat)
    requires CompleteWhenRead(p, i) && i < |p.seen| && p.base + i < p.seen[i]
    ensures CompleteWhenRead(p, i + 1)
  {
  }

  lemma OwnEchoesMore(reported: seq<Option<Frame>>, accepted: seq<Frame>)
    requires OwnEchoes(reported, accepted) && |reported| < |accepted|
    ensures OwnEchoes(reported + [Some(accepted[|reported|])], accepted)
  {
  }

  lemma MatchKeeps(s: State)
    requires Inv(s) && s.ipc.Looping? && s.ipc.i < |s.ipc.p.buf| && SeqMatches(s.ipc.p.buf[s.ipc.i], s.tefTail)
    ensures Inv(CheckSeqStep(s))
  {
    hide RingSize, Hold, EchoesHold, TefHolds, ReadSoFar, OwnEchoes, CompleteWhenRead, SeqMatches;
    CheckDecides(s);
    OneMoreComplete(s.ipc.p, s.ipc.i);
    OwnEchoesMore(s.reported, s.accepted);
    EchoTake(s.n, s.echo, s.accepted, s.tefTail, |s.accepted| - One(Uncounted(s.xpc)));
  }

  /** At the end of the loop, or at the first object that was read too early, the pass has done its work. */
  lemma LoopEnds(s: State)
    requires Inv(s) && s.ipc.Looping?
    requires s.ipc.i == |s.ipc.p.buf| || (s.ipc.i < |s.ipc.p.buf| && !SeqMatches(s.ipc.p.buf[s.ipc.i], s.tefTail))
    ensures PassResult(s, s.ipc.p)
  {
    hide Memory, WakeupPending, SeqMatches;
    if s.ipc.i < |s.ipc.p.buf| {
      CheckDecides(s);
    }
  }

  lemma EndKeeps(s: State)
    requires Inv(s) && s.ipc.Looping? && PassResult(s, s.ipc.p)
    ensures Inv(s.(ipc := Ending(s.ipc.p)))
  {
    hide RingSize, Hold, EchoesHold, TefHolds, OwnEchoes, ReadSoFar, CompleteWhenRead;
  }

  lemma CheckSeqKeeps(s: State)
    requires Inv(s) && s.ipc.Looping? && s.ipc.i < |s.ipc.p.buf|
    ensures Inv(CheckSeqStep(s))
  {
    if SeqMatches(s.ipc.p.buf[s.ipc.i], s.tefTail) {
      MatchKeeps(s);
    } else {
      hide Memory, Pass, WakeupPending, SeqMatches;
      LoopEnds(s);
      EndKeeps(s);
    }
  }

  lemma UincKeeps(s: State)
    requires Inv(s) && s.ipc.Reported?
    ensures Inv(s.(released := s.released + 1, ipc := Released(s.ipc.p, s.ipc.i)))
  {
    hide RingSize, Hold, EchoesHold, TefHolds, OwnEchoes, ReadSoFar, CompleteWhenRead;
  }

  lemma BumpTefKeeps(s: State)
    requires Inv(s) && s.ipc.Released?
    ensures Inv(s.(tefTail := (s.tefTail + 1) % U32, ipc := TefBumped(s.ipc.p, s.ipc.i)))
  {
    hide RingSize, Hold, EchoesHold, TefHolds, OwnEchoes;
    SmallMod(s.tefTail + 1);
  }

  lemma BumpTxKeeps(s: State)
    requires Inv(s) && s.ipc.TefBumped?
    ensures Inv(s.(txTail := (s.txTail + 1) % U32, ipc := Looping(s.ipc.p, s.ipc.i + 1)))
  {
    hide RingSize, Hold, EchoesHold, TefHolds, OwnEchoes, ReadSoFar, CompleteWhenRead;
    SmallMod(s.txTail + 1);
    HoldLess(s.n, s.obj, s.accepted, s.txTail, s.txHead);
  }

  lemma FinishKeeps(s: State)
    requires Inv(s) && Enabled(s, Finish)
    ensures Inv(FinishStep(s))
  {
    hide Hold, EchoesHold, TefHolds, OwnEchoes, ReadSoFar, CompleteWhenRead, Free;
    if s.ipc.Looping? {
      LoopEnds(s);
      EndKeeps(s);
    } else {
      FreeIs(s);
    }
  }

  lemma WakeKeeps(s: State)
    requires Inv(s) && s.ipc.Waking?
    ensures Inv(s.(stopped := false, ipc := Idle))
  {
    hide RingSize, Hold, EchoesHold, TefHolds, ReadSoFar, CompleteWhenRead, OwnEchoes;
  }

  lemma SpiFailKeeps(s: State)
    requires Inv(s) && InPass(s.ipc)
    ensures Inv(s.(ipc := Failed))
  {
    hide RingSize, Hold, EchoesHold, TefHolds, ReadSoFar, CompleteWhenRead, OwnEchoes;
  }

  /** Every enabled step keeps the invariant, as long as the 32-bit counters do not wrap. */
  lemma StepKeeps(s: State, a: Action)
    requires Inv(s) && Enabled(s, a)
    requires |Next(s, a).accepted| + s.n < U32
    ensures Inv(Next(s, a))
  {
    hide Inv;
    match a
    case XmitCall(f) => XmitCallKeeps(s, f);
    case XmitRecheck => XmitRecheckKeeps(s);
    case XmitFill => XmitFillKeeps(s);
    case XmitCount => XmitCountKeeps(s);
    case XmitStop => XmitStopKeeps(s);
    case XmitEcho => XmitEchoKeeps(s);
    case XmitQueue => XmitQueueKeeps(s);
    case SpiLoad => SpiLoadKeeps(s);
    case Complete => CompleteKeeps(s);
    case ReadFifoSta => ReadFifoStaKeeps(s);
    case UpdateHead => UpdateHeadKeeps(s);
    case ReadObj => ReadObjKeeps(s);
    case ReadDone => ReadDoneKeeps(s);
    case CheckSeq => CheckSeqKeeps(s);
    case Uinc => UincKeeps(s);
    case BumpTef => BumpTefKeeps(s);
    case BumpTx => BumpTxKeeps(s);
    case Finish => FinishKeeps(s);
    case Wake => WakeKeeps(s);
    case SpiFail => SpiFailKeeps(s);
  }

  // ---- whole runs ----

  /** A run from the freshly started chip, short enough that the 32-bit counters do not wrap. */
  ghost predicate Run(n: nat, seqMod: nat, states: seq<State>, acts: seq<Action>) {
    && RingSize(n) && seqMod > 0 && seqMod % 128 == 0
    && |states| == |acts| + 1 && states[0] == Init(n, seqMod)
    && (forall i | 0 <= i < |acts| :: Enabled(states[i], acts[i]) && states[i + 1] == Next(states[i], acts[i]))
    && (forall i | 0 <= i < |states| :: |states[i].accepted| + n < U32)
  }

  lemma RingFixed(s: State, a: Action)
    requires Enabled(s, a)
    ensures Next(s, a).n == s.n && Next(s, a).seqMod == s.seqMod
  {
  }

  lemma {:induction false} RunKeepsInv(n: nat, seqMod: nat, states: seq<State>, acts: seq<Action>, i: nat)
    requires Run(n, seqMod, states, acts) && i < |states|
    ensures Inv(states[i]) && states[i].n == n && states[i].seqMod == seqMod
  {
    hide Inv, Enabled, Next;
    if i == 0 {
      InitKeeps(n, seqMod);
    } else {
      RunKeepsInv(n, seqMod, states, acts, i - 1);
      assert states[i - 1 + 1] == Next(states[i - 1], acts[i - 1]);
      RingFixed(states[i - 1], acts[i - 1]);
      StepKeeps(states[i - 1], acts[i - 1]);
    }
  }

  /**
   In every interleaving: the rings never run over, the chip sends the frames in the order
   they were accepted, report k is the echo of frame k and comes after frame k was completed,
   and the chip's event FIFO never overflows.
   */
  lemma TransmitSafety(n: nat, seqMod: nat, states: seq<State>, acts: seq<Action>, i: nat)
    requires Run(n, seqMod, states, acts) && i < |states|
    ensures var s := states[i];
            && s.txTail <= s.tefTail <= s.tefHead <= s.txHead <= s.txTail + s.n
            && s.sent <= s.accepted && |s.sent| == s.completed
            && |s.reported| <= s.completed
            && (forall k | 0 <= k < |s.reported| :: s.reported[k] == Some(s.accepted[k]))
            && !s.overflow
            && (s.ipc.Idle? ==> s.txTail == s.tefTail == |s.reported|)
  {
    RunKeepsInv(n, seqMod, states, acts, i);
  }

  /**
   While neither thread is at work, a stopped queue has frames in flight whose completion will
   wake it, and something can always happen: a load, a completion, or the next pass.
   */
  lemma NoLostWakeup(n: nat, seqMod: nat, states: seq<State>, acts: seq<Action>, i: nat)
    requires Run(n, seqMod, states, acts) && i < |states|
    requires states[i].ipc.Idle? && states[i].xpc.XIdle? && states[i].stopped
    ensures |states[i].reported| < |states[i].accepted|
    ensures Enabled(states[i], SpiLoad) || Enabled(states[i], Complete) || Enabled(states[i], ReadFifoSta)
  {
    RunKeepsInv(n, seqMod, states, acts, i);
  }

  /** The tail check of the driver's sanity build never fires: chip and driver agree on the tail. */
  lemma TailsAgree(n: nat, seqMod: nat, states: seq<State>, acts: seq<Action>, i: nat)
    requires Run(n, seqMod, states, acts) && i < |states|
    requires states[i].ipc.GotTail? || states[i].ipc.Reading? || states[i].ipc.Looping?
    ensures states[i].released == states[i].tefTail == states[i].txTail
  {
    RunKeepsInv(n, seqMod, states, acts, i);
  }

  function HasCtx(pc: IrqPc): bool {
    pc.Reading? || pc.Looping? || pc.Reported? || pc.Released? || pc.TefBumped? || pc.Ending?
  }

  /** The step that read object j of the pass that began at step r. */
  ghost predicate ReadAt(states: seq<State>, acts: seq<Action>, r: nat, j: nat, seen: nat, when: nat) {
    && r < when < |acts| && |states| == |acts| + 1 && acts[when].ReadObj?
    && states[when].ipc.Reading? && |states[when].ipc.p.buf| == j && states[when].completed == seen
    && states[when].ipc.p.base == |states[r].reported|
  }

  ghost predicate ReadInRun(states: seq<State>, acts: seq<Action>, r: nat, e: nat, j: nat, seen: nat) {
    exists when: nat :: when < e && ReadAt(states, acts, r, j, seen, when)
  }

  /** What the pass remembers of its past is what happened in the run. */
  ghost predicate Remembers(states: seq<State>, acts: seq<Action>, r: nat, e: nat)
    requires r < |acts| && r < e < |states| == |acts| + 1
  {
    var pc := states[e].ipc;
    && (pc.GotTail? ==> pc.c0 == states[r].completed && states[e].tefTail == |states[r].reported|)
    && (HasCtx(pc) ==>
          && pc.p.c0 == states[r].completed && pc.p.base == |states[r].reported|
          && forall j: nat | j < |pc.p.seen| :: ReadInRun(states, acts, r, e, j, pc.p.seen[j]))
  }

  predicate IrqAction(a: Action) {
    || a.UpdateHead? || a.ReadObj? || a.ReadDone? || a.CheckSeq? || a.Uinc? || a.BumpTef?
    || a.BumpTx? || a.Finish? || a.Wake? || a.SpiFail?
  }

  lemma OthersKeepCtx(s: State, a: Action)
    requires Enabled(s, a) && !IrqAction(a) && !a.ReadFifoSta?
    ensures Next(s, a).ipc == s.ipc && Next(s, a).tefTail == s.tefTail
  {
  }

  /** Within a pass the context is carried along; reading an object adds one entry. */
  lemma NextCtx(s: State, a: Action)
    requires Enabled(s, a) && IrqAction(a)
    ensures var t := Next(s, a);
            && !t.ipc.GotTail?
            && (HasCtx(t.ipc) && !HasCtx(s.ipc) ==>
                  s.ipc.GotTail? && t.ipc.p == Ctx(s.ipc.c0, s.tefTail, [], []))
            && (HasCtx(t.ipc) && HasCtx(s.ipc) ==>
                  && t.ipc.p.c0 == s.ipc.p.c0 && t.ipc.p.base == s.ipc.p.base
                  && (!a.ReadObj? ==> t.ipc.p.seen == s.ipc.p.seen)
                  && (a.ReadObj? ==> s.ipc.Reading? && t.ipc.p.seen == s.ipc.p.seen + [s.completed]))
  {
    hide Shaped, SlotRead, Len, Free, RebuiltTefHead, SeqMatches, RingSize;
  }

  lemma ReadingShape(s: State)
    requires Inv(s) && s.ipc.Reading?
    ensures |s.ipc.p.buf| == |s.ipc.p.seen|
  {
  }

  lemma {:induction false} PassRemembers(n: nat, seqMod: nat, states: seq<State>, acts: seq<Action>, r: nat, e: nat)
    requires Run(n, seqMod, states, acts) && r < e < |states| && acts[r].ReadFifoSta?
    requires forall j | r < j < e :: !acts[j].ReadFifoSta?
    ensures Remembers(states, acts, r, e)
    decreases e
  {
    hide Inv, Enabled, Next;
    var s, a := states[e - 1], acts[e - 1];
    assert states[e] == Next(s, a);
    RunKeepsInv(n, seqMod, states, acts, e - 1);
    if e - 1 == r {
      assert a == ReadFifoSta;
      PassStarts(s);
    } else {
      PassRemembers(n, seqMod, states, acts, r, e - 1);
      if IrqAction(a) {
        NextCtx(s, a);
      } else {
        OthersKeepCtx(s, a);
      }
      if s.ipc.Reading? {
        ReadingShape(s);
      }
      if HasCtx(states[e].ipc) && !HasCtx(s.ipc) {
        assert states[e].ipc.p.c0 == states[r].completed;
      } else if HasCtx(states[e].ipc) {
        var seen := states[e].ipc.p.seen;
        forall j: nat | j < |seen|
          ensures ReadInRun(states, acts, r, e, j, seen[j])
        {
          if j < |s.ipc.p.seen| {
            assert ReadInRun(states, acts, r, e - 1, j, s.ipc.p.seen[j]);
            var when: nat :| when < e - 1 && ReadAt(states, acts, r, j, s.ipc.p.seen[j], when);
            assert ReadAt(states, acts, r, j, seen[j], when);
          } else {
            assert ReadAt(states, acts, r, j, seen[j], e - 1);
          }
        }
      }
    }
  }

  lemma PassStarts(s: State)
    requires Inv(s) && Enabled(s, ReadFifoSta)
    ensures Next(s, ReadFifoSta).txHead == s.txHead
    ensures Next(s, ReadFifoSta).ipc == GotTail(s.completed % s.n, s.completed)
    ensures Next(s, ReadFifoSta).tefTail == s.tefTail == |s.reported|
  {
  }

  /**
   The head the ring update stores: the chip's completion count at the step that read FIFOSTA
   when that lies past the old head, and otherwise everything queued.
   */
  lemma HeadRebuilt(n: nat, seqMod: nat, states: seq<State>, acts: seq<Action>, r: nat, i: nat)
    requires Run(n, seqMod, states, acts) && r < i < |acts| && acts[r].ReadFifoSta? && acts[i].UpdateHead?
    requires forall j | r < j < i :: !acts[j].ReadFifoSta?
    ensures states[i + 1].tefHead
         == if states[r].completed > states[i].tefHead then states[r].completed else states[i].txHead
  {
    hide RebuiltTefHead;
    PassRemembers(n, seqMod, states, acts, r, i);
    RunKeepsInv(n, seqMod, states, acts, i);
    var s := states[i];
    assert Enabled(s, acts[i]) && states[i + 1] == Next(s, acts[i]);
    RebuiltTefHeadIs(n, s.tefTail, s.tefHead, s.ipc.c0, s.txHead);
  }

  predicate XmitAction(a: Action) {
    a.XmitCall? || a.XmitRecheck? || a.XmitFill? || a.XmitCount? || a.XmitStop? || a.XmitEcho? || a.XmitQueue?
  }

  lemma XmitAlone(s: State, a: Action)
    requires Enabled(s, a) && !XmitAction(a)
    ensures Next(s, a).txHead == s.txHead && Next(s, a).n == s.n
    ensures Next(s, a).stopped == (s.stopped && !a.Wake?)
    ensures Next(s, a).ipc.Idle? ==> a.Wake? || a.Finish? || s.ipc.Idle?
  {
    hide Shaped, SlotRead, Len, Free, RebuiltTefHead, SeqMatches, RingSize;
  }

  /** A pass that has reported something new leaves room in the ring and goes on to wake the queue. */
  lemma FinishWakes(s: State, base: nat)
    requires Inv(s) && Enabled(s, Finish) && s.txHead <= base + s.n && (s.ipc.Ending? ==> s.ipc.p.base == base)
    ensures !Next(s, Finish).ipc.Idle?
  {
    hide Hold, EchoesHold, TefHolds, OwnEchoes, ReadSoFar, CompleteWhenRead, Free;
    FreeIs(s);
  }

  /** From a pass's start on, without xmit steps: when the interrupt thread is idle again, the queue runs. */
  lemma {:induction false} PassWakes(n: nat, seqMod: nat, states: seq<State>, acts: seq<Action>, r: nat, e: nat)
    requires Run(n, seqMod, states, acts) && r < e < |states| && acts[r].ReadFifoSta?
    requires forall j | r < j < e :: !acts[j].ReadFifoSta?
    requires forall j | r < j < e :: !XmitAction(acts[j])
    ensures states[e].ipc.Idle? ==> !states[e].stopped
    ensures states[e].txHead == states[r].txHead
    decreases e
  {
    hide Inv, Enabled, Next, XmitAction;
    var s, a := states[e - 1], acts[e - 1];
    assert Enabled(s, a) && states[e - 1 + 1] == Next(s, a);
    RunKeepsInv(n, seqMod, states, acts, e - 1);
    if e - 1 == r {
      assert a == ReadFifoSta;
      PassStarts(s);
    } else {
      PassWakes(n, seqMod, states, acts, r, e - 1);
      XmitAlone(s, a);
      if a.Finish? {
        PassRemembers(n, seqMod, states, acts, r, e - 1);
        RunKeepsInv(n, seqMod, states, acts, r);
        RoomAtStart(states[r]);
        FinishWakes(s, |states[r].reported|);
      }
    }
  }

  lemma RoomAtStart(s: State)
    requires Inv(s) && Enabled(s, ReadFifoSta)
    ensures s.txHead <= |s.reported| + s.n
  {
  }

  /** At some step of the pass its TEF object for frame k was read, and k was complete then. */
  ghost predicate CompleteAtRead(states: seq<State>, acts: seq<Action>, r: nat, e: nat, k: nat, when: nat) {
    && r < when < e < |states| == |acts| + 1 && acts[when].ReadObj?
    && states[when].ipc.Reading? && states[when].ipc.p.base + |states[when].ipc.p.buf| == k
    && k < states[when].completed
  }

  ghost predicate CompleteWhenItsEventWasRead(states: seq<State>, acts: seq<Action>, r: nat, e: nat, k: nat) {
    exists when: nat :: CompleteAtRead(states, acts, r, e, k, when)
  }

  /**
   A pass that began by reading FIFOSTA at step r and ends, without an SPI error, at step e
   has reported every frame completed at step r, and every frame k it reported had been
   completed when its TEF object was read at some step in between.
   */
  lemma PassIsExact(n: nat, seqMod: nat, states: seq<State>, acts: seq<Action>, r: nat, e: nat)
    requires Run(n, seqMod, states, acts) && r < e < |states| && acts[r].ReadFifoSta?
    requires forall j | r < j < e :: !acts[j].ReadFifoSta?
    requires states[e].ipc.Ending?
    ensures states[r].completed <= |states[e].reported|
    ensures states[e].ipc.p.base == |states[r].reported|
    ensures forall k: nat | |states[r].reported| <= k < |states[e].reported| ::
              CompleteWhenItsEventWasRead(states, acts, r, e, k)
  {
    hide Inv, Enabled, Next;
    EndingIs(n, seqMod, states, acts, e);
    PassRemembers(n, seqMod, states, acts, r, e);
    var p := states[e].ipc.p;
    forall k: nat | p.base <= k < |states[e].reported|
      ensures CompleteWhenItsEventWasRead(states, acts, r, e, k)
    {
      var j: nat := k - p.base;
      assert p.base + j < p.seen[j];
      assert ReadInRun(states, acts, r, e, j, p.seen[j]);
      var when: nat :| when < e && ReadAt(states, acts, r, j, p.seen[j], when);
      assert CompleteAtRead(states, acts, r, e, k, when);
    }
  }

  lemma EndingIs(n: nat, seqMod: nat, states: seq<State>, acts: seq<Action>, e: nat)
    requires Run(n, seqMod, states, acts) && e < |states| && states[e].ipc.Ending?
    ensures PassResult(states[e], states[e].ipc.p)
  {
    RunKeepsInv(n, seqMod, states, acts, e);
  }
}

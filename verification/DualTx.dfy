/**
 The two transmit buffers of the F81601A: two kfifos of slot numbers, a busy flag and the
 last commanded slot. Every section under tx_lock is one step; waking the queue is a step of
 its own because the interrupt handler does it after unlocking. accepted, commands and
 completed log the session since the last start.
 */
module DualTx {
  import opened Frames

  datatype Command = Command(slot: nat, frame: Option<Frame>)

  datatype Tx = Tx(
    empty: seq<nat>, used: seq<nat>,
    txing: bool, seg: int,
    slots: seq<Option<Frame>>,
    stopped: bool,
    sameSlotErrors: nat, lostFrames: nat,
    accepted: seq<Frame>, commands: seq<Command>, completed: seq<Option<Frame>>)

  /** A kfifo of two entries: what does not fit is dropped. */
  function KfifoIn(q: seq<nat>, x: nat): seq<nat> { if |q| < 2 then q + [x] else q }

  predicate Shaped(s: Tx) {
    && |s.slots| == 2
    && (forall i | 0 <= i < |s.empty| :: s.empty[i] < 2)
    && (forall i | 0 <= i < |s.used| :: s.used[i] < 2)
  }

  function Fresh(): Tx { Tx([0, 1], [], false, -1, [None, None], false, 0, 0, [], [], []) }

  // ---- the steps as functions ----

  /** Commanding a slot: the last slot is remembered, and meeting it again is an error that is only logged. */
  function CommandStep(s: Tx, idx: nat): Tx
    requires idx < |s.slots|
  {
    var t := if s.seg == -1 || s.seg != idx then s.(seg := idx) else s.(sameSlotErrors := s.sameSlotErrors + 1);
    t.(commands := t.commands + [Command(idx, t.slots[idx])])
  }

  function StartStep(s: Tx): Tx {
    s.(seg := -1, txing := false, used := [], empty := KfifoIn(KfifoIn([], 0), 1),
       accepted := [], commands := [], completed := [])
  }

  /** start_xmit: a frame that finds no empty slot is lost. */
  function XmitStep(s: Tx, f: Frame): Tx
    requires Shaped(s)
  {
    if s.empty == [] then s.(lostFrames := s.lostFrames + 1)
    else if |s.empty| > 2 then s.(lostFrames := s.lostFrames + 1)
    else
      var idx := s.empty[0];
      var t := s.(stopped := s.stopped || |s.empty| == 1, empty := s.empty[1..], used := KfifoIn(s.used, idx),
                  slots := s.slots[idx := Some(f)], accepted := s.accepted + [f]);
      if t.txing then t else CommandStep(t.(txing := true), idx)
  }

  /** The locked part of the transmit interrupt, for a frame that is done. */
  function DoneStep(s: Tx): Tx
    requires Shaped(s)
  {
    if |s.used| == 1 || |s.used| == 2 then
      var idx := s.used[0];
      var t := s.(used := s.used[1..], empty := KfifoIn(s.empty, idx), completed := s.completed + [s.slots[idx]]);
      if |s.used| != 2 then t.(txing := false) else CommandStep(t, t.used[0])
    else s
  }

  datatype Action = Start | Xmit(f: Frame) | TxDone | Wake

  predicate Enabled(s: Tx, a: Action) { Shaped(s) && (a.Xmit? ==> !s.stopped) }

  function Next(s: Tx, a: Action): Tx
    requires Enabled(s, a)
  {
    match a
    case Start => StartStep(s)
    case Xmit(f) => XmitStep(s, f)
    case TxDone => DoneStep(s)
    case Wake => s.(stopped := false)
  }

  // ---- the invariant ----

  /** The slot of the k-th frame of a session. */
  function Slot(k: nat): (i: nat)
    ensures i < 2
  {
    k % 2
  }

  lemma SlotsAlternate(k: nat)
    ensures Slot(k) != Slot(k + 1) && Slot(k + 2) == Slot(k)
  {
  }

  /** The slots of the frames k, k + 1, ... */
  ghost predicate From(q: seq<nat>, k: nat) { forall i | 0 <= i < |q| :: q[i] == Slot(k + i) }

  lemma FromTail(q: seq<nat>, k: nat)
    requires From(q, k) && q != []
    ensures q[0] == Slot(k) && From(q[1..], k + 1)
  {
    hide Slot;
    forall i: nat | i < |q[1..]|
      ensures q[1..][i] == Slot(k + 1 + i)
    {
      assert q[i + 1] == Slot(k + (i + 1));
    }
  }

  lemma FromSnoc(q: seq<nat>, k: nat, x: nat)
    requires From(q, k) && x == Slot(k + |q|)
    ensures From(q + [x], k)
  {
    hide Slot;
  }

  /** Slots in flight hold the frames accepted last. */
  ghost predicate Holds(slots: seq<Option<Frame>>, accepted: seq<Frame>, k: nat) {
    && |slots| == 2 && |accepted| <= k + 2
    && forall i: nat | k <= i < |accepted| :: slots[Slot(i)] == Some(accepted[i])
  }

  ghost predicate CommandsAre(commands: seq<Command>, accepted: seq<Frame>) {
    |commands| <= |accepted| && forall i | 0 <= i < |commands| :: commands[i] == Command(Slot(i), Some(accepted[i]))
  }

  ghost predicate CompletedAre(completed: seq<Option<Frame>>, accepted: seq<Frame>) {
    |completed| <= |accepted| && forall i | 0 <= i < |completed| :: completed[i] == Some(accepted[i])
  }

  ghost predicate Counts(s: Tx) {
    && |s.empty| + |s.used| == 2 && From(s.used, |s.completed|) && From(s.empty, |s.completed| + |s.used|)
    && |s.accepted| == |s.completed| + |s.used|
    && |s.commands| == |s.completed| + One(s.txing) && (s.txing <==> s.used != [])
    && s.seg == (if s.commands == [] then -1 else Slot(|s.commands| - 1))
  }

  ghost predicate Inv(s: Tx) {
    && Counts(s) && Holds(s.slots, s.accepted, |s.completed|) && s.sameSlotErrors == 0
    && CommandsAre(s.commands, s.accepted) && CompletedAre(s.completed, s.accepted)
  }

  lemma ShapedByInv(s: Tx)
    requires Inv(s)
    ensures Shaped(s)
  {
  }

  lemma HoldsPut(slots: seq<Option<Frame>>, accepted: seq<Frame>, k: nat, f: Frame)
    requires Holds(slots, accepted, k) && |accepted| < k + 2
    ensures Holds(slots[Slot(|accepted|) := Some(f)], accepted + [f], k)
  {
    if k < |accepted| {
      SlotsAlternate(k);
    }
  }

  lemma CommandsMore(commands: seq<Command>, accepted: seq<Frame>, f: Frame)
    requires CommandsAre(commands, accepted)
    ensures CommandsAre(commands, accepted + [f])
  {
  }

  lemma CompletedMore(completed: seq<Option<Frame>>, accepted: seq<Frame>, f: Frame)
    requires CompletedAre(completed, accepted)
    ensures CompletedAre(completed, accepted + [f])
  {
  }

  /** The next command goes to the other slot and carries the next frame. */
  lemma CommandNext(s: Tx, idx: nat)
    requires Holds(s.slots, s.accepted, |s.commands|) && |s.commands| < |s.accepted| && idx == Slot(|s.commands|)
    requires s.seg == (if s.commands == [] then -1 else Slot(|s.commands| - 1))
    requires CommandsAre(s.commands, s.accepted)
    ensures CommandStep(s, idx)
         == s.(seg := idx, commands := s.commands + [Command(idx, Some(s.accepted[|s.commands|]))])
    ensures CommandsAre(CommandStep(s, idx).commands, s.accepted)
  {
    if |s.commands| > 0 {
      SlotsAlternate(|s.commands| - 1);
    }
    hide Slot;
  }

  lemma XmitKeeps(s: Tx, f: Frame)
    requires Inv(s) && Shaped(s)
    ensures Inv(XmitStep(s, f))
  {
    hide Holds, CommandsAre, CompletedAre, From, Slot;
    if s.empty != [] {
      FromTail(s.empty, |s.completed| + |s.used|);
      FromSnoc(s.used, |s.completed|, s.empty[0]);
      HoldsPut(s.slots, s.accepted, |s.completed|, f);
      CommandsMore(s.commands, s.accepted, f);
      CompletedMore(s.completed, s.accepted, f);
      hide CommandStep;
      var idx := s.empty[0];
      var t := s.(stopped := s.stopped || |s.empty| == 1, empty := s.empty[1..], used := KfifoIn(s.used, idx),
                  slots := s.slots[idx := Some(f)], accepted := s.accepted + [f]);
      if !s.txing {
        CommandNext(t.(txing := true), idx);
      }
    }
  }

  lemma HoldsLess(slots: seq<Option<Frame>>, accepted: seq<Frame>, k: nat)
    requires Holds(slots, accepted, k) && k < |accepted|
    ensures slots[Slot(k)] == Some(accepted[k]) && Holds(slots, accepted, k + 1)
  {
  }

  lemma CompletedNext(completed: seq<Option<Frame>>, accepted: seq<Frame>)
    requires CompletedAre(completed, accepted) && |completed| < |accepted|
    ensures CompletedAre(completed + [Some(accepted[|completed|])], accepted)
  {
  }

  lemma DoneKeeps(s: Tx)
    requires Inv(s) && Shaped(s)
    ensures Inv(DoneStep(s))
  {
    hide Holds, CommandsAre, CompletedAre, CommandStep, From, Slot;
    if s.used != [] {
      FromTail(s.used, |s.completed|);
      SlotsAlternate(|s.completed|);
      FromSnoc(s.empty, |s.completed| + |s.used|, s.used[0]);
      if |s.used| == 2 {
        FromTail(s.used[1..], |s.completed| + 1);
      }
      HoldsLess(s.slots, s.accepted, |s.completed|);
      CompletedNext(s.completed, s.accepted);
      var idx := s.used[0];
      var t := s.(used := s.used[1..], empty := KfifoIn(s.empty, idx), completed := s.completed + [s.slots[idx]]);
      if |s.used| == 2 {
        CommandNext(t, t.used[0]);
      }
    }
  }

  lemma StartKeeps(s: Tx)
    requires |s.slots| == 2 && s.sameSlotErrors == 0
    ensures Inv(StartStep(s))
  {
  }

  lemma StepKeeps(s: Tx, a: Action)
    requires Inv(s) && Enabled(s, a)
    ensures Inv(Next(s, a))
  {
    match a
    case Start => StartKeeps(s);
    case Xmit(f) => XmitKeeps(s, f);
    case TxDone => DoneKeeps(s);
    case Wake =>
  }

  // ---- whole runs ----

  function Run(s: Tx, acts: seq<Action>): Option<Tx>
    decreases |acts|
  {
    if acts == [] then Some(s)
    else match Run(s, acts[..|acts| - 1])
      case None => None
      case Some(t) => if Enabled(t, acts[|acts| - 1]) then Some(Next(t, acts[|acts| - 1])) else None
  }

  lemma {:induction false} RunKeepsInv(acts: seq<Action>)
    requires Run(Fresh(), acts).Some?
    ensures Inv(Run(Fresh(), acts).value)
    decreases |acts|
  {
    if acts == [] {
      StartKeeps(Fresh());
      assert StartStep(Fresh()).empty == [0, 1];
    } else {
      hide Inv, Next, Enabled;
      RunKeepsInv(acts[..|acts| - 1]);
      StepKeeps(Run(Fresh(), acts[..|acts| - 1]).value, acts[|acts| - 1]);
    }
  }

  /**
   After any run: each of the slots 0 and 1 is in exactly one of the fifos, the busy flag
   says whether one is in use, and the last commanded slot is then the front of the used fifo.
   */
  lemma SlotsPartitioned(acts: seq<Action>)
    requires Run(Fresh(), acts).Some?
    ensures var s := Run(Fresh(), acts).value;
            && multiset(s.empty + s.used) == multiset{0, 1}
            && (s.txing <==> s.used != [])
            && (s.used != [] ==> s.seg == s.used[0])
  {
    hide Inv, Run;
    RunKeepsInv(acts);
    PartitionOf(Run(Fresh(), acts).value);
  }

  lemma PartitionOf(s: Tx)
    requires Inv(s)
    ensures multiset(s.empty + s.used) == multiset{0, 1} && (s.txing <==> s.used != [])
    ensures s.used != [] ==> s.seg == s.used[0]
  {
    hide Holds, CommandsAre, CompletedAre, From, Slot;
    TwoSlots(s.empty, s.used, |s.completed|);
    if s.used != [] {
      FromTail(s.used, |s.completed|);
    }
  }

  lemma TwoSlots(empty: seq<nat>, used: seq<nat>, k: nat)
    requires |empty| + |used| == 2 && From(used, k) && From(empty, k + |used|)
    ensures multiset(empty + used) == multiset{0, 1}
  {
    SlotsAlternate(k);
    hide Slot;
    var all := empty + used;
    assert all[0] != all[1] && all[0] < 2 && all[1] < 2 by {
      if |used| == 2 { assert all == used; }
      else if |used| == 1 { assert all[0] == empty[0] && all[1] == used[0]; }
      else { assert all == empty; }
    }
    BothSlots(all);
  }

  lemma BothSlots(all: seq<nat>)
    requires |all| == 2 && all[0] != all[1] && all[0] < 2 && all[1] < 2
    ensures multiset(all) == multiset{0, 1}
  {
    if all[0] == 0 {
      assert all == [0, 1];
    } else {
      assert all == [1, 0];
    }
  }

  /**
   After any run, since the last start: the k-th command went to slot k mod 2 and carried the
   k-th frame accepted, completions came in the same order, commands and completions
   differ by at most the one in progress, and the "same slot twice" branches were never taken.
   */
  lemma CommandedInOrder(acts: seq<Action>)
    requires Run(Fresh(), acts).Some?
    ensures var s := Run(Fresh(), acts).value;
            && |s.commands| == |s.completed| + One(s.txing) && |s.accepted| == |s.completed| + |s.used|
            && |s.commands| <= |s.accepted|
            && (forall k | 0 <= k < |s.commands| :: s.commands[k] == Command(k % 2, Some(s.accepted[k])))
            && (forall k | 0 <= k < |s.completed| :: s.completed[k] == Some(s.accepted[k]))
            && s.sameSlotErrors == 0
  {
    RunKeepsInv(acts);
  }

  /** A frame is lost exactly when start_xmit finds both slots in use. */
  lemma LostIff(acts: seq<Action>, f: Frame)
    requires Run(Fresh(), acts).Some? && !Run(Fresh(), acts).value.stopped
    ensures var s := Run(Fresh(), acts).value;
            && Enabled(s, Xmit(f))
            && (XmitStep(s, f).lostFrames == s.lostFrames + 1 <==> |s.used| == 2)
            && (XmitStep(s, f).accepted == s.accepted + [f] <==> |s.used| < 2)
  {
    RunKeepsInv(acts);
    ShapedByInv(Run(Fresh(), acts).value);
    hide CommandsAre, CompletedAre, Holds;
  }

  /**
   What an accepted frame does after any run: it goes into the first empty slot, the queue stops when
   that was the last one, and the slot is commanded when nothing is being sent.
   */
  lemma XmitAccepts(acts: seq<Action>, f: Frame)
    requires Run(Fresh(), acts).Some? && Run(Fresh(), acts).value.empty != []
    ensures var s := Run(Fresh(), acts).value;
            Shaped(s) && var t := XmitStep(s, f);
      && t.empty == s.empty[1..] && t.used == s.used + [s.empty[0]] && t.slots == s.slots[s.empty[0] := Some(f)]
      && t.accepted == s.accepted + [f] && t.completed == s.completed && t.lostFrames == s.lostFrames
      && t.stopped == (s.stopped || |s.empty| == 1) && t.txing
      && t.commands == s.commands + (if s.used == [] then [Command(s.empty[0], Some(f))] else [])
  {
    RunKeepsInv(acts);
    ShapedByInv(Run(Fresh(), acts).value);
    hide CommandsAre, CompletedAre, Holds, From;
  }

  /**
   What a completion does after any run: the front slot is free again and its frame complete, the
   next slot in use is commanded at once, and without one the controller is idle. With no slot in
   use nothing happens.
   */
  lemma DoneCompletes(acts: seq<Action>)
    requires Run(Fresh(), acts).Some?
    ensures var s := Run(Fresh(), acts).value;
            Shaped(s) && var t := DoneStep(s);
      if s.used == [] then t == s
      else
        && t.used == s.used[1..] && t.empty == s.empty + [s.used[0]] && t.slots == s.slots
        && t.completed == s.completed + [s.slots[s.used[0]]] && t.accepted == s.accepted
        && t.stopped == s.stopped && t.lostFrames == s.lostFrames && (t.txing <==> |s.used| == 2)
        && t.commands == s.commands + if |s.used| == 2 then [Command(s.used[1], s.slots[s.used[1]])] else []
  {
    RunKeepsInv(acts);
    ShapedByInv(Run(Fresh(), acts).value);
    hide CommandsAre, CompletedAre, Holds, From;
  }

  /** A wake-up at step k, if there is one, finds a free slot. */
  predicate TimelyWake(acts: seq<Action>, k: nat)
    requires k < |acts|
  {
    acts[k].Wake? ==>
      match Run(Fresh(), acts[..k])
      case Some(s) => |s.used| < 2
      case None => true
  }

  lemma NoLossStep(s: Tx, a: Action)
    requires Inv(s) && Enabled(s, a) && (|s.used| == 2 ==> s.stopped) && (a.Wake? ==> |s.used| < 2)
    ensures var t := Next(s, a); t.lostFrames == s.lostFrames && (|t.used| == 2 ==> t.stopped)
  {
    hide Holds, CommandsAre, CompletedAre, From;
  }

  /**
   In every run whose wake-ups all find a free slot no frame is lost: the queue is stopped
   whenever both slots are in use.
   */
  lemma {:induction false} NoFrameLost(acts: seq<Action>)
    requires Run(Fresh(), acts).Some? && forall k | 0 <= k < |acts| :: TimelyWake(acts, k)
    ensures var s := Run(Fresh(), acts).value; s.lostFrames == 0 && (|s.used| == 2 ==> s.stopped)
    decreases |acts|
  {
    if acts != [] {
      hide Inv, Next, Enabled;
      var init, last := acts[..|acts| - 1], |acts| - 1;
      forall k | 0 <= k < |init|
        ensures TimelyWake(init, k)
      {
        assert TimelyWake(acts, k) && init[..k] == acts[..k];
      }
      NoFrameLost(init);
      RunKeepsInv(init);
      assert TimelyWake(acts, last);
      NoLossStep(Run(Fresh(), init).value, acts[last]);
    }
  }

  /**
   A wake-up can come too late: issued after the interrupt handler unlocked, it comes behind two
   more frames and opens the queue although no slot is free.
   */
  lemma LateWakeLosesFrame(a: Frame, b: Frame, c: Frame, d: Frame)
    ensures Run(Fresh(), [Xmit(a), TxDone, Xmit(b), Xmit(c), Wake, Xmit(d)]).Some?
    ensures Run(Fresh(), [Xmit(a), TxDone, Xmit(b), Xmit(c), Wake, Xmit(d)]).value.lostFrames == 1
  {
    hide Run;
    ThirdFrame(a, b, c);
    var s5 := BothTaken(a, b, c).(stopped := false);
    var r4 := [Xmit(a), TxDone, Xmit(b), Xmit(c)];
    RunMore(r4, BothTaken(a, b, c), Wake, s5);
    RunMore(r4 + [Wake], s5, Xmit(d), s5.(lostFrames := 1));
    assert r4 + [Wake] + [Xmit(d)] == [Xmit(a), TxDone, Xmit(b), Xmit(c), Wake, Xmit(d)];
  }

  /** Frame b commanded, frame c behind it, the queue stopped. */
  function BothTaken(a: Frame, b: Frame, c: Frame): Tx {
    Tx([], [1, 0], true, 1, [Some(c), Some(b)], true, 0, 0, [a, b, c],
       [Command(0, Some(a)), Command(1, Some(b))], [Some(a)])
  }

  lemma ThirdFrame(a: Frame, b: Frame, c: Frame)
    ensures Run(Fresh(), [Xmit(a), TxDone, Xmit(b), Xmit(c)]) == Some(BothTaken(a, b, c))
  {
    hide Run;
    FirstThree(a, b);
    RunMore([Xmit(a), TxDone, Xmit(b)], TwoSent(a, b), Xmit(c), BothTaken(a, b, c));
    assert [Xmit(a), TxDone, Xmit(b)] + [Xmit(c)] == [Xmit(a), TxDone, Xmit(b), Xmit(c)];
  }

  /** Frame a done, frame b commanded, one slot left. */
  function TwoSent(a: Frame, b: Frame): Tx {
    Tx([0], [1], true, 1, [Some(a), Some(b)], false, 0, 0, [a, b],
       [Command(0, Some(a)), Command(1, Some(b))], [Some(a)])
  }

  /** Frame a commanded. */
  function OneSent(a: Frame): Tx { Tx([1], [0], true, 0, [Some(a), None], false, 0, 0, [a], [Command(0, Some(a))], []) }

  /** Frame a done. */
  function OneDone(a: Frame): Tx {
    Tx([1, 0], [], false, 0, [Some(a), None], false, 0, 0, [a], [Command(0, Some(a))], [Some(a)])
  }

  lemma FirstFrame(a: Frame)
    ensures Run(Fresh(), [Xmit(a)]) == Some(OneSent(a))
  {
    RunMore([], Fresh(), Xmit(a), OneSent(a));
    assert [] + [Xmit(a)] == [Xmit(a)];
  }

  lemma FirstDone(a: Frame)
    ensures Run(Fresh(), [Xmit(a), TxDone]) == Some(OneDone(a))
  {
    hide Run;
    FirstFrame(a);
    RunMore([Xmit(a)], OneSent(a), TxDone, OneDone(a));
    assert [Xmit(a)] + [TxDone] == [Xmit(a), TxDone];
  }

  lemma FirstThree(a: Frame, b: Frame)
    ensures Run(Fresh(), [Xmit(a), TxDone, Xmit(b)]) == Some(TwoSent(a, b))
  {
    hide Run;
    FirstDone(a);
    RunMore([Xmit(a), TxDone], OneDone(a), Xmit(b), TwoSent(a, b));
    assert [Xmit(a), TxDone] + [Xmit(b)] == [Xmit(a), TxDone, Xmit(b)];
  }

  predicate SameTx(s: Tx, t: Tx) {
    && s.empty == t.empty && s.used == t.used && s.txing == t.txing && s.seg == t.seg
    && s.slots == t.slots && s.stopped == t.stopped
    && s.sameSlotErrors == t.sameSlotErrors && s.lostFrames == t.lostFrames
    && s.accepted == t.accepted && s.commands == t.commands && s.completed == t.completed
  }

  lemma RunMore(acts: seq<Action>, s: Tx, a: Action, t: Tx)
    requires Run(Fresh(), acts) == Some(s) && Enabled(s, a) && SameTx(Next(s, a), t)
    ensures Run(Fresh(), acts + [a]) == Some(t)
  {
    hide Enabled, Next;
    assert (acts + [a])[..|acts|] == acts;
    assert Next(s, a) == t;
  }

  // ---- the driver's code ----

  class Sja1000 {
    var empty: seq<nat>
    var used: seq<nat>
    var txing: bool
    var seg: int
    var slots: seq<Option<Frame>>
    var stopped: bool
    var sameSlotErrors: nat
    var lostFrames: nat
    ghost var accepted: seq<Frame>
    var commands: seq<Command>     // writes to the command register
    ghost var completed: seq<Option<Frame>>

    ghost function State(): Tx
      reads this
    {
      Tx(empty, used, txing, seg, slots, stopped, sameSlotErrors, lostFrames, accepted, commands, completed)
    }

    ghost predicate Valid()
      reads this
    {
      Inv(State())
    }

    constructor ()
      ensures Valid() && State() == Fresh()
    {
      empty, used, txing, seg, slots := [0, 1], [], false, -1, [None, None];
      stopped, sameSlotErrors, lostFrames := false, 0, 0;
      accepted, commands, completed := [], [], [];
      new;
      StartKeeps(Fresh());
      assert StartStep(Fresh()).empty == [0, 1];
    }

    method Start()
      requires Valid()
      modifies this
      ensures Valid() && State() == StartStep(old(State()))
      ensures empty == [0, 1] && used == [] && !txing && seg == -1
      ensures slots == old(slots) && stopped == old(stopped)
    {
      StartKeeps(State());
      seg := -1;
      txing := false;
      empty, used := [], [];
      empty := KfifoIn(empty, 0);
      empty := KfifoIn(empty, 1);
      accepted, commands, completed := [], [], [];
    }

    method CommandSlot(idx: nat)
      requires idx < |slots|
      modifies this`seg, this`sameSlotErrors, this`commands
      ensures State() == CommandStep(old(State()), idx)
    {
      if seg == -1 {
        seg := idx;
      } else if seg != idx {
        seg := idx;
      } else {
        sameSlotErrors := sameSlotErrors + 1;
      }
      commands := commands + [Command(idx, slots[idx])];
    }

    method StartXmit(f: Frame)
      requires Shaped(State())
      modifies this
      ensures State() == XmitStep(old(State()), f)
      ensures old(Valid()) ==> Valid()
    {
      if Valid() {
        XmitKeeps(State(), f);
      }
      hide Inv, CommandStep, KfifoIn;
      var len := |empty|;
      if len == 0 {
        lostFrames := lostFrames + 1;
        return;
      } else if len == 1 {
        stopped := true;
      } else if len != 2 {
        lostFrames := lostFrames + 1;
        return;
      }
      var idx := empty[0];
      empty := empty[1..];
      used := KfifoIn(used, idx);
      slots := slots[idx := Some(f)];
      accepted := accepted + [f];
      if !txing {
        txing := true;
        CommandSlot(idx);
      }
    }

    method TransmitInterrupt()
      requires Shaped(State())
      modifies this
      ensures State() == DoneStep(old(State()))
      ensures old(Valid()) ==> Valid()
    {
      if Valid() {
        DoneKeeps(State());
      }
      hide Inv, CommandStep;
      var len := |used|;
      if len == 1 || len == 2 {
        var idx := used[0];
        used := used[1..];
        empty := KfifoIn(empty, idx);
        completed := completed + [slots[idx]];
        if len != 2 {
          txing := false;
        } else {
          CommandSlot(used[0]);
        }
      }
    }
  }
}

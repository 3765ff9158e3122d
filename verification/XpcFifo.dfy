/**
 The receive fifo of the XPCFD driver: 8192 slots, free-running 32-bit counters, one producer
 (the interrupt handler: lock a slot, fill it, put) and one consumer (IOCTL_RX: lock a slot,
 copy it, get) whose steps interleave. It behaves as a bounded queue across any number of
 counter wraps.
 */
module XpcFifo {
  import opened Frames
  import opened RingIndex

  const SIZE := 8192
  const EAGAIN := 11
  const EFAULT := 14

  /** The masked counter. */
  function Slot(counter: nat): (i: nat)
    ensures i < 8192
  {
    counter % SIZE
  }

  predicate Full(w: nat, r: nat) { Sub32(w, r) >= SIZE }

  lemma SlotOfWrapped(x: nat)
    ensures Slot(x % U32) == Slot(x)
  {
    var q, h := x / U32, x % U32;
    DivModUnique(x, SIZE, q * 0x8_0000 + h / SIZE, h % SIZE);
  }

  lemma SlotsDiffer(a: nat, b: nat)
    requires a < b < a + SIZE
    ensures Slot(a) != Slot(b)
  {
    IndexDistinct(a, b, SIZE);
  }

  lemma FullIff(put: nat, got: nat)
    requires got <= put <= got + SIZE
    ensures Full(put % U32, got % U32) <==> put == got + SIZE
    ensures put % U32 == got % U32 <==> put == got
  {
    Sub32Wrapped(put, got);
  }

  lemma CounterMoves(x: nat)
    ensures (x % U32 + 1) % U32 == (x + 1) % U32
  {
    WrappedMove(x, 1);
  }

  // ---- the interleaved steps ----

  datatype Producer = PIdle | PFilling(pslot: nat, filled: Option<Frame>)

  datatype Consumer = CIdle | CHolding(cslot: nat, copied: Option<Frame>, ok: bool)

  datatype Taken = Taken(frame: Frame, ok: bool)

  /** accepted and taken log the frames put into and got out of the fifo. */
  datatype State = State(w: nat, r: nat, slots: seq<Frame>, p: Producer, c: Consumer,
                         accepted: seq<Frame>, taken: seq<Taken>, refused: nat)

  /** A slot is filled field by field: any number of Fill steps come before the put. */
  datatype Action = Wlck | Fill(f: Frame) | Put | Rlck | Copy(copyOk: bool) | Get

  predicate Enabled(s: State, a: Action) {
    && |s.slots| == SIZE
    && match a
       case Wlck => s.p.PIdle?
       case Fill(_) => s.p.PFilling? && s.p.pslot < SIZE
       case Put => s.p.PFilling? && s.p.filled.Some?
       case Rlck => s.c.CIdle?
       case Copy(_) => s.c.CHolding? && s.c.cslot < SIZE && s.c.copied.None?
       case Get => s.c.CHolding? && s.c.copied.Some?
  }

  function Next(s: State, a: Action): State
    requires Enabled(s, a)
  {
    match a
    case Wlck => if Full(s.w, s.r) then s.(refused := s.refused + 1) else s.(p := PFilling(Slot(s.w), None))
    case Fill(f) => s.(slots := s.slots[s.p.pslot := f], p := PFilling(s.p.pslot, Some(f)))
    case Put =>
      if Full(s.w, s.r) then s.(p := PIdle)
      else s.(w := (s.w + 1) % U32, p := PIdle, accepted := s.accepted + [s.p.filled.value])
    case Rlck => if s.w == s.r then s else s.(c := CHolding(Slot(s.r), None, false))
    case Copy(ok) => s.(c := CHolding(s.c.cslot, Some(s.slots[s.c.cslot]), ok))
    case Get =>
      if s.w == s.r then s.(c := CIdle)
      else s.(r := (s.r + 1) % U32, c := CIdle, taken := s.taken + [Taken(s.c.copied.value, s.c.ok)])
  }

  function Init(): State {
    State(0, 0, seq(SIZE, i => Frame(0, [])), PIdle, CIdle, [], [], 0)
  }

  /** The bounded queue the fifo stands for. */
  function Queue(s: State): seq<Frame>
    requires |s.taken| <= |s.accepted|
  {
    s.accepted[|s.taken|..]
  }

  // ---- the invariant ----

  predicate Counts(s: State) {
    && |s.taken| <= |s.accepted| <= |s.taken| + SIZE
    && s.w == |s.accepted| % U32 && s.r == |s.taken| % U32
    && (s.p.PFilling? ==> |s.accepted| < |s.taken| + SIZE && s.p.pslot == Slot(|s.accepted|))
    && (s.c.CHolding? ==> |s.taken| < |s.accepted| && s.c.cslot == Slot(|s.taken|))
  }

  ghost predicate Stored(slots: seq<Frame>, accepted: seq<Frame>, from: nat) {
    |slots| == SIZE && forall k: nat | from <= k < |accepted| :: slots[Slot(k)] == accepted[k]
  }

  ghost predicate InOrder(taken: seq<Taken>, accepted: seq<Frame>) {
    |taken| <= |accepted| && forall k | 0 <= k < |taken| :: taken[k].frame == accepted[k]
  }

  ghost predicate Inv(s: State) {
    && Counts(s) && Stored(s.slots, s.accepted, |s.taken|) && InOrder(s.taken, s.accepted)
    && (s.p.PFilling? && s.p.filled.Some? ==> s.slots[s.p.pslot] == s.p.filled.value)
    && (s.c.CHolding? && s.c.copied.Some? ==> s.c.copied.value == s.accepted[|s.taken|])
  }

  /** Filling the next slot leaves the stored ones alone. */
  lemma FillOutside(slots: seq<Frame>, accepted: seq<Frame>, from: nat, f: Frame)
    requires Stored(slots, accepted, from) && |accepted| < from + SIZE
    ensures Stored(slots[Slot(|accepted|) := f], accepted, from)
  {
    hide Slot;
    forall k: nat | from <= k < |accepted|
      ensures Slot(k) != Slot(|accepted|)
    {
      SlotsDiffer(k, |accepted|);
    }
  }

  lemma StoredMore(slots: seq<Frame>, accepted: seq<Frame>, from: nat, f: Frame)
    requires Stored(slots, accepted, from) && slots[Slot(|accepted|)] == f
    ensures Stored(slots, accepted + [f], from)
  {
    hide Slot;
  }

  lemma StoredLess(slots: seq<Frame>, accepted: seq<Frame>, from: nat)
    requires Stored(slots, accepted, from)
    ensures Stored(slots, accepted, from + 1)
    ensures from < |accepted| ==> slots[Slot(from)] == accepted[from]
  {
    hide Slot;
  }

  lemma OrderMore(taken: seq<Taken>, accepted: seq<Frame>, f: Frame)
    requires InOrder(taken, accepted)
    ensures InOrder(taken, accepted + [f])
  {
  }

  lemma OrderNext(taken: seq<Taken>, accepted: seq<Frame>, t: Taken)
    requires InOrder(taken, accepted) && |taken| < |accepted| && t.frame == accepted[|taken|]
    ensures InOrder(taken + [t], accepted)
  {
  }

  lemma ProducerKeeps(s: State, a: Action)
    requires Inv(s) && Enabled(s, a) && (a.Wlck? || a.Fill? || a.Put?)
    ensures Inv(Next(s, a))
  {
    hide Slot, Full, Stored, InOrder;
    FullIff(|s.accepted|, |s.taken|);
    if a.Wlck? {
      SlotOfWrapped(|s.accepted|);
    } else if a.Fill? {
      FillOutside(s.slots, s.accepted, |s.taken|, a.f);
    } else {
      CounterMoves(|s.accepted|);
      StoredMore(s.slots, s.accepted, |s.taken|, s.p.filled.value);
      OrderMore(s.taken, s.accepted, s.p.filled.value);
    }
  }

  lemma ConsumerKeeps(s: State, a: Action)
    requires Inv(s) && Enabled(s, a) && (a.Rlck? || a.Copy? || a.Get?)
    ensures Inv(Next(s, a))
  {
    hide Slot, Full, Stored, InOrder;
    FullIff(|s.accepted|, |s.taken|);
    StoredLess(s.slots, s.accepted, |s.taken|);
    if a.Rlck? {
      SlotOfWrapped(|s.taken|);
    } else if a.Get? {
      CounterMoves(|s.taken|);
      OrderNext(s.taken, s.accepted, Taken(s.c.copied.value, s.c.ok));
    }
  }

  lemma StepKeeps(s: State, a: Action)
    requires Inv(s) && Enabled(s, a)
    ensures Inv(Next(s, a))
  {
    hide Inv, Enabled, Next;
    if a.Wlck? || a.Fill? || a.Put? {
      ProducerKeeps(s, a);
    } else {
      ConsumerKeeps(s, a);
    }
  }

  /**
   Every step is a step of a bounded queue: put appends the frame just filled, get removes
   the front and that is the frame that was copied, nothing else changes the queue. The
   producer is refused exactly when the queue is full, the consumer exactly when it is empty,
   and put and get never fail after their lock.
   */
  lemma RefinesQueue(s: State, a: Action)
    requires Inv(s) && Enabled(s, a)
    ensures var t := Next(s, a);
            && |t.taken| <= |t.accepted| && |Queue(s)| <= 8192
            && (a.Put? ==> |Queue(s)| < 8192 && Queue(t) == Queue(s) + [s.p.filled.value])
            && (a.Get? ==>
                  Queue(s) != [] && Queue(t) == Queue(s)[1..] && t.taken == s.taken + [Taken(Queue(s)[0], s.c.ok)])
            && (!a.Put? && !a.Get? ==> Queue(t) == Queue(s))
            && (a.Wlck? ==> (t.p.PIdle? <==> |Queue(s)| == 8192) && t.refused == s.refused + One(|Queue(s)| == 8192))
            && (a.Rlck? ==> (t.c.CIdle? <==> Queue(s) == []))
  {
    hide Slot, Full, Stored, InOrder;
    FullIff(|s.accepted|, |s.taken|);
    if a.Get? {
      assert s.accepted[|s.taken|..][1..] == s.accepted[|s.taken| + 1..];
    }
  }

  /** While the consumer holds a slot, nobody writes it: it shows the front of the queue until the get. */
  lemma HeldSlotIsStable(s: State, a: Action)
    requires Inv(s) && Enabled(s, a) && s.c.CHolding?
    ensures s.c.cslot < SIZE == |s.slots| == |Next(s, a).slots| && |s.taken| < |s.accepted|
    ensures Next(s, a).slots[s.c.cslot] == s.slots[s.c.cslot] == s.accepted[|s.taken|]
  {
    hide Slot, Full, InOrder;
    StoredLess(s.slots, s.accepted, |s.taken|);
    if a.Fill? {
      SlotsDiffer(|s.taken|, |s.accepted|);
    }
  }

  // ---- whole runs ----

  ghost predicate Run(states: seq<State>, acts: seq<Action>) {
    && |states| == |acts| + 1 && states[0] == Init()
    && forall i | 0 <= i < |acts| :: Enabled(states[i], acts[i]) && states[i + 1] == Next(states[i], acts[i])
  }

  lemma {:induction false} RunKeepsInv(states: seq<State>, acts: seq<Action>, i: nat)
    requires Run(states, acts) && i < |states|
    ensures Inv(states[i])
  {
    if i > 0 {
      hide Inv, Enabled, Next;
      RunKeepsInv(states, acts, i - 1);
      assert states[i - 1 + 1] == Next(states[i - 1], acts[i - 1]);
      StepKeeps(states[i - 1], acts[i - 1]);
    }
  }

  /**
   In every interleaving and across counter wraps: frames come out in the order they were
   accepted, every accepted frame has come out or is still in the queue, and at most 8192 are.
   */
  lemma NothingAcceptedIsLost(states: seq<State>, acts: seq<Action>, i: nat)
    requires Run(states, acts) && i < |states|
    ensures var s := states[i];
            && |s.taken| <= |s.accepted| <= |s.taken| + 8192
            && (forall k | 0 <= k < |s.taken| :: s.taken[k].frame == s.accepted[k])
            && (s.c.CHolding? && s.c.copied.Some? ==>
                  |s.taken| < |s.accepted| && s.c.copied.value == s.accepted[|s.taken|])
  {
    RunKeepsInv(states, acts, i);
  }

  // ---- the driver's code ----

  class RxFifo {
    var w: nat
    var r: nat
    const frames: array<Frame>
    ghost var first: nat           // frames got so far
    ghost var queue: seq<Frame>

    ghost predicate Valid()
      reads this, frames
    {
      && frames.Length == SIZE && |queue| <= SIZE
      && w == (first + |queue|) % U32 && r == first % U32
      && forall k: nat | k < |queue| :: frames[Slot(first + k)] == queue[k]
    }

    constructor ()
      ensures Valid() && fresh(frames) && queue == []
    {
      frames := new Frame[SIZE](i => Frame(0, []));
      w, r, first, queue := 0, 0, 0, [];
    }

    method Cnt() returns (n: nat)
      requires Valid()
      ensures n == |queue|
    {
      Sub32Wrapped(first + |queue|, first);
      n := Sub32(w, r);
    }

    method Wlck() returns (slot: Option<nat>)
      requires Valid()
      ensures slot == if |queue| == 8192 then None else Some(Slot(first + |queue|))
    {
      hide Slot, Full;
      FullIff(first + |queue|, first);
      if Full(w, r) {
        return None;
      }
      SlotOfWrapped(first + |queue|);
      slot := Some(Slot(w));
    }

    method Rlck() returns (slot: Option<nat>)
      requires Valid()
      ensures slot == if queue == [] then None else Some(Slot(first))
    {
      hide Slot, Full;
      FullIff(first + |queue|, first);
      if w == r {
        return None;
      }
      SlotOfWrapped(first);
      slot := Some(Slot(r));
    }

    method Put(ghost f: Frame) returns (ok: bool)
      requires Valid() && (|queue| < SIZE ==> frames[Slot(first + |queue|)] == f)
      modifies this`w, this`queue
      ensures Valid() && ok == (|old(queue)| < 8192) && queue == if ok then old(queue) + [f] else old(queue)
    {
      hide Slot, Full;
      FullIff(first + |queue|, first);
      if Full(w, r) {
        return false;
      }
      CounterMoves(first + |queue|);
      w := (w + 1) % U32;
      queue := queue + [f];
      ok := true;
    }

    method Get() returns (ok: bool)
      requires Valid()
      modifies this`r, this`first, this`queue
      ensures Valid() && ok == (old(queue) != []) && queue == if ok then old(queue)[1..] else old(queue)
      ensures first == old(first) + One(ok)
    {
      hide Slot, Full;
      FullIff(first + |queue|, first);
      if w == r {
        return false;
      }
      CounterMoves(first);
      r := (r + 1) % U32;
      ghost var was := queue;
      first, queue := first + 1, queue[1..];
      assert forall k: nat | k < |queue| :: queue[k] == was[k + 1] && first + k == old(first) + (k + 1);
      ok := true;
    }

    /** The interrupt handler storing a frame: appended, or dropped when the fifo is full. */
    method IsrStore(f: Frame) returns (stored: bool)
      requires Valid()
      modifies this`w, this`queue, frames
      ensures Valid() && stored == (|old(queue)| < 8192) && queue == if stored then old(queue) + [f] else old(queue)
    {
      hide Slot, Full;
      var slot := Wlck();
      if slot.None? {
        return false;
      }
      forall k: nat | first <= k < first + |queue|
        ensures Slot(k) != slot.value
      {
        SlotsDiffer(k, first + |queue|);
      }
      frames[slot.value] := f;
      stored := Put(f);
    }

    /**
     IOCTL_RX: the front frame; it is gone even when the copy to the caller fails. On an empty fifo
     it waits and looks again; arrives is what the interrupt handler stores meanwhile.
     */
    method IoctlRx(copyOk: bool, arrives: Option<Frame>) returns (ret: int, out: Option<Frame>)
      requires Valid()
      modifies this, frames
      ensures Valid()
      ensures var was := if old(queue) == [] && arrives.Some? then [arrives.value] else old(queue);
              if was == [] then ret == -11 && out == None && queue == []
              else
                && queue == was[1..] && ret == (if copyOk then 0 else -14)
                && out == if copyOk then Some(was[0]) else None
    {
      hide Slot, Full;
      var slot := Rlck();
      if slot.None? {
        if arrives.Some? {
          var stored := IsrStore(arrives.value);
        }
        slot := Rlck();
      }
      if slot.None? {
        return -EAGAIN, None;
      }
      assert frames[Slot(first + 0)] == queue[0];
      if copyOk {
        ret, out := 0, Some(frames[slot.value]);
      } else {
        ret, out := -EFAULT, None;
      }
      var ok := Get();
    }

    /** Without a buffer IOCTL_RX only counts. */
    method IoctlRxCount() returns (ret: nat)
      requires Valid()
      ensures ret == |queue|
    {
      ret := Cnt();
    }
  }
}

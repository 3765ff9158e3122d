/**
 The driver's receive code as it is written, with buffer allocations that may fail.
 A failed allocation skips the object without advancing the tail, so the batch goes on
 one behind: what is delivered is described by the allocation outcomes, and it is the
 right thing exactly when no batch has a success after a failure.
 */
module RxRings {
  import opened RingIndex
  import opened Frames
  import opened RxProtocol

  /** The ring counters delivered from one batch starting at base: those whose allocation succeeded. */
  function BatchLog(base: nat, alloc: seq<bool>): (log: seq<nat>)
    ensures |log| <= |alloc|
    ensures forall k | k in log :: base <= k < base + |alloc|
    decreases |alloc|
  {
    if alloc == [] then [] else (if alloc[0] then [base] else []) + BatchLog(base + 1, alloc[1..])
  }

  function BatchLen(n: nat, tail: nat, head: nat): nat
    requires n > 0
  {
    if head <= tail then 0 else Min(head - tail, n - tail % n)
  }

  /** The counters delivered by a whole pass, as far as the allocation outcomes reach. */
  function PassLog(n: nat, tail: nat, head: nat, alloc: seq<bool>): (log: seq<nat>)
    requires n > 0
    ensures forall k | k in log :: tail <= k < head
    decreases |alloc|
  {
    var len := BatchLen(n, tail, head);
    if len == 0 then []
    else if |alloc| <= len then BatchLog(tail, alloc)
    else
      var first := BatchLog(tail, alloc[..len]);
      first + PassLog(n, tail + |first|, head, alloc[len..])
  }

  /** Exactly once and in order: the counters tail, tail + 1, ... and nothing else. */
  ghost predicate Consecutive(log: seq<nat>, tail: nat) {
    forall i | 0 <= i < |log| :: log[i] == tail + i
  }

  predicate NoSuccessAfterFailure(alloc: seq<bool>) {
    forall i, j | 0 <= i < j < |alloc| :: !alloc[i] ==> !alloc[j]
  }

  /** Every batch of the pass keeps its failures to its end. */
  predicate PassOutcomesGood(n: nat, tail: nat, head: nat, alloc: seq<bool>)
    requires n > 0
    decreases |alloc|
  {
    var len := BatchLen(n, tail, head);
    len == 0 ||
    if |alloc| <= len then NoSuccessAfterFailure(alloc)
    else
      && NoSuccessAfterFailure(alloc[..len])
      && PassOutcomesGood(n, tail + |BatchLog(tail, alloc[..len])|, head, alloc[len..])
  }

  lemma {:induction false} NothingAllocated(base: nat, alloc: seq<bool>)
    ensures BatchLog(base, alloc) == [] <==> forall i | 0 <= i < |alloc| :: !alloc[i]
    decreases |alloc|
  {
    if alloc != [] {
      NothingAllocated(base + 1, alloc[1..]);
      if forall i | 0 <= i < |alloc| :: !alloc[i] {
        assert forall i | 0 <= i < |alloc[1..]| :: !alloc[1..][i];
      } else {
        assert alloc[0] || exists i :: 0 <= i < |alloc[1..]| && alloc[1..][i];
      }
    }
  }

  lemma FirstAllocated(alloc: seq<bool>)
    requires alloc != [] && alloc[0]
    ensures NoSuccessAfterFailure(alloc) <==> NoSuccessAfterFailure(alloc[1..])
  {
    if NoSuccessAfterFailure(alloc[1..]) {
      forall i, j | 0 <= i < j < |alloc| && !alloc[i]
        ensures !alloc[j]
      {
        assert !alloc[1..][i - 1];
        assert !alloc[1..][j - 1];
      }
    }
  }

  lemma FirstFailed(alloc: seq<bool>)
    requires alloc != [] && !alloc[0]
    ensures NoSuccessAfterFailure(alloc) <==> forall i | 0 <= i < |alloc[1..]| :: !alloc[1..][i]
  {
    assert forall i | 0 < i < |alloc| :: alloc[i] == alloc[1..][i - 1];
  }

  lemma ConsecutiveCons(k: nat, rest: seq<nat>)
    ensures Consecutive([k] + rest, k) <==> Consecutive(rest, k + 1)
  {
    assert forall i | 0 <= i < |rest| :: rest[i] == ([k] + rest)[i + 1];
  }

  lemma AboveNotConsecutive(log: seq<nat>, base: nat)
    requires forall k | k in log :: base < k
    ensures Consecutive(log, base) <==> log == []
  {
    if log != [] {
      assert log[0] in log;
    }
  }

  lemma {:induction false} BatchConsecutiveIff(base: nat, alloc: seq<bool>)
    ensures Consecutive(BatchLog(base, alloc), base) <==> NoSuccessAfterFailure(alloc)
    decreases |alloc|
  {
    if alloc != [] {
      hide Consecutive, NoSuccessAfterFailure;
      var rest := BatchLog(base + 1, alloc[1..]);
      if alloc[0] {
        BatchConsecutiveIff(base + 1, alloc[1..]);
        ConsecutiveCons(base, rest);
        FirstAllocated(alloc);
      } else {
        assert BatchLog(base, alloc) == rest;
        NothingAllocated(base + 1, alloc[1..]);
        AboveNotConsecutive(rest, base);
        FirstFailed(alloc);
      }
    }
  }

  lemma ConsecutiveConcat(a: seq<nat>, b: seq<nat>, tail: nat)
    ensures Consecutive(a + b, tail) <==> Consecutive(a, tail) && Consecutive(b, tail + |a|)
  {
    if Consecutive(a + b, tail) {
      assert forall i | 0 <= i < |a| :: (a + b)[i] == a[i];
      assert forall i | 0 <= i < |b| :: (a + b)[|a| + i] == b[i];
    }
  }

  lemma GoodStep(n: nat, tail: nat, head: nat, alloc: seq<bool>)
    requires n > 0 && BatchLen(n, tail, head) > 0
    ensures var take := Min(BatchLen(n, tail, head), |alloc|);
            PassOutcomesGood(n, tail, head, alloc) <==>
              && NoSuccessAfterFailure(alloc[..take])
              && PassOutcomesGood(n, tail + |BatchLog(tail, alloc[..take])|, head, alloc[take..])
  {
    if |alloc| <= BatchLen(n, tail, head) {
      assert alloc[..|alloc|] == alloc && alloc[|alloc|..] == [];
    }
  }

  /** The first batch of a pass and the allocations left after it. */
  lemma PassSplits(n: nat, tail: nat, head: nat, alloc: seq<bool>) returns (batch: seq<bool>, left: seq<bool>)
    requires n > 0 && BatchLen(n, tail, head) > 0 && alloc != []
    ensures |left| < |alloc|
    ensures PassLog(n, tail, head, alloc)
         == BatchLog(tail, batch) + PassLog(n, tail + |BatchLog(tail, batch)|, head, left)
    ensures PassOutcomesGood(n, tail, head, alloc) <==>
      NoSuccessAfterFailure(batch) && PassOutcomesGood(n, tail + |BatchLog(tail, batch)|, head, left)
  {
    hide Consecutive, NoSuccessAfterFailure, BatchLen, PassLog, PassOutcomesGood, BatchLog;
    var take := Min(BatchLen(n, tail, head), |alloc|);
    PassLogStep(n, tail, head, alloc);
    GoodStep(n, tail, head, alloc);
    batch, left := alloc[..take], alloc[take..];
  }

  /** A pass delivers exactly once and in order if and only if no batch has a success after a failure. */
  lemma {:induction false} ExactlyOnceIff(n: nat, tail: nat, head: nat, alloc: seq<bool>)
    requires n > 0
    ensures Consecutive(PassLog(n, tail, head, alloc), tail) <==> PassOutcomesGood(n, tail, head, alloc)
    decreases |alloc|
  {
    if BatchLen(n, tail, head) > 0 && alloc != [] {
      hide Consecutive, NoSuccessAfterFailure, BatchLen, PassLog, PassOutcomesGood, BatchLog;
      var batch, left := PassSplits(n, tail, head, alloc);
      var first := BatchLog(tail, batch);
      BatchConsecutiveIff(tail, batch);
      ExactlyOnceIff(n, tail + |first|, head, left);
      ConsecutiveConcat(first, PassLog(n, tail + |first|, head, left), tail);
    }
  }

  lemma {:induction false} AllLogged(base: nat, alloc: seq<bool>)
    requires forall i | 0 <= i < |alloc| :: alloc[i]
    ensures |BatchLog(base, alloc)| == |alloc| && NoSuccessAfterFailure(alloc)
    decreases |alloc|
  {
    if alloc != [] {
      AllLogged(base + 1, alloc[1..]);
    }
  }

  /** When every allocation succeeds the counters tail .. head - 1 are delivered. */
  lemma {:induction false} AllDelivered(n: nat, tail: nat, head: nat, alloc: seq<bool>)
    requires n > 0 && tail <= head && |alloc| >= head - tail && forall i | 0 <= i < |alloc| :: alloc[i]
    ensures PassLog(n, tail, head, alloc) == seq(head - tail, i requires 0 <= i < head - tail => tail + i)
    decreases |alloc|
  {
    if tail < head {
      var take := Min(BatchLen(n, tail, head), |alloc|);
      PassLogStep(n, tail, head, alloc);
      AllLogged(tail, alloc[..take]);
      BatchConsecutiveIff(tail, alloc[..take]);
      hide PassLog, BatchLog;
      AllDelivered(n, tail + take, head, alloc[take..]);
    }
  }

  /** One failed allocation in the middle: frame 1 is lost and frame 2 comes twice. */
  lemma FailureLosesAndDuplicates()
    ensures PassLog(8, 0, 3, [true, false, true, true]) == [0, 2, 2]
  {
    var alloc := [true, false, true, true];
    assert alloc[..3] == [true, false, true] && alloc[3..] == [true];
    assert [true, false, true][1..] == [false, true] && [false, true][1..] == [true] && [true][1..] == [];
    assert BatchLog(2, [true]) == [2];
    assert BatchLog(1, [false, true]) == [2];
    assert BatchLog(0, [true, false, true]) == [0, 2];
    assert PassLog(8, 2, 3, [true]) == [2];
  }

  function ObjectsOf(n: nat, ram: seq<Frame>, log: seq<nat>): seq<Frame>
    requires 0 < n == |ram|
  {
    seq(|log|, i requires 0 <= i < |log| => ram[log[i] % n])
  }

  /** What is handed to the network stack for a log of counters: for each the object of its slot. */
  lemma ObjectsAre(n: nat, ram: seq<Frame>, log: seq<nat>)
    requires 0 < n == |ram|
    ensures |ObjectsOf(n, ram, log)| == |log|
    ensures forall i | 0 <= i < |log| :: ObjectsOf(n, ram, log)[i] == ram[log[i] % n]
  {
  }

  lemma NothingDelivered(n: nat, ram: seq<Frame>)
    requires 0 < n == |ram|
    ensures ObjectsOf(n, ram, []) == []
  {
  }

  lemma NothingLogged(at: nat, alloc: seq<bool>)
    ensures BatchLog(at, []) == [] && alloc[..0] == []
  {
  }

  lemma PassLogEnds(n: nat, tail: nat, head: nat, alloc: seq<bool>)
    requires n > 0
    ensures BatchLen(n, tail, head) == 0 || alloc == [] ==> PassLog(n, tail, head, alloc) == []
    ensures BatchLog(tail, []) == [] && alloc[..0] == []
  {
  }

  lemma ObjectsSnoc(n: nat, ram: seq<Frame>, log: seq<nat>, k: nat)
    requires 0 < n == |ram|
    ensures ObjectsOf(n, ram, log + [k]) == ObjectsOf(n, ram, log) + [ram[k % n]]
  {
  }

  lemma ObjectsConcat(n: nat, ram: seq<Frame>, a: seq<nat>, b: seq<nat>)
    requires 0 < n == |ram|
    ensures ObjectsOf(n, ram, a + b) == ObjectsOf(n, ram, a) + ObjectsOf(n, ram, b)
  {
  }

  lemma {:induction false} BatchLogSnoc(base: nat, alloc: seq<bool>, last: bool)
    ensures BatchLog(base, alloc + [last]) == BatchLog(base, alloc) + if last then [base + |alloc|] else []
    decreases |alloc|
  {
    if alloc != [] {
      assert (alloc + [last])[1..] == alloc[1..] + [last];
      BatchLogSnoc(base + 1, alloc[1..], last);
    }
  }

  lemma PassLogStep(n: nat, tail: nat, head: nat, alloc: seq<bool>)
    requires n > 0 && BatchLen(n, tail, head) > 0
    ensures var take := Min(BatchLen(n, tail, head), |alloc|);
            var part := BatchLog(tail, alloc[..take]);
            && tail + |part| <= head
            && PassLog(n, tail, head, alloc) == part + PassLog(n, tail + |part|, head, alloc[take..])
  {
    if |alloc| <= BatchLen(n, tail, head) {
      assert alloc[..|alloc|] == alloc && alloc[|alloc|..] == [];
    }
  }

  /** The objects of one linear read that starts at counter at. */
  ghost predicate LinearPart(n: nat, ram: seq<Frame>, at: nat, hw: seq<Frame>)
    requires 0 < n == |ram|
  {
    at % n + |hw| <= n && hw == ram[at % n..at % n + |hw|]
  }

  lemma LinearSlot(n: nat, ram: seq<Frame>, at: nat, hw: seq<Frame>, i: nat)
    requires 0 < n == |ram| && LinearPart(n, ram, at, hw) && i < |hw|
    ensures hw[i] == ram[(at + i) % n]
  {
    ModAdd(at, i, n);
  }

  lemma OneMoreOutcome(base: nat, outcomes: seq<bool>, i: nat)
    requires i < |outcomes|
    ensures BatchLog(base, outcomes[..i + 1])
         == BatchLog(base, outcomes[..i]) + if outcomes[i] then [base + i] else []
  {
    BatchLogSnoc(base, outcomes[..i], outcomes[i]);
    assert outcomes[..i] + [outcomes[i]] == outcomes[..i + 1];
  }

  lemma {:induction false} PrefixLog(base: nat, outcomes: seq<bool>, i: nat, j: nat)
    requires i <= j <= |outcomes|
    ensures BatchLog(base, outcomes[..i]) <= BatchLog(base, outcomes[..j])
    decreases j
  {
    if i < j {
      PrefixLog(base, outcomes, i, j - 1);
      OneMoreOutcome(base, outcomes, j - 1);
    }
  }

  /**
   Of all deliveries, those that happen when left SPI accesses still succeed: the one whose
   release fails is the last.
   */
  function Handed(all: nat, left: int): nat { if left < 0 then 0 else if all <= left then all else left + 1 }

  function Freed(all: nat, left: int): nat { if left < 0 then 0 else Min(all, left) }

  lemma HandedAndFreed(all: nat, left: int)
    ensures Freed(all, left) <= Handed(all, left) <= all && Handed(all, left) - 1 <= Freed(all, left)
    ensures all <= left ==> Handed(all, left) == all == Freed(all, left)
    ensures all > left ==> Freed(all, left) == if left < 0 then 0 else left
    ensures all > left ==> Handed(all, left) == if left < 0 then 0 else left + 1
  {
  }

  class RxRing {
    const n: nat
    const spiErr: int            // the error of an SPI access that fails
    var spiLeft: nat             // SPI accesses that will still succeed
    var spiFailed: nat           // SPI accesses that have failed
    var head: nat
    var tail: nat
    var delivered: seq<Frame>
    var dropped: nat
    var released: nat            // UINC writes to FIFOCON

    constructor (n: nat, spiErr: int, spiLeft: nat)
      requires RingSize(n) && spiErr < 0
      ensures this.n == n && this.spiErr == spiErr && this.spiLeft == spiLeft
      ensures head == tail == dropped == released == 0 && delivered == []
    {
      this.n, this.spiErr, this.spiLeft, spiFailed := n, spiErr, spiLeft, 0;
      head, tail, dropped, released := 0, 0, 0, 0;
      delivered := [];
    }

    method SpiAccess() returns (err: int)
      modifies this`spiLeft, this`spiFailed
      ensures err == if old(spiLeft) == 0 then spiErr else 0
      ensures spiLeft == if old(spiLeft) == 0 then 0 else old(spiLeft) - 1
      ensures spiFailed == old(spiFailed) + One(old(spiLeft) == 0)
    {
      if spiLeft == 0 {
        spiFailed := spiFailed + 1;
        return spiErr;
      }
      spiLeft := spiLeft - 1;
      err := 0;
    }

    method RxRingUpdate(chipRxHead: nat)
      requires n > 0
      modifies this`head
      ensures head == RebuiltHead(n, old(head), chipRxHead)
    {
      var newHead := (RoundDown(head, n) + chipRxHead) % U32;
      if newHead <= head {
        newHead := (newHead + n) % U32;
      }
      head := newHead;
    }

    /** A delivered object advances the tail even if telling the chip fails. */
    method HandleRxifOne(obj: Frame, haveSkb: bool) returns (err: int)
      requires spiErr < 0
      modifies this`tail, this`delivered, this`dropped, this`released, this`spiLeft, this`spiFailed
      ensures spiFailed == old(spiFailed) + One(err != 0)
      ensures haveSkb ==>
        && delivered == old(delivered) + [obj] && tail == (old(tail) + 1) % U32 && dropped == old(dropped)
        && released == old(released) + One(old(spiLeft) > 0) && spiLeft == old(spiLeft) - One(old(spiLeft) > 0)
        && err == if old(spiLeft) > 0 then 0 else spiErr
      ensures !haveSkb ==>
        && delivered == old(delivered) && tail == old(tail) && released == old(released) && dropped == old(dropped) + 1
        && spiLeft == old(spiLeft) && err == 0
    {
      if !haveSkb {
        dropped := dropped + 1;
        return 0;
      }
      delivered := delivered + [obj];
      tail := (tail + 1) % U32;
      var left := spiLeft;
      err := SpiAccess();
      if left > 0 {
        released := released + 1;
      }
    }

    /** Object i of a batch; was is what had been delivered before the batch. */
    method HandleNext(hw: seq<Frame>, outcomes: seq<bool>, i: nat, ghost at: nat, ghost ram: seq<Frame>,
                      ghost was: seq<Frame>)
      returns (err: int)
      requires 0 < n == |ram| && LinearPart(n, ram, at, hw) && i < |hw| && i < |outcomes| && spiErr < 0
      requires var log := BatchLog(at, outcomes[..i]);
               delivered == was + ObjectsOf(n, ram, log) && tail == (at + |log|) % U32
      modifies this`tail, this`delivered, this`dropped, this`released, this`spiLeft, this`spiFailed
      ensures spiFailed == old(spiFailed) + One(err != 0)
      ensures var before, log := |BatchLog(at, outcomes[..i])|, BatchLog(at, outcomes[..i + 1]);
              && delivered == was + ObjectsOf(n, ram, log) && tail == (at + |log|) % U32
              && (|log| == before || |log| == before + 1)
              && err == (if |log| - before <= old(spiLeft) then 0 else spiErr)
              && released == old(released) + Min(|log| - before, old(spiLeft))
              && spiLeft == old(spiLeft) - Min(|log| - before, old(spiLeft))
    {
      OneMoreOutcome(at, outcomes, i);
      hide ObjectsOf, BatchLog, LinearPart;
      ghost var log := BatchLog(at, outcomes[..i]);
      LinearSlot(n, ram, at, hw, i);
      WrappedMove(at + |log|, 1);
      ghost var next := BatchLog(at, outcomes[..i + 1]);
      if outcomes[i] {
        ObjectsSnoc(n, ram, log, at + i);
        Assoc(was, ObjectsOf(n, ram, log), [hw[i]]);
        assert |next| == |log| + 1;
      } else {
        assert next == log by { assert log + [] == log; }
      }
      err := HandleRxifOne(hw[i], outcomes[i]);
    }

    /** The inner loop: objects of one linear read, as long as there are allocation outcomes left. */
    method HandleBatch(hw: seq<Frame>, outcomes: seq<bool>, ghost at: nat, ghost ram: seq<Frame>)
      returns (err: int, i: nat)
      requires 0 < n == |ram| && tail == at % U32 && spiErr < 0
      requires LinearPart(n, ram, at, hw)
      modifies this`tail, this`delivered, this`dropped, this`released, this`spiLeft, this`spiFailed
      ensures spiFailed == old(spiFailed) + One(err != 0)
      ensures err == 0 ==> i == Min(|hw|, |outcomes|)
      ensures var part, left := BatchLog(at, outcomes[..Min(|hw|, |outcomes|)]), old(spiLeft);
              && err == (if |part| <= left then 0 else spiErr)
              && delivered == old(delivered) + ObjectsOf(n, ram, part[..Handed(|part|, left)])
              && tail == (at + Handed(|part|, left)) % U32
              && released == old(released) + Freed(|part|, left) && spiLeft == left - Freed(|part|, left)
    {
      NothingDelivered(n, ram);
      NothingLogged(at, outcomes);
      hide ObjectsOf, BatchLog, LinearPart, Handed, Freed;
      i := 0;
      var take := Min(|hw|, |outcomes|);
      ghost var part := BatchLog(at, outcomes[..take]);
      assert delivered + [] == delivered;
      while i < |hw| && i < |outcomes|
        invariant i <= take && |BatchLog(at, outcomes[..i])| <= old(spiLeft)
        invariant delivered == old(delivered) + ObjectsOf(n, ram, BatchLog(at, outcomes[..i]))
        invariant tail == (at + |BatchLog(at, outcomes[..i])|) % U32
        invariant released == old(released) + |BatchLog(at, outcomes[..i])|
        invariant spiLeft == old(spiLeft) - |BatchLog(at, outcomes[..i])| && spiFailed == old(spiFailed)
      {
        err := HandleNext(hw, outcomes, i, at, ram, old(delivered));
        i := i + 1;
        if err != 0 {
          PrefixLog(at, outcomes, i, take);
          assert BatchLog(at, outcomes[..i]) == part[..|BatchLog(at, outcomes[..i])|];
          HandedAndFreed(|part|, old(spiLeft));
          return;
        }
      }
      err := 0;
      assert part == part[..|part|];
      HandedAndFreed(|part|, old(spiLeft));
    }

    /** One turn of the outer loop: the linear part of the ring, read and handled. */
    method HandleLinear(ram: seq<Frame>, outcomes: seq<bool>, ghost at: nat, ghost count: nat)
      returns (err: int, len: nat, used: nat)
      requires RingSize(n) && |ram| == n && at <= count <= at + n && spiErr < 0
      requires head == count % U32 && tail == at % U32
      modifies this`tail, this`delivered, this`dropped, this`released, this`spiLeft, this`spiFailed
      ensures spiFailed == old(spiFailed) + One(err != 0)
      ensures len == BatchLen(n, at, count) && (err == 0 ==> used == Min(len, |outcomes|))
      ensures len == 0 ==> err == 0 && spiLeft == old(spiLeft) && released == old(released)
      ensures len == 0 ==> delivered == old(delivered) && tail == old(tail)
      ensures len > 0 ==>
        var part, left := BatchLog(at, outcomes[..Min(len, |outcomes|)]), old(spiLeft) - 1;
        && err == (if |part| <= left then 0 else spiErr)
        && delivered == old(delivered) + ObjectsOf(n, ram, part[..Handed(|part|, left)])
        && tail == (at + Handed(|part|, left)) % U32
        && released == old(released) + Freed(|part|, left)
        && spiLeft == (if left < 0 then 0 else left - Freed(|part|, left))
    {
      LinearLenWrapped(n, count, at);
      IndexOfWrapped(at, n);
      NothingDelivered(n, ram);
      hide RingSize, LinearLen, ObjectsOf;
      len := LinearLen(n, head, tail);
      if len == 0 {
        return 0, len, 0;
      }
      var offset := tail % n;
      err := SpiAccess();
      if err != 0 {
        assert delivered == old(delivered) + [];
        return err, len, 0;
      }
      err, used := HandleBatch(ram[offset..offset + len], outcomes, at, ram);
    }

    /** log, counted from at, is what has been delivered since was. */
    ghost predicate Did(was: seq<Frame>, ram: seq<Frame>, at: nat, log: seq<nat>)
      requires 0 < n == |ram|
      reads this`delivered, this`tail
    {
      delivered == was + ObjectsOf(n, ram, log) && tail == (at + |log|) % U32
    }

    /**
     A turn within a pass that began at counter at: log has been delivered so far, was before it.
     more is what the turn adds, all of the batch or, when an access fails, a prefix.
     */
    method HandleTurn(ram: seq<Frame>, left: seq<bool>, ghost at: nat, ghost count: nat, ghost alloc: seq<bool>,
                      ghost was: seq<Frame>, ghost log: seq<nat>)
      returns (err: int, len: nat, used: nat, ghost more: seq<nat>)
      requires RingSize(n) && |ram| == n && spiErr < 0 && head == count % U32
      requires Did(was, ram, at, log) && Ahead(n, at, count, alloc, log, left)
      modifies this`tail, this`delivered, this`dropped, this`released, this`spiLeft, this`spiFailed
      ensures spiFailed == old(spiFailed) + One(err != 0)
      ensures Did(was, ram, at, log + more) && log + more <= PassLog(n, at, count, alloc)
      ensures err == 0 ==> used == Min(len, |left|) && Ahead(n, at, count, alloc, log + more, left[used..])
      ensures len == 0 ==> err == 0 && more == [] && spiLeft == old(spiLeft) && released == old(released)
      ensures (len == 0 <==> at + |log| == count) && |more| <= |left|
      ensures err == 0 && len > 0 ==> released == old(released) + |more| && spiLeft == old(spiLeft) - 1 - |more|
      ensures err != 0 ==> err == spiErr && spiLeft == 0 && |more| - 1 <= released - old(released) <= |more|
      ensures err != 0 ==> old(spiLeft) - One(old(spiLeft) > 0) == released - old(released)
    {
      AheadBounds(n, at, count, alloc, log, left);
      NothingDelivered(n, ram);
      hide RingSize, ObjectsOf, PassLog, BatchLog, BatchLen, Ahead, LinearLen, Len, Handed, Freed;
      ghost var now, leftBefore := at + |log|, spiLeft - 1;
      err, len, used := HandleLinear(ram, left, now, count);
      more := [];
      assert log + [] == log;
      if len == 0 {
        assert left[0..] == left;
        return;
      }
      HandedAndFreed(|BatchLog(now, left[..Min(len, |left|)])|, leftBefore);
      more := TurnAdds(n, ram, at, count, alloc, log, left, was, leftBefore);
    }

    /**
     One pass over the ring. The object of counter k is what the chip's slot k mod n holds;
     alloc are the outcomes of the allocations, one for each object looked at. finished says
     whether the pass came to its end within them. log are the counters delivered: all of
     PassLog, or a prefix when an SPI access fails; accesses counts those other than releases.
     */
    method HandleRxifRing(chipRxHead: nat, ram: seq<Frame>, alloc: seq<bool>, ghost at: nat, ghost count: nat)
      returns (err: int, finished: bool, ghost log: seq<nat>, ghost accesses: nat)
      requires RingSize(n) && |ram| == n && at < count <= at + n && spiErr < 0
      requires head == tail == at % U32 && chipRxHead == count % n
      modifies this`head, this`tail, this`delivered, this`dropped, this`released, this`spiLeft, this`spiFailed
      ensures spiFailed == old(spiFailed) + One(err != 0)
      ensures head == if old(spiLeft) == 0 then old(head) else count % U32
      ensures Did(old(delivered), ram, at, log) && log <= PassLog(n, at, count, alloc)
      ensures old(spiLeft) - spiLeft == accesses + (released - old(released))
      ensures err == 0 ==> log == PassLog(n, at, count, alloc) && released == old(released) + |log|
      ensures err == 0 ==> (finished <==> at + |log| == count)
      ensures err != 0 ==> err == spiErr && spiLeft == 0 && |log| - 1 <= released - old(released) <= |log|
    {
      NothingDelivered(n, ram);
      assert delivered + [] == delivered;
      RebuiltHeadIs(n, at, count);
      AheadAtStart(n, at, count, alloc);
      log, accesses, finished := [], 0, false;
      assert Did(delivered, ram, at, log);
      hide RingSize, RebuiltHead, PassLog, Ahead, Did;
      err := SpiAccess();
      if err != 0 {
        return;
      }
      accesses := 1;
      RxRingUpdate(chipRxHead);
      var left := alloc;
      while true
        invariant Did(old(delivered), ram, at, log) && Ahead(n, at, count, alloc, log, left)
        invariant head == count % U32 && released == old(released) + |log|
        invariant old(spiLeft) - spiLeft == accesses + |log| && spiFailed == old(spiFailed)
        decreases |left|
      {
        ghost var fetched := One(spiLeft > 0);
        var len, used;
        ghost var more;
        err, len, used, more := HandleTurn(ram, left, at, count, alloc, old(delivered), log);
        log := log + more;
        if err != 0 {
          accesses := accesses + fetched;
          return;
        }
        if len == 0 || left == [] {
          AheadAtEnd(n, at, count, alloc, log, left[used..]);
          return 0, len == 0, log, accesses + One(len > 0);
        }
        accesses := accesses + 1;
        left := left[used..];
      }
    }
  }

  /** log is the beginning of the pass over at .. count; the rest of it is decided by the outcomes left. */
  ghost predicate Ahead(n: nat, at: nat, count: nat, alloc: seq<bool>, log: seq<nat>, left: seq<bool>) {
    && n > 0 && at + |log| <= count <= at + |log| + n
    && PassLog(n, at, count, alloc) == log + PassLog(n, at + |log|, count, left)
  }

  lemma AheadAtStart(n: nat, at: nat, count: nat, alloc: seq<bool>)
    requires n > 0 && at <= count <= at + n
    ensures Ahead(n, at, count, alloc, [], alloc) && [] <= PassLog(n, at, count, alloc)
  {
    assert [] + PassLog(n, at, count, alloc) == PassLog(n, at, count, alloc);
  }

  lemma AheadBounds(n: nat, at: nat, count: nat, alloc: seq<bool>, log: seq<nat>, left: seq<bool>)
    requires Ahead(n, at, count, alloc, log, left)
    ensures n > 0 && at + |log| <= count <= at + |log| + n && log <= PassLog(n, at, count, alloc)
    ensures BatchLen(n, at + |log|, count) == 0 <==> at + |log| == count
    ensures BatchLog(at + |log|, []) == []
  {
    hide PassLog;
  }

  lemma AheadAtEnd(n: nat, at: nat, count: nat, alloc: seq<bool>, log: seq<nat>, left: seq<bool>)
    requires Ahead(n, at, count, alloc, log, left) && (at + |log| == count || left == [])
    ensures log == PassLog(n, at, count, alloc)
  {
    PassLogEnds(n, at + |log|, count, left);
    assert log + [] == log;
  }

  /** What the next batch adds to a pass: its deliveries as far as the SPI accesses go. */
  lemma TurnAdds(n: nat, ram: seq<Frame>, at: nat, count: nat, alloc: seq<bool>, log: seq<nat>, left: seq<bool>,
                 was: seq<Frame>, accesses: int) returns (more: seq<nat>)
    requires 0 < n == |ram| && Ahead(n, at, count, alloc, log, left) && BatchLen(n, at + |log|, count) > 0
    ensures var take := Min(BatchLen(n, at + |log|, count), |left|);
            var part := BatchLog(at + |log|, left[..take]);
            && more == part[..Handed(|part|, accesses)]
            && log + more <= PassLog(n, at, count, alloc)
            && (was + ObjectsOf(n, ram, log)) + ObjectsOf(n, ram, more) == was + ObjectsOf(n, ram, log + more)
            && (|part| <= accesses ==> Ahead(n, at, count, alloc, log + more, left[take..]))
  {
    hide PassLog, BatchLog, BatchLen, ObjectsOf;
    var now := at + |log|;
    var take := Min(BatchLen(n, now, count), |left|);
    var part, rest := BatchLog(now, left[..take]), PassLog(n, now + |BatchLog(now, left[..take])|, count, left[take..]);
    more := part[..Handed(|part|, accesses)];
    PassLogStep(n, now, count, left);
    ObjectsConcat(n, ram, log, more);
    Assoc(was, ObjectsOf(n, ram, log), ObjectsOf(n, ram, more));
    Assoc(log, part, rest);
    PrefixOf(log, part, rest, |more|);
  }

  lemma PrefixOf(log: seq<nat>, part: seq<nat>, rest: seq<nat>, k: nat)
    requires k <= |part|
    ensures log + part[..k] <= log + (part + rest)
    ensures k == |part| ==> part[..k] == part
  {
  }
}

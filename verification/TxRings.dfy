/**
 The driver's transmit-side code as it is written: the TX and TEF counters of the
 private structure, updated in place by mcp251xfd_start_xmit and mcp251xfd_handle_tefif.
 The chip's registers and RAM are parameters; spiLeft says how many SPI accesses succeed.
 */
module TxRings {
  import opened RingIndex
  import opened Frames
  import opened TefProtocol

  const EAGAIN := 11
  const ENOBUFS := 105

  lemma ErrorValues()
    ensures EAGAIN == 11 && ENOBUFS == 105
  {
  }

  predicate SlotPasses(n: nat, ram: seq<nat>, k: nat)
    requires 0 < n == |ram|
  {
    SeqMatches(ram[k % n], k)
  }

  /** How many slots, from the tail on, pass the sequence number comparison in a row. */
  function Matching(n: nat, ram: seq<nat>, tail: nat, len: nat): (m: nat)
    requires 0 < n == |ram|
    ensures m <= len
    decreases len
  {
    if len > 0 && SlotPasses(n, ram, tail) then 1 + Matching(n, ram, tail + 1, len - 1) else 0
  }

  lemma {:induction false} MatchingIs(n: nat, ram: seq<nat>, tail: nat, len: nat, m: nat)
    requires 0 < n == |ram| && m <= len
    requires forall k: nat | tail <= k < tail + m :: SlotPasses(n, ram, k)
    requires m < len ==> !SlotPasses(n, ram, tail + m)
    ensures Matching(n, ram, tail, len) == m
    decreases m
  {
    if m > 0 {
      MatchingIs(n, ram, tail + 1, len - 1, m - 1);
    }
  }

  /** A pass over RAM that does not change meanwhile reports exactly the completed frames. */
  lemma QuietPassReportsAll(n: nat, seqMod: nat, ram: seq<nat>, tail: nat, completed: nat, head: nat)
    requires RingSize(n) && seqMod > 0 && seqMod % 128 == 0 && TefHolds(n, seqMod, ram, completed)
    requires tail < completed <= head <= tail + n
    ensures Matching(n, ram, tail, head - tail) == completed - tail
  {
    forall k: nat | tail <= k < head
      ensures SlotPasses(n, ram, k) <==> k < completed
    {
      SeqMatchesIffComplete(n, seqMod, completed, k);
    }
    MatchingIs(n, ram, tail, head - tail, completed - tail);
  }

  /** The echoes stored for the counters tail .. tail + m - 1. */
  function EchoesFrom(n: nat, echo: seq<Option<Frame>>, tail: nat, m: nat): (r: seq<Option<Frame>>)
    requires 0 < n == |echo|
    ensures |r| == m
  {
    seq(m, j requires 0 <= j < m => echo[(tail + j) % n])
  }

  /** Clearing the slot of one counter leaves the slots of the later ones alone. */
  lemma OthersKept(n: nat, echo: seq<Option<Frame>>, k: nat, end: nat)
    requires 0 < n == |echo| && end <= k + n
    ensures forall j: nat | k < j < end :: echo[k % n := None][j % n] == echo[j % n]
  {
    forall j: nat | k < j < end
      ensures j % n != k % n
    {
      IndexDistinct(k, j, n);
    }
  }

  lemma FetchBounds(n: nat, head: nat, tail: nat)
    requires RingSize(n) && tail <= head <= tail + n && head < U32
    ensures Len(head, tail) == head - tail <= n
    ensures 0 <= LinearLen(n, head, tail) <= head - tail && tail % n + LinearLen(n, head, tail) <= n
    ensures head - tail - LinearLen(n, head, tail) <= n
  {
    SmallMod(head);
    SmallMod(tail);
    LenWrapped(head, tail);
  }

  /** Object j of the buffer is the slot of counter tail + j. */
  ghost predicate Fetched(n: nat, ram: seq<nat>, tail: nat, hw: seq<nat>, len: nat) {
    0 < n == |ram| && len <= |hw| && forall j: nat | j < len :: hw[j] == ram[(tail + j) % n]
  }

  lemma TwoReadsFetch(n: nat, ram: seq<nat>, head: nat, tail: nat, hw: seq<nat>)
    requires RingSize(n) && |ram| == n == |hw| && tail <= head <= tail + n && head < U32
    requires forall j: nat | j < head - tail && 0 <= SlotRead(n, head, tail, j) < n ::
               hw[j] == ram[SlotRead(n, head, tail, j)]
    ensures Fetched(n, ram, tail, hw, head - tail)
  {
    forall j: nat | j < head - tail
      ensures hw[j] == ram[(tail + j) % n]
    {
      LinearReadsFetchTheRing(n, head, tail, j);
    }
  }

  /** What the interrupt thread does between the two looks of tx_busy: nothing, or a pass. */
  datatype Between = Quiet | Pass(chipTxTail: nat, ram: seq<nat>, overflow: bool)

  class Priv {
    const n: nat
    const spiErr: int                  // the error of an SPI access that fails
    var spiLeft: nat                   // SPI accesses that will still succeed
    var spiFailed: nat                 // SPI accesses that have failed
    var txHead: nat
    var txTail: nat
    var tefHead: nat
    var tefTail: nat
    var obj: seq<TxObj>
    var echo: seq<Option<Frame>>
    var stopped: bool
    var reported: seq<Option<Frame>>   // handed to the receive-offload queue
    var tefReleased: nat               // UINC writes to TEFCON
    var spiQueue: seq<TxObj>           // messages handed to spi_async

    predicate Valid()
      reads this
    {
      && RingSize(n) && |obj| == |echo| == n && spiErr < 0 && spiErr != -EAGAIN
      && txTail == tefTail <= tefHead <= txHead <= txTail + n && txHead + n < U32
    }

    constructor (n: nat, spiErr: int, spiLeft: nat)
      requires RingSize(n) && spiErr < 0 && spiErr != -EAGAIN
      ensures Valid() && this.n == n && this.spiErr == spiErr && this.spiLeft == spiLeft
      ensures txHead == txTail == tefHead == tefTail == tefReleased == 0 && !stopped
      ensures reported == [] && spiQueue == []
    {
      this.n := n;
      this.spiErr, this.spiLeft, spiFailed := spiErr, spiLeft, 0;
      txHead, txTail, tefHead, tefTail, tefReleased := 0, 0, 0, 0, 0;
      obj := seq(n, i => TxObj(Frame(0, []), 0));
      echo := seq(n, i => None);
      stopped := false;
      reported, spiQueue := [], [];
    }

    method SpiAccess() returns (err: int)
      modifies this`spiLeft, this`spiFailed
      ensures err == if old(spiLeft) == 0 then spiErr else 0
      ensures spiLeft == if old(spiLeft) == 0 then 0 else old(spiLeft) - 1
      ensures spiFailed == old(spiFailed) + One(old(spiLeft) == 0)
    {
      if spiLeft == 0 {
        spiFailed := spiFailed + 1;
        return spiErr;
      }
      spiLeft := spiLeft - 1;
      err := 0;
    }

    /** Looks, stops the queue, looks again, and starts the queue if a pass in between has made room. */
    method TxBusy(between: Between) returns (busy: bool)
      requires Valid()
      requires between.Pass? ==> |between.ram| == n
      requires between.Pass? ==> tefTail <= RebuiltTefHead(n, tefHead, between.chipTxTail, txHead) <= txHead
      modifies this`tefHead, this`echo, this`reported, this`tefReleased, this`tefTail, this`txTail
      modifies this`stopped, this`spiLeft, this`spiFailed
      ensures Valid() && (busy <==> txHead == txTail + n)
      ensures old(txHead < txTail + n) || between.Quiet? ==>
        && txTail == old(txTail) && tefTail == old(tefTail) && tefHead == old(tefHead)
        && spiLeft == old(spiLeft) && spiFailed == old(spiFailed)
        && echo == old(echo) && reported == old(reported) && tefReleased == old(tefReleased)
      ensures old(txHead < txTail + n) ==> stopped == old(stopped)
      ensures old(txHead == txTail + n) ==> stopped == busy
    {
      FreeOfRing();
      if Free(n, txHead, txTail) > 0 {
        return false;
      }
      stopped := true;
      if between.Pass? {
        var err := HandleTefif(between.chipTxTail, between.ram, between.overflow);
      }
      FreeOfRing();
      if Free(n, txHead, txTail) == 0 {
        stopped := true;
        return true;
      }
      stopped := false;
      return false;
    }

    lemma FreeOfRing()
      requires Valid()
      ensures Free(n, txHead, txTail) == n - (txHead - txTail) && Sub32(txHead, txTail) == txHead - txTail
    {
      SmallMod(txHead);
      SmallMod(txTail);
      Sub32Wrapped(txHead, txTail);
    }

    /**
     A frame is taken unless the ring is full; its object and echo go to its own slot. A frame the
     kernel calls invalid is swallowed; an error of spi_async is only logged.
     */
    method StartXmit(f: Frame, valid: bool, asyncErr: int) returns (busy: bool)
      requires Valid() && txHead + 1 + n < U32
      modifies this
      ensures Valid() && txTail == old(txTail) && tefTail == old(tefTail) && tefHead == old(tefHead)
      ensures reported == old(reported) && tefReleased == old(tefReleased)
      ensures spiLeft == old(spiLeft) && spiFailed == old(spiFailed)
      ensures busy <==> valid && old(txHead) == txTail + n
      ensures busy || !valid ==>
        txHead == old(txHead) && obj == old(obj) && echo == old(echo) && spiQueue == old(spiQueue)
      ensures busy ==> stopped
      ensures !valid ==> stopped == old(stopped)
      ensures valid && !busy ==>
        && txHead == old(txHead) + 1
        && obj == old(obj[txHead % n := TxObj(f, txHead % 0x80_0000)])
        && echo == old(echo[txHead % n := Some(f)])
        && spiQueue == old(spiQueue) + (if asyncErr == 0 then [TxObj(f, old(txHead) % 0x80_0000)] else [])
        && stopped == (old(stopped) || txHead == txTail + n)
    {
      if !valid {
        return false;
      }
      busy := TxBusy(Quiet);
      if busy {
        return;
      }
      var nr := txHead % n;
      obj := obj[nr := TxObj(f, txHead % SEQ_MCP2518FD)];
      SmallMod(txHead + 1);
      txHead := (txHead + 1) % U32;
      FreeOfRing();
      if Sub32(txHead, txTail) >= n {
        stopped := true;
      }
      echo := echo[nr := Some(f)];
      if asyncErr == 0 {
        spiQueue := spiQueue + [obj[nr]];
      }
    }

    method TefRingUpdate(chipTxTail: nat)
      modifies this`tefHead
      requires n > 0
      ensures tefHead == RebuiltTefHead(n, old(tefHead), chipTxTail, txHead)
    {
      var newHead := (RoundDown(tefHead, n) + chipTxTail) % U32;
      if newHead <= tefHead {
        newHead := (newHead + n) % U32;
      }
      tefHead := Min(newHead, txHead);
    }

    method TefObjRead(ram: seq<nat>, hw: array<nat>, at: nat, offset: nat, len: nat)
      requires offset + len <= |ram| && at + len <= hw.Length
      modifies hw
      ensures forall k: nat | k < hw.Length ::
                hw[k] == if at <= k < at + len then ram[offset + (k - at)] else old(hw[k])
    {
      for i := 0 to len
        invariant forall k: nat | k < hw.Length ::
                    hw[k] == if at <= k < at + i then ram[offset + (k - at)] else old(hw[k])
      {
        hw[at + i] := ram[offset + i];
      }
    }

    /**
     A match hands out the echo, tells the chip and advances the tails; when telling the chip fails
     the echo is gone and the tails stay. A mismatch looks for an overflow and changes nothing.
     */
    method HandleTefifOne(seqNo: nat, overflow: bool) returns (err: int)
      requires Valid() && tefTail < tefHead
      modifies this`echo, this`reported, this`tefReleased, this`tefTail, this`txTail, this`spiLeft, this`spiFailed
      ensures Valid() && spiLeft == if old(spiLeft) == 0 then 0 else old(spiLeft) - 1
      ensures spiFailed == old(spiFailed) + One(old(spiLeft) == 0)
      ensures SeqMatches(seqNo, old(tefTail)) <==> seqNo % 128 == old(tefTail) % 128
      ensures var ok := One(old(spiLeft) > 0);
              SeqMatches(seqNo, old(tefTail)) ==>
                && err == (if ok == 1 then 0 else spiErr)
                && tefTail == old(tefTail) + ok && tefReleased == old(tefReleased) + ok
                && reported == old(reported + [echo[tefTail % n]])
                && echo == old(echo[tefTail % n := None])
      ensures !SeqMatches(seqNo, old(tefTail)) ==>
        && err == (if old(spiLeft) == 0 then spiErr else if overflow then -ENOBUFS else -EAGAIN)
        && tefTail == old(tefTail) && tefReleased == old(tefReleased)
        && reported == old(reported) && echo == old(echo)
    {
      if seqNo % 128 != tefTail % 128 {
        err := HandleTefifRecover(overflow);
        return;
      }
      reported := reported + [echo[tefTail % n]];
      echo := echo[tefTail % n := None];
      err := SpiAccess();
      if err != 0 {
        return;
      }
      tefReleased := tefReleased + 1;
      SmallMod(tefTail + 1);
      tefTail := (tefTail + 1) % U32;
      txTail := (txTail + 1) % U32;
      err := 0;
    }

    method HandleTefifRecover(overflow: bool) returns (err: int)
      requires spiErr < 0
      modifies this`spiLeft, this`spiFailed
      ensures err == if old(spiLeft) == 0 then spiErr else if overflow then -ENOBUFS else -EAGAIN
      ensures spiLeft == if old(spiLeft) == 0 then 0 else old(spiLeft) - 1
      ensures spiFailed == old(spiFailed) + One(old(spiLeft) == 0)
    {
      err := SpiAccess();
      if err != 0 {
        return;
      }
      if overflow {
        return -ENOBUFS;
      }
      err := -EAGAIN;
    }

    /** The two linear reads of a pass: hw[j] is the slot of counter tefTail + j, unless a read fails. */
    method FetchTef(ram: seq<nat>) returns (err: int, hw: array<nat>, len: nat)
      requires Valid() && |ram| == n
      modifies this`spiLeft, this`spiFailed
      ensures fresh(hw) && len == tefHead - tefTail <= hw.Length
      ensures var accesses := 1 + One(tefTail % n + len > n);
              && err == (if old(spiLeft) < accesses then spiErr else 0)
              && spiFailed == old(spiFailed) + One(old(spiLeft) < accesses)
              && spiLeft == if old(spiLeft) < accesses then 0 else old(spiLeft) - accesses
      ensures err == 0 ==> Fetched(n, ram, tefTail, hw[..], len)
    {
      FetchBounds(n, tefHead, tefTail);
      hide Len, LinearLen, Fetched;
      var tail, l := tefTail % n, LinearLen(n, tefHead, tefTail);
      len := Len(tefHead, tefTail);
      hw := new nat[n];
      err := SpiAccess();
      if err != 0 {
        return;
      }
      TefObjRead(ram, hw, 0, tail, l);
      if l < len {
        err := SpiAccess();
        if err != 0 {
          return;
        }
        TefObjRead(ram, hw, l, 0, len - l);
      }
      TwoReadsFetch(n, ram, tefHead, tefTail, hw[..]);
    }

    /** The loop hands out the leading run of matches, as far as the SPI accesses succeed. */
    method HandleObjects(ghost ram: seq<nat>, hw: array<nat>, len: nat, overflow: bool) returns (err: int)
      requires Valid() && |ram| == n && len == tefHead - tefTail <= hw.Length
      requires Fetched(n, ram, tefTail, hw[..], len)
      modifies this`echo, this`reported, this`tefReleased, this`tefTail, this`txTail, this`spiLeft, this`spiFailed
      ensures Valid()
      ensures var m, left := Matching(n, ram, old(tefTail), len), old(spiLeft);
              && tefTail == old(tefTail) + Min(m, left) && tefReleased == old(tefReleased) + Min(m, left)
              && reported == old(reported) + EchoesFrom(n, old(echo), old(tefTail), Min(m, left) + One(left < m))
      ensures var m, left := Matching(n, ram, old(tefTail), len), old(spiLeft);
              var needed := m + One(m < len);
              && spiFailed == old(spiFailed) + One(left < needed)
              && spiLeft == (if left < needed then 0 else left - needed)
              && err == if left < needed then spiErr else if m < len && overflow then -105 else 0
    {
      hide RingSize, SeqMatches;
      ghost var base, before, logged := tefTail, echo, reported;
      var i := 0;
      while i < len
        invariant Fetched(n, ram, base, hw[..], len)
        invariant 0 <= i <= len && Valid() && tefTail == base + i && tefReleased == old(tefReleased) + i
        invariant spiLeft == old(spiLeft) - i && spiFailed == old(spiFailed)
        invariant Matching(n, ram, base, len) == i + Matching(n, ram, base + i, len - i)
        invariant reported == logged + EchoesFrom(n, before, base, i)
        invariant forall k: nat | base + i <= k < base + len :: echo[k % n] == before[k % n]
      {
        OthersKept(n, echo, base + i, base + len);
        assert hw[i] == hw[..][i] == ram[(base + i) % n];
        err := HandleTefifOne(hw[i], overflow);
        if err == -EAGAIN {
          return 0;
        }
        if err != 0 {
          return;
        }
        i := i + 1;
      }
      err := 0;
    }

    /**
     One pass of the interrupt handler: the head is rebuilt, one or two linear reads fetch the
     events, the echoes of the leading matches are handed out in order and the queue is woken when
     there is room. A pass in which no SPI access fails returns 0, unless a mismatch meets an
     overflow (-ENOBUFS). An SPI error ends it where it occurs; the object whose release fails
     has been handed out already.
     */
    method HandleTefif(chipTxTail: nat, ram: seq<nat>, overflow: bool) returns (err: int)
      requires Valid() && |ram| == n
      requires var head := RebuiltTefHead(n, tefHead, chipTxTail, txHead); tefTail <= head <= txHead
      modifies this`tefHead, this`echo, this`reported, this`tefReleased, this`tefTail, this`txTail
      modifies this`stopped, this`spiLeft, this`spiFailed
      ensures Valid()
      ensures tefHead == if old(spiLeft) == 0 then old(tefHead) else RebuiltTefHead(n, old(tefHead), chipTxTail, txHead)
      ensures var len := tefHead - old(tefTail);
              var left := old(spiLeft) - 2 - One(old(tefTail) % n + len > n);
              var m := Matching(n, ram, old(tefTail), len);
              var done := if left < 0 then 0 else Min(m, left);
              && tefTail == old(tefTail) + done && tefReleased == old(tefReleased) + done
              && reported == old(reported) + EchoesFrom(n, old(echo), old(tefTail), done + One(0 <= left < m))
              && spiFailed == old(spiFailed) + One(left < m + One(m < len))
              && (spiFailed != old(spiFailed) ==> err == spiErr && spiLeft == 0)
              && (spiFailed == old(spiFailed) ==> done == m && err == if m < len && overflow then -105 else 0)
      ensures err == 0 ==> stopped == (old(stopped) && txHead == txTail + n)
      ensures err != 0 ==> stopped == old(stopped)
    {
      assert n > 0;
      hide Fetched, Matching, Len, LinearLen, RingSize, RebuiltTefHead, EchoesFrom;
      assert reported + EchoesFrom(n, echo, tefTail, 0) == reported;
      err := SpiAccess();
      if err != 0 {
        return;
      }
      TefRingUpdate(chipTxTail);
      err := FetchAndHandle(ram, overflow);
      if err != 0 {
        return;
      }
      WakeQueue();
    }

    method WakeQueue()
      requires Valid()
      modifies this`stopped
      ensures stopped == (old(stopped) && txHead == txTail + n)
    {
      FreeOfRing();
      if Free(n, txHead, txTail) != 0 {
        stopped := false;
      }
    }

    /** The reads and the loop of a pass. */
    method FetchAndHandle(ram: seq<nat>, overflow: bool) returns (err: int)
      requires Valid() && |ram| == n
      modifies this`echo, this`reported, this`tefReleased, this`tefTail, this`txTail, this`spiLeft, this`spiFailed
      ensures Valid()
      ensures var len := tefHead - old(tefTail);
              var left := old(spiLeft) - 1 - One(old(tefTail) % n + len > n);
              var m := Matching(n, ram, old(tefTail), len);
              var done := if left < 0 then 0 else Min(m, left);
              && tefTail == old(tefTail) + done && tefReleased == old(tefReleased) + done
              && reported == old(reported) + EchoesFrom(n, old(echo), old(tefTail), done + One(0 <= left < m))
              && spiFailed == old(spiFailed) + One(left < m + One(m < len))
              && (spiFailed != old(spiFailed) ==> err == spiErr && spiLeft == 0)
              && (spiFailed == old(spiFailed) ==> done == m && err == if m < len && overflow then -105 else 0)
    {
      assert n > 0;
      hide Fetched, Matching, Len, LinearLen, RingSize, EchoesFrom;
      assert reported + EchoesFrom(n, echo, tefTail, 0) == reported;
      var hw, len;
      err, hw, len := FetchTef(ram);
      if err != 0 {
        return;
      }
      err := HandleObjects(ram, hw, len, overflow);
    }
  }
}

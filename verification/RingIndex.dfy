/**
 Index arithmetic of the driver's rings: free-running 32-bit counters, ring sizes
 that are powers of two, and the small modular indices the chip exposes.
 */
module RingIndex {
  const U32 := 0x1_0000_0000

  /** The ring sizes the allocator can produce. */
  predicate RingSize(n: nat) { n == 1 || n == 2 || n == 4 || n == 8 || n == 16 || n == 32 }

  function Min(a: int, b: int): int { if a < b then a else b }

  function RoundDown(x: nat, n: nat): (r: nat)
    requires n > 0
  {
    x - x % n
  }

  /** u32 subtraction. */
  function Sub32(a: int, b: int): nat { (a - b) % U32 }

  function Len(head: nat, tail: nat): nat { Sub32(head, tail) % 256 }

  /** How many objects can be fetched in one go before the ring wraps. */
  function LinearLen(n: nat, head: nat, tail: nat): nat
    requires n > 0
  {
    Min(Len(head, tail), n - tail % n)
  }

  function Free(n: nat, head: nat, tail: nat): nat { (n - Sub32(head, tail)) % 256 }

  /** The absolute head rebuilt from the old head and the chip's modular index. */
  function RebuiltHead(n: nat, head: nat, chipIndex: nat): nat
    requires n > 0
  {
    var h := (RoundDown(head, n) + chipIndex) % U32;
    if h <= head then (h + n) % U32 else h
  }

  /** The same, capped by the transmit head: the new head of the transmit event ring. */
  function RebuiltTefHead(n: nat, tefHead: nat, chipTxTail: nat, txHead: nat): nat
    requires n > 0
  {
    Min(RebuiltHead(n, tefHead, chipTxTail), txHead)
  }

  // ---- division and remainder ----

  lemma DivModUnique(x: int, n: nat, q: int, r: int)
    requires n > 0 && x == q * n + r && 0 <= r < n
    ensures x / n == q && x % n == r
  {
    var p := x / n;
    assert x == p * n + x % n;
    assert (q - p) * n == x % n - r;
    assert (p - q) * n == r - x % n;
    if p < q {
      MulAtLeast(q - p, n);
    } else if q < p {
      MulAtLeast(p - q, n);
    }
  }

  lemma MulAtLeast(k: int, n: nat)
    requires k >= 1
    ensures k * n >= n
  {
    assert k * n == (k - 1) * n + n;
    assert (k - 1) * n >= 0;
  }

  /** The index r moved by at most one lap. */
  function IndexMoved(r: nat, d: int, n: nat): int {
    if r + d < 0 then r + d + n else if r + d < n then r + d else r + d - n
  }

  lemma ModAdd(x: nat, d: int, n: nat)
    requires n > 0 && 0 <= d + n && d <= n
    ensures (x + d) % n == IndexMoved(x % n, d, n)
  {
    var q: int := x / n;
    var r: int := x % n;
    assert x == q * n + r;
    if r + d < 0 {
      assert x + d == (q - 1) * n + (r + d + n);
      DivModUnique(x + d, n, q - 1, r + d + n);
    } else if r + d < n {
      DivModUnique(x + d, n, q, r + d);
    } else {
      assert x + d == (q + 1) * n + (r + d - n);
      DivModUnique(x + d, n, q + 1, r + d - n);
    }
  }

  /** Counters less than a lap apart never share an index. */
  lemma IndexDistinct(a: nat, b: nat, n: nat)
    requires n > 0 && a < b < a + n
    ensures a % n != b % n
  {
    ModAdd(a, b - a, n);
  }

  lemma IndexOfLaps(x: nat, n: nat, laps: nat)
    requires n > 0 && U32 == laps * n
    ensures (x % U32) % n == x % n
  {
    var k, h := x / U32, x % U32;
    assert x == k * U32 + h;
    assert x == (k * laps + h / n) * n + h % n by {
      assert k * U32 == (k * laps) * n by { MulAssoc(k, laps, n); }
      assert h == (h / n) * n + h % n;
      MulDistributes(k * laps, h / n, n);
    }
    DivModUnique(x, n, k * laps + h / n, h % n);
  }

  /** The ring size divides 2^32, so a wrapped counter keeps its index. */
  lemma IndexOfWrapped(x: nat, n: nat)
    requires RingSize(n)
    ensures (x % U32) % n == x % n
  {
    if n == 1 {
      IndexOfLaps(x, 1, 0x1_0000_0000);
    } else if n == 2 {
      IndexOfLaps(x, 2, 0x8000_0000);
    } else if n == 4 {
      IndexOfLaps(x, 4, 0x4000_0000);
    } else if n == 8 {
      IndexOfLaps(x, 8, 0x2000_0000);
    } else if n == 16 {
      IndexOfLaps(x, 16, 0x1000_0000);
    } else {
      IndexOfLaps(x, 32, 0x800_0000);
    }
  }

  lemma MulAssoc(a: int, b: int, c: int)
    ensures a * (b * c) == (a * b) * c
  {
  }

  lemma MulDistributes(a: int, b: int, c: int)
    ensures (a + b) * c == a * c + b * c
  {
  }

  lemma MulMonotone(a: nat, b: nat, c: nat)
    ensures a <= b ==> a * c <= b * c
  {
    if a <= b {
      MulDistributes(b - a, a, c);
    }
  }

  /** The distance of two wrapped counters is their true distance. */
  lemma Sub32Wrapped(a: nat, b: nat)
    requires b <= a < b + U32
    ensures Sub32(a % U32, b % U32) == a - b
  {
  }

  /** A distance of at most one ring length survives every narrowing the driver does. */
  lemma LenWrapped(head: nat, tail: nat)
    requires tail <= head <= tail + 255
    ensures Len(head % U32, tail % U32) == head - tail
  {
    Sub32Wrapped(head, tail);
  }

  // ---- rebuilding the head ----

  /** The chip's index fixes the count up to a lap: the rebuilt head is the next match beyond the old head. */
  lemma RebuiltHeadIs(n: nat, head: nat, count: nat)
    requires RingSize(n) && head - n < count <= head + n
    ensures RebuiltHead(n, head % U32, count % n)
         == (if count > head then count else count + n) % U32
  {
    hide RingSize, RebuiltHead, IndexMoved;
    IndexOfWrapped(head, n);
    ModAdd(head, count - head, n);
    RebuiltFrom(n, head % U32, count - head, count % n);
    WrappedMove(head, count - head);
    WrappedMove(head, count + n - head);
  }

  lemma RebuiltFrom(n: nat, h: nat, d: int, chipIndex: nat)
    requires RingSize(n) && h < U32 && 0 < d + n && d <= n && chipIndex == IndexMoved(h % n, d, n)
    ensures RebuiltHead(n, h, chipIndex) == (h + (if d > 0 then d else d + n)) % U32
  {
    RoundedRoom(h, n);
    var r := h % n;
    assert r <= h by { RemainderBelow(h, n); }
    hide RingSize, IndexMoved;
    RebuiltCore(n, h, r, d);
  }

  lemma RemainderBelow(h: nat, n: nat)
    requires n > 0
    ensures h % n <= h
  {
    var q := h / n;
    assert h == q * n + h % n;
    assert q * n >= 0;
  }

  /** The same arithmetic with the remainder as a number of its own. */
  lemma RebuiltCore(n: nat, h: nat, r: nat, d: int)
    requires r < n && r <= h && h - r + n <= U32 && 0 < d + n && d <= n
    ensures var sum := (h - r + IndexMoved(r, d, n)) % U32;
            (if sum <= h then (sum + n) % U32 else sum) == (h + (if d > 0 then d else d + n)) % U32
  {
    BelowU32(h - r + IndexMoved(r, d, n));
  }

  lemma BelowU32(x: int)
    requires 0 <= x < U32
    ensures x % U32 == x
  {
  }

  lemma WrappedMove(head: nat, d: int)
    ensures (head % U32 + d) % U32 == (head + d) % U32
  {
  }

  /** Below 2^32 there is always room for the rest of the lap. */
  lemma RoundedRoom(h: nat, n: nat)
    requires RingSize(n) && h < U32
    ensures RoundDown(h, n) + n <= U32
  {
    IndexOfWrapped(h, n);
  }

  /**
   The rebuilt receive head is the chip's count exactly when the chip holds something:
   right up to the full FIFO, and across any number of counter wraps.
   */
  lemma RebuiltHeadExactIff(n: nat, head: nat, count: nat)
    requires RingSize(n) && head <= count <= head + n
    ensures RebuiltHead(n, head % 0x1_0000_0000, count % n) == count % 0x1_0000_0000 <==> count != head
  {
    RebuiltHeadIs(n, head, count);
    if count == head {
      LapChanges(count, n);
    }
  }

  lemma LapChanges(x: nat, n: nat)
    requires RingSize(n)
    ensures (x + n) % U32 != x % U32
  {
  }

  /**
   The transmit event head: the chip's completion count when that lies beyond the old head,
   and otherwise an overshoot to everything the driver ever queued.
   */
  lemma RebuiltTefHeadIs(n: nat, tail: nat, tefHead: nat, completed: nat, txHead: nat)
    requires RingSize(n)
    requires tail <= tefHead <= txHead && tail <= completed <= txHead <= tail + n
    requires txHead + n < 0x1_0000_0000
    ensures RebuiltTefHead(n, tefHead, completed % n, txHead) == if completed > tefHead then completed else txHead
  {
    var next := RebuiltHead(n, tefHead, completed % n);
    if completed + n == tefHead {
      SameIndex(completed, n);
      RebuiltBelow(n, tefHead, tefHead);
      assert next == tefHead + n;
    } else {
      RebuiltBelow(n, tefHead, completed);
      assert next == if completed > tefHead then completed else completed + n;
    }
  }

  lemma SameIndex(x: nat, n: nat)
    requires n > 0
    ensures (x + n) % n == x % n
  {
    ModAdd(x, n, n);
  }

  lemma RebuiltBelow(n: nat, head: nat, count: nat)
    requires RingSize(n) && head - n < count <= head + n && head + n < U32 && count + n < U32
    ensures RebuiltHead(n, head, count % n) == if count > head then count else count + n
  {
    SmallMod(head);
    SmallMod(count);
    SmallMod(count + n);
    RebuiltHeadIs(n, head, count);
  }

  lemma SmallMod(x: nat)
    requires x < U32
    ensures x % U32 == x
  {
  }

  /** The count the driver means to rebuild: the next match beyond the old head. */
  function NextMatch(n: nat, tefHead: nat, completed: nat): nat
  {
    if completed > tefHead then completed else completed + n
  }

  /**
   Without the bound the cap compares wrapped counters. The 32-bit result is the wrapped
   intended one exactly when both sides of the comparison are in the same epoch of 2^32
   (or are equal).
   */
  lemma TefHeadAcrossWrapIff(n: nat, tefHead: nat, completed: nat, txHead: nat)
    requires RingSize(n)
    requires tefHead - n < completed <= txHead && tefHead <= txHead <= tefHead + n
    ensures var next := NextMatch(n, tefHead, completed);
            RebuiltTefHead(n, tefHead % 0x1_0000_0000, completed % n, txHead % 0x1_0000_0000)
              == (if next < txHead then next else txHead) % 0x1_0000_0000
            <==> (next / 0x1_0000_0000 == txHead / 0x1_0000_0000 || next == txHead)
  {
    RebuiltHeadIs(n, tefHead, completed);
  }

  /** A run that meets it: 2^32 - 5 completed frames, nothing new, four more in flight. */
  lemma TefHeadWrapsWrong()
    ensures var done := 0xFFFF_FFFB;
            && RebuiltTefHead(8, done, done % 8, done + 4) == 3
            && Len(3, done - 1) == 9 > 8
  {
  }
}

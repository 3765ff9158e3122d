/**
 Where the MCP251xFD driver puts the transmit event, transmit and receive objects in the
 chip's RAM, and how it clears that RAM first. Ring sizes and counts are parameters; the
 two configurations the driver chooses between are at the end.
 */
module RamLayout {
  import opened RingIndex

  const RAM_START := 0x400
  const RAM_SIZE := 2048
  const ENOMEM := 12
  const ENOENT := 2

  datatype RxRing = RxRing(base: nat, nr: nat, fifoNr: nat, objNum: nat, objSize: nat)

  // ---- sizing a receive ring ----

  function Pow2(e: nat): (p: nat)
    ensures p >= 1
  {
    if e == 0 then 1 else 2 * Pow2(e - 1)
  }

  /** The kernel's fls: position of the highest set bit, counted from one. */
  function Fls(x: nat): nat { if x == 0 then 0 else 1 + Fls(x / 2) }

  function RxObjNum(ramFree: nat, objSize: nat): nat
    requires 0 < objSize <= ramFree
  {
    RoomForOne(ramFree, objSize);
    Min(Pow2(Fls(ramFree / objSize) - 1), 32)
  }

  lemma RoomForOne(ramFree: nat, objSize: nat)
    requires 0 < objSize <= ramFree
    ensures ramFree / objSize >= 1 && Fls(ramFree / objSize) >= 1
  {
    assert ramFree == (ramFree / objSize) * objSize + ramFree % objSize;
  }

  lemma {:induction false} FlsBrackets(x: nat)
    requires x > 0
    ensures Fls(x) >= 1 && Pow2(Fls(x) - 1) <= x < Pow2(Fls(x))
  {
    if x > 1 {
      FlsBrackets(x / 2);
    }
  }

  lemma SmallPowers(e: nat)
    ensures RingSize(Min(Pow2(e), 32))
    ensures Pow2(e) < 32 ==> 2 * Pow2(e) <= 32
  {
    if e > 5 {
      PowersGrow(5, e);
    }
    assert Pow2(0) == 1 && Pow2(1) == 2 && Pow2(2) == 4 && Pow2(3) == 8 && Pow2(4) == 16 && Pow2(5) == 32 by {
      assert Pow2(5) == 2 * Pow2(4) && Pow2(4) == 2 * Pow2(3) && Pow2(3) == 2 * Pow2(2) && Pow2(2) == 2 * Pow2(1);
    }
  }

  lemma {:induction false} PowersGrow(a: nat, b: nat)
    requires a <= b
    ensures Pow2(a) <= Pow2(b)
    decreases b
  {
    if a < b {
      PowersGrow(a, b - 1);
    }
  }

  /** A power of two up to 32 that fits, and the next one would not (or is above 32). */
  predicate LargestFitting(num: nat, ramFree: nat, objSize: nat) {
    && RingSize(num) && num * objSize <= ramFree
    && (num == 32 || 2 * num * objSize > ramFree)
  }

  lemma LargestOf(ramFree: nat, size: nat, q: nat, p: nat)
    requires q * size <= ramFree < (q + 1) * size && p <= q < 2 * p && RingSize(Min(p, 32))
    ensures LargestFitting(Min(p, 32), ramFree, size)
  {
    hide RingSize;
    MulMonotone(Min(p, 32), q, size);
    MulMonotone(q + 1, 2 * p, size);
  }

  /** The ring gets the largest power of two of objects, at most 32, that the free RAM holds. */
  lemma RxObjNumIsLargest(ramFree: nat, objSize: nat)
    requires 0 < objSize <= ramFree
    ensures LargestFitting(RxObjNum(ramFree, objSize), ramFree, objSize)
    ensures var num := RxObjNum(ramFree, objSize);
      && (num == 1 || num == 2 || num == 4 || num == 8 || num == 16 || num == 32)
      && num * objSize <= ramFree && (num == 32 || 2 * num * objSize > ramFree)
  {
    hide LargestFitting, RingSize, Fls, Pow2;
    RoomForOne(ramFree, objSize);
    var q := ramFree / objSize;
    FlsBrackets(q);
    PowStep(Fls(q));
    SmallPowers(Fls(q) - 1);
    assert q * objSize <= ramFree < (q + 1) * objSize by {
      assert ramFree == q * objSize + ramFree % objSize;
      MulDistributes(q, 1, objSize);
    }
    LargestOf(ramFree, objSize, q, Pow2(Fls(q) - 1));
    FittingMeans(RxObjNum(ramFree, objSize), ramFree, objSize);
  }

  lemma FittingMeans(num: nat, ramFree: nat, objSize: nat)
    requires LargestFitting(num, ramFree, objSize)
    ensures num == 1 || num == 2 || num == 4 || num == 8 || num == 16 || num == 32
    ensures num * objSize <= ramFree && (num == 32 || 2 * num * objSize > ramFree)
  {
  }

  lemma PowStep(e: nat)
    requires e > 0
    ensures Pow2(e) == 2 * Pow2(e - 1)
  {
  }

  // ---- allocation ----

  function Bytes(r: RxRing): nat { r.objNum * r.objSize }

  function TotalBytes(rings: seq<RxRing>): nat {
    if rings == [] then 0 else TotalBytes(rings[..|rings| - 1]) + Bytes(rings[|rings| - 1])
  }

  /** The RAM still free before ring i is sized. */
  function FreeBefore(ramFree: int, rings: seq<RxRing>, i: nat): int
    requires i <= |rings|
  {
    ramFree - TotalBytes(rings[..i])
  }

  ghost predicate SizedIn(ramFree: int, rings: seq<RxRing>, rxSize: nat, i: nat)
    requires i < |rings|
  {
    && rings[i].objSize == rxSize && 0 <= FreeBefore(ramFree, rings, i)
    && LargestFitting(rings[i].objNum, FreeBefore(ramFree, rings, i), rxSize)
  }

  ghost predicate Sized(ramFree: int, rings: seq<RxRing>, rxSize: nat) {
    && (rings != [] ==> TotalBytes(rings) <= ramFree)
    && forall i | 0 <= i < |rings| :: SizedIn(ramFree, rings, rxSize, i)
  }

  lemma OneMoreRing(ramFree: int, rings: seq<RxRing>, rxSize: nat, ring: RxRing)
    requires Sized(ramFree, rings, rxSize) && ring.objSize == rxSize
    requires 0 <= ramFree - TotalBytes(rings) && LargestFitting(ring.objNum, ramFree - TotalBytes(rings), rxSize)
    ensures Sized(ramFree, rings + [ring], rxSize)
    ensures TotalBytes(rings + [ring]) == TotalBytes(rings) + Bytes(ring)
  {
    var more := rings + [ring];
    assert more[..|rings|] == rings;
    forall i | 0 <= i < |more|
      ensures SizedIn(ramFree, more, rxSize, i)
    {
      if i < |rings| {
        assert SizedIn(ramFree, rings, rxSize, i);
        assert more[..i] == rings[..i];
      }
    }
  }

  // ---- where everything lies ----

  datatype Region = Region(start: int, bytes: int)

  predicate Disjoint(a: Region, b: Region) { a.start + a.bytes <= b.start || b.start + b.bytes <= a.start }

  predicate Within(a: Region, b: Region) { b.start <= a.start && a.start + a.bytes <= b.start + b.bytes }

  function ObjAddr(base: nat, objSize: nat, k: nat): nat { base + objSize * k }

  /** Bases as ring_init computes them: each ring begins where the one before ends. */
  ghost predicate Based(rings: seq<RxRing>, first: nat) {
    forall i | 0 <= i < |rings| :: BasedAt(rings, first, i)
  }

  predicate BasedAt(rings: seq<RxRing>, first: nat, i: nat)
    requires i < |rings|
  {
    rings[i].base == first + TotalBytes(rings[..i]) && rings[i].nr == i && rings[i].fifoNr == 2 + i
  }

  lemma {:induction false} TotalGrows(rings: seq<RxRing>, i: nat, j: nat)
    requires i < j <= |rings|
    ensures TotalBytes(rings[..i]) + Bytes(rings[i]) <= TotalBytes(rings[..j])
    decreases j
  {
    assert rings[..j][..j - 1] == rings[..j - 1];
    if i < j - 1 {
      TotalGrows(rings, i, j - 1);
    }
  }

  /** The regions in the order of the code: events, transmit objects, then one per receive ring. */
  function RegionAt(tefSize: nat, txNum: nat, txSize: nat, txBase: nat, rx: seq<RxRing>, i: nat): Region
    requires i < 2 + |rx|
  {
    if i == 0 then Region(RAM_START, txNum * tefSize)
    else if i == 1 then Region(txBase, txNum * txSize)
    else Region(rx[i - 2].base, Bytes(rx[i - 2]))
  }

  /**
   The chip's RAM is divided without overlap: every two of the event, transmit and receive
   regions are disjoint, all lie inside the RAM, and every receive ring has a ring size.
   */
  lemma RegionsDisjoint(tefSize: nat, txNum: nat, txSize: nat, txBase: nat, rx: seq<RxRing>, rxSize: nat)
    requires txNum * (tefSize + txSize) <= 2048 && txBase == 0x400 + txNum * tefSize
    requires Sized(2048 - txNum * (tefSize + txSize), rx, rxSize)
    requires Based(rx, txBase + txNum * txSize)
    ensures forall i | 0 <= i < |rx| :: RingSize(rx[i].objNum)
    ensures forall i | 0 <= i < 2 + |rx| ::
      var r := RegionAt(tefSize, txNum, txSize, txBase, rx, i);
      0x400 <= r.start && r.start + r.bytes <= 0xC00
    ensures forall i, j | 0 <= i < j < 2 + |rx| ::
      Disjoint(RegionAt(tefSize, txNum, txSize, txBase, rx, i), RegionAt(tefSize, txNum, txSize, txBase, rx, j))
  {
    hide Sized, Based, TotalBytes, LargestFitting, RingSize;
    var total := txNum * (tefSize + txSize);
    assert total == txNum * tefSize + txNum * txSize;
    forall i: nat | i < |rx|
      ensures RingSize(rx[i].objNum)
      ensures RAM_START + total <= rx[i].base && rx[i].base + Bytes(rx[i]) <= RAM_START + RAM_SIZE
    {
      RingPlaced(rx, RAM_SIZE - total, RAM_START + total, rxSize, i);
    }
    forall i: nat, j: nat | i < j < |rx|
      ensures rx[i].base + Bytes(rx[i]) <= rx[j].base
    {
      RingsOrdered(rx, RAM_START + total, i, j);
    }
  }

  lemma RingPlaced(rx: seq<RxRing>, ramFree: int, first: nat, rxSize: nat, i: nat)
    requires Sized(ramFree, rx, rxSize) && Based(rx, first) && i < |rx|
    ensures RingSize(rx[i].objNum)
    ensures first <= rx[i].base && rx[i].base + Bytes(rx[i]) <= first + ramFree
  {
    hide RingSize, TotalBytes, Bytes;
    assert SizedIn(ramFree, rx, rxSize, i) && BasedAt(rx, first, i);
    assert rx[..|rx|] == rx;
    TotalGrows(rx, i, |rx|);
  }

  lemma RingsOrdered(rx: seq<RxRing>, first: nat, i: nat, j: nat)
    requires Based(rx, first) && i < j < |rx|
    ensures rx[i].base + Bytes(rx[i]) <= rx[j].base
  {
    assert BasedAt(rx, first, i) && BasedAt(rx, first, j);
    TotalGrows(rx, i, j);
  }

  /** Object k of a ring lies inside the ring's region, and different objects do not overlap. */
  lemma ObjectsInRegion(base: nat, num: nat, size: nat, j: nat, k: nat)
    requires j < num && k < num
    ensures Within(Region(ObjAddr(base, size, k), size), Region(base, num * size))
    ensures j != k ==> Disjoint(Region(ObjAddr(base, size, j), size), Region(ObjAddr(base, size, k), size))
  {
    MulMonotone(k + 1, num, size);
    MulMonotone(k + 1, j, size);
    MulMonotone(j + 1, k, size);
    MulDistributes(k, 1, size);
    MulDistributes(j, 1, size);
  }

  lemma MulCommutes(a: nat, b: nat)
    ensures a * b == b * a
  {
  }

  // ---- from an address back to the object ----

  datatype Lookup = Found(nr: nat) | Missing(err: int)

  function TxNrByAddr(base: nat, num: nat, size: nat, addr: nat): Lookup
    requires size > 0
  {
    if addr < ObjAddr(base, size, 0) || addr >= ObjAddr(base, size, num) then Missing(-ENOENT)
    else Found((addr - ObjAddr(base, size, 0)) / size)
  }

  /** On every byte: the lookup finds object k exactly when the byte belongs to object k. */
  lemma LookupInverts(base: nat, num: nat, size: nat, addr: nat, k: nat)
    requires size > 0
    ensures TxNrByAddr(base, num, size, addr) == Found(k)
       <==> k < num && ObjAddr(base, size, k) <= addr < ObjAddr(base, size, k) + size
  {
    var d := addr - base;
    if k < num && ObjAddr(base, size, k) <= addr < ObjAddr(base, size, k) + size {
      MulMonotone(k + 1, num, size);
      MulDistributes(k, 1, size);
      DivModUnique(d, size, k, d - k * size);
    } else if TxNrByAddr(base, num, size, addr).Found? {
      assert d == (d / size) * size + d % size;
      MulMonotone(num, d / size, size);
    }
  }

  // ---- the driver's code ----

  class Rings {
    var tefObjSize: nat
    var txObjNum: nat
    var txObjSize: nat
    var txBase: nat
    var rx: seq<RxRing>

    /** The sizes chosen by the control mode: listen-only works like FD. */
    method ChooseSizes(fdOrListenOnly: bool) returns (rxObjSize: nat)
      modifies this`tefObjSize, this`txObjNum, this`txObjSize
      ensures tefObjSize == 12
      ensures if fdOrListenOnly then txObjNum == 4 && txObjSize == 72 && rxObjSize == 76
              else txObjNum == 8 && txObjSize == 16 && rxObjSize == 20
    {
      tefObjSize := 4 + 4 + 4;
      if fdOrListenOnly {
        txObjNum, txObjSize, rxObjSize := 4, 4 + 4 + 64, 4 + 4 + 4 + 64;
      } else {
        txObjNum, txObjSize, rxObjSize := 8, 4 + 4 + 8, 4 + 4 + 4 + 8;
      }
    }

    /** Up to `slots` receive rings; memOk says which of the kernel allocations succeed. */
    method AllocRx(rxObjSize: nat, slots: nat, memOk: seq<bool>) returns (err: int)
      requires rxObjSize > 0 && |memOk| == slots
      modifies this`rx
      ensures err == 0 || err == -12
      ensures err != 0 ==> rx == [] && false in memOk
      ensures err == 0 ==>
        var ramFree := 2048 - txObjNum * (tefObjSize + txObjSize);
        && |rx| <= slots && Sized(ramFree, rx, rxObjSize)
        && (|rx| < slots ==> ramFree - TotalBytes(rx) < rxObjSize)
    {
      hide Sized, LargestFitting;
      rx := [];
      var ramFree := RAM_SIZE - txObjNum * (tefObjSize + txObjSize);
      ghost var all := ramFree;
      var i := 0;
      SizedNone(all, rxObjSize);
      while i < slots && ramFree >= rxObjSize
        invariant |rx| == i <= slots && ramFree == all - TotalBytes(rx) && Sized(all, rx, rxObjSize)
      {
        var num := RxObjNum(ramFree, rxObjSize);
        if !memOk[i] {
          rx := [];
          return -ENOMEM;
        }
        var ring := RxRing(0, 0, 0, num, rxObjSize);
        RxObjNumIsLargest(ramFree, rxObjSize);
        OneMoreRing(all, rx, rxObjSize, ring);
        rx := rx + [ring];
        ramFree := ramFree - num * rxObjSize;
        i := i + 1;
      }
      err := 0;
    }

    /** Bases in the order events, transmit objects, receive rings; nothing else changes. */
    method InitRings()
      modifies this`txBase, this`rx
      ensures txBase == 0x400 + txObjNum * tefObjSize
      ensures |rx| == |old(rx)| && Based(rx, txBase + txObjNum * txObjSize)
      ensures forall i | 0 <= i < |rx| ::
        && rx[i].nr == i && rx[i].fifoNr == 2 + i
        && rx[i].base == if i == 0 then txBase + txObjNum * txObjSize
                         else rx[i - 1].base + rx[i - 1].objNum * rx[i - 1].objSize
      ensures forall i | 0 <= i < |rx| :: rx[i].objNum == old(rx)[i].objNum && rx[i].objSize == old(rx)[i].objSize
    {
      hide Based, TotalBytes;
      MulCommutes(txObjNum, tefObjSize);
      MulCommutes(txObjNum, txObjSize);
      txBase := ObjAddr(RAM_START, tefObjSize, txObjNum);
      BasedNone(txBase + txObjNum * txObjSize);
      ghost var first := txBase + txObjNum * txObjSize;
      var i := 0;
      assert rx[..0] == [];
      while i < |rx|
        invariant 0 <= i <= |rx| == |old(rx)|
        invariant txBase == RAM_START + txObjNum * tefObjSize && Based(rx[..i], first)
        invariant forall k | 0 <= k < |rx| :: rx[k].objNum == old(rx)[k].objNum && rx[k].objSize == old(rx)[k].objSize
      {
        var base := if i == 0 then ObjAddr(txBase, txObjSize, txObjNum)
                    else rx[i - 1].base + rx[i - 1].objSize * rx[i - 1].objNum;
        ghost var before := rx;
        rx := rx[i := rx[i].(base := base, nr := i, fifoNr := 2 + i)];
        assert ObjAddr(txBase, txObjSize, txObjNum) == first;
        BaseNext(before, rx, i, first);
        i := i + 1;
      }
      assert rx[..|rx|] == rx;
      forall i | 0 <= i < |rx|
        ensures rx[i].nr == i && rx[i].fifoNr == 2 + i
        ensures rx[i].base == if i == 0 then first else rx[i - 1].base + rx[i - 1].objNum * rx[i - 1].objSize
      {
        BasedMeans(rx, first, i);
      }
    }

    /** Allocation and initialisation together, for any number of receive ring slots. */
    method Setup(fdOrListenOnly: bool, slots: nat, memOk: seq<bool>) returns (err: int)
      requires |memOk| == slots
      modifies this
      ensures err == 0 || (err == -12 && rx == [] && false in memOk)
      ensures err == 0 ==> forall i | 0 <= i < |rx| :: RingSize(rx[i].objNum)
      ensures err == 0 ==> forall i | 0 <= i < 2 + |rx| ::
        var r := RegionAt(tefObjSize, txObjNum, txObjSize, txBase, rx, i);
        0x400 <= r.start && r.start + r.bytes <= 0xC00
      ensures err == 0 ==> forall i, j | 0 <= i < j < 2 + |rx| ::
        Disjoint(RegionAt(tefObjSize, txObjNum, txObjSize, txBase, rx, i),
                 RegionAt(tefObjSize, txObjNum, txObjSize, txBase, rx, j))
    {
      hide Sized, Based, Disjoint, RegionAt, TotalBytes, RingSize;
      var rxObjSize := ChooseSizes(fdOrListenOnly);
      err := AllocRx(rxObjSize, slots, memOk);
      if err != 0 {
        return;
      }
      ghost var before := rx;
      InitRings();
      SizedSame(RAM_SIZE - txObjNum * (tefObjSize + txObjSize), before, rx, rxObjSize);
      RegionsDisjoint(tefObjSize, txObjNum, txObjSize, txBase, rx, rxObjSize);
    }

    method GetTxNrByAddr(addr: nat) returns (r: Lookup)
      requires txObjSize > 0
      ensures r.Found? <==> txBase <= addr < txBase + txObjSize * txObjNum
      ensures r.Found? ==>
        r.nr < txObjNum && txBase + txObjSize * r.nr <= addr < txBase + txObjSize * r.nr + txObjSize
      ensures r.Missing? ==> r.err == -2
    {
      if addr < ObjAddr(txBase, txObjSize, 0) || addr >= ObjAddr(txBase, txObjSize, txObjNum) {
        return Missing(-ENOENT);
      }
      r := Found((addr - ObjAddr(txBase, txObjSize, 0)) / txObjSize);
      LookupInverts(txBase, txObjNum, txObjSize, addr, r.nr);
    }
  }

  predicate SameSizes(a: seq<RxRing>, b: seq<RxRing>) {
    |a| == |b| && forall i | 0 <= i < |a| :: a[i].objNum == b[i].objNum && a[i].objSize == b[i].objSize
  }

  lemma {:induction false} TotalSame(a: seq<RxRing>, b: seq<RxRing>)
    requires SameSizes(a, b)
    ensures TotalBytes(a) == TotalBytes(b)
    decreases |a|
  {
    if a != [] {
      TotalSame(a[..|a| - 1], b[..|b| - 1]);
    }
  }

  lemma SizedSame(ramFree: int, a: seq<RxRing>, b: seq<RxRing>, rxSize: nat)
    requires SameSizes(a, b) && Sized(ramFree, a, rxSize)
    ensures Sized(ramFree, b, rxSize)
  {
    hide TotalBytes, LargestFitting;
    TotalSame(a, b);
    if b != [] {
      assert a != [];
    }
    forall i | 0 <= i < |b|
      ensures SizedIn(ramFree, b, rxSize, i)
    {
      assert SizedIn(ramFree, a, rxSize, i);
      TotalSame(a[..i], b[..i]);
    }
  }

  lemma SizedNone(ramFree: int, rxSize: nat)
    ensures Sized(ramFree, [], rxSize)
  {
  }

  lemma BasedNone(first: nat)
    ensures Based([], first)
  {
  }

  lemma BasedMeans(rings: seq<RxRing>, first: nat, i: nat)
    requires Based(rings, first) && i < |rings|
    ensures rings[i].nr == i && rings[i].fifoNr == 2 + i
    ensures rings[i].base == if i == 0 then first else rings[i - 1].base + rings[i - 1].objNum * rings[i - 1].objSize
  {
    assert BasedAt(rings, first, i);
    if i > 0 {
      assert BasedAt(rings, first, i - 1);
      assert rings[..i][..i - 1] == rings[..i - 1];
    }
  }

  lemma BaseNext(before: seq<RxRing>, after: seq<RxRing>, i: nat, first: nat)
    requires i < |before| == |after| && Based(before[..i], first)
    requires after == before[i := after[i]] && after[i].nr == i && after[i].fifoNr == 2 + i
    requires after[i].base
          == if i == 0 then first else before[i - 1].base + before[i - 1].objSize * before[i - 1].objNum
    ensures Based(after[..i + 1], first)
  {
    var was, now := before[..i], after[..i + 1];
    forall k: nat | k < i + 1
      ensures BasedAt(now, first, k)
    {
      assert now[..k] == was[..k];
      if k < i {
        assert BasedAt(was, first, k);
      } else if i > 0 {
        assert BasedAt(was, first, i - 1);
        assert was[..i] == was;
        assert was[..i][..i - 1] == was[..i - 1];
      }
    }
  }

  /** The driver's two configurations: 16 FD or 32 classic receive objects in its one ring. */
  lemma DriverConfigurations()
    ensures RxObjNum(2048 - 4 * (12 + 72), 76) == 16
    ensures RxObjNum(2048 - 8 * (12 + 16), 20) == 32
  {
    RxObjNumIsLargest(1712, 76);
    RxObjNumIsLargest(1824, 20);
  }

  // ---- clearing the RAM ----

  /**
   The loop counter advances by 129 for 128 bytes cleared; sixteen writes still cover the RAM
   exactly. regErr is the outcome of the register update before, haveBuf says whether the zero
   block could be allocated, okWrites how many SPI writes succeed before one fails.
   */
  method EccInit(ram: array<bv8>, regErr: int, haveBuf: bool, writeErr: int, okWrites: nat) returns (err: int)
    requires ram.Length == 2048 && writeErr != 0
    modifies ram
    ensures err == if regErr != 0 then regErr else if !haveBuf then -12 else if okWrites >= 16 then 0 else writeErr
    ensures var cleared := if regErr != 0 || !haveBuf then 0 else if okWrites < 16 then 128 * okWrites else 2048;
            forall k | 0 <= k < 2048 :: ram[k] == if k < cleared then 0 else old(ram[k])
  {
    err := regErr;
    if err != 0 {
      return;
    }
    if !haveBuf {
      return -ENOMEM;
    }
    var maxSize := 128;
    var addr, i := RAM_START, 0;
    var turn: nat := 0;
    while i < RAM_SIZE
      invariant i == 129 * turn && addr == RAM_START + 128 * turn && turn <= 16 && turn <= okWrites && err == 0
      invariant forall k | 0 <= k < RAM_SIZE :: ram[k] == if k < 128 * turn then 0 else old(ram[k])
    {
      if turn == okWrites {
        err := writeErr;
        break;
      }
      forall k | addr - RAM_START <= k < addr - RAM_START + maxSize {
        ram[k] := 0;
      }
      i := i + maxSize;
      addr := addr + maxSize;
      i := i + 1;
      turn := turn + 1;
    }
  }
}

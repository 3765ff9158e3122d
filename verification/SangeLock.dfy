/**
 Any number of processes issuing sange operations on one device, ioctl by ioctl, under the
 exclusive file lock of sange.h. An ioctl either fails without an effect or takes effect.
 The device collects the bytes written between chip-select assert (mode 0x81) and deassert
 (mode 0x83) into one frame.
 */
module SangeLock {
  import opened Frames

  const MODE_COUNT := 0x02
  const MODE_TX := 0x81
  const MODE_RX := 0x82
  const MODE_OFF := 0x83

  // ---- the device ----

  datatype Dev = Dev(mode: nat, cur: seq<Byte>, frames: seq<seq<Byte>>)

  /** Asserting an asserted chip-select goes on with the frame; deasserting ends it. */
  function WriteMode(d: Dev, m: nat): Dev {
    if d.mode == MODE_TX && m == MODE_OFF then Dev(m, [], d.frames + [d.cur])
    else if m == MODE_TX && d.mode != MODE_TX then Dev(m, [], d.frames)
    else d.(mode := m)
  }

  function WriteData(d: Dev, b: Byte): Dev {
    if d.mode == MODE_TX then d.(cur := d.cur + [b]) else d
  }

  // ---- a process ----

  /** Where a process is; the operations hold the lock from TxLocked and RxLocked up to Unlock. */
  datatype Pc =
    | Resting
    | WantTx(pkt: seq<Byte>)
    | TxLocked(pkt: seq<Byte>)            // before 0x81
    | TxData(pkt: seq<Byte>, k: nat)      // k bytes written
    | TxEnd(pkt: seq<Byte>, k: nat)       // before 0x83
    | WantRx(max: nat)
    | RxLocked(max: nat)                  // before 0x02
    | CountFirst(max: nat)
    | CountSecond(max: nat, b1: Byte)
    | CountEnd(max: nat, count: int)      // before 0x83
    | RxMode(n: nat, off: bool)           // before 0x82; off: the deassert before it took effect
    | RxData(n: nat, got: nat)
    | RxEnd(got: nat)                     // before 0x83
    | Unlock

  /** The outcome of an ioctl: an error, or success with the byte a read returns. */
  datatype Io = Fail | Done(value: Byte)

  datatype Op = Send(pkt: seq<Byte>) | Poll(max: nat)

  datatype Act = Begin(p: nat, op: Op) | Lock(p: nat) | Ioctl(p: nat, io: Io) | Release(p: nat)

  /** A finished frame as its sender sees it: k of the bytes of pkt were written. */
  datatype Sent = Sent(p: nat, pkt: seq<Byte>, k: nat)

  datatype World = World(lock: Option<nat>, pcs: seq<Pc>, dev: Dev, log: seq<Sent>)

  function Start(n: nat): World { World(None, seq(n, i => Resting), Dev(MODE_OFF, [], []), []) }

  predicate InLock(pc: Pc) { !pc.Resting? && !pc.WantTx? && !pc.WantRx? }

  predicate DoesIo(pc: Pc) { InLock(pc) && !pc.Unlock? }

  function TwoByteCount(b1: Byte, b2: Byte): nat {
    var hi: nat, lo: nat := b1 % 64, b2 % 128;
    hi * 128 + lo
  }

  function AfterData(pkt: seq<Byte>, k: nat): Pc { if k < |pkt| then TxData(pkt, k) else TxEnd(pkt, k) }

  function AfterRead(n: nat, got: nat): Pc { if got < n then RxData(n, got) else RxEnd(got) }

  /** Where the process goes after its ioctl. */
  function NextPc(pc: Pc, io: Io): Pc
    requires DoesIo(pc) && (pc.TxData? ==> pc.k < |pc.pkt|)
  {
    match pc
    case TxLocked(pkt) => if io.Fail? then Unlock else AfterData(pkt, 0)
    case TxData(pkt, k) => if io.Fail? then TxEnd(pkt, k) else AfterData(pkt, k + 1)
    case TxEnd(_, _) => Unlock
    case RxLocked(max) => if io.Fail? then Unlock else CountFirst(max)
    case CountFirst(max) =>
      if io.Fail? then CountEnd(max, -1)
      else if io.value >= 128 then CountSecond(max, io.value)
      else CountEnd(max, io.value)
    case CountSecond(max, b1) => if io.Fail? then CountEnd(max, -1) else CountEnd(max, TwoByteCount(b1, io.value))
    case CountEnd(max, count) => AfterCount(ToRead(max, count), io.Done?)
    case RxMode(n, _) => if io.Fail? then Unlock else AfterRead(n, 0)
    case RxData(n, got) => if io.Fail? then RxEnd(got) else AfterRead(n, got + 1)
    case RxEnd(_) => Unlock
  }

  /** How many of the counted bytes a poll asks for. */
  function ToRead(max: nat, count: int): nat { if count <= 0 then 0 else if count > max then max else count }

  /** fifo_read_bytes does nothing when asked for nothing. */
  function AfterCount(n: nat, off: bool): Pc { if n == 0 then Unlock else RxMode(n, off) }

  /** What a successful ioctl does to the device. */
  function Effect(pc: Pc, d: Dev): Dev
    requires DoesIo(pc) && (pc.TxData? ==> pc.k < |pc.pkt|)
  {
    match pc
    case TxLocked(_) => WriteMode(d, MODE_TX)
    case TxData(pkt, k) => WriteData(d, pkt[k])
    case RxLocked(_) => WriteMode(d, MODE_COUNT)
    case RxMode(_, _) => WriteMode(d, MODE_RX)
    case TxEnd(_, _) => WriteMode(d, MODE_OFF)
    case CountEnd(_, _) => WriteMode(d, MODE_OFF)
    case RxEnd(_) => WriteMode(d, MODE_OFF)
    case _ => d
  }

  /** What each ioctl of an operation leaves in the mode register. */
  lemma ModesAre(pc: Pc, d: Dev)
    requires DoesIo(pc) && (pc.TxData? ==> pc.k < |pc.pkt|)
    ensures Effect(pc, d).mode
      == if pc.TxLocked? then 0x81 else if pc.RxLocked? then 0x02 else if pc.RxMode? then 0x82
         else if pc.TxEnd? || pc.CountEnd? || pc.RxEnd? then 0x83 else d.mode
  {
  }

  // ---- one poll ----

  /** Where a process is after a number of its own ioctls. */
  function After(pc: Pc, ios: seq<Io>): Pc
    decreases |ios|
  {
    if ios == [] || !DoesIo(pc) || (pc.TxData? && pc.k >= |pc.pkt|) then pc else After(NextPc(pc, ios[0]), ios[1..])
  }

  /** Successful reads, one for each byte. */
  function ReadIos(bytes: seq<Byte>): (r: seq<Io>)
    ensures |r| == |bytes|
  {
    seq(|bytes|, i requires 0 <= i < |bytes| => Done(bytes[i]))
  }

  lemma {:induction false} DataReads(n: nat, got: nat, bytes: seq<Byte>)
    requires got < n && |bytes| == n - got
    ensures After(RxData(n, got), ReadIos(bytes)) == RxEnd(n)
    decreases |bytes|
  {
    assert ReadIos(bytes)[1..] == ReadIos(bytes[1..]);
    if got + 1 < n {
      DataReads(n, got + 1, bytes[1..]);
    } else {
      assert ReadIos(bytes[1..]) == [];
    }
  }

  lemma AfterOne(pc: Pc, io: Io, rest: seq<Io>)
    requires DoesIo(pc) && !pc.TxData?
    ensures After(pc, [io] + rest) == After(NextPc(pc, io), rest)
  {
    hide NextPc;
    assert ([io] + rest)[1..] == rest;
  }

  /**
   A poll none of whose ioctls fails reads the count, in one byte below 128 or else in two with six
   and seven bits of it, and then exactly as many bytes as are counted and asked for.
   */
  lemma PollReads(max: nat, b1: Byte, b2: Byte, bytes: seq<Byte>)
    requires var count := if b1 < 128 then b1 else b1 % 64 * 128 + b2 % 128;
             |bytes| == if count < max then count else max
    ensures var start: seq<Io> := [Done(0), Done(b1)] + (if b1 < 128 then [] else [Done(b2)]);
            && (bytes == [] ==> After(RxLocked(max), start + [Done(0)]) == Unlock)
            && (bytes != [] ==> After(RxLocked(max), start + ([Done(0), Done(0)] + ReadIos(bytes))) == RxEnd(|bytes|))
  {
    assert After(Unlock, []) == Unlock;
    hide After, ReadIos;
    var rest := if bytes == [] then [Done(0)] else [Done(0), Done(0)] + ReadIos(bytes);
    var count := if b1 < 128 then b1 else b1 % 64 * 128 + b2 % 128;
    CountReads(max, b1, b2, rest);
    if bytes == [] {
      assert [Done(0)] == [Done(0)] + [];
      AfterOne(CountEnd(max, count), Done(0), []);
    } else {
      assert rest == [Done(0)] + ([Done(0)] + ReadIos(bytes));
      AfterOne(CountEnd(max, count), Done(0), [Done(0)] + ReadIos(bytes));
      AfterOne(RxMode(|bytes|, true), Done(0), ReadIos(bytes));
      DataReads(|bytes|, 0, bytes);
    }
  }

  /** A failing read of the count ends the poll after its deassert, whatever becomes of that. */
  lemma CountFails(max: nat, b1: Byte, io: Io)
    ensures After(RxLocked(max), [Fail]) == Unlock
    ensures After(RxLocked(max), [Done(0), Fail, io]) == Unlock
    ensures b1 >= 128 ==> After(RxLocked(max), [Done(0), Done(b1), Fail, io]) == Unlock
  {
    AfterOne(RxLocked(max), Fail, []);
    assert [Fail] == [Fail] + [];
    AfterOne(RxLocked(max), Done(0), [Fail, io]);
    assert [Done(0), Fail, io] == [Done(0)] + [Fail, io];
    AfterOne(CountFirst(max), Fail, [io]);
    assert [Fail, io] == [Fail] + [io];
    AfterOne(CountEnd(max, -1), io, []);
    assert [io] == [io] + [];
    AfterOne(RxLocked(max), Done(0), [Done(b1), Fail, io]);
    assert [Done(0), Done(b1), Fail, io] == [Done(0)] + [Done(b1), Fail, io];
    if b1 >= 128 {
      AfterOne(CountFirst(max), Done(b1), [Fail, io]);
      assert [Done(b1), Fail, io] == [Done(b1)] + [Fail, io];
      AfterOne(CountSecond(max, b1), Fail, [io]);
    }
  }

  /** A failing read of the data leaves the bytes read before it, and the deassert follows. */
  lemma {:induction false} DataFails(n: nat, got: nat, bytes: seq<Byte>)
    requires got + |bytes| < n
    ensures After(RxData(n, got), ReadIos(bytes) + [Fail]) == RxEnd(got + |bytes|)
    decreases |bytes|
  {
    if bytes == [] {
      assert ReadIos(bytes) + [Fail] == [Fail] + [];
      AfterOne(RxData(n, got), Fail, []);
    } else {
      assert ReadIos(bytes) + [Fail] == [Done(bytes[0])] + (ReadIos(bytes[1..]) + [Fail]);
      AfterOne(RxData(n, got), Done(bytes[0]), ReadIos(bytes[1..]) + [Fail]);
      DataFails(n, got + 1, bytes[1..]);
    }
  }

  lemma CountReads(max: nat, b1: Byte, b2: Byte, rest: seq<Io>)
    ensures var start: seq<Io> := [Done(0), Done(b1)] + (if b1 < 128 then [] else [Done(b2)]);
            After(RxLocked(max), start + rest) ==
              After(CountEnd(max, if b1 < 128 then b1 else b1 % 64 * 128 + b2 % 128), rest)
  {
    var more := if b1 < 128 then rest else [Done(b2)] + rest;
    AfterOne(RxLocked(max), Done(0), [Done(b1)] + more);
    AfterOne(CountFirst(max), Done(b1), more);
    if b1 < 128 {
      assert [Done(0), Done(b1)] + [] + rest == [Done(0)] + ([Done(b1)] + rest);
    } else {
      AfterOne(CountSecond(max, b1), Done(b2), rest);
      assert [Done(0), Done(b1)] + [Done(b2)] + rest == [Done(0)] + ([Done(b1)] + ([Done(b2)] + rest));
    }
  }

  predicate Enabled(w: World, a: Act) {
    && a.p < |w.pcs|
    && var pc := w.pcs[a.p];
       match a
       case Begin(_, _) => pc.Resting?
       case Lock(_) => (pc.WantTx? || pc.WantRx?) && w.lock.None?
       case Ioctl(_, _) => DoesIo(pc) && (pc.TxData? ==> pc.k < |pc.pkt|)
       case Release(_) => pc.Unlock?
  }

  function Next(w: World, a: Act): World
    requires Enabled(w, a)
  {
    var pc := w.pcs[a.p];
    match a
    case Begin(p, op) => w.(pcs := w.pcs[p := if op.Send? then WantTx(op.pkt) else WantRx(op.max)])
    case Lock(p) => w.(lock := Some(p), pcs := w.pcs[p := if pc.WantTx? then TxLocked(pc.pkt) else RxLocked(pc.max)])
    case Ioctl(p, io) =>
      w.(pcs := w.pcs[p := NextPc(pc, io)],
         dev := if io.Fail? then w.dev else Effect(pc, w.dev),
         log := if pc.TxEnd? then w.log + [Sent(p, pc.pkt, pc.k)] else w.log)
    case Release(p) => w.(lock := None, pcs := w.pcs[p := Resting])
  }

  // ---- whole runs ----

  /** A run of n processes; any ioctl may fail. */
  ghost predicate Run(n: nat, ws: seq<World>, acts: seq<Act>) {
    && |ws| == |acts| + 1 && ws[0] == Start(n)
    && forall i | 0 <= i < |acts| :: Enabled(ws[i], acts[i]) && ws[i + 1] == Next(ws[i], acts[i])
  }

  // ---- one process at a time ----

  /** Exactly the lock's owner is between its flock calls. */
  predicate OnlyOwner(lock: Option<nat>, pcs: seq<Pc>) {
    && (lock.Some? ==> lock.value < |pcs|)
    && forall p | 0 <= p < |pcs| :: InLock(pcs[p]) <==> lock == Some(p)
  }

  lemma OwnerStep(w: World, a: Act)
    requires OnlyOwner(w.lock, w.pcs) && Enabled(w, a)
    ensures OnlyOwner(Next(w, a).lock, Next(w, a).pcs)
  {
    hide Effect;
  }

  /** At most one process is between its flock calls, whatever fails. */
  lemma {:induction false} OneOwner(n: nat, ws: seq<World>, acts: seq<Act>, i: nat)
    requires Run(n, ws, acts) && i < |ws|
    ensures OnlyOwner(ws[i].lock, ws[i].pcs)
    ensures var pcs := ws[i].pcs;
            forall p, q | 0 <= p < |pcs| && 0 <= q < |pcs| && InLock(pcs[p]) && InLock(pcs[q]) :: p == q
  {
    if i > 0 {
      hide Enabled, Next;
      OneOwner(n, ws, acts, i - 1);
      assert ws[i - 1 + 1] == Next(ws[i - 1], acts[i - 1]);
      OwnerStep(ws[i - 1], acts[i - 1]);
    } else {
      hide Enabled, Next;
    }
  }

  // ---- frames ----

  predicate OneSender(f: seq<Byte>, s: Sent) { s.k <= |s.pkt| && f == s.pkt[..s.k] }

  /** Frame by frame, the device got what the senders wrote. */
  ghost predicate FramesMatch(frames: seq<seq<Byte>>, log: seq<Sent>) {
    |frames| == |log| && forall i | 0 <= i < |log| :: OneSender(frames[i], log[i])
  }

  /** The deassert that ends a packet fails. */
  predicate FrameLeftOpen(w: World, a: Act) { a.Ioctl? && a.p < |w.pcs| && w.pcs[a.p].TxEnd? && a.io.Fail? }

  /** A sender finds its own bytes in the open frame; nobody else finds an open frame. */
  predicate TxDev(pc: Pc, d: Dev) {
    match pc
    case TxData(pkt, k) => k < |pkt| && d.mode == MODE_TX && d.cur == pkt[..k]
    case TxEnd(pkt, k) => k <= |pkt| && d.mode == MODE_TX && d.cur == pkt[..k]
    case _ => d.mode != MODE_TX
  }

  ghost predicate TxInv(w: World) {
    && OnlyOwner(w.lock, w.pcs) && FramesMatch(w.dev.frames, w.log)
    && (if w.lock.None? then w.dev.mode != MODE_TX else TxDev(w.pcs[w.lock.value], w.dev))
  }

  lemma FramesMore(frames: seq<seq<Byte>>, log: seq<Sent>, f: seq<Byte>, s: Sent)
    requires FramesMatch(frames, log) && OneSender(f, s)
    ensures FramesMatch(frames + [f], log + [s])
  {
  }

  lemma TxDevStep(pc: Pc, d: Dev, io: Io)
    requires DoesIo(pc) && TxDev(pc, d) && !(pc.TxEnd? && io.Fail?)
    ensures (pc.TxData? ==> pc.k < |pc.pkt|) && TxDev(NextPc(pc, io), if io.Fail? then d else Effect(pc, d))
    ensures InLock(NextPc(pc, io))
    ensures !pc.TxEnd? && io.Done? ==> Effect(pc, d).frames == d.frames
    ensures pc.TxEnd? ==> pc.k <= |pc.pkt| && Effect(pc, d).frames == d.frames + [pc.pkt[..pc.k]]
  {
  }

  lemma TxStep(w: World, a: Act)
    requires TxInv(w) && Enabled(w, a) && !FrameLeftOpen(w, a)
    ensures TxInv(Next(w, a))
  {
    OwnerStep(w, a);
    hide FramesMatch, OnlyOwner, NextPc, Effect;
    var pc := w.pcs[a.p];
    OwnerIs(w.lock, w.pcs, a.p);
    if a.Ioctl? {
      TxDevStep(pc, w.dev, a.io);
      if pc.TxEnd? {
        FramesMore(w.dev.frames, w.log, pc.pkt[..pc.k], Sent(a.p, pc.pkt, pc.k));
      }
    }
  }

  lemma OwnerIs(lock: Option<nat>, pcs: seq<Pc>, p: nat)
    requires OnlyOwner(lock, pcs) && p < |pcs|
    ensures InLock(pcs[p]) <==> lock == Some(p)
    ensures lock.Some? ==> lock.value < |pcs|
  {
  }

  lemma {:induction false} TxRun(n: nat, ws: seq<World>, acts: seq<Act>, i: nat)
    requires Run(n, ws, acts) && i < |ws|
    requires forall j | 0 <= j < i :: !FrameLeftOpen(ws[j], acts[j])
    ensures TxInv(ws[i])
  {
    if i > 0 {
      hide TxInv, Enabled, Next, FrameLeftOpen;
      TxRun(n, ws, acts, i - 1);
      assert ws[i - 1 + 1] == Next(ws[i - 1], acts[i - 1]);
      TxStep(ws[i - 1], acts[i - 1]);
    } else {
      hide Enabled, Next;
    }
  }

  lemma OpenFrameMismatch(w: World, a: Act)
    requires FramesMatch(w.dev.frames, w.log) && Enabled(w, a) && FrameLeftOpen(w, a)
    ensures !FramesMatch(Next(w, a).dev.frames, Next(w, a).log)
  {
  }

  /**
   In every run, whatever else fails: the device's frames are at all times what the senders
   wrote, one frame for each packet, if and only if no deassert that ends a packet fails.
   */
  lemma FramesMatchIff(n: nat, ws: seq<World>, acts: seq<Act>)
    requires Run(n, ws, acts)
    ensures (forall i | 0 <= i < |ws| :: FramesMatch(ws[i].dev.frames, ws[i].log))
       <==> (forall j | 0 <= j < |acts| :: !FrameLeftOpen(ws[j], acts[j]))
  {
    hide FramesMatch, Enabled, Next, FrameLeftOpen;
    if forall j | 0 <= j < |acts| :: !FrameLeftOpen(ws[j], acts[j]) {
      forall i | 0 <= i < |ws|
        ensures FramesMatch(ws[i].dev.frames, ws[i].log)
      {
        TxRun(n, ws, acts, i);
      }
    } else {
      var j :| 0 <= j < |acts| && FrameLeftOpen(ws[j], acts[j]);
      if FramesMatch(ws[j].dev.frames, ws[j].log) {
        OpenFrameMismatch(ws[j], acts[j]);
        assert ws[j + 1] == Next(ws[j], acts[j]);
      }
    }
  }

  // ---- where a frame's bytes come from ----

  /** Process p's last operation up to step i began at step b, and it is to send pkt. */
  ghost predicate Began(acts: seq<Act>, b: nat, i: nat, p: nat, pkt: seq<Byte>) {
    && b < i <= |acts| && acts[b] == Begin(p, Send(pkt))
    && forall j | b < j < i :: !(acts[j].Begin? && acts[j].p == p)
  }

  ghost predicate NothingFailed(acts: seq<Act>, b: nat, i: nat, p: nat) {
    i <= |acts| && forall j | b < j < i :: acts[j] != Ioctl(p, Fail)
  }

  /** Writing byte k of pkt failed between the steps b and i. */
  ghost predicate DataFailed(ws: seq<World>, acts: seq<Act>, b: nat, i: nat, p: nat, pkt: seq<Byte>, k: nat) {
    exists f: nat :: DataFailedAt(ws, acts, b, i, p, pkt, k, f)
  }

  ghost predicate DataFailedAt(ws: seq<World>, acts: seq<Act>, b: nat, i: nat, p: nat, pkt: seq<Byte>, k: nat, f: nat) {
    && b < f < i <= |acts| < |ws| && acts[f] == Ioctl(p, Fail) && p < |ws[f].pcs|
    && ws[f].pcs[p] == TxData(pkt, k) && k < |pkt|
  }

  predicate Sending(pc: Pc) { pc.WantTx? || pc.TxLocked? || pc.TxData? || pc.TxEnd? }

  /** Sending pkt since step b: all went well so far, or the write of byte k failed. */
  ghost predicate Story(ws: seq<World>, acts: seq<Act>, b: nat, i: nat, p: nat, pc: Pc)
    requires Sending(pc)
  {
    && Began(acts, b, i, p, pc.pkt)
    && (pc.TxEnd? && pc.k != |pc.pkt| ==> DataFailed(ws, acts, b, i, p, pc.pkt, pc.k))
    && (!pc.TxEnd? || pc.k == |pc.pkt| ==> NothingFailed(acts, b, i, p))
  }

  ghost predicate HasStory(ws: seq<World>, acts: seq<Act>, i: nat, p: nat, pc: Pc)
    requires Sending(pc)
  {
    exists b: nat :: Story(ws, acts, b, i, p, pc)
  }

  /** A step of another process, or one of its own that does not fail, leaves the story as it is. */
  lemma StoryStays(ws: seq<World>, acts: seq<Act>, b: nat, i: nat, p: nat, pc: Pc)
    requires Sending(pc) && Story(ws, acts, b, i, p, pc) && i < |acts| < |ws|
    requires acts[i].p != p
    ensures Story(ws, acts, b, i + 1, p, pc)
  {
    if pc.TxEnd? && pc.k != |pc.pkt| {
      var f: nat :| DataFailedAt(ws, acts, b, i, p, pc.pkt, pc.k, f);
      assert DataFailedAt(ws, acts, b, i + 1, p, pc.pkt, pc.k, f);
    }
  }

  lemma StoryGoesOn(ws: seq<World>, acts: seq<Act>, b: nat, i: nat, p: nat)
    requires i < |acts| < |ws| && Enabled(ws[i], acts[i]) && ws[i + 1] == Next(ws[i], acts[i]) && acts[i].p == p
    requires !acts[i].Begin? && Sending(ws[i].pcs[p]) && Story(ws, acts, b, i, p, ws[i].pcs[p])
    requires Sending(ws[i + 1].pcs[p])
    ensures Story(ws, acts, b, i + 1, p, ws[i + 1].pcs[p])
  {
    hide Effect;
    var pc, next := ws[i].pcs[p], ws[i + 1].pcs[p];
    if acts[i].Ioctl? && acts[i].io.Fail? && pc.TxData? {
      assert DataFailedAt(ws, acts, b, i + 1, p, pc.pkt, pc.k, i);
    }
  }

  lemma {:induction false} Stories(n: nat, ws: seq<World>, acts: seq<Act>, i: nat, p: nat)
    requires Run(n, ws, acts) && i < |ws| && p < |ws[i].pcs| && Sending(ws[i].pcs[p])
    ensures HasStory(ws, acts, i, p, ws[i].pcs[p])
  {
    if i > 0 {
      hide Story, Next, Enabled;
      var before, a := i - 1, acts[i - 1];
      assert Enabled(ws[before], a) && ws[before + 1] == Next(ws[before], a);
      OthersUntouched(ws[before], a, p);
      if a.p != p {
        Stories(n, ws, acts, before, p);
        var b: nat :| Story(ws, acts, b, before, p, ws[before].pcs[p]);
        StoryStays(ws, acts, b, before, p, ws[before].pcs[p]);
      } else if a.Begin? {
        StoryBegins(ws, acts, before, p);
      } else {
        Stories(n, ws, acts, before, p);
        var b: nat :| Story(ws, acts, b, before, p, ws[before].pcs[p]);
        StoryGoesOn(ws, acts, b, before, p);
      }
    }
  }

  /** Only a process's own step moves it; it gets among the senders by beginning to send. */
  lemma OthersUntouched(w: World, a: Act, p: nat)
    requires Enabled(w, a) && p < |Next(w, a).pcs|
    ensures |Next(w, a).pcs| == |w.pcs|
    ensures a.p != p ==> Next(w, a).pcs[p] == w.pcs[p]
    ensures a.p == p && !a.Begin? && Sending(Next(w, a).pcs[p]) ==> Sending(w.pcs[p])
  {
    hide Effect;
  }

  lemma StoryBegins(ws: seq<World>, acts: seq<Act>, i: nat, p: nat)
    requires i < |acts| < |ws| && Enabled(ws[i], acts[i]) && ws[i + 1] == Next(ws[i], acts[i])
    requires acts[i].p == p && acts[i].Begin? && Sending(ws[i + 1].pcs[p])
    ensures Story(ws, acts, i, i + 1, p, ws[i + 1].pcs[p])
  {
  }

  /** Entry j of the log was made at step e, by a process that had begun to send the packet at step b. */
  ghost predicate EntryMade(ws: seq<World>, acts: seq<Act>, j: nat, s: Sent, b: nat, e: nat) {
    && b < e < |acts| < |ws| && |ws[e].log| == j && acts[e].Ioctl? && acts[e].p == s.p
    && Began(acts, b, e, s.p, s.pkt)
    && (s.k == |s.pkt| <==> NothingFailed(acts, b, e, s.p))
    && (s.k != |s.pkt| ==> DataFailed(ws, acts, b, e, s.p, s.pkt, s.k))
  }

  ghost predicate EntryExplained(ws: seq<World>, acts: seq<Act>, j: nat, s: Sent, i: nat) {
    exists b: nat, e: nat :: e < i && EntryMade(ws, acts, j, s, b, e)
  }

  lemma EntryFromStory(ws: seq<World>, acts: seq<Act>, b: nat, e: nat, p: nat)
    requires e < |acts| < |ws| && acts[e].Ioctl? && acts[e].p == p && p < |ws[e].pcs| && ws[e].pcs[p].TxEnd?
    requires Story(ws, acts, b, e, p, ws[e].pcs[p])
    ensures EntryMade(ws, acts, |ws[e].log|, Sent(p, ws[e].pcs[p].pkt, ws[e].pcs[p].k), b, e)
  {
    var pc := ws[e].pcs[p];
    if pc.k != |pc.pkt| {
      var f: nat :| DataFailedAt(ws, acts, b, e, p, pc.pkt, pc.k, f);
      assert acts[f] == Ioctl(p, Fail);
    }
  }

  lemma LogStep(w: World, a: Act)
    requires Enabled(w, a)
    ensures Next(w, a).log == w.log ||
      (a.Ioctl? && w.pcs[a.p].TxEnd? && Next(w, a).log == w.log + [Sent(a.p, w.pcs[a.p].pkt, w.pcs[a.p].k)])
  {
    hide NextPc, Effect;
  }

  lemma {:induction false} LogExplained(n: nat, ws: seq<World>, acts: seq<Act>, i: nat, j: nat)
    requires Run(n, ws, acts) && i < |ws| && j < |ws[i].log|
    ensures EntryExplained(ws, acts, j, ws[i].log[j], i)
    decreases i
  {
    if i > 0 {
      hide Story, EntryMade, Next, Enabled;
      var before, a := i - 1, acts[i - 1];
      assert Enabled(ws[before], a) && ws[before + 1] == Next(ws[before], a);
      LogStep(ws[before], a);
      if j < |ws[before].log| {
        LogExplained(n, ws, acts, before, j);
        var b: nat, e: nat :| e < before && EntryMade(ws, acts, j, ws[before].log[j], b, e);
        assert ws[i].log[j] == ws[before].log[j];
      } else {
        EnabledActs(ws[before], a);
        Stories(n, ws, acts, before, a.p);
        var b: nat :| Story(ws, acts, b, before, a.p, ws[before].pcs[a.p]);
        EntryFromStory(ws, acts, b, before, a.p);
      }
    }
  }

  lemma EnabledActs(w: World, a: Act)
    requires Enabled(w, a)
    ensures a.p < |w.pcs|
  {
  }

  /**
   In every run in which no deassert that ends a packet has failed, each frame on the device is
   one packet that one process had begun to send: the whole packet if no ioctl of that process
   failed in between, and otherwise the bytes before the one whose write failed.
   */
  lemma FramesAreWhole(n: nat, ws: seq<World>, acts: seq<Act>, i: nat, j: nat)
    requires Run(n, ws, acts) && i < |ws| && j < |ws[i].dev.frames|
    requires forall k | 0 <= k < i :: !FrameLeftOpen(ws[k], acts[k])
    ensures |ws[i].dev.frames| == |ws[i].log|
    ensures var s := ws[i].log[j];
            s.k <= |s.pkt| && ws[i].dev.frames[j] == s.pkt[..s.k] && EntryExplained(ws, acts, j, s, i)
  {
    hide Enabled, Next, FrameLeftOpen, EntryExplained;
    TxRun(n, ws, acts, i);
    LogExplained(n, ws, acts, i, j);
    assert OneSender(ws[i].dev.frames[j], ws[i].log[j]);
  }

  /** A sender none of whose ioctls failed has its whole packet on the device as one frame. */
  lemma SuccessIsWhole(n: nat, ws: seq<World>, acts: seq<Act>, b: nat, e: nat, p: nat, pkt: seq<Byte>)
    requires Run(n, ws, acts) && e < |acts| && Began(acts, b, e, p, pkt) && NothingFailed(acts, b, e + 1, p)
    requires acts[e].Ioctl? && acts[e].p == p && p < |ws[e].pcs| && ws[e].pcs[p].TxEnd?
    requires forall k | 0 <= k < e :: !FrameLeftOpen(ws[k], acts[k])
    ensures ws[e + 1].dev.frames == ws[e].dev.frames + [pkt]
  {
    hide FrameLeftOpen;
    Stories(n, ws, acts, e, p);
    var pc := ws[e].pcs[p];
    var c: nat :| Story(ws, acts, c, e, p, pc);
    assert c == b && pc.pkt == pkt;
    assert pc.k == |pkt|;
    TxRun(n, ws, acts, e);
    assert acts[e] != Ioctl(p, Fail);
    OwnerIs(ws[e].lock, ws[e].pcs, p);
    assert ws[e + 1] == Next(ws[e], acts[e]);
    TxDevStep(pc, ws[e].dev, acts[e].io);
    assert pkt[..|pkt|] == pkt;
  }

  // ---- chip-select ----

  /** Chip-select as the process at pc expects it. */
  predicate ModeAt(pc: Pc, mode: nat) {
    match pc
    case TxData(_, _) => mode == MODE_TX
    case TxEnd(_, _) => mode == MODE_TX
    case CountFirst(_) => mode == MODE_COUNT
    case CountSecond(_, _) => mode == MODE_COUNT
    case CountEnd(_, _) => mode == MODE_COUNT
    case RxMode(_, off) => mode == if off then MODE_OFF else MODE_COUNT
    case RxData(_, _) => mode == MODE_RX
    case RxEnd(_) => mode == MODE_RX
    case _ => mode == MODE_OFF
  }

  /**
   The ioctl that fails is the last write of the operation with chip-select asserted: the
   deassert before unlocking, or the read command after a deassert that failed too.
   */
  predicate LeavesAsserted(w: World, a: Act) {
    && a.Ioctl? && a.io.Fail? && a.p < |w.pcs|
    && match w.pcs[a.p]
       case TxEnd(_, _) => true
       case RxEnd(_) => true
       case CountEnd(max, count) => ToRead(max, count) == 0
       case RxMode(_, off) => !off
       case _ => false
  }

  predicate ModeInv(w: World) {
    && OnlyOwner(w.lock, w.pcs)
    && (if w.lock.None? then w.dev.mode == MODE_OFF else ModeAt(w.pcs[w.lock.value], w.dev.mode))
  }

  /** Chip-select is deasserted when the lock is free or about to be released. */
  predicate Quiet(w: World) {
    (w.lock.None? || (w.lock.value < |w.pcs| && w.pcs[w.lock.value].Unlock?)) ==> w.dev.mode == MODE_OFF
  }

  lemma ModeStep(w: World, a: Act)
    requires ModeInv(w) && Enabled(w, a)
    ensures !LeavesAsserted(w, a) ==> ModeInv(Next(w, a))
    ensures LeavesAsserted(w, a) ==> !Quiet(Next(w, a))
  {
    OwnerStep(w, a);
    OwnerIs(w.lock, w.pcs, a.p);
    hide OnlyOwner;
  }

  lemma {:induction false} ModeRun(n: nat, ws: seq<World>, acts: seq<Act>, i: nat)
    requires Run(n, ws, acts) && i < |ws|
    requires forall j | 0 <= j < i :: !LeavesAsserted(ws[j], acts[j])
    ensures ModeInv(ws[i])
  {
    if i > 0 {
      hide ModeInv, Enabled, Next, LeavesAsserted, Quiet;
      ModeRun(n, ws, acts, i - 1);
      assert ws[i - 1 + 1] == Next(ws[i - 1], acts[i - 1]);
      ModeStep(ws[i - 1], acts[i - 1]);
    } else {
      hide Enabled, Next;
    }
  }

  /** The first step up to k that leaves chip-select asserted. */
  lemma {:induction false} FirstLeft(ws: seq<World>, acts: seq<Act>, k: nat) returns (j: nat)
    requires k < |acts| < |ws| && LeavesAsserted(ws[k], acts[k])
    ensures j <= k && LeavesAsserted(ws[j], acts[j]) && forall m | 0 <= m < j :: !LeavesAsserted(ws[m], acts[m])
    decreases k
  {
    hide LeavesAsserted;
    if m: nat :| m < k && LeavesAsserted(ws[m], acts[m]) {
      j := FirstLeft(ws, acts, m);
    } else {
      j := k;
    }
  }

  /**
   In every run, whatever else fails: chip-select is deasserted whenever the lock is free or
   about to be released, if and only if no operation's last write with chip-select asserted fails.
   */
  lemma DeassertedIff(n: nat, ws: seq<World>, acts: seq<Act>)
    requires Run(n, ws, acts)
    ensures (forall i | 0 <= i < |ws| :: Quiet(ws[i]))
       <==> (forall j | 0 <= j < |acts| :: !LeavesAsserted(ws[j], acts[j]))
  {
    hide Enabled, Next, LeavesAsserted;
    if forall j | 0 <= j < |acts| :: !LeavesAsserted(ws[j], acts[j]) {
      forall i | 0 <= i < |ws|
        ensures Quiet(ws[i])
      {
        ModeRun(n, ws, acts, i);
      }
    } else {
      var k :| 0 <= k < |acts| && LeavesAsserted(ws[k], acts[k]);
      var j := FirstLeft(ws, acts, k);
      hide Quiet;
      ModeRun(n, ws, acts, j);
      ModeStep(ws[j], acts[j]);
      assert ws[j + 1] == Next(ws[j], acts[j]);
    }
  }

  // ---- what a failed deassert does ----

  function Exec(w: World, acts: seq<Act>): World
    requires CanExec(w, acts)
    decreases |acts|
  {
    if acts == [] then w else Exec(Next(w, acts[0]), acts[1..])
  }

  predicate CanExec(w: World, acts: seq<Act>)
    decreases |acts|
  {
    acts == [] || (Enabled(w, acts[0]) && CanExec(Next(w, acts[0]), acts[1..]))
  }

  ghost predicate Leads(w: World, acts: seq<Act>, t: World) { CanExec(w, acts) && Exec(w, acts) == t }

  predicate SameWorld(a: World, b: World) {
    a.lock == b.lock && a.pcs == b.pcs && a.log == b.log
    && a.dev.mode == b.dev.mode && a.dev.cur == b.dev.cur && a.dev.frames == b.dev.frames
  }

  lemma LeadsBy(w: World, a: Act, v: World, rest: seq<Act>, t: World)
    requires Enabled(w, a) && SameWorld(Next(w, a), v) && Leads(v, rest, t)
    ensures Leads(w, [a] + rest, t)
  {
    hide Enabled, Next;
    assert Next(w, a) == v;
    assert ([a] + rest)[1..] == rest;
  }

  lemma LeadsNowhere(t: World)
    ensures Leads(t, [], t)
  {
  }

  /** Process 0 has sent its one byte, its deassert failed, and it has released the lock. */
  function Stuck(): World { World(None, [Resting, Resting], Dev(MODE_TX, [1], []), [Sent(0, [1], 1)]) }

  /** Process 1 has then sent its own byte without any error. */
  function Merged(): World {
    World(Some(1), [Resting, Unlock], Dev(MODE_OFF, [], [[1, 2]]), [Sent(0, [1], 1), Sent(1, [2], 1)])
  }

  lemma TwoAtRest()
    ensures Start(2) == World(None, [Resting, Resting], Dev(MODE_OFF, [], []), [])
  {
    assert Start(2).pcs == [Resting, Resting];
  }

  /** Process 0 holds the lock and has written its byte. */
  function Written(): World { World(Some(0), [TxEnd([1], 1), Resting], Dev(MODE_TX, [1], []), []) }

  lemma SenderSticks()
    ensures exists acts :: Leads(Written(), acts, Stuck())
  {
    hide Leads;
    var w5 := World(Some(0), [Unlock, Resting], Dev(MODE_TX, [1], []), [Sent(0, [1], 1)]);
    LeadsNowhere(Stuck());
    LeadsBy(w5, Release(0), Stuck(), [], Stuck());
    LeadsBy(Written(), Ioctl(0, Fail), w5, [Release(0)] + [], Stuck());
  }

  lemma FirstSenderSticks()
    ensures exists acts :: Leads(Start(2), acts, Stuck())
  {
    TwoAtRest();
    hide Start, Leads;
    var w0 := World(None, [Resting, Resting], Dev(MODE_OFF, [], []), []);
    var w1 := World(None, [WantTx([1]), Resting], Dev(MODE_OFF, [], []), []);
    var w2 := World(Some(0), [TxLocked([1]), Resting], Dev(MODE_OFF, [], []), []);
    var w3 := World(Some(0), [TxData([1], 0), Resting], Dev(MODE_TX, [], []), []);
    SenderSticks();
    var acts4 :| Leads(Written(), acts4, Stuck());
    LeadsBy(w3, Ioctl(0, Done(0)), Written(), acts4, Stuck());
    var acts3 := [Ioctl(0, Done(0))] + acts4;
    LeadsBy(w2, Ioctl(0, Done(0)), w3, acts3, Stuck());
    var acts2 := [Ioctl(0, Done(0))] + acts3;
    LeadsBy(w1, Lock(0), w2, acts2, Stuck());
    LeadsBy(w0, Begin(0, Send([1])), w1, [Lock(0)] + acts2, Stuck());
  }

  lemma SecondSenderMerges()
    ensures exists acts :: Leads(Stuck(), acts, Merged())
  {
    var w0 := Stuck();
    var w1 := w0.(pcs := [Resting, WantTx([2])]);
    var w2 := w0.(lock := Some(1), pcs := [Resting, TxLocked([2])]);
    var w3 := w2.(pcs := [Resting, TxData([2], 0)]);
    var w4 := w2.(pcs := [Resting, TxEnd([2], 1)], dev := Dev(MODE_TX, [1, 2], []));
    hide Leads;
    LeadsNowhere(Merged());
    LeadsBy(w4, Ioctl(1, Done(0)), Merged(), [], Merged());
    var acts4 := [Ioctl(1, Done(0))] + [];
    LeadsBy(w3, Ioctl(1, Done(0)), w4, acts4, Merged());
    var acts3 := [Ioctl(1, Done(0))] + acts4;
    LeadsBy(w2, Ioctl(1, Done(0)), w3, acts3, Merged());
    var acts2 := [Ioctl(1, Done(0))] + acts3;
    LeadsBy(w1, Lock(1), w2, acts2, Merged());
    LeadsBy(w0, Begin(1, Send([2])), w1, [Lock(1)] + acts2, Merged());
  }

  /**
   The deassert must succeed: when it fails, the lock is free with chip-select asserted, and
   the next process's packet joins the same frame although none of its ioctls failed.
   */
  lemma FailedDeassertMerges()
    ensures exists a, b :: Leads(Start(2), a, Stuck()) && Leads(Stuck(), b, Merged())
    ensures Stuck().lock.None? && Stuck().dev.mode == 0x81 && Merged().dev.frames == [[1, 2]]
  {
    FirstSenderSticks();
    SecondSenderMerges();
  }
}

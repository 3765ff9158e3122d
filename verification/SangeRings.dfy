/**
 The 8 KiB overwrite ring, the packet builder and the parser of sange.h, and the loop of the
 reader that uses them, each proved to do what module Tjsg says.
 */
module SangeRings {
  import opened Frames
  import opened Tjsg

  const RING_SIZE := 8192
  const INT_LIMIT := 0x8000_0000

  /** The last RING_SIZE bytes. */
  function Newest(s: seq<Byte>): (r: seq<Byte>)
    ensures |s| <= RING_SIZE ==> r == s
  {
    if |s| <= RING_SIZE then s else s[|s| - RING_SIZE..]
  }

  lemma NewestIs(s: seq<Byte>)
    ensures Newest(s) == if |s| <= 8192 then s else s[|s| - 8192..]
  {
  }

  lemma NewestSnoc(s: seq<Byte>, t: seq<Byte>, b: Byte)
    ensures Newest(Newest(s + t) + [b]) == Newest(s + (t + [b]))
  {
    assert s + (t + [b]) == (s + t) + [b];
  }

  /** The counters masked to an index. */
  function Slot(k: nat): (i: nat)
    ensures i < RING_SIZE
  {
    k % RING_SIZE
  }

  /** A slot is reused only one lap later. */
  lemma SlotsDiffer(i: nat, j: nat)
    requires i < j < i + RING_SIZE
    ensures Slot(i) != Slot(j)
  {
  }

  /** The bytes the ring holds. */
  function Held(buf: seq<Byte>, head: nat, tail: nat): (r: seq<Byte>)
    requires |buf| == RING_SIZE && tail <= head
    ensures |r| == head - tail
  {
    seq(head - tail, i requires 0 <= i < head - tail => buf[Slot(tail + i)])
  }

  lemma HeldAppend(buf: seq<Byte>, head: nat, tail: nat, b: Byte)
    requires |buf| == RING_SIZE && tail <= head < tail + RING_SIZE
    ensures Held(buf[Slot(head) := b], head + 1, tail) == Held(buf, head, tail) + [b]
  {
    hide Slot;
    forall k: nat | tail <= k < head
      ensures Slot(k) != Slot(head)
    {
      SlotsDiffer(k, head);
    }
  }

  lemma HeldPut(buf: seq<Byte>, head: nat, tail: nat, b: Byte)
    requires |buf| == RING_SIZE && tail <= head <= tail + RING_SIZE
    ensures var newTail := if head + 1 - tail > RING_SIZE then head + 1 - RING_SIZE else tail;
            Held(buf[Slot(head) := b], head + 1, newTail) == Newest(Held(buf, head, tail) + [b])
  {
    hide Held, Slot;
    if head + 1 - tail > RING_SIZE {
      HeldDrop(buf, head, tail, 1);
      HeldAppend(buf, head, tail + 1, b);
      DropFirst(Held(buf, head, tail), b);
    } else {
      HeldAppend(buf, head, tail, b);
    }
  }

  lemma DropFirst(s: seq<Byte>, b: Byte)
    requires s != []
    ensures (s + [b])[1..] == s[1..] + [b]
  {
  }

  lemma HeldDrop(buf: seq<Byte>, head: nat, tail: nat, n: nat)
    requires |buf| == RING_SIZE && tail + n <= head
    ensures Held(buf, head, tail + n) == Held(buf, head, tail)[n..]
  {
  }

  /** Skipping one byte is a step of the parser's search. */
  lemma SkipStep(s: seq<Byte>)
    requires |s| >= 4 && !AtMagic(s)
    ensures Skip(s) == Skip(s[1..])
  {
  }

  class SangeRing {
    const buf: array<Byte>
    var head: nat
    var tail: nat

    predicate Valid()
      reads this
    {
      buf.Length == RING_SIZE && tail <= head <= tail + RING_SIZE
    }

    function Contents(): (s: seq<Byte>)
      requires Valid()
      reads this, buf
      ensures |s| == head - tail
    {
      Held(buf[..], head, tail)
    }

    constructor ()
      ensures Valid() && fresh(buf) && head == 0 && Contents() == []
    {
      buf := new Byte[RING_SIZE](i => 0);
      head, tail := 0, 0;
    }

    /** Appends the bytes; when the ring is full the oldest are lost. The counters are C ints. */
    method Push(data: seq<Byte>)
      requires Valid() && head + |data| < INT_LIMIT
      modifies this, buf
      ensures Valid() && head == old(head) + |data| && Contents() == Newest(old(Contents()) + data)
      ensures var all := old(Contents()) + data;
              Contents() == if |all| <= 8192 then all else all[|all| - 8192..]
    {
      hide Held, Newest;
      ghost var start := Contents();
      NewestIs(start + data);
      NothingPushed(start);
      var i := 0;
      while i < |data|
        invariant 0 <= i <= |data| && Valid() && head == old(head) + i
        invariant Held(buf[..], head, tail) == Newest(start + data[..i])
      {
        HeldPut(buf[..], head, tail, data[i]);
        NewestSnoc(start, data[..i], data[i]);
        assert data[..i] + [data[i]] == data[..i + 1];
        ghost var put := buf[..][Slot(head) := data[i]];
        buf[Slot(head)] := data[i];
        assert buf[..] == put;
        head := head + 1;
        if head - tail > RING_SIZE {
          tail := head - RING_SIZE;
        }
        i := i + 1;
      }
      assert data[..|data|] == data;
    }

    method Peek(off: nat) returns (b: int)
      requires Valid()
      ensures b == if off < |Contents()| then Contents()[off] else -1
    {
      if head - tail <= off {
        return -1;
      }
      b := buf[Slot(tail + off)];
    }

    method Consume(n: nat)
      requires Valid() && n <= head - tail
      modifies this`tail
      ensures Valid() && Contents() == old(Contents())[n..]
    {
      HeldDrop(buf[..], head, tail, n);
      tail := tail + n;
    }

    /** The search for the magic. */
    method SkipToMagic()
      requires Valid()
      modifies this`tail
      ensures Valid() && Contents() == Skip(old(Contents()))
    {
      hide Held;
      while head - tail >= 4
        invariant Valid() && Skip(Contents()) == Skip(old(Contents()))
        decreases head - tail
      {
        var b0 := Peek(0);
        var b1 := Peek(1);
        var b2 := Peek(2);
        var b3 := Peek(3);
        if b0 == 0x54 && b1 == 0x4A && b2 == 0x53 && b3 == 0x47 {
          break;
        }
        SkipStep(Contents());
        Consume(1);
      }
    }

    /** The packet's bytes into the out buffer. */
    method CopyOut(out: array<Byte>, total: nat)
      requires Valid() && total <= head - tail && total <= out.Length && out != buf
      modifies out
      ensures out[..total] == Contents()[..total] && out[total..] == old(out[total..])
      ensures buf[..] == old(buf[..])
    {
      hide Held;
      var i := 0;
      while i < total
        invariant 0 <= i <= total && buf[..] == old(buf[..])
        invariant out[..i] == Contents()[..i] && out[total..] == old(out[total..])
      {
        var b := Peek(i);
        out[i] := b;
        i := i + 1;
      }
    }

    /** One packet (its length), 0 for incomplete, -1 for skipped: the parser of module Tjsg. */
    method ParseOne(out: array<Byte>) returns (r: int)
      requires Valid() && out != buf
      modifies this`tail, out
      ensures Valid() && buf[..] == old(buf[..])
      ensures var p := Tjsg.ParseOne(old(Contents()), out.Length);
              && Contents() == p.rest
              && (p.Incomplete? ==> r == 0) && (p.Corrupt? ==> r == -1)
              && (p.Packet? ==> r == |p.bytes| > 0 && r <= out.Length && out[..r] == p.bytes)
    {
      hide Held, Skip, Checksum;
      SkipToMagic();
      if head - tail < 6 {
        return 0;
      }
      var hi := Peek(4);
      var lo := Peek(5);
      var total := hi * 256 + lo;
      if total < 9 || total > MAX_PACKET {
        Consume(1);
        return -1;
      }
      if head - tail < total {
        return 0;
      }
      if total > out.Length {
        Consume(total);
        return -1;
      }
      CopyOut(out, total);
      assert out[..total - 1] == Contents()[..total - 1];
      var cs := TjsgChecksum(out, total - 1);
      if cs != out[total - 1] {
        Consume(total);
        return -1;
      }
      Consume(total);
      return total;
    }
  }

  lemma NothingPushed(s: seq<Byte>)
    requires |s| <= RING_SIZE
    ensures Newest(s + []) == s
  {
  }

  method TjsgChecksum(buf: array<Byte>, len: nat) returns (cs: Byte)
    requires len <= buf.Length
    ensures cs == Checksum(buf[..len])
  {
    cs := 0;
    for i := 0 to len
      invariant cs == Checksum(buf[..i])
    {
      assert buf[..i + 1][..i] == buf[..i];
      cs := (cs + buf[i]) % 256;
    }
  }

  /** Without a payload pointer the payload bytes stay what they were. */
  method TjsgBuild(buf: array<Byte>, cmd: Byte, payload: array?<Byte>, payloadLen: nat) returns (total: int)
    requires payload != null ==> payloadLen <= payload.Length && payload != buf
    modifies buf
    ensures total == if 9 + payloadLen > buf.Length then -1 else 9 + payloadLen
    ensures total == -1 ==> buf[..] == old(buf[..])
    ensures total != -1 ==>
      && buf[..total] == Built(cmd, if payload != null then payload[..payloadLen] else old(buf[8..8 + payloadLen]))
      && buf[total..] == old(buf[total..])
  {
    hide Header, Checksum;
    var n := 9 + payloadLen;
    if n > buf.Length {
      return -1;
    }
    ghost var was := buf[..];
    PutHeader(buf, n, cmd);
    ghost var headed := buf[..];
    assert headed[8..] == was[8..];
    if payload != null && payloadLen > 0 {
      forall k | 0 <= k < payloadLen {
        buf[8 + k] := payload[k];
      }
    }
    ghost var body := if payload != null then payload[..payloadLen] else was[8..8 + payloadLen];
    assert buf[..8] == headed[..8] && buf[8..n - 1] == body && buf[n - 1..] == headed[n - 1..];
    assert buf[..n - 1] == buf[..8] + buf[8..n - 1];
    assert headed[n..] == headed[8..][n - 8..] && was[n..] == was[8..][n - 8..];
    buf[n - 1] := TjsgChecksum(buf, n - 1);
    assert buf[..n] == buf[..n - 1] + [buf[n - 1]];
    total := n;
  }

  method PutHeader(buf: array<Byte>, n: nat, cmd: Byte)
    requires 9 <= buf.Length
    modifies buf
    ensures buf[..8] == Header(n, cmd) && buf[8..] == old(buf[8..])
  {
    buf[0], buf[1], buf[2], buf[3] := 0x54, 0x4A, 0x53, 0x47;
    buf[4] := n / 256 % 256;
    buf[5] := n % 256;
    buf[6] := cmd;
    buf[7] := 0;
  }

  // ---- the reader ----

  function TotalLen(polls: seq<seq<Byte>>): nat { |Flatten(polls)| }

  /** One poll's worth of the loop: push, then parse until the parser asks for more. */
  method PushAndDrain(ring: SangeRing, raw: seq<Byte>, pktbuf: array<Byte>) returns (found: seq<seq<Byte>>)
    requires ring.Valid() && ring.head + |raw| < INT_LIMIT && |raw| <= 2048 && ring.head - ring.tail <= MAX_PACKET - 1
    requires pktbuf != ring.buf && pktbuf.Length == MAX_PACKET
    modifies ring, ring.buf, pktbuf
    ensures ring.Valid() && ring.head == old(ring.head) + |raw| && ring.head - ring.tail <= MAX_PACKET - 1
    ensures (found, ring.Contents()) == Drain(old(ring.Contents()) + raw, MAX_PACKET)
    ensures AllWellFormed(found)
  {
    DrainIsSound(old(ring.Contents()) + raw, MAX_PACKET);
    hide AllWellFormed;
    hide Tjsg.ParseOne, Held, Drain;
    ring.Push(raw);
    ghost var all := old(ring.Contents()) + raw;
    DrainLeavesLittle(all, MAX_PACKET);
    found := [];
    assert found + Drain(all, MAX_PACKET).0 == Drain(all, MAX_PACKET).0;
    var r := 1;
    while r != 0
      invariant ring.Valid() && ring.head == old(ring.head) + |raw|
      invariant r != 0 ==>
        Drain(all, MAX_PACKET) == (found + Drain(ring.Contents(), MAX_PACKET).0, Drain(ring.Contents(), MAX_PACKET).1)
      invariant r == 0 ==> Drain(all, MAX_PACKET) == (found, ring.Contents())
      decreases if r == 0 then 0 else 1, ring.head - ring.tail
    {
      DrainStep(found, ring.Contents());
      ParseShrinks(ring.Contents());
      r := ring.ParseOne(pktbuf);
      if r > 0 {
        found := found + [pktbuf[..r]];
      }
    }
  }

  lemma ParseShrinks(s: seq<Byte>)
    ensures var p := Tjsg.ParseOne(s, MAX_PACKET); !p.Incomplete? ==> |p.rest| < |s|
  {
  }

  lemma DrainStep(found: seq<seq<Byte>>, s: seq<Byte>)
    ensures var p := Tjsg.ParseOne(s, MAX_PACKET); var d := Drain(s, MAX_PACKET);
            && (p.Incomplete? ==> found + d.0 == found && d.1 == p.rest)
            && (p.Corrupt? ==> d == Drain(p.rest, MAX_PACKET))
            && (p.Packet? ==>
                  found + d.0 == found + [p.bytes] + Drain(p.rest, MAX_PACKET).0 && d.1 == Drain(p.rest, MAX_PACKET).1)
  {
  }

  /**
   The whole loop over the results of the polls: no byte is ever lost to the ring, and the
   packets handed on are those of the whole stream.
   */
  method ReaderLoop(polls: seq<seq<Byte>>) returns (found: seq<seq<Byte>>)
    requires (forall i | 0 <= i < |polls| :: |polls[i]| <= 2048) && TotalLen(polls) < INT_LIMIT
    ensures found == Drain(Flatten(polls), MAX_PACKET).0 && AllWellFormed(found)
  {
    DrainIsSound(Flatten(polls), MAX_PACKET);
    hide AllWellFormed, Drain, Flatten, Held;
    var ring := new SangeRing();
    var pktbuf := new Byte[MAX_PACKET](i => 0);
    found := [];
    ghost var stream: seq<Byte> := [];
    NothingYet();
    var i := 0;
    FlattenPrefix(polls, 0);
    while i < |polls|
      invariant 0 <= i <= |polls| && ring.Valid() && fresh(ring) && fresh(ring.buf) && pktbuf != ring.buf
      invariant stream == Flatten(polls[..i]) && ring.head == |stream| && ring.head - ring.tail <= MAX_PACKET - 1
      invariant Drain(stream, MAX_PACKET) == (found, ring.Contents())
    {
      FlattenPrefix(polls, i);
      FlattenBound(polls, i + 1);
      if |polls[i]| > 0 {
        DrainTwice(stream, polls[i], MAX_PACKET);
        var more := PushAndDrain(ring, polls[i], pktbuf);
        found := found + more;
      } else {
        assert stream + polls[i] == stream;
      }
      stream := stream + polls[i];
      i := i + 1;
    }
    assert polls[..|polls|] == polls;
  }

  lemma NothingYet()
    ensures Drain([], MAX_PACKET) == ([], [])
    ensures Flatten([]) == []
  {
  }

  lemma {:induction false} FlattenPrefix(polls: seq<seq<Byte>>, i: nat)
    requires i <= |polls|
    ensures polls[..0] == []
    ensures i < |polls| ==> Flatten(polls[..i + 1]) == Flatten(polls[..i]) + polls[i]
  {
    if i < |polls| {
      FlattenSnoc(polls[..i], polls[i]);
      assert polls[..i] + [polls[i]] == polls[..i + 1];
    }
  }

  lemma {:induction false} FlattenSnoc(a: seq<seq<Byte>>, b: seq<Byte>)
    ensures Flatten(a + [b]) == Flatten(a) + b
    decreases |a|
  {
    if a == [] {
      assert [] + [b] == [b] && [b][1..] == [];
      assert b + [] == [] + b;
    } else {
      assert (a + [b])[1..] == a[1..] + [b];
      FlattenSnoc(a[1..], b);
      Assoc(a[0], Flatten(a[1..]), b);
    }
  }

  lemma {:induction false} FlattenBound(polls: seq<seq<Byte>>, i: nat)
    requires i <= |polls|
    ensures |Flatten(polls[..i])| <= |Flatten(polls)|
    decreases |polls| - i
  {
    if i == |polls| {
      assert polls[..i] == polls;
    } else {
      FlattenPrefix(polls, i);
      FlattenBound(polls, i + 1);
    }
  }
}

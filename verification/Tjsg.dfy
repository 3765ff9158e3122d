/**
 TJSG packets on a byte stream: the builder's format, the checksum, and the meaning of the
 resynchronising parser as a function of the bytes that have arrived.
 */
module Tjsg {
  import opened Frames

  const MAX_PACKET := 512

  /** "TJSG" */
  const MAGIC: seq<Byte> := [0x54, 0x4A, 0x53, 0x47]

  predicate AtMagic(s: seq<Byte>) {
    |s| >= 4 && s[0] == 0x54 && s[1] == 0x4A && s[2] == 0x53 && s[3] == 0x47
  }

  /** The low byte of the sum. */
  function Checksum(s: seq<Byte>): Byte {
    if s == [] then 0 else (Checksum(s[..|s| - 1]) + s[|s| - 1]) % 256
  }

  /** The length field. */
  function TotalOf(s: seq<Byte>): nat
    requires |s| >= 6
  {
    var hi: nat, lo: nat := s[4], s[5];
    hi * 256 + lo
  }

  // ---- building ----

  function Header(total: nat, cmd: Byte): (h: seq<Byte>)
    ensures |h| == 8
  {
    MAGIC + [total / 256 % 256, total % 256, cmd, 0]
  }

  function Built(cmd: Byte, payload: seq<Byte>): seq<Byte> {
    var body := Header(9 + |payload|, cmd) + payload;
    body + [Checksum(body)]
  }

  // ---- parsing ----

  datatype Parsed = Incomplete(rest: seq<Byte>) | Corrupt(rest: seq<Byte>) | Packet(bytes: seq<Byte>, rest: seq<Byte>)

  /** Drops bytes up to the magic, or until fewer than four are left. */
  function Skip(s: seq<Byte>): (r: seq<Byte>)
    ensures |r| <= |s| && (|r| >= 4 ==> AtMagic(r))
  {
    if |s| >= 4 && !AtMagic(s) then Skip(s[1..]) else s
  }

  function ParseHere(t: seq<Byte>, outSize: nat): (p: Parsed)
    ensures !p.Incomplete? ==> |p.rest| < |t|
  {
    if |t| < 6 then Incomplete(t)
    else
      var total := TotalOf(t);
      if total < 9 || total > MAX_PACKET then Corrupt(t[1..])
      else if |t| < total then Incomplete(t)
      else if total > outSize then Corrupt(t[total..])
      else if Checksum(t[..total - 1]) != t[total - 1] then Corrupt(t[total..])
      else Packet(t[..total], t[total..])
  }

  /** One call of the parser on the pending bytes. */
  function ParseOne(s: seq<Byte>, outSize: nat): (p: Parsed)
    ensures !p.Incomplete? ==> |p.rest| < |s|
  {
    ParseHere(Skip(s), outSize)
  }

  /** The parser called until it asks for more bytes: the packets found, the bytes left. */
  function Drain(s: seq<Byte>, outSize: nat): (seq<seq<Byte>>, seq<Byte>)
    decreases |s|
  {
    match ParseOne(s, outSize)
    case Incomplete(rest) => ([], rest)
    case Corrupt(rest) => Drain(rest, outSize)
    case Packet(bytes, rest) =>
      var more := Drain(rest, outSize);
      ([bytes] + more.0, more.1)
  }

  // ---- what the parser hands on ----

  lemma AddModulo(x: nat, y: nat, z: nat)
    ensures ((x + y) % 256 + z) % 256 == (x + (y + z) % 256) % 256
  {
  }

  lemma ChecksumLast(s: seq<Byte>, b: Byte)
    ensures Checksum(s + [b]) == (Checksum(s) + b) % 256
  {
    assert (s + [b])[..|s|] == s;
  }

  /** The checksum is the sum modulo 256. */
  lemma {:induction false} ChecksumAdds(a: seq<Byte>, b: seq<Byte>)
    ensures Checksum([]) == 0
    ensures Checksum(a + b) == (Checksum(a) + Checksum(b)) % 256
    decreases |b|
  {
    if b == [] {
      assert a + b == a;
    } else {
      var init, last := b[..|b| - 1], b[|b| - 1];
      ChecksumAdds(a, init);
      ChecksumLast(a + init, last);
      ChecksumLast(init, last);
      hide Checksum;
      assert init + [last] == b;
      assert a + b == (a + init) + [last];
      AddModulo(Checksum(a), Checksum(init), last);
    }
  }

  lemma ChecksumOfOne(b: Byte)
    ensures Checksum([b]) == b
  {
    assert [b][..0] == [];
  }

  /** A packet as the device sends it: "TJSG", its own length, at most 512 bytes, the sum of the others at its end. */
  predicate WellFormed(p: seq<Byte>) {
    && 9 <= |p| <= 512
    && p[0] == 0x54 && p[1] == 0x4A && p[2] == 0x53 && p[3] == 0x47
    && p[4] as int * 256 + p[5] as int == |p|
    && Checksum(p[..|p| - 1]) == p[|p| - 1]
  }

  lemma {:induction false} SkipIsSuffix(s: seq<Byte>)
    ensures Skip(s) == s[|s| - |Skip(s)|..]
    decreases |s|
  {
    if |s| >= 4 && !AtMagic(s) {
      SkipIsSuffix(s[1..]);
    }
  }

  /** A packet handed on is well formed, fits the caller's buffer, and stands in the stream right before the rest. */
  lemma PacketIsSound(s: seq<Byte>, outSize: nat)
    requires ParseOne(s, outSize).Packet?
    ensures var p := ParseOne(s, outSize);
            && WellFormed(p.bytes) && |p.bytes| <= outSize
            && |p.bytes| + |p.rest| <= |s| && s[|s| - |p.bytes| - |p.rest|..] == p.bytes + p.rest
  {
    SkipIsSuffix(s);
    hide Skip, Checksum;
    var t, p := Skip(s), ParseOne(s, outSize);
    assert t == p.bytes + p.rest;
    assert p.bytes[..|p.bytes| - 1] == t[..|p.bytes| - 1];
  }

  ghost predicate AllWellFormed(packets: seq<seq<Byte>>) {
    forall i | 0 <= i < |packets| :: WellFormed(packets[i])
  }

  /** Every packet found by draining is well formed, whatever the stream. */
  lemma {:induction false} DrainIsSound(s: seq<Byte>, outSize: nat)
    ensures AllWellFormed(Drain(s, outSize).0)
    decreases |s|
  {
    hide ParseOne, WellFormed;
    match ParseOne(s, outSize)
    case Incomplete(_) =>
    case Corrupt(rest) => ShorterRest(s, outSize); DrainIsSound(rest, outSize);
    case Packet(_, rest) =>
      ShorterRest(s, outSize);
      PacketIsSound(s, outSize);
      DrainIsSound(rest, outSize);
  }

  lemma ShorterRest(s: seq<Byte>, outSize: nat)
    ensures var p := ParseOne(s, outSize); !p.Incomplete? ==> |p.rest| < |s|
  {
  }

  /** Everything else at a magic: what is skipped, and what waits for more bytes. */
  lemma ParserRefuses(t: seq<Byte>, outSize: nat)
    requires |t| >= 6 && t[0] == 0x54 && t[1] == 0x4A && t[2] == 0x53 && t[3] == 0x47
    ensures var len := t[4] as int * 256 + t[5] as int; var p := ParseOne(t, outSize);
            && (len < 9 || len > 512 ==> p == Corrupt(t[1..]))
            && (9 <= len <= 512 && |t| < len ==> p == Incomplete(t))
            && (9 <= len <= 512 && len <= |t| && len > outSize ==> p == Corrupt(t[len..]))
            && (9 <= len <= 512 && len <= |t| && len <= outSize && Checksum(t[..len - 1]) != t[len - 1] ==>
                  p == Corrupt(t[len..]))
            && (9 <= len <= 512 && len <= |t| && len <= outSize && Checksum(t[..len - 1]) == t[len - 1] ==>
                  p == Packet(t[..len], t[len..]))
  {
    hide Checksum;
    assert Skip(t) == t;
  }

  // ---- more bytes never change what has been parsed ----

  lemma {:induction false} SkipMore(s: seq<Byte>, t: seq<Byte>)
    ensures Skip(s + t) == Skip(Skip(s) + t)
    decreases |s|
  {
    if |s| >= 4 && !AtMagic(s) {
      assert (s + t)[1..] == s[1..] + t;
      SkipMore(s[1..], t);
    }
  }

  lemma ParseHereMore(a: seq<Byte>, t: seq<Byte>, outSize: nat)
    ensures var p := ParseHere(a, outSize);
            && (p.Packet? ==> ParseHere(a + t, outSize) == Packet(p.bytes, p.rest + t))
            && (p.Corrupt? ==> ParseHere(a + t, outSize) == Corrupt(p.rest + t))
  {
    if |a| >= 6 {
      var total := TotalOf(a);
      assert TotalOf(a + t) == total;
      if total < 9 || total > MAX_PACKET {
        assert (a + t)[1..] == a[1..] + t;
      } else if |a| >= total {
        assert (a + t)[..total - 1] == a[..total - 1];
        assert (a + t)[..total] == a[..total];
        assert (a + t)[total..] == a[total..] + t;
      }
    }
  }

  lemma ParseMore(s: seq<Byte>, t: seq<Byte>, outSize: nat)
    ensures var p := ParseOne(s, outSize);
            && (p.Packet? ==> ParseOne(s + t, outSize) == Packet(p.bytes, p.rest + t))
            && (p.Corrupt? ==> ParseOne(s + t, outSize) == Corrupt(p.rest + t))
            && (p.Incomplete? ==> p.rest == Skip(s))
  {
    SkipMore(s, t);
    ParseHereMore(Skip(s), t, outSize);
    if !ParseOne(s, outSize).Incomplete? {
      assert Skip(Skip(s) + t) == Skip(s) + t;
    }
  }

  /** Draining after one part and then after the rest is draining the whole. */
  lemma {:induction false} DrainTwice(s: seq<Byte>, t: seq<Byte>, outSize: nat)
    ensures var (found, rest) := Drain(s, outSize);
            var (more, left) := Drain(rest + t, outSize);
            Drain(s + t, outSize) == (found + more, left)
    decreases |s|
  {
    hide ParseHere, Skip;
    var p := ParseOne(s, outSize);
    ParseMore(s, t, outSize);
    match p
    case Incomplete(rest) =>
      SkipMore(s, t);
      DrainSkips(s + t, rest + t, outSize);
      var more := Drain(rest + t, outSize).0;
      assert [] + more == more;
    case Corrupt(rest) => DrainTwice(rest, t, outSize);
    case Packet(bytes, rest) =>
      DrainTwice(rest, t, outSize);
      var (found, left) := Drain(rest, outSize);
      var more := Drain(left + t, outSize).0;
      assert [bytes] + (found + more) == ([bytes] + found) + more;
  }

  lemma DrainSkips(a: seq<Byte>, b: seq<Byte>, outSize: nat)
    requires Skip(a) == Skip(b)
    ensures Drain(a, outSize) == Drain(b, outSize)
  {
  }

  function Flatten(chunks: seq<seq<Byte>>): seq<Byte> {
    if chunks == [] then [] else chunks[0] + Flatten(chunks[1..])
  }

  /** Draining after every chunk, starting with some bytes pending. */
  function DrainChunks(pending: seq<Byte>, chunks: seq<seq<Byte>>, outSize: nat): (seq<seq<Byte>>, seq<Byte>)
    decreases |chunks|
  {
    if chunks == [] then Drain(pending, outSize)
    else
      var (found, rest) := Drain(pending + chunks[0], outSize);
      var (more, left) := DrainChunks(rest, chunks[1..], outSize);
      (found + more, left)
  }

  /** However the stream is cut, the packets and the bytes left are those of the whole stream. */
  lemma {:induction false} ChunkingIndependence(pending: seq<Byte>, chunks: seq<seq<Byte>>, outSize: nat)
    ensures DrainChunks(pending, chunks, outSize) == Drain(pending + Flatten(chunks), outSize)
    decreases |chunks|
  {
    if chunks == [] {
      assert pending + [] == pending;
    } else {
      hide Drain;
      var rest := Drain(pending + chunks[0], outSize).1;
      ChunkingIndependence(rest, chunks[1..], outSize);
      DrainTwice(pending + chunks[0], Flatten(chunks[1..]), outSize);
      Assoc(pending, chunks[0], Flatten(chunks[1..]));
    }
  }

  /** What is left pending after a drain is less than one packet of the largest size. */
  lemma {:induction false} DrainLeavesLittle(s: seq<Byte>, outSize: nat)
    ensures |Drain(s, outSize).1| <= MAX_PACKET - 1
    ensures |Drain(s, outSize).1| <= |s|
    decreases |s|
  {
    match ParseOne(s, outSize)
    case Incomplete(_) =>
    case Corrupt(rest) => DrainLeavesLittle(rest, outSize);
    case Packet(_, rest) => DrainLeavesLittle(rest, outSize);
  }

  /** A second drain finds nothing: draining leaves nothing that could be parsed. */
  lemma {:induction false} DrainIsComplete(s: seq<Byte>, outSize: nat)
    ensures Drain(Drain(s, outSize).1, outSize) == ([], Drain(s, outSize).1)
    decreases |s|
  {
    match ParseOne(s, outSize)
    case Incomplete(_) =>
    case Corrupt(rest) => DrainIsComplete(rest, outSize);
    case Packet(_, rest) => DrainIsComplete(rest, outSize);
  }

  // ---- resynchronisation ----

  /** No magic anywhere in the bytes. */
  ghost predicate MagicFree(g: seq<Byte>) {
    forall i | 0 <= i < |g| :: !AtMagic(g[i..])
  }

  /** The magic overlaps neither itself nor the end of the garbage: it is found where it starts. */
  lemma {:induction false} SkipsGarbage(g: seq<Byte>, s: seq<Byte>)
    requires MagicFree(g) && AtMagic(s)
    ensures Skip(g + s) == s
    decreases |g|
  {
    if g == [] {
      assert g + s == s;
    } else {
      MagicFreeTail(g);
      assert (g + s)[1..] == g[1..] + s;
      assert !AtMagic(g + s) by {
        assert !AtMagic(g[0..]);
      }
      SkipsGarbage(g[1..], s);
    }
  }

  lemma MagicFreeTail(g: seq<Byte>)
    requires MagicFree(g) && g != []
    ensures MagicFree(g[1..])
  {
    forall i | 0 <= i < |g[1..]|
      ensures !AtMagic(g[1..][i..])
    {
      assert g[1..][i..] == g[i + 1..];
    }
  }

  lemma {:induction false} GarbageAlone(g: seq<Byte>)
    requires MagicFree(g)
    ensures |Skip(g)| < 4
    decreases |g|
  {
    if |g| >= 4 {
      assert !AtMagic(g[0..]);
      assert g[0..] == g;
      MagicFreeTail(g);
      GarbageAlone(g[1..]);
    }
  }

  lemma BuiltShape(cmd: Byte, payload: seq<Byte>)
    requires 9 + |payload| <= MAX_PACKET
    ensures WellFormed(Built(cmd, payload))
    ensures var p := Built(cmd, payload);
            && |p| == 9 + |payload| && AtMagic(p) && TotalOf(p) == |p|
            && Checksum(p[..|p| - 1]) == p[|p| - 1]
            && p[0] == 0x54 && p[1] == 0x4A && p[2] == 0x53 && p[3] == 0x47
            && p[4] == |p| / 256 && p[5] == |p| % 256
            && p[6] == cmd && p[7] == 0 && p[8..|p| - 1] == payload
  {
    var p := Built(cmd, payload);
    var body := Header(9 + |payload|, cmd) + payload;
    assert p[..|p| - 1] == body;
    assert (9 + |payload|) / 256 % 256 * 256 + (9 + |payload|) % 256 == 9 + |payload|;
  }

  /** A built packet at the front parses as itself. */
  lemma BuiltParses(cmd: Byte, payload: seq<Byte>, t: seq<Byte>, outSize: nat)
    requires 9 + |payload| <= MAX_PACKET <= outSize
    ensures ParseHere(Built(cmd, payload) + t, outSize) == Packet(Built(cmd, payload), t)
  {
    hide Built, Checksum;
    BuiltShape(cmd, payload);
    var p := Built(cmd, payload);
    assert ParseHere(p, outSize) == Packet(p, []) by {
      assert p[..|p|] == p && p[|p|..] == [];
    }
    ParseHereMore(p, t, outSize);
    assert [] + t == t;
  }

  datatype Item = Item(garbage: seq<Byte>, cmd: Byte, payload: seq<Byte>)

  ghost predicate GoodItem(i: Item) { MagicFree(i.garbage) && 9 + |i.payload| <= MAX_PACKET }

  /** Packets, each behind some garbage. */
  function StreamOf(items: seq<Item>): seq<Byte> {
    if items == [] then [] else items[0].garbage + Built(items[0].cmd, items[0].payload) + StreamOf(items[1..])
  }

  function PacketsOf(items: seq<Item>): seq<seq<Byte>> {
    if items == [] then [] else [Built(items[0].cmd, items[0].payload)] + PacketsOf(items[1..])
  }

  lemma Regroup(g: seq<Byte>, p: seq<Byte>, rest: seq<Byte>, last: seq<Byte>)
    ensures ((g + p) + rest) + last == g + (p + (rest + last))
  {
  }

  /**
   Resynchronisation: any packets of the builder, separated and followed by garbage without
   the magic, parse back to exactly those packets; fewer than four bytes stay pending.
   */
  lemma {:induction false} Resync(items: seq<Item>, last: seq<Byte>, outSize: nat)
    requires (forall i | 0 <= i < |items| :: GoodItem(items[i])) && MagicFree(last) && MAX_PACKET <= outSize
    ensures Drain(StreamOf(items) + last, outSize).0 == PacketsOf(items)
    ensures |Drain(StreamOf(items) + last, outSize).1| < 4
    decreases |items|
  {
    if items == [] {
      assert [] + last == last;
      GarbageAlone(last);
    } else {
      hide Built, ParseHere, MagicFree, Skip;
      var it, after := items[0], StreamOf(items[1..]) + last;
      assert GoodItem(it);
      var p := Built(it.cmd, it.payload);
      BuiltShape(it.cmd, it.payload);
      Regroup(it.garbage, p, StreamOf(items[1..]), last);
      SkipsGarbage(it.garbage, p + after);
      BuiltParses(it.cmd, it.payload, after, outSize);
      Resync(items[1..], last, outSize);
    }
  }
}

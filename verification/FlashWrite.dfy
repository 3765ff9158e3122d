/**
 Writing an SPI NOR flash behind the CH36x bridge. The chip executes the bytes it was sent
 when it is deselected; a page program ANDs its data into memory and wraps within a page of
 256 bytes. The driver cuts a write into page programs. Addresses are the 24 bits sent.
 */
module FlashWrite {
  import opened Frames
  import opened RingIndex

  const PAGE := 256
  const SPACE := 0x100_0000

  const CMD_PROGRAM: Byte := 0x02
  const CMD_STATUS: Byte := 0x05
  const CMD_ENABLE: Byte := 0x06

  /** Programming can only clear bits. */
  function And8(a: Byte, b: Byte): Byte { ((a as bv8) & (b as bv8)) as int }

  // ---- the chip ----

  /** The data of one page program, from offset off on, wrapping at the end of the page. */
  function Program(mem: seq<Byte>, base: nat, off: nat, data: seq<Byte>): (r: seq<Byte>)
    requires |mem| == SPACE && base + PAGE <= SPACE && off < PAGE
    ensures |r| == |mem|
    decreases |data|
  {
    if data == [] then mem
    else Program(mem[base + off := And8(mem[base + off], data[0])], base, (off + 1) % PAGE, data[1..])
  }

  datatype Burst = Burst(addr: nat, len: nat)

  /** sent: the commands so far, byte for byte; bursts: the page programs among them that were executed. */
  datatype Chip = Chip(mem: seq<Byte>, wel: bool, selected: bool, cmd: seq<Byte>, sent: seq<seq<Byte>>,
                       bursts: seq<Burst>)

  function AddressOf(cmd: seq<Byte>): (a: nat)
    requires |cmd| >= 4
    ensures a < SPACE
  {
    var hi: nat, mid: nat, lo: nat := cmd[1], cmd[2], cmd[3];
    hi * 65536 + mid * 256 + lo
  }

  lemma PageInside(addr: nat)
    requires addr < SPACE
    ensures addr - addr % PAGE + PAGE <= SPACE
  {
  }

  /** Deselecting the chip executes the command; programming needs the write-enable latch and clears it. */
  function Deselect(c: Chip): Chip
    requires |c.mem| == SPACE
  {
    var d := c.(selected := false, cmd := [], sent := c.sent + [c.cmd]);
    if c.cmd == [CMD_ENABLE] then d.(wel := true)
    else if |c.cmd| >= 4 && c.cmd[0] == CMD_PROGRAM && c.wel then
      var addr := AddressOf(c.cmd);
      PageInside(addr);
      d.(mem := Program(c.mem, addr - addr % PAGE, addr % PAGE, c.cmd[4..]), wel := false,
         bursts := c.bursts + [Burst(addr, |c.cmd| - 4)])
    else d
  }

  // ---- a flat write ----

  /** Byte i of the data ANDed in at start + i, in the 24-bit address space. */
  function Flat(mem: seq<Byte>, start: nat, data: seq<Byte>): (r: seq<Byte>)
    requires |mem| == SPACE
    ensures |r| == |mem|
    decreases |data|
  {
    if data == [] then mem
    else
      var k := |data| - 1;
      var m := Flat(mem, start, data[..k]);
      m[(start + k) % SPACE := And8(m[(start + k) % SPACE], data[k])]
  }

  lemma {:induction false} FlatTwice(mem: seq<Byte>, start: nat, a: seq<Byte>, b: seq<Byte>)
    requires |mem| == SPACE
    ensures Flat(Flat(mem, start, a), start + |a|, b) == Flat(mem, start, a + b)
    decreases |b|
  {
    if b == [] {
      assert a + b == a;
    } else {
      hide And8;
      var init := b[..|b| - 1];
      FlatTwice(mem, start, a, init);
      assert (a + b)[..|a + b| - 1] == a + init;
    }
  }

  /** A program that stays in its page is the flat write of its data. */
  lemma {:induction false} ProgramIsFlat(mem: seq<Byte>, base: nat, off: nat, data: seq<Byte>)
    requires |mem| == SPACE && base + PAGE <= SPACE && base % PAGE == 0 && off < PAGE && off + |data| <= PAGE
    ensures Program(mem, base, off, data) == Flat(mem, base + off, data)
    decreases |data|
  {
    hide And8;
    if data != [] {
      var first := [data[0]];
      var m := mem[base + off := And8(mem[base + off], data[0])];
      assert Flat(mem, base + off, first) == m by {
        assert first[..0] == [];
        assert Flat(mem, base + off, []) == mem;
      }
      FlatTwice(mem, base + off, first, data[1..]);
      assert first + data[1..] == data;
      if |data| > 1 {
        ProgramIsFlat(m, base, off + 1, data[1..]);
      }
    }
  }

  lemma ModShift(x: nat, k: nat)
    ensures (x % SPACE + k) % SPACE == (x + k) % SPACE
  {
    var q, r := x / SPACE, (x % SPACE + k) % SPACE;
    var p := (x % SPACE + k) / SPACE;
    DivModUnique(x + k, SPACE, q + p, r);
  }

  lemma {:induction false} FlatStart(mem: seq<Byte>, start: nat, data: seq<Byte>)
    requires |mem| == SPACE
    ensures Flat(mem, start % SPACE, data) == Flat(mem, start, data)
    decreases |data|
  {
    hide And8;
    if data != [] {
      FlatStart(mem, start, data[..|data| - 1]);
      ModShift(start, |data| - 1);
    }
  }

  /** The place of address a in a write that begins at start. */
  function Place(a: nat, start: nat): nat { (a - start) % SPACE }

  lemma {:induction false} FlatAtPlace(mem: seq<Byte>, start: nat, data: seq<Byte>, a: nat)
    requires |mem| == SPACE && |data| <= SPACE && a < SPACE
    ensures Flat(mem, start, data)[a]
         == if Place(a, start) < |data| then And8(mem[a], data[Place(a, start)]) else mem[a]
    decreases |data|
  {
    if data != [] {
      hide And8;
      var k := |data| - 1;
      FlatAtPlace(mem, start, data[..k], a);
      PlaceInverts(a, start, k);
    }
  }

  /** Up to 16 MiB: old AND data on the range, everything else unchanged. */
  lemma FlatAt(mem: seq<Byte>, start: nat, data: seq<Byte>, a: nat)
    requires |mem| == SPACE && |data| <= SPACE && a < SPACE
    ensures Flat(mem, start, data)[a]
         == var i := (a - start) % 0x100_0000;
            if i < |data| then ((mem[a] as bv8) & (data[i] as bv8)) as int else mem[a]
  {
    FlatAtPlace(mem, start, data, a);
    if Place(a, start) < |data| {
      AndIs(mem[a], data[Place(a, start)]);
    }
    hide And8, Flat;
  }

  lemma AndIs(a: Byte, b: Byte)
    ensures And8(a, b) == ((a as bv8) & (b as bv8)) as int
  {
  }

  lemma PlaceInverts(a: nat, start: nat, k: nat)
    requires a < SPACE && k < SPACE
    ensures a == (start + k) % SPACE <==> Place(a, start) == k
  {
  }

  // ---- the driver ----

  class Ch36x {
    var chip: Chip
    var weLeft: nat    // write-enable sequences that will still succeed

    predicate Valid()
      reads this
    {
      |chip.mem| == SPACE
    }

    method StartSpi()
      requires Valid()
      modifies this`chip
      ensures Valid() && chip == old(chip).(selected := true, cmd := [])
    {
      chip := chip.(selected := true, cmd := []);
    }

    method OutByte(b: Byte)
      requires Valid() && chip.selected
      modifies this`chip
      ensures Valid() && chip == old(chip).(cmd := old(chip).cmd + [b])
    {
      chip := chip.(cmd := chip.cmd + [b]);
    }

    method StopSpi()
      requires Valid()
      modifies this`chip
      ensures old(Valid()) && chip == Deselect(old(chip)) && Valid()
    {
      chip := Deselect(chip);
    }

    /** Write enable; once it fails it sends nothing. */
    method FlashWe() returns (ok: bool)
      requires Valid()
      modifies this`chip, this`weLeft
      ensures ok == (old(weLeft) > 0) && weLeft == old(weLeft) - One(ok)
      ensures Valid() && chip.mem == old(chip).mem && chip.bursts == old(chip).bursts && (ok ==> chip.wel)
      ensures chip.sent == old(chip).sent + if ok then [[0x06]] else []
    {
      if weLeft == 0 {
        return false;
      }
      weLeft := weLeft - 1;
      StartSpi();
      OutByte(CMD_ENABLE);
      StopSpi();
      ok := true;
    }

    /** The ready poll reads the status register. */
    method FlashWait()
      requires Valid()
      modifies this`chip
      ensures Valid() && chip.mem == old(chip).mem && chip.bursts == old(chip).bursts && chip.wel == old(chip).wel
      ensures chip.sent == old(chip).sent + [[0x05]]
    {
      StartSpi();
      OutByte(CMD_STATUS);
      assert chip.cmd == [CMD_STATUS];
      StopSpi();
    }

    /** One page program: bytes from i on, up to the end of the page or of the buffer. */
    method ProgramPage(startaddr: nat, buffer: seq<Byte>, i: nat) returns (next: nat, addr: nat)
      requires Valid() && chip.wel && i < |buffer| && startaddr < U32
      modifies this`chip
      ensures Valid() && i < next <= |buffer| && addr == (startaddr + (next - i)) % U32
      ensures next == |buffer| || (startaddr + (next - i)) % 256 == 0
      ensures var head := [0x02, startaddr / 65536 % 256, startaddr / 256 % 256, startaddr % 256];
              chip.sent == old(chip).sent + [head + buffer[i..next], [0x05]]
      ensures chip.mem == Flat(old(chip).mem, startaddr, buffer[i..next])
      ensures chip.bursts == old(chip).bursts + [Burst(startaddr % SPACE, next - i)]
      ensures startaddr % 256 + (next - i) <= 256
    {
      hide Flat, Program, And8, Deselect;
      ghost var before := chip;
      StartSpi();
      OutByte(CMD_PROGRAM);
      OutByte(startaddr / 65536 % 256);
      OutByte(startaddr / 256 % 256);
      OutByte(startaddr % 256);
      ghost var head := [CMD_PROGRAM, startaddr / 65536 % 256, startaddr / 256 % 256, startaddr % 256];
      assert chip.cmd == head + buffer[i..i];
      next, addr := i, startaddr;
      while true
        invariant i <= next < |buffer| && addr == (startaddr + (next - i)) % U32
        invariant startaddr % PAGE + (next - i) < PAGE
        invariant chip == before.(selected := true, cmd := chip.cmd) && chip.cmd == head + buffer[i..next]
        decreases |buffer| - next
      {
        OutByte(buffer[next]);
        AddressMoves(startaddr, next - i);
        addr := (addr + 1) % U32;
        next := next + 1;
        assert buffer[i..next - 1] + [buffer[next - 1]] == buffer[i..next];
        if next >= |buffer| {
          break;
        }
        if addr % 256 == 0 {
          break;
        }
      }
      BurstIsFlat(chip, head, startaddr, buffer[i..next]);
      StopSpi();
      FlashWait();
      assert before.sent + [head + buffer[i..next]] + [[0x05]] == before.sent + [head + buffer[i..next], [0x05]];
    }

    /**
     The whole write. It reports success exactly when the chip answered, the buffer could be
     copied, something was to be written and every write enable succeeded; then the memory is
     the flat write of the data. A failing write enable leaves a prefix of whole pages. The
     page programs cover the bytes written once each, in order.
     */
    method Write(startaddr: nat, buffer: seq<Byte>, memOk: bool, copyOk: bool, flashId: Byte)
      returns (ok: bool, ghost done: nat)
      requires Valid() && startaddr < U32 && flashId != 0xBF
      modifies this`chip, this`weLeft
      ensures Valid() && done <= |buffer| && chip.mem == Flat(old(chip).mem, startaddr, buffer[..done])
      ensures buffer == [] || !memOk || !copyOk || flashId == 0xFF ==> !ok && done == 0
      ensures ok ==> done == |buffer| > 0
      ensures !ok ==> done == 0 || (startaddr + done) % 256 == 0
      ensures !ok && buffer != [] && memOk && copyOk && flashId != 0xFF ==> weLeft == 0 && done < |buffer|
      ensures old(chip).bursts <= chip.bursts && Covers(chip.bursts[|old(chip).bursts|..], startaddr, done)
    {
      hide Flat, Covers;
      done := 0;
      NothingCovered(startaddr);
      assert chip.bursts[|chip.bursts|..] == [];
      NothingWritten(chip.mem, startaddr, buffer);
      if buffer == [] || !memOk || !copyOk || flashId == 0xFF {
        return false, 0;
      }
      ghost var mem, logged := chip.mem, chip.bursts;
      var i, addr := 0, startaddr;
      while i < |buffer|
        invariant 0 <= i <= |buffer| && Valid() && addr == (startaddr + i) % U32
        invariant (i == 0 || i == |buffer| || (startaddr + i) % PAGE == 0)
        invariant chip.mem == Flat(mem, startaddr, buffer[..i])
        invariant logged <= chip.bursts && Covers(chip.bursts[|logged|..], startaddr, i)
      {
        var we := FlashWe();
        if !we {
          return false, i;
        }
        ghost var sofar, bursts := chip.mem, chip.bursts;
        var next, moved := ProgramPage(addr, buffer, i);
        NextPage(mem, sofar, startaddr, addr, buffer, i, next);
        CoversMore(bursts[|logged|..], startaddr, i, Burst(addr % SPACE, next - i));
        assert chip.bursts[|logged|..] == bursts[|logged|..] + [Burst(addr % SPACE, next - i)];
        i, addr := next, moved;
      }
      assert buffer[..|buffer|] == buffer;
      return true, |buffer|;
    }
  }

  lemma NothingWritten(mem: seq<Byte>, start: nat, buffer: seq<Byte>)
    requires |mem| == SPACE
    ensures Flat(mem, start, buffer[..0]) == mem
  {
  }

  lemma AddressMoves(startaddr: nat, n: nat)
    requires startaddr < U32 && startaddr % PAGE + n < PAGE
    ensures ((startaddr + n) % U32 + 1) % U32 == (startaddr + (n + 1)) % U32
    ensures ((startaddr + (n + 1)) % U32) % 256 == 0 <==> startaddr % PAGE + n + 1 == PAGE
    ensures (startaddr + (n + 1)) % PAGE == 0 <==> startaddr % PAGE + n + 1 == PAGE
  {
    WrappedMove(startaddr + n, 1);
    WrapKeepsOffset(startaddr + (n + 1));
    ModAdd(startaddr, n + 1, 256);
  }

  lemma WrapKeepsOffset(x: nat)
    ensures (x % U32) % 256 == x % 256
  {
    var q, h := x / U32, x % U32;
    DivModUnique(x, 256, q * 0x100_0000 + h / 256, h % 256);
  }

  function TotalLen(bursts: seq<Burst>): nat {
    if bursts == [] then 0 else TotalLen(bursts[..|bursts| - 1]) + bursts[|bursts| - 1].len
  }

  /** Each program begins where those before it end, the first one at start. */
  ghost predicate BurstsTile(bursts: seq<Burst>, start: nat) {
    forall k | 0 <= k < |bursts| :: bursts[k].addr == (start + TotalLen(bursts[..k])) % SPACE
  }

  lemma BurstsTileMore(bursts: seq<Burst>, start: nat, b: Burst)
    requires BurstsTile(bursts, start) && b.addr == (start + TotalLen(bursts)) % SPACE
    ensures BurstsTile(bursts + [b], start) && TotalLen(bursts + [b]) == TotalLen(bursts) + b.len
  {
    hide TotalLen;
    var more := bursts + [b];
    assert more[..|bursts|] == bursts;
    assert TotalLen(more) == TotalLen(bursts) + b.len by { LastLen(more); }
    forall k | 0 <= k < |more|
      ensures more[k].addr == (start + TotalLen(more[..k])) % SPACE
    {
      if k < |bursts| {
        assert more[..k] == bursts[..k];
      }
    }
  }

  lemma LastLen(bursts: seq<Burst>)
    requires bursts != []
    ensures TotalLen(bursts) == TotalLen(bursts[..|bursts| - 1]) + bursts[|bursts| - 1].len
  {
  }

  /** The programs fit their pages and cover the done bytes once, in order and without a gap. */
  ghost predicate Covers(bursts: seq<Burst>, start: nat, done: nat) {
    && TotalLen(bursts) == done && BurstsTile(bursts, start)
    && forall b | b in bursts :: 0 < b.len && b.addr % PAGE + b.len <= PAGE
  }

  lemma NothingCovered(start: nat)
    ensures Covers([], start, 0)
  {
  }

  lemma CoversMore(bursts: seq<Burst>, start: nat, done: nat, b: Burst)
    requires Covers(bursts, start, done) && 0 < b.len && b.addr % PAGE + b.len <= PAGE
    requires b.addr == (start + done) % SPACE
    ensures Covers(bursts + [b], start, done + b.len)
  {
    hide TotalLen, BurstsTile;
    BurstsTileMore(bursts, start, b);
  }

  /** Deselecting after the command and the data of one page performs the flat write. */
  lemma BurstIsFlat(c: Chip, head: seq<Byte>, startaddr: nat, data: seq<Byte>)
    requires |c.mem| == SPACE && c.wel && startaddr % PAGE + |data| <= PAGE
    requires head == [CMD_PROGRAM, startaddr / 65536 % 256, startaddr / 256 % 256, startaddr % 256]
    requires c.cmd == head + data
    ensures Deselect(c).mem == Flat(c.mem, startaddr, data)
    ensures Deselect(c).bursts == c.bursts + [Burst(startaddr % SPACE, |data|)]
    ensures |Deselect(c).mem| == SPACE && Deselect(c).sent == c.sent + [c.cmd]
  {
    hide Program, Flat, And8;
    AddressBytes(startaddr);
    var addr := AddressOf(c.cmd);
    assert addr == startaddr % SPACE;
    assert c.cmd[4..] == data;
    PageInside(addr);
    AddressInPage(startaddr);
    ProgramIsFlat(c.mem, addr - addr % PAGE, addr % PAGE, data);
    FlatStart(c.mem, startaddr, data);
  }

  lemma AddressBytes(a: nat)
    ensures a / 65536 % 256 * 65536 + a / 256 % 256 * 256 + a % 256 == a % SPACE
  {
    var b, lo := a / 256, a % 256;
    var c, mid := b / 256, b % 256;
    var q, hi := c / 256, c % 256;
    DivModUnique(a, 65536, c, mid * 256 + lo);
    DivModUnique(a, SPACE, q, hi * 65536 + mid * 256 + lo);
  }

  lemma AddressInPage(a: nat)
    ensures a % SPACE % PAGE == a % PAGE && (a % SPACE - a % SPACE % PAGE) % PAGE == 0
  {
  }

  lemma NextPage(mem: seq<Byte>, sofar: seq<Byte>, startaddr: nat, addr: nat, buffer: seq<Byte>, i: nat, next: nat)
    requires |mem| == SPACE && i <= next <= |buffer| && sofar == Flat(mem, startaddr, buffer[..i])
    requires addr == (startaddr + i) % U32
    ensures Flat(sofar, addr, buffer[i..next]) == Flat(mem, startaddr, buffer[..next])
    ensures (addr + (next - i)) % U32 == (startaddr + next) % U32
    ensures addr % SPACE % PAGE == addr % PAGE && addr % SPACE == (startaddr + i) % SPACE
    ensures (addr + (next - i)) % PAGE == (startaddr + next) % PAGE
  {
    hide Flat;
    FlatTwice(mem, startaddr, buffer[..i], buffer[i..next]);
    assert buffer[..i] + buffer[i..next] == buffer[..next];
    FlatStart(sofar, addr, buffer[i..next]);
    FlatStart(sofar, startaddr + i, buffer[i..next]);
    WrapKeepsAddress(startaddr + i);
    WrappedMove(startaddr + i, next - i);
    AddressInPage(addr);
    WrapKeepsOffset(addr + (next - i));
    WrapKeepsOffset(startaddr + next);
  }

  /** The 32-bit address counter wraps at a multiple of the 24-bit space. */
  lemma WrapKeepsAddress(x: nat)
    ensures (x % U32) % SPACE == x % SPACE
  {
    var q, h := x / U32, x % U32;
    DivModUnique(x, SPACE, q * 256 + h / SPACE, h % SPACE);
  }
}

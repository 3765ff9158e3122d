/**
 The SLCAN writer and reader as they are written: the frame printed into a character buffer,
 the write buffer, the line assembler and the line parser. write() takes all bytes it is given.
 */
module SlcanPrograms {
  import opened Frames
  import RingIndex
  import opened SlcanText

  const BUF_SIZE := 4096

  // ---- the writer ----

  class SlcanBuf {
    const buf: array<char>
    var used: nat
    var written: string   // everything handed to write()

    predicate Valid()
      reads this
    {
      buf.Length == BUF_SIZE && used <= BUF_SIZE
    }

    /** All characters accepted so far. */
    function Stream(): string
      requires Valid()
      reads this, buf
    {
      written + buf[..used]
    }

    constructor ()
      ensures Valid() && fresh(buf) && Stream() == [] && used == 0 && written == []
    {
      buf := new char[BUF_SIZE](i => ' ');
      used, written := 0, [];
    }

    method Flush()
      requires Valid()
      modifies this
      ensures Valid() && used == 0 && written == old(Stream())
    {
      if used == 0 {
        assert buf[..0] == [];
        return;
      }
      written := written + buf[..used];
      used := 0;
    }

    method Write(data: array<char>, len: nat)
      requires Valid() && len <= data.Length && len <= BUF_SIZE && data != buf
      modifies this, buf
      ensures Valid() && Stream() == old(Stream()) + data[..len] && old(written) <= written
    {
      ghost var before := Stream();
      if used + len > BUF_SIZE {
        Flush();
        assert Stream() == before;
      }
      ghost var held := buf[..used];
      forall k | 0 <= k < len {
        buf[used + k] := data[k];
      }
      assert buf[..used + len] == held + data[..len];
      used := used + len;
    }
  }

  /** The smallest length code whose size holds len; 15 when none does. */
  method LenToDlc(len: int) returns (dlc: nat)
    ensures dlc < 16 && (len <= 64 ==> len <= DLC_TO_LEN[dlc])
    ensures forall d | 0 <= d < dlc :: DLC_TO_LEN[d] < len
  {
    for i := 0 to 16
      invariant forall d | 0 <= d < i :: DLC_TO_LEN[d] < len
    {
      if DLC_TO_LEN[i] >= len {
        return i;
      }
    }
    return 15;
  }

  /** Length code and length of every frame of a run: the smallest size that holds the clamped request. */
  method PlanLength(useFd: bool, useTs: bool, payloadLen: int) returns (dlc: nat, actualLen: nat)
    ensures dlc < (if useFd then 16 else 9) && actualLen == DLC_TO_LEN[dlc]
    ensures useTs ==> 8 <= actualLen
    ensures var asked := if useTs && payloadLen < 8 then 8 else if payloadLen < 0 then 0 else payloadLen;
            var wanted := if useFd then (if asked > 64 then 64 else asked) else if asked > 8 then 8 else asked;
            wanted <= actualLen && forall d | 0 <= d < dlc :: DLC_TO_LEN[d] < wanted
  {
    var maxLen := if useFd then 64 else 8;
    var len := payloadLen;
    if useTs && len < CANTS_SIZE {
      len := CANTS_SIZE;
    }
    if len < 0 {
      len := 0;
    }
    if len > maxLen {
      len := maxLen;
    }
    if useFd {
      dlc := LenToDlc(len);
      actualLen := DLC_TO_LEN[dlc];
    } else {
      dlc, actualLen := len, len;
      ShortLengths(len);
    }
  }

  lemma ShortLengths(len: nat)
    requires len <= 8
    ensures DLC_TO_LEN[len] == len
    ensures forall d | 0 <= d < len :: DLC_TO_LEN[d] < len
  {
    var t := DLC_TO_LEN;
    assert t[0] == 0 && t[1] == 1 && t[2] == 2 && t[3] == 3;
    assert t[4] == 4 && t[5] == 5 && t[6] == 6 && t[7] == 7 && t[8] == 8;
  }

  function Payload(useTs: bool, ts: seq<Byte>, counter: Byte, len: nat): (data: seq<Byte>)
    requires |ts| == CANTS_SIZE
    ensures |data| == len
  {
    seq(len, i requires 0 <= i < len => if useTs && i < CANTS_SIZE then ts[i] else (counter + i) % 256)
  }

  /** The turn's timestamp in front, if any, and behind it bytes that count on from the turn's counter. */
  lemma PayloadAt(useTs: bool, ts: seq<Byte>, counter: Byte, len: nat)
    requires |ts| == CANTS_SIZE
    ensures var data := Payload(useTs, ts, counter, len);
            forall i | 0 <= i < len :: data[i] == if useTs && i < 8 then ts[i] else (counter + i) % 256
  {
  }

  /** sprintf's %0nX of a value of at most n digits, with its terminating NUL. */
  method PutHex(buf: array<char>, pos: nat, v: nat, n: nat)
    requires pos + n < buf.Length && v < Pow16(n)
    modifies buf
    ensures buf[..pos + n] == old(buf[..pos]) + Hex(v, n)
  {
    hide Digit, Pow16;
    ghost var before := buf[..pos];
    buf[pos + n] := '\0';
    var i, x := n, v;
    assert buf[pos + n..pos + n] == [];
    while i > 0
      invariant 0 <= i <= n && 0 <= x && buf[..pos] == before && Hex(v, n) == Hex(x, i) + buf[pos + i..pos + n]
    {
      ghost var tail := buf[pos + i..pos + n];
      i := i - 1;
      buf[pos + i] := Digit(x % 16);
      HexUnfold(x, i, tail);
      assert buf[pos + i..pos + n] == [Digit(x % 16)] + tail;
      x := x / 16;
    }
    assert buf[..pos + n] == buf[..pos] + buf[pos..pos + n];
  }

  lemma HexUnfold(x: nat, i: nat, tail: string)
    ensures Hex(x, i + 1) + tail == Hex(x / 16, i) + ([Digit(x % 16)] + tail)
  {
    hide Digit;
  }

  /** One turn's frame in the character buffer. */
  method BuildFrame(buf: array<char>, useFd: bool, useExt: bool, arbId: nat, dlc: nat, useTs: bool, ts: seq<Byte>,
                    counter: Byte)
    returns (pos: nat)
    requires buf.Length == 256 && dlc < 16 && DLC_TO_LEN[dlc] <= 64 && |ts| == CANTS_SIZE
    requires useTs ==> CANTS_SIZE <= DLC_TO_LEN[dlc]
    modifies buf
    ensures pos < 256
    ensures var data := Payload(useTs, ts, counter, DLC_TO_LEN[dlc]);
      && buf[..pos] == Printed(SlFrame(useFd, useExt, if useExt then arbId % 0x2000_0000 else arbId % 0x800, dlc, data))
      && forall i | 0 <= i < |data| :: data[i] == if useTs && i < 8 then ts[i] else (counter + i) % 256
  {
    hide Digit, Hex, HexBytes, Pow16, Payload;
    var actualLen := DLC_TO_LEN[dlc];
    Pow16Bound(IdChars(useExt));
    buf[0] := Command(useFd, useExt);
    var id := if useExt then arbId % 0x2000_0000 else arbId % 0x800;
    PutHex(buf, 1, id, IdChars(useExt));
    pos := 1 + IdChars(useExt);
    buf[pos] := Digit(dlc);
    pos := pos + 1;
    ghost var head := buf[..pos];
    ghost var f := SlFrame(useFd, useExt, id, dlc, Payload(useTs, ts, counter, actualLen));
    PayloadAt(useTs, ts, counter, actualLen);
    assert head == [Command(useFd, useExt)] + Hex(f.id, IdChars(useExt)) + [Digit(dlc)];
    pos := PutPayload(buf, pos, useTs, ts, counter, actualLen);
    assert buf[..pos] == LineOf(f);
    buf[pos] := '\r';
    pos := pos + 1;
    assert buf[..pos] == Printed(f);
    buf[pos] := '\0';
  }

  method PutPayload(buf: array<char>, at: nat, useTs: bool, ts: seq<Byte>, counter: Byte, actualLen: nat)
    returns (pos: nat)
    requires at + 2 * actualLen < buf.Length && |ts| == CANTS_SIZE && (useTs ==> CANTS_SIZE <= actualLen)
    modifies buf
    ensures pos == at + 2 * actualLen
    ensures buf[..pos] == old(buf[..at]) + HexBytes(Payload(useTs, ts, counter, actualLen))
  {
    hide Hex, Pow16;
    ghost var head := buf[..at];
    ghost var data := Payload(useTs, ts, counter, actualLen);
    NoBytes(head, data);
    TwoDigits();
    pos := at;
    var i := 0;
    if useTs {
      while i < CANTS_SIZE
        invariant i <= CANTS_SIZE && pos == at + 2 * i && buf[..pos] == head + HexBytes(data[..i])
      {
        OneMoreByte(head, data, i);
        PutHex(buf, pos, ts[i], 2);
        pos := pos + 2;
        i := i + 1;
      }
    }
    while i < actualLen
      invariant i <= actualLen && (useTs ==> i >= CANTS_SIZE) && pos == at + 2 * i
      invariant buf[..pos] == head + HexBytes(data[..i])
    {
      OneMoreByte(head, data, i);
      PutHex(buf, pos, (counter + i) % 256, 2);
      pos := pos + 2;
      i := i + 1;
    }
    assert data[..actualLen] == data;
  }

  lemma TwoDigits()
    ensures Pow16(2) == 256
  {
    assert Pow16(1) == 16;
  }

  lemma NoBytes(head: string, data: seq<Byte>)
    ensures head + HexBytes(data[..0]) == head
  {
  }

  lemma OneMoreByte(head: string, data: seq<Byte>, i: nat)
    requires i < |data|
    ensures head + HexBytes(data[..i + 1]) == (head + HexBytes(data[..i])) + Hex(data[i], 2)
  {
    hide Hex;
    assert data[..i + 1][..i] == data[..i];
  }

  datatype Config = Config(useFd: bool, useExt: bool, arbId: nat, useTs: bool)

  function IdOf(c: Config): nat { if c.useExt then c.arbId % 0x2000_0000 else c.arbId % 0x800 }

  /** The frames of a run: one per turn of the loop, ticks holding the turn's timestamp. */
  function FramesOf(c: Config, dlc: nat, ticks: seq<seq<Byte>>): (fs: seq<SlFrame>)
    requires dlc < 16 && forall i | 0 <= i < |ticks| :: |ticks[i]| == CANTS_SIZE
    ensures |fs| == |ticks|
  {
    if ticks == [] then []
    else
      var k := |ticks| - 1;
      FramesOf(c, dlc, ticks[..k])
      + [SlFrame(c.useFd, c.useExt, IdOf(c), dlc,
                 Payload(c.useTs, ticks[k], k % 256, DLC_TO_LEN[dlc]))]
  }

  /** Turn k of a run: the kind, id and length asked for, and bytes that count on from k behind any timestamp. */
  lemma Turns(c: Config, dlc: nat, ticks: seq<seq<Byte>>)
    requires dlc < 16 && forall i | 0 <= i < |ticks| :: |ticks[i]| == CANTS_SIZE
    ensures forall k | 0 <= k < |ticks| ::
      && var f := FramesOf(c, dlc, ticks)[k];
      && f.fd == c.useFd && f.ext == c.useExt && f.id == c.arbId % (if c.useExt then 0x2000_0000 else 0x800)
      && f.dlc == dlc && |f.data| == DLC_TO_LEN[dlc]
      && forall i | 0 <= i < |f.data| :: f.data[i] == if c.useTs && i < 8 then ticks[k][i] else (k + i) % 256
  {
    hide Payload, FramesOf;
    forall k | 0 <= k < |ticks|
      ensures FramesOf(c, dlc, ticks)[k]
           == SlFrame(c.useFd, c.useExt, IdOf(c), dlc, Payload(c.useTs, ticks[k], k % 256, DLC_TO_LEN[dlc]))
    {
      FrameIs(c, dlc, ticks, k);
    }
    forall k, i | 0 <= k < |ticks| && 0 <= i < DLC_TO_LEN[dlc]
      ensures FramesOf(c, dlc, ticks)[k].data[i] == if c.useTs && i < 8 then ticks[k][i] else (k + i) % 256
    {
      PayloadAt(c.useTs, ticks[k], k % 256, DLC_TO_LEN[dlc]);
      CounterWraps(k, i);
    }
  }

  lemma {:induction false} FrameIs(c: Config, dlc: nat, ticks: seq<seq<Byte>>, k: nat)
    requires dlc < 16 && (forall i | 0 <= i < |ticks| :: |ticks[i]| == CANTS_SIZE) && k < |ticks|
    ensures FramesOf(c, dlc, ticks)[k]
         == SlFrame(c.useFd, c.useExt, IdOf(c), dlc, Payload(c.useTs, ticks[k], k % 256, DLC_TO_LEN[dlc]))
    decreases |ticks|
  {
    hide Payload, IdOf;
    var last := |ticks| - 1;
    if k < last {
      FrameIs(c, dlc, ticks[..last], k);
    }
  }

  lemma CounterWraps(k: nat, i: nat)
    ensures (k % 256 + i) % 256 == (k + i) % 256
  {
  }

  lemma {:induction false} FramesAreValid(c: Config, dlc: nat, ticks: seq<seq<Byte>>)
    requires dlc < (if c.useFd then 16 else 9) && forall i | 0 <= i < |ticks| :: |ticks[i]| == CANTS_SIZE
    ensures ValidFrames(FramesOf(c, dlc, ticks))
    decreases |ticks|
  {
    if ticks != [] {
      FramesAreValid(c, dlc, ticks[..|ticks| - 1]);
    }
  }

  /** The main loop and the final flush. */
  method WriteFrames(c: Config, dlc: nat, ticks: seq<seq<Byte>>) returns (stream: string)
    requires dlc < (if c.useFd then 16 else 9) && forall i | 0 <= i < |ticks| :: |ticks[i]| == CANTS_SIZE
    requires c.useTs ==> CANTS_SIZE <= DLC_TO_LEN[dlc]
    ensures ValidFrames(FramesOf(c, dlc, ticks)) && stream == PrintedAll(FramesOf(c, dlc, ticks))
  {
    hide Printed, PrintedAll, Payload, FramesOf, ValidFrames;
    LongestPayload(dlc);
    var sbuf := new SlcanBuf();
    var buf := new char[256](i => ' ');
    var counter: Byte := 0;
    var i := 0;
    assert ticks[..0] == [];
    NoFrames(c, dlc);
    while i < |ticks|
      invariant i <= |ticks| && sbuf.Valid() && fresh(sbuf) && fresh(sbuf.buf) && buf != sbuf.buf && counter == i % 256
      invariant ValidFrames(FramesOf(c, dlc, ticks[..i])) && sbuf.Stream() == PrintedAll(FramesOf(c, dlc, ticks[..i]))
    {
      var pos := BuildFrame(buf, c.useFd, c.useExt, c.arbId, dlc, c.useTs, ticks[i], counter);
      sbuf.Write(buf, pos);
      FramesAreValid(c, dlc, ticks[..i + 1]);
      OneMoreFrame(c, dlc, ticks, i);
      counter := (counter + 1) % 256;
      i := i + 1;
    }
    sbuf.Flush();
    assert ticks[..|ticks|] == ticks;
    stream := sbuf.written;
  }

  /** A run of the writer: the stream written is one frame per turn, printed one after the other. */
  method RunWriter(c: Config, payloadLen: int, ticks: seq<seq<Byte>>) returns (stream: string, dlc: nat)
    requires forall i | 0 <= i < |ticks| :: |ticks[i]| == CANTS_SIZE
    ensures var asked := if c.useTs && payloadLen < 8 then 8 else if payloadLen < 0 then 0 else payloadLen;
            var wanted := if c.useFd then (if asked > 64 then 64 else asked) else if asked > 8 then 8 else asked;
            && dlc < (if c.useFd then 16 else 9)
            && wanted <= DLC_TO_LEN[dlc] && forall d | 0 <= d < dlc :: DLC_TO_LEN[d] < wanted
    ensures forall k | 0 <= k < |ticks| ::
      && var f := FramesOf(c, dlc, ticks)[k];
      && f.fd == c.useFd && f.ext == c.useExt && f.id == c.arbId % (if c.useExt then 0x2000_0000 else 0x800)
      && f.dlc == dlc && |f.data| == DLC_TO_LEN[dlc]
      && forall i | 0 <= i < |f.data| :: f.data[i] == if c.useTs && i < 8 then ticks[k][i] else (k + i) % 256
    ensures ValidFrames(FramesOf(c, dlc, ticks)) && stream == PrintedAll(FramesOf(c, dlc, ticks))
  {
    hide PrintedAll, Payload, FramesOf, ValidFrames;
    var actualLen;
    dlc, actualLen := PlanLength(c.useFd, c.useTs, payloadLen);
    stream := WriteFrames(c, dlc, ticks);
    Turns(c, dlc, ticks);
  }

  lemma NoFrames(c: Config, dlc: nat)
    requires dlc < 16
    ensures ValidFrames(FramesOf(c, dlc, [])) && PrintedAll(FramesOf(c, dlc, [])) == []
  {
  }

  lemma OneMoreFrame(c: Config, dlc: nat, ticks: seq<seq<Byte>>, i: nat)
    requires dlc < (if c.useFd then 16 else 9) && (forall k | 0 <= k < |ticks| :: |ticks[k]| == CANTS_SIZE)
    requires i < |ticks|
    requires ValidFrames(FramesOf(c, dlc, ticks[..i])) && ValidFrames(FramesOf(c, dlc, ticks[..i + 1]))
    ensures var f := SlFrame(c.useFd, c.useExt, IdOf(c), dlc,
                             Payload(c.useTs, ticks[i], i % 256, DLC_TO_LEN[dlc]));
            PrintedAll(FramesOf(c, dlc, ticks[..i + 1])) == PrintedAll(FramesOf(c, dlc, ticks[..i])) + Printed(f)
  {
    hide Printed, Payload;
    assert ticks[..i + 1][..i] == ticks[..i];
    var fs := FramesOf(c, dlc, ticks[..i + 1]);
    assert fs[..i] == FramesOf(c, dlc, ticks[..i]);
  }

  // ---- the reader ----

  function PayloadCount(r: Reading): int {
    match r
    case NotData => -1
    case Remote => 0
    case Data(_, _, _, _, n, _) => n
  }

  /** The id digits, accumulated in a 32-bit word. */
  method ParseId(line: array<char>, len: nat, idChars: nat) returns (ok: bool, arbId: nat)
    requires len <= line.Length && 1 + idChars <= len
    ensures ok <==> AllHex(line[1..1 + idChars])
    ensures ok ==> arbId == HexNumber(line[1..1 + idChars])
  {
    hide HexVal;
    arbId := 0;
    var pos := 1;
    for i := 0 to idChars
      invariant pos == 1 + i && AllHex(line[1..1 + i]) && arbId == HexNumber(line[1..1 + i])
    {
      var v := HexVal(line[pos]);
      if v < 0 {
        assert line[1..1 + idChars][i] == line[pos];
        return false, 0;
      }
      HexSnoc(line[1..1 + i], line[pos]);
      assert line[1..1 + i] + [line[pos]] == line[1..2 + i];
      arbId := (arbId * 16 + v) % RingIndex.U32;
      pos := pos + 1;
    }
    ok := true;
  }

  /** The bytes the verbose listing prints. */
  method ListBytes(line: array<char>, len: nat, pos: nat, available: nat) returns (bytes: seq<Byte>)
    requires pos + 2 * available <= len <= line.Length
    ensures bytes == PairBytes(line[pos..len], available)
  {
    hide HexVal;
    bytes := [];
    for i := 0 to available
      invariant bytes == PairBytes(line[pos..len], i)
    {
      var hi, lo := HexVal(line[pos + i * 2]), HexVal(line[pos + i * 2 + 1]);
      assert line[pos..len][2 * i] == line[pos + i * 2] && line[pos..len][2 * i + 1] == line[pos + i * 2 + 1];
      if hi >= 0 && lo >= 0 {
        bytes := bytes + [hi * 16 + lo];
      } else {
        assert bytes + [] == bytes;
      }
    }
  }

  /** The timestamp bytes, into the caller's buffer. */
  method ReadStamp(line: array<char>, len: nat, pos: nat, tsOut: array<Byte>)
    requires pos + 2 * CANTS_SIZE <= len <= line.Length && tsOut.Length == CANTS_SIZE
    modifies tsOut
    ensures tsOut[..] == StampOf(line[pos..len])
  {
    hide HexVal;
    for i := 0 to CANTS_SIZE
      invariant forall k | 0 <= k < i :: tsOut[k] == StampOf(line[pos..len])[k]
    {
      var hi, lo := HexVal(line[pos + i * 2]), HexVal(line[pos + i * 2 + 1]);
      assert line[pos..len][2 * i] == line[pos + i * 2] && line[pos..len][2 * i + 1] == line[pos + i * 2 + 1];
      tsOut[i] := if hi >= 0 && lo >= 0 then hi * 16 + lo else 0;
    }
  }

  /** The length code and the data of a line of a known kind; pos is where the data begins. */
  method ParseBody(line: array<char>, len: nat, isFd: bool, isExt: bool) returns (shown: Reading, pos: nat)
    requires 2 <= len <= line.Length
    ensures shown == ReadBody(isFd, isExt, line[..len])
    ensures shown.Data? ==> pos == IdChars(isExt) + 2 && pos + 2 * shown.dataBytes <= len
  {
    hide AllHex, HexNumber, PairBytes, HexVal;
    var idChars := IdChars(isExt);
    pos := 1;
    if pos + idChars > len {
      return NotData, pos;
    }
    var ok, arbId := ParseId(line, len, idChars);
    assert line[..len][1..1 + idChars] == line[1..1 + idChars];
    if !ok {
      return NotData, pos;
    }
    pos := pos + idChars;
    if pos >= len {
      return NotData, pos;
    }
    assert line[..len][pos] == line[pos];
    var dlc := HexVal(line[pos]);
    pos := pos + 1;
    if dlc < 0 {
      return NotData, pos;
    }
    var dataBytes: nat := 0;
    if isFd {
      dataBytes := DLC_TO_LEN[dlc];
    } else {
      if dlc > 8 {
        return NotData, pos;
      }
      dataBytes := dlc;
    }
    assert line[..len][pos..] == line[pos..len];
    if pos + dataBytes * 2 > len {
      dataBytes := (len - pos) / 2;
    }
    var available := (len - pos) / 2;
    if available > dataBytes {
      available := dataBytes;
    }
    var bytes := ListBytes(line, len, pos, available);
    shown := Data(isFd, isExt, arbId, dlc, dataBytes, bytes);
  }

  /** The return value, what the listing shows, and with a buffer given the timestamp. */
  method ParseFrame(line: array<char>, len: nat, tsOut: array?<Byte>) returns (ret: int, shown: Reading)
    requires len <= line.Length && (tsOut != null ==> tsOut.Length == CANTS_SIZE)
    modifies if tsOut == null then {} else {tsOut}
    ensures shown == ReadLine(line[..len])
    ensures ret == match shown case NotData => -1 case Remote => 0 case Data(_, _, _, _, dataBytes, _) => dataBytes
    ensures tsOut != null ==> tsOut[..] == LineStamp(line[..len]).GetOr(old(tsOut[..]))
  {
    hide ReadBody, StampOf;
    if len < 2 {
      return -1, NotData;
    }
    var cmd := line[0];
    assert line[..len][0] == cmd;
    if cmd == 't' || cmd == 'T' || cmd == 'd' || cmd == 'D' {
      var isExt := cmd == 'T' || cmd == 'D';
      var pos;
      shown, pos := ParseBody(line, len, cmd == 'd' || cmd == 'D', isExt);
      BodyKeepsKind(cmd == 'd' || cmd == 'D', isExt, line[..len]);
      ret := PayloadCount(shown);
      if tsOut != null && ret >= CANTS_SIZE {
        assert line[..len][pos..] == line[pos..len];
        ReadStamp(line, len, pos, tsOut);
      }
    } else if cmd == 'r' || cmd == 'R' {
      return 0, Remote;
    } else {
      return -1, NotData;
    }
  }

  lemma BodyKeepsKind(fd: bool, ext: bool, line: string)
    ensures ReadBody(fd, ext, line).Data? ==> ReadBody(fd, ext, line).ext == ext
  {
  }

  function Packets(rs: seq<Reading>): nat {
    if rs == [] then 0 else Packets(rs[..|rs| - 1]) + One(PayloadCount(rs[|rs| - 1]) >= 0)
  }

  class LineReader {
    const linebuf: array<char>
    const useTimestamp: bool
    var linepos: nat
    var shown: seq<Reading>    // one entry per line parsed
    var stamps: seq<seq<Byte>> // timestamps handed to the latency statistics
    var totalPackets: nat

    predicate Valid()
      reads this
    {
      linebuf.Length == LINE_SIZE && linepos < LINE_SIZE && totalPackets == Packets(shown)
    }

    constructor (useTimestamp: bool)
      ensures Valid() && fresh(linebuf) && linepos == 0 && shown == [] && stamps == []
      ensures this.useTimestamp == useTimestamp
    {
      this.useTimestamp := useTimestamp;
      linebuf := new char[LINE_SIZE](i => ' ');
      linepos, shown, stamps, totalPackets := 0, [], [], 0;
    }

    /** One chunk as read() delivered it. */
    method Feed(rxbuf: string)
      requires Valid()
      modifies this`linepos, this`shown, this`stamps, this`totalPackets, linebuf
      ensures Valid()
      ensures var (lines, open) := Cut(old(linebuf[..linepos]), rxbuf);
              && shown == old(shown) + ReadLines(lines) && linebuf[..linepos] == open
              && stamps == old(stamps) + (if useTimestamp then StampsOf(lines) else [])
    {
      hide ReadLine, Packets, LineStamp;
      ghost var start := linebuf[..linepos];
      NothingCut(start);
      var i := 0;
      assert rxbuf[..0] == [];
      assert shown + ReadLines([]) == shown && stamps + [] == stamps;
      while i < |rxbuf|
        invariant i <= |rxbuf| && Valid()
        invariant linebuf[..linepos] == Cut(start, rxbuf[..i]).1
        invariant shown == old(shown) + ReadLines(Cut(start, rxbuf[..i]).0)
        invariant stamps == old(stamps) + (if useTimestamp then StampsOf(Cut(start, rxbuf[..i]).0) else [])
      {
        CutOneMore(start, rxbuf, i);
        ghost var lines, open := Cut(start, rxbuf[..i]).0, Cut(start, rxbuf[..i]).1;
        FeedChar(rxbuf[i]);
        ReadLinesSnoc(lines, open);
        StampsSnoc(old(stamps), lines, open);
        i := i + 1;
      }
      assert rxbuf[..|rxbuf|] == rxbuf;
    }

    method FeedChar(c: char)
      requires Valid()
      modifies this`linepos, this`shown, this`stamps, this`totalPackets, linebuf
      ensures Valid()
      ensures !EndsLine(c) ==>
        shown == old(shown) && stamps == old(stamps) && linebuf[..linepos] == Extend(old(linebuf[..linepos]), c)
      ensures EndsLine(c) ==> linepos == 0
      ensures EndsLine(c) ==>
        shown == old(shown) + (if old(linepos) == 0 then [] else [ReadLine(old(linebuf[..linepos]))])
      ensures var added := if old(linepos) == 0 || !useTimestamp then [] else StampsOf([old(linebuf[..linepos])]);
              EndsLine(c) ==> stamps == old(stamps) + added
    {
      hide ReadLine, LineStamp, StampsOf, Packets;
      assert stamps + [] == stamps;
      if c == '\r' || c == '\n' {
        if linepos > 0 {
          ghost var line := linebuf[..linepos];
          linebuf[linepos] := '\0';
          assert linebuf[..linepos] == line;
          var tsBytes: array?<Byte> := null;
          if useTimestamp {
            tsBytes := new Byte[CANTS_SIZE](i => 0);
          }
          var payload, r := ParseFrame(linebuf, linepos, tsBytes);
          StampIffEight(line);
          StampsOfOne(line);
          PacketsSnoc(shown, r);
          if payload >= 0 {
            if useTimestamp && payload >= CANTS_SIZE {
              stamps := stamps + [tsBytes[..]];
            }
            totalPackets := totalPackets + 1;
          }
          shown := shown + [r];
          linepos := 0;
        }
      } else if linepos < LINE_SIZE - 1 {
        linebuf[linepos] := c;
        linepos := linepos + 1;
      }
    }
  }

  function StampsOf(lines: seq<string>): seq<seq<Byte>> {
    if lines == [] then []
    else
      StampsOf(lines[..|lines| - 1]) + match LineStamp(lines[|lines| - 1]) case Some(stamp) => [stamp] case None => []
  }

  lemma StampsOfOne(line: string)
    ensures StampsOf([line]) == match LineStamp(line) case Some(stamp) => [stamp] case None => []
  {
    hide LineStamp;
    assert [line][..0] == [];
  }

  lemma PacketsSnoc(rs: seq<Reading>, r: Reading)
    ensures Packets(rs + [r]) == Packets(rs) + One(PayloadCount(r) >= 0)
  {
    assert (rs + [r])[..|rs|] == rs;
  }

  lemma StampsSnoc(before: seq<seq<Byte>>, lines: seq<string>, line: string)
    ensures before + StampsOf(lines + [line]) == (before + StampsOf(lines)) + StampsOf([line])
  {
    hide LineStamp;
    assert (lines + [line])[..|lines|] == lines && [line][..0] == [];
  }

  /** A line has a timestamp exactly when it counts eight payload bytes or more. */
  lemma StampIffEight(line: string)
    ensures LineStamp(line).Some? <==> PayloadCount(ReadLine(line)) >= 8
  {
    hide AllHex, HexNumber, PairBytes, HexVal;
  }

  lemma NothingCut(pending: string)
    ensures Cut(pending, []) == ([], pending)
  {
  }

  lemma CutOneMore(pending: string, s: string, i: nat)
    requires i < |s|
    ensures var (lines, open) := Cut(pending, s[..i]);
            Cut(pending, s[..i + 1]) ==
              if !EndsLine(s[i]) then (lines, Extend(open, s[i]))
              else if open == [] then (lines, open)
              else (lines + [open], [])
  {
    assert s[..i + 1][..i] == s[..i];
  }

  /** The reading loop over any sequence of chunks. */
  method RunReader(chunks: seq<string>, useTimestamp: bool) returns (shown: seq<Reading>)
    ensures shown == ReadLines(Cut([], Concat(chunks)).0)
  {
    hide Cut, ReadLine;
    var reader := new LineReader(useTimestamp);
    var i := 0;
    NothingCut([]);
    ghost var lines: seq<string> := [];
    assert chunks[..0] == [];
    while i < |chunks|
      invariant i <= |chunks| && reader.Valid() && fresh(reader) && fresh(reader.linebuf)
      invariant Cut([], Concat(chunks[..i])) == (lines, reader.linebuf[..reader.linepos])
      invariant reader.shown == ReadLines(lines)
    {
      assert chunks[..i + 1][..i] == chunks[..i];
      ghost var more := Cut(reader.linebuf[..reader.linepos], chunks[i]).0;
      CutTwice([], Concat(chunks[..i]), chunks[i]);
      reader.Feed(chunks[i]);
      assert ReadLines(lines + more) == ReadLines(lines) + ReadLines(more);
      lines := lines + more;
      i := i + 1;
    }
    assert chunks[..|chunks|] == chunks;
    shown := reader.shown;
  }

  /** Writer and reader together: every frame of the run is shown, in order, however the stream was cut. */
  lemma WriterToReader(c: Config, dlc: nat, ticks: seq<seq<Byte>>, stream: string, chunks: seq<string>,
                       shown: seq<Reading>)
    requires dlc < (if c.useFd then 16 else 9) && forall i | 0 <= i < |ticks| :: |ticks[i]| == CANTS_SIZE
    requires ValidFrames(FramesOf(c, dlc, ticks)) && stream == PrintedAll(FramesOf(c, dlc, ticks))
    requires Concat(chunks) == stream && shown == ReadLines(Cut([], Concat(chunks)).0)
    ensures |shown| == |ticks|
    ensures forall k | 0 <= k < |ticks| ::
      && shown[k].Data? && shown[k].fd == c.useFd && shown[k].ext == c.useExt
      && shown[k].id == c.arbId % (if c.useExt then 0x2000_0000 else 0x800)
      && shown[k].dlc == dlc && shown[k].dataBytes == |shown[k].bytes| == DLC_TO_LEN[dlc]
      && forall i | 0 <= i < |shown[k].bytes| ::
           shown[k].bytes[i] == if c.useTs && i < 8 then ticks[k][i] else (k + i) % 256
  {
    hide FramesOf, PrintedAll, ValidFrames, ReadLines, Cut, Concat, ShownAll;
    var fs := FramesOf(c, dlc, ticks);
    EndToEnd(fs, chunks);
    Turns(c, dlc, ticks);
    forall k | 0 <= k < |ticks|
      ensures shown[k] == Data(fs[k].fd, fs[k].ext, fs[k].id, fs[k].dlc, |fs[k].data|, fs[k].data)
    {
      ShownAt(fs, k);
    }
  }
}

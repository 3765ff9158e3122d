/**
 SLCAN frames as text: what the writer prints, how the reader cuts the character stream
 into lines, and what it makes of one line.
 */
module SlcanText {
  import opened Frames
  import RingIndex

  const LINE_SIZE := 512

  /** A frame as the writer means it: dlc is the code printed, data its full length. */
  datatype SlFrame = SlFrame(fd: bool, ext: bool, id: nat, dlc: nat, data: seq<Byte>)

  predicate ValidFrame(f: SlFrame) {
    && f.id < (if f.ext then 0x2000_0000 else 0x800)
    && f.dlc < (if f.fd then 16 else 9) && |f.data| == DLC_TO_LEN[f.dlc]
  }

  // ---- hexadecimal ----

  function Digit(v: nat): (c: char)
    requires v < 16
    ensures c != '\r' && c != '\n'
  {
    if v < 10 then '0' + v as char else 'A' + (v - 10) as char
  }

  function HexVal(c: char): (v: int)
    ensures -1 <= v < 16
  {
    if '0' <= c <= '9' then c as int - '0' as int
    else if 'A' <= c <= 'F' then c as int - 'A' as int + 10
    else if 'a' <= c <= 'f' then c as int - 'a' as int + 10
    else -1
  }

  lemma HexValOfDigit(v: nat)
    requires v < 16
    ensures HexVal(Digit(v)) == v
  {
  }

  /** Upper-case digits are printed, both cases are read, and nothing else is a digit. */
  lemma DigitsAre(v: nat, c: char)
    requires v < 16
    ensures Digit(v) == "0123456789ABCDEF"[v]
    ensures HexVal(c) == v <==> c == "0123456789ABCDEF"[v] || c == "0123456789abcdef"[v]
  {
  }

  /** The lowest n digits of v, in the manner of sprintf's %0nX. */
  function Hex(v: nat, n: nat): (s: string)
    ensures |s| == n
  {
    if n == 0 then [] else Hex(v / 16, n - 1) + [Digit(v % 16)]
  }

  function Pow16(n: nat): nat { if n == 0 then 1 else 16 * Pow16(n - 1) }

  predicate AllHex(s: string) { forall i | 0 <= i < |s| :: HexVal(s[i]) >= 0 }

  /** The digits shifted into a 32-bit word. */
  function HexNumber(s: string): (v: nat)
    requires AllHex(s)
    ensures v < RingIndex.U32
  {
    if s == [] then 0 else (HexNumber(s[..|s| - 1]) * 16 + HexVal(s[|s| - 1])) % RingIndex.U32
  }

  lemma HexSnoc(s: string, c: char)
    requires AllHex(s) && HexVal(c) >= 0
    ensures AllHex(s + [c]) && HexNumber(s + [c]) == (HexNumber(s) * 16 + HexVal(c)) % 0x1_0000_0000
    ensures HexNumber([]) == 0
  {
    hide HexVal;
    assert (s + [c])[..|s|] == s;
  }

  lemma {:induction false} HexReads(v: nat, n: nat)
    requires n <= 8 && v < Pow16(n)
    ensures AllHex(Hex(v, n)) && HexNumber(Hex(v, n)) == v < RingIndex.U32
  {
    hide AllHex, HexNumber, Digit, HexVal, Pow16;
    if n == 0 {
      NoDigits(v);
    } else {
      var q, r := v / 16, v % 16;
      Pow16Step(n);
      Pow16Below(n);
      HexReads(q, n - 1);
      HexValOfDigit(r);
      HexSnoc(Hex(q, n - 1), Digit(r));
      assert Hex(v, n) == Hex(q, n - 1) + [Digit(r)];
    }
  }

  lemma NoDigits(v: nat)
    ensures Pow16(0) == 1 && AllHex(Hex(v, 0)) && HexNumber(Hex(v, 0)) == 0
  {
    assert Hex(v, 0) == [];
  }

  lemma Pow16Below(n: nat)
    requires n <= 8
    ensures Pow16(n) <= RingIndex.U32
  {
    Pow16Bound(n);
  }

  lemma Pow16Step(n: nat)
    requires n > 0
    ensures Pow16(n) == 16 * Pow16(n - 1)
  {
  }

  lemma Pow16Bound(n: nat)
    requires n <= 8
    ensures Pow16(n) <= RingIndex.U32
    ensures n == 3 ==> Pow16(n) == 0x1000
    ensures n == 8 ==> Pow16(n) == RingIndex.U32
  {
    assert Pow16(4) == 0x1_0000 by {
      assert Pow16(2) == 0x100;
    }
    assert Pow16(6) == 0x100_0000;
    if n < 8 {
      assert Pow16(n) <= Pow16(7) by {
        if n <= 5 { assert Pow16(n) <= Pow16(6); }
      }
    }
  }

  function HexBytes(data: seq<Byte>): (s: string)
    ensures |s| == 2 * |data|
  {
    if data == [] then [] else HexBytes(data[..|data| - 1]) + Hex(data[|data| - 1], 2)
  }

  // ---- printing ----

  function Command(fd: bool, ext: bool): char {
    if fd then (if ext then 'D' else 'd') else if ext then 'T' else 't'
  }

  function IdChars(ext: bool): nat { if ext then 8 else 3 }

  /** The line without its carriage return. */
  function LineOf(f: SlFrame): (s: string)
    requires f.dlc < 16
  {
    [Command(f.fd, f.ext)] + Hex(f.id, IdChars(f.ext)) + [Digit(f.dlc)] + HexBytes(f.data)
  }

  function Printed(f: SlFrame): string
    requires f.dlc < 16
  {
    LineOf(f) + ['\r']
  }

  lemma {:induction false} HexIsUpper(v: nat, n: nat)
    ensures forall j | 0 <= j < n :: Hex(v, n)[j] in "0123456789ABCDEF"
    decreases n
  {
    if n > 0 {
      HexIsUpper(v / 16, n - 1);
      DigitsAre(v % 16, '0');
      hide Digit;
      assert Hex(v, n) == Hex(v / 16, n - 1) + [Digit(v % 16)];
    }
  }

  lemma {:induction false} HexBytesAreUpper(data: seq<Byte>)
    ensures forall j | 0 <= j < 2 * |data| :: HexBytes(data)[j] in "0123456789ABCDEF"
    decreases |data|
  {
    if data != [] {
      HexBytesAreUpper(data[..|data| - 1]);
      HexIsUpper(data[|data| - 1], 2);
      hide Hex;
    }
  }

  lemma LineIsUpper(f: SlFrame)
    requires f.dlc < 16
    ensures forall j | 1 <= j < |LineOf(f)| :: LineOf(f)[j] in "0123456789ABCDEF"
  {
    HexIsUpper(f.id, IdChars(f.ext));
    HexBytesAreUpper(f.data);
    DigitsAre(f.dlc, '0');
    hide Hex, HexBytes, Digit;
    var n, p := IdChars(f.ext), LineOf(f);
    forall j | 1 <= j < |p|
      ensures p[j] in "0123456789ABCDEF"
    {
      if j <= n {
        assert p[j] == Hex(f.id, n)[j - 1];
      } else if j > n + 1 {
        assert p[j] == HexBytes(f.data)[j - n - 2];
      }
    }
  }

  /**
   A printed frame character by character: the letter of its kind, three or eight digits of id, one
   of length code, two for each byte, and the carriage return.
   */
  lemma LineLayout(f: SlFrame)
    requires ValidFrame(f)
    ensures var n, p := if f.ext then 8 else 3, Printed(f);
      && |p| == n + 3 + 2 * |f.data| && p[|p| - 1] == '\r'
      && p[0] == (if f.fd then (if f.ext then 'D' else 'd') else if f.ext then 'T' else 't')
      && (forall j | 1 <= j < |p| - 1 :: p[j] in "0123456789ABCDEF")
      && AllHex(p[1..1 + n]) && HexNumber(p[1..1 + n]) == f.id && HexVal(p[1 + n]) == f.dlc
      && forall i | 0 <= i < |f.data| :: HexVal(p[n + 2 + 2 * i]) * 16 + HexVal(p[n + 3 + 2 * i]) == f.data[i]
  {
    var n, p := IdChars(f.ext), Printed(f);
    Pow16Bound(n);
    HexReads(f.id, n);
    HexValOfDigit(f.dlc);
    hide Hex, HexBytes, Digit, HexVal, AllHex, HexNumber;
    assert p[1..1 + n] == Hex(f.id, n);
    assert p[n + 2..|p| - 1] == HexBytes(f.data);
    LineIsUpper(f);
    forall i | 0 <= i < |f.data|
      ensures HexVal(p[n + 2 + 2 * i]) * 16 + HexVal(p[n + 3 + 2 * i]) == f.data[i]
    {
      HexBytesAt(f.data, i);
      HexPair(f.data[i]);
    }
  }

  // ---- reading one line ----

  /** What the reader makes of a line, and what it prints of it in verbose mode. */
  datatype Reading = NotData | Remote
    | Data(fd: bool, ext: bool, id: nat, dlc: nat, dataBytes: nat, bytes: seq<Byte>)

  /** The first k byte values of a text of digit pairs; pairs that are not hexadecimal are passed over. */
  function PairBytes(s: string, k: nat): seq<Byte>
    requires 2 * k <= |s|
  {
    if k == 0 then []
    else
      var hi, lo := HexVal(s[2 * k - 2]), HexVal(s[2 * k - 1]);
      PairBytes(s, k - 1) + if hi >= 0 && lo >= 0 then [hi * 16 + lo] else []
  }

  function NominalLen(fd: bool, dlc: nat): nat
    requires dlc < 16
  {
    if fd then DLC_TO_LEN[dlc] else dlc
  }

  function ReadBody(fd: bool, ext: bool, line: string): Reading {
    var idEnd := 1 + IdChars(ext);
    if idEnd > |line| || !AllHex(line[1..idEnd]) then NotData
    else if idEnd >= |line| then NotData
    else
      var dlc := HexVal(line[idEnd]);
      if dlc < 0 || (!fd && dlc > 8) then NotData
      else
        var text := line[idEnd + 1..];
        var dataBytes := if 2 * NominalLen(fd, dlc) > |text| then |text| / 2 else NominalLen(fd, dlc);
        Data(fd, ext, HexNumber(line[1..idEnd]), dlc, dataBytes, PairBytes(text, dataBytes))
  }

  function ReadLine(line: string): Reading {
    if |line| < 2 then NotData
    else match line[0]
      case 't' => ReadBody(false, false, line)
      case 'T' => ReadBody(false, true, line)
      case 'd' => ReadBody(true, false, line)
      case 'D' => ReadBody(true, true, line)
      case 'r' => Remote
      case 'R' => Remote
      case _ => NotData
  }

  /** Pairs of digits read as bytes, first digit high. */
  lemma {:induction false} PairsAre(s: string, k: nat)
    requires 2 * k <= |s| && forall j | 0 <= j < 2 * k :: HexVal(s[j]) >= 0
    ensures |PairBytes(s, k)| == k
    ensures forall i | 0 <= i < k :: PairBytes(s, k)[i] == HexVal(s[2 * i]) * 16 + HexVal(s[2 * i + 1])
  {
    hide HexVal;
    if k > 0 {
      PairsAre(s, k - 1);
    }
  }

  /**
   Which lines are read as what: a data line has a known letter, all digits of its id and a length
   code, for classic frames at most 8; a short text gives as many bytes as it holds.
   */
  lemma ReadsAre(line: string)
    ensures var r, c := ReadLine(line), if line == [] then ' ' else line[0];
            var n := if c == 'T' || c == 'D' then 8 else 3;
      && (r.Remote? <==> |line| >= 2 && (c == 'r' || c == 'R'))
      && (r.Data? <==> && |line| >= n + 2 && (c == 't' || c == 'T' || c == 'd' || c == 'D')
                       && AllHex(line[1..n + 2]) && (c == 't' || c == 'T' ==> HexVal(line[n + 1]) <= 8))
      && (r.Data? ==>
           && r.fd == (c == 'd' || c == 'D') && r.ext == (c == 'T' || c == 'D')
           && r.id == HexNumber(line[1..n + 1]) && r.dlc == HexVal(line[n + 1])
           && var size := if r.fd then DLC_TO_LEN[r.dlc] else r.dlc;
           && r.dataBytes == (if n + 2 + 2 * size <= |line| then size else (|line| - n - 2) / 2)
           && r.bytes == PairBytes(line[n + 2..], r.dataBytes))
  {
    hide HexVal, HexNumber, PairBytes, AllHex;
    var n := if |line| > 0 && (line[0] == 'T' || line[0] == 'D') then 8 else 3;
    if |line| >= n + 2 {
      AllHexSnoc(line[1..n + 1], line[n + 1]);
      assert line[1..n + 2] == line[1..n + 1] + [line[n + 1]];
    }
  }

  lemma AllHexSnoc(s: string, c: char)
    ensures AllHex(s + [c]) <==> AllHex(s) && HexVal(c) >= 0
  {
    hide HexVal;
    assert (s + [c])[|s|] == c;
    assert forall i | 0 <= i < |s| :: (s + [c])[i] == s[i];
  }

  // ---- the timestamp in the payload ----

  const CANTS_SIZE := 8

  /** A digit pair's value; a pair that is not hexadecimal counts as zero. */
  function PairOrZero(hi: int, lo: int): Byte
    requires hi < 16 && lo < 16
  {
    if hi >= 0 && lo >= 0 then hi * 16 + lo else 0
  }

  function StampOf(text: string): (r: seq<Byte>)
    requires 2 * CANTS_SIZE <= |text|
    ensures |r| == CANTS_SIZE
  {
    seq(CANTS_SIZE, i requires 0 <= i < CANTS_SIZE => PairOrZero(HexVal(text[2 * i]), HexVal(text[2 * i + 1])))
  }

  /** The first eight payload bytes of a data line, if it has as many. */
  function LineStamp(line: string): Option<seq<Byte>> {
    match ReadLine(line)
    case Data(_, ext, _, _, n, _) =>
      if n >= CANTS_SIZE && IdChars(ext) + 2 + 2 * CANTS_SIZE <= |line| then Some(StampOf(line[IdChars(ext) + 2..]))
      else None
    case _ => None
  }

  /** A line gives a timestamp exactly when it counts eight bytes: those of its first eight digit pairs. */
  lemma StampIs(line: string)
    ensures LineStamp(line).Some? <==> ReadLine(line).Data? && ReadLine(line).dataBytes >= 8
    ensures var at := if ReadLine(line).Data? && ReadLine(line).ext then 10 else 5;
            LineStamp(line).Some? ==>
      && |line| >= at + 16 && |LineStamp(line).value| == 8
      && forall i | 0 <= i < 8 ::
           LineStamp(line).value[i] == var hi, lo := HexVal(line[at + 2 * i]), HexVal(line[at + 2 * i + 1]);
                                       if hi < 0 || lo < 0 then 0 else 16 * hi + lo
  {
    hide AllHex, HexNumber, PairBytes, HexVal;
  }

  // ---- printing and reading one line ----

  lemma {:induction false} PairsOfPrefix(s: string, t: string, k: nat)
    requires 2 * k <= |s|
    ensures PairBytes(s + t, k) == PairBytes(s, k)
  {
    if k > 0 {
      PairsOfPrefix(s, t, k - 1);
    }
  }

  lemma HexPair(b: Byte)
    ensures var h := Hex(b, 2); HexVal(h[0]) == b / 16 && HexVal(h[1]) == b % 16
  {
    var h := Hex(b, 2);
    assert Hex(b / 16, 1) == [Digit(b / 16)] by {
      assert Hex(b / 16 / 16, 0) == [];
    }
    assert h[0] == Digit(b / 16) && h[1] == Digit(b % 16);
    HexValOfDigit(b / 16);
    HexValOfDigit(b % 16);
  }

  lemma {:induction false} PairsReadBack(data: seq<Byte>)
    ensures PairBytes(HexBytes(data), |data|) == data
    decreases |data|
  {
    if data != [] {
      var n := |data| - 1;
      var init, last := data[..n], data[n];
      PairsReadBack(init);
      PairsOfPrefix(HexBytes(init), Hex(last, 2), n);
      HexPair(last);
      var s := HexBytes(init) + Hex(last, 2);
      assert HexBytes(data) == s;
      assert s[2 * n] == Hex(last, 2)[0] && s[2 * n + 1] == Hex(last, 2)[1];
      assert PairBytes(s, n + 1) == PairBytes(s, n) + [last];
      assert init + [last] == data;
    }
  }

  /** A printed frame reads back as itself: same kind, id, length code and payload. */
  lemma LineReadsBack(f: SlFrame)
    requires ValidFrame(f)
    ensures ReadLine(LineOf(f)) == Data(f.fd, f.ext, f.id, f.dlc, |f.data|, f.data)
  {
    hide Hex, HexBytes, HexNumber, PairBytes, AllHex, Digit, HexVal;
    var line := LineOf(f);
    var idEnd := 1 + IdChars(f.ext);
    Pow16Bound(IdChars(f.ext));
    HexReads(f.id, IdChars(f.ext));
    HexValOfDigit(f.dlc);
    PairsReadBack(f.data);
    assert line[0] == Command(f.fd, f.ext);
    assert line[1..idEnd] == Hex(f.id, IdChars(f.ext));
    assert line[idEnd] == Digit(f.dlc);
    assert line[idEnd + 1..] == HexBytes(f.data);
    assert ReadLine(line) == ReadBody(f.fd, f.ext, line);
  }

  lemma {:induction false} HexBytesAt(data: seq<Byte>, i: nat)
    requires i < |data|
    ensures HexBytes(data)[2 * i] == Hex(data[i], 2)[0] && HexBytes(data)[2 * i + 1] == Hex(data[i], 2)[1]
    decreases |data|
  {
    hide Hex;
    var n := |data| - 1;
    assert HexBytes(data) == HexBytes(data[..n]) + Hex(data[n], 2);
    if i < n {
      HexBytesAt(data[..n], i);
    }
  }

  lemma StampAt(data: seq<Byte>, i: nat)
    requires i < CANTS_SIZE <= |data|
    ensures StampOf(HexBytes(data))[i] == data[i]
  {
    hide Hex, HexBytes, HexVal;
    HexBytesAt(data, i);
    HexPair(data[i]);
    assert PairOrZero(data[i] / 16, data[i] % 16) == data[i];
  }

  lemma LineData(f: SlFrame)
    requires f.dlc < 16
    ensures |LineOf(f)| == IdChars(f.ext) + 2 + 2 * |f.data| && LineOf(f)[IdChars(f.ext) + 2..] == HexBytes(f.data)
  {
    hide Hex, HexBytes, Digit;
  }

  /** A printed frame with room for a timestamp gives it back. */
  lemma StampReadsBack(f: SlFrame)
    requires ValidFrame(f) && |f.data| >= 8
    ensures LineStamp(LineOf(f)) == Some(f.data[..8])
  {
    LineReadsBack(f);
    LineData(f);
    hide ReadLine, LineOf, HexBytes, StampOf;
    forall i | 0 <= i < CANTS_SIZE
      ensures StampOf(HexBytes(f.data))[i] == f.data[i]
    {
      StampAt(f.data, i);
    }
    assert StampOf(HexBytes(f.data)) == f.data[..CANTS_SIZE];
  }

  // ---- cutting the stream into lines ----

  predicate EndsLine(c: char) { c == '\r' || c == '\n' }

  /** The line buffer after one more character that does not end the line; what does not fit is dropped. */
  function Extend(pending: string, c: char): string {
    if |pending| < LINE_SIZE - 1 then pending + [c] else pending
  }

  /** Lines completed by the characters, and the line begun. */
  function Cut(pending: string, s: string): (seq<string>, string)
    decreases |s|
  {
    if s == [] then ([], pending)
    else
      var init, c := s[..|s| - 1], s[|s| - 1];
      var (lines, open) := Cut(pending, init);
      if !EndsLine(c) then (lines, Extend(open, c))
      else if open == [] then (lines, open)
      else (lines + [open], [])
  }

  lemma {:induction false} CutTwice(pending: string, s: string, t: string)
    ensures var (lines, open) := Cut(pending, s);
            var (more, left) := Cut(open, t);
            Cut(pending, s + t) == (lines + more, left)
    decreases |t|
  {
    if t == [] {
      assert s + t == s;
      assert Cut(pending, s).0 + [] == Cut(pending, s).0;
    } else {
      var init, c := t[..|t| - 1], t[|t| - 1];
      CutTwice(pending, s, init);
      assert (s + t)[..|s + t| - 1] == s + init;
      var (lines, open) := Cut(pending, s);
      var (more, left) := Cut(open, init);
      assert lines + (more + [left]) == lines + more + [left];
    }
  }

  predicate NoLineEnd(s: string) { forall i | 0 <= i < |s| :: !EndsLine(s[i]) }

  /** Text without line ends that fits the buffer is collected whole. */
  lemma {:induction false} CutCollects(pending: string, s: string)
    requires NoLineEnd(s) && |pending| + |s| < LINE_SIZE
    ensures Cut(pending, s) == ([], pending + s)
    decreases |s|
  {
    if s == [] {
      assert pending + s == pending;
    } else {
      CutCollects(pending, s[..|s| - 1]);
      assert pending + s[..|s| - 1] + [s[|s| - 1]] == pending + s;
    }
  }

  lemma {:induction false} HexHasNoLineEnd(v: nat, n: nat)
    ensures NoLineEnd(Hex(v, n))
    decreases n
  {
    if n > 0 {
      HexHasNoLineEnd(v / 16, n - 1);
    }
  }

  lemma {:induction false} HexBytesHasNoLineEnd(data: seq<Byte>)
    ensures NoLineEnd(HexBytes(data))
    decreases |data|
  {
    if data != [] {
      HexBytesHasNoLineEnd(data[..|data| - 1]);
      HexHasNoLineEnd(data[|data| - 1], 2);
    }
  }

  lemma NoLineEndConcat(a: string, b: string)
    requires NoLineEnd(a) && NoLineEnd(b)
    ensures NoLineEnd(a + b)
  {
  }

  /** A line is at most 138 characters long and has no line end inside. */
  lemma LineFits(f: SlFrame)
    requires ValidFrame(f)
    ensures NoLineEnd(LineOf(f)) && 0 < |LineOf(f)| <= 138
  {
    assert NoLineEnd([Command(f.fd, f.ext)]) && NoLineEnd([Digit(f.dlc)]);
    LongestPayload(f.dlc);
    hide Hex, HexBytes, NoLineEnd, Digit;
    HexHasNoLineEnd(f.id, IdChars(f.ext));
    HexBytesHasNoLineEnd(f.data);
    var a := [Command(f.fd, f.ext)] + Hex(f.id, IdChars(f.ext));
    NoLineEndConcat([Command(f.fd, f.ext)], Hex(f.id, IdChars(f.ext)));
    NoLineEndConcat(a, [Digit(f.dlc)]);
    NoLineEndConcat(a + [Digit(f.dlc)], HexBytes(f.data));
  }

  lemma PrintedCuts(f: SlFrame)
    requires ValidFrame(f)
    ensures Cut([], Printed(f)) == ([LineOf(f)], [])
  {
    LineFits(f);
    CutOne(LineOf(f));
  }

  lemma CutOne(line: string)
    requires NoLineEnd(line) && 0 < |line| < LINE_SIZE
    ensures Cut([], line + ['\r']) == ([line], [])
  {
    CutCollects([], line);
    assert [] + line == line;
    assert (line + ['\r'])[..|line|] == line;
    assert [] + [line] == [line];
  }

  lemma {:induction false} LongText(s: string)
    requires forall i | 0 <= i < |s| :: s[i] != '\r' && s[i] != '\n'
    ensures Cut([], s) == ([], if |s| <= 511 then s else s[..511])
    decreases |s|
  {
    if s != [] {
      var n := |s| - 1;
      LongText(s[..n]);
      if n >= 511 {
        assert s[..n][..511] == s[..511];
      } else {
        assert s[..n] + [s[n]] == s;
      }
    }
  }

  /** A line of any length: its first 511 characters are kept, either end closes it, empty lines give nothing. */
  lemma LongLine(s: string, end: char)
    requires (forall i | 0 <= i < |s| :: s[i] != '\r' && s[i] != '\n') && (end == '\r' || end == '\n')
    ensures Cut([], s + [end]) == (if s == [] then [] else [if |s| <= 511 then s else s[..511]], [])
  {
    LongText(s);
    assert (s + [end])[..|s|] == s;
    var line := if |s| <= 511 then s else s[..511];
    assert [] + [line] == [line];
  }

  // ---- the whole stream ----

  ghost predicate ValidFrames(fs: seq<SlFrame>) { forall i | 0 <= i < |fs| :: ValidFrame(fs[i]) }

  function PrintedAll(fs: seq<SlFrame>): string
    requires ValidFrames(fs)
  {
    if fs == [] then [] else PrintedAll(fs[..|fs| - 1]) + Printed(fs[|fs| - 1])
  }

  function ReadLines(lines: seq<string>): (r: seq<Reading>)
    ensures |r| == |lines|
  {
    seq(|lines|, i requires 0 <= i < |lines| => ReadLine(lines[i]))
  }

  function Concat(chunks: seq<string>): string {
    if chunks == [] then [] else Concat(chunks[..|chunks| - 1]) + chunks[|chunks| - 1]
  }

  /** What the reader prints for a frame. */
  function Shown(f: SlFrame): Reading { Data(f.fd, f.ext, f.id, f.dlc, |f.data|, f.data) }

  /** The lines the frames are printed as. */
  function LinesOf(fs: seq<SlFrame>): (lines: seq<string>)
    requires ValidFrames(fs)
    ensures |lines| == |fs|
  {
    if fs == [] then [] else LinesOf(fs[..|fs| - 1]) + [LineOf(fs[|fs| - 1])]
  }

  function ShownAll(fs: seq<SlFrame>): (r: seq<Reading>)
    ensures |r| == |fs|
  {
    if fs == [] then [] else ShownAll(fs[..|fs| - 1]) + [Shown(fs[|fs| - 1])]
  }

  lemma {:induction false} ShownAt(fs: seq<SlFrame>, k: nat)
    requires k < |fs|
    ensures ShownAll(fs)[k] == Data(fs[k].fd, fs[k].ext, fs[k].id, fs[k].dlc, |fs[k].data|, fs[k].data)
    decreases |fs|
  {
    if k < |fs| - 1 {
      ShownAt(fs[..|fs| - 1], k);
    }
  }

  ghost predicate NoneTruncated(lines: seq<string>) { forall i | 0 <= i < |lines| :: |lines[i]| < LINE_SIZE - 1 }

  lemma {:induction false} AllCut(fs: seq<SlFrame>)
    requires ValidFrames(fs)
    ensures Cut([], PrintedAll(fs)) == (LinesOf(fs), [])
    decreases |fs|
  {
    if fs != [] {
      hide LineOf, Printed, Cut, ValidFrame;
      var init, last := fs[..|fs| - 1], fs[|fs| - 1];
      AllCut(init);
      CutTwice([], PrintedAll(init), Printed(last));
      PrintedCuts(last);
    } else {
      assert Cut([], []) == ([], []);
    }
  }

  lemma ReadLinesSnoc(lines: seq<string>, line: string)
    ensures ReadLines(lines + [line]) == ReadLines(lines) + [ReadLine(line)]
  {
    hide ReadLine;
  }

  lemma {:induction false} AllReadBack(fs: seq<SlFrame>)
    requires ValidFrames(fs)
    ensures ReadLines(LinesOf(fs)) == ShownAll(fs) && NoneTruncated(LinesOf(fs))
    decreases |fs|
  {
    if fs != [] {
      hide LineOf, ReadLine, ReadLines, ValidFrame;
      var init, last := fs[..|fs| - 1], fs[|fs| - 1];
      AllReadBack(init);
      LineReadsBack(last);
      LineFits(last);
      ReadLinesSnoc(LinesOf(init), LineOf(last));
    }
  }

  /**
   End to end: whatever frames are printed and however the stream is cut into reads, the
   reader shows exactly those frames in order, and no line was truncated.
   */
  lemma EndToEnd(fs: seq<SlFrame>, chunks: seq<string>)
    requires ValidFrames(fs) && Concat(chunks) == PrintedAll(fs)
    ensures var (lines, open) := Cut([], Concat(chunks));
            open == [] && ReadLines(lines) == ShownAll(fs) && NoneTruncated(lines)
  {
    hide Cut, LinesOf, ShownAll, ReadLines, PrintedAll, Concat, NoneTruncated;
    AllCut(fs);
    AllReadBack(fs);
  }
}

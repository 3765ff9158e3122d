/**
 Register and RAM reads over SPI: the CRC over command and data is checked after
 every transfer, and a mismatch is retried a bounded number of times.
 */
module RegmapCrc {
  import opened Crc16

  const EBADMSG: int := 74
  const READ_CRC_RETRIES_MAX := 3
  const REG_OSC := 0xe00
  const CMD_SIZE := 3

  /** What the SPI core does with one message: fail, or fill the receive buffer. */
  datatype Transfer = SpiError(err: int) | Received(bytes: seq<bv8>)

  datatype Result = Ok(value: seq<bv8>) | Err(code: int)

  predicate ValidTransfer(t: Transfer, dataLen: nat) {
    match t
    case SpiError(err) => err < 0
    case Received(bytes) => |bytes| == dataLen + 2
  }

  function BigEndian16(high: bv8, low: bv8): bv16 {
    ((high as bv16) << 8) | (low as bv16)
  }

  predicate CrcMatches(cmd: seq<bv8>, bytes: seq<bv8>)
    requires |bytes| >= 2
  {
    var n := |bytes| - 2;
    BigEndian16(bytes[n], bytes[n + 1]) == CrcOf(cmd + bytes[..n])
  }

  function OneReadError(cmd: seq<bv8>, t: Transfer): int
    requires t.Received? ==> |t.bytes| >= 2
  {
    match t
    case SpiError(err) => err
    case Received(bytes) => if CrcMatches(cmd, bytes) then 0 else -EBADMSG
  }

  /** The receive buffer after a transfer: a failed one leaves it as it was. */
  function BufferAfter(t: Transfer, buffer: seq<bv8>): seq<bv8> {
    if t.Received? then t.bytes else buffer
  }

  ghost predicate ValidWire(wire: seq<Transfer>, dataLen: nat) {
    |wire| == READ_CRC_RETRIES_MAX && forall i | 0 <= i < |wire| :: ValidTransfer(wire[i], dataLen)
  }

  /** What the read returns when its transfers number i, i + 1, ... go as the wire says. */
  ghost function ReadFrom(reg: nat, cmd: seq<bv8>, wire: seq<Transfer>, dataLen: nat, i: nat, buffer: seq<bv8>): Result
    requires ValidWire(wire, dataLen) && i < |wire| && |buffer| == dataLen + 2
    decreases |wire| - i
  {
    var err := OneReadError(cmd, wire[i]);
    var now := BufferAfter(wire[i], buffer);
    if err == 0 || (err == -EBADMSG && reg == REG_OSC) then Ok(now[..dataLen])
    else if err != -EBADMSG || i + 1 == |wire| then Err(err)
    else ReadFrom(reg, cmd, wire, dataLen, i + 1, now)
  }

  // ---- the checked read ----

  method CrcReadOne(t: Transfer, cmd: array<bv8>, rx: array<bv8>, dataLen: nat) returns (err: int)
    requires ValidTransfer(t, dataLen) && cmd.Length == CMD_SIZE && rx.Length == dataLen + 2 && rx != cmd
    modifies rx
    ensures rx[..] == if t.Received? then t.bytes else old(rx[..])
    ensures err == OneReadError(cmd[..], t)
    ensures match t
            case SpiError(e) => err == e
            case Received(bytes) =>
              var received := BigEndian16(bytes[dataLen], bytes[dataLen + 1]);
              err == if received == CrcOf(cmd[..] + bytes[..dataLen]) then 0 else -74
  {
    match t
    case SpiError(e) =>
      err := e;
    case Received(bytes) =>
      forall k | 0 <= k < rx.Length {
        rx[k] := bytes[k];
      }
      assert rx[..] == bytes;
      var received := BigEndian16(rx[dataLen], rx[dataLen + 1]);
      var calculated := Compute2(cmd, CMD_SIZE, rx, dataLen);
      assert cmd[..CMD_SIZE] == cmd[..];
      err := if received != calculated then -EBADMSG else 0;
  }

  method CrcRead(reg: nat, cmd: array<bv8>, rx: array<bv8>, dataLen: nat, wire: seq<Transfer>) returns (result: Result)
    requires ValidWire(wire, dataLen) && cmd.Length == CMD_SIZE && rx.Length == dataLen + 2 && rx != cmd
    modifies rx
    ensures result == ReadFrom(reg, old(cmd[..]), wire, dataLen, 0, old(rx[..]))
    ensures reg == 0xe00 ==> result == match wire[0]
                                       case Received(bytes) => Ok(bytes[..dataLen])
                                       case SpiError(e) => if e == -74 then Ok(old(rx[..])[..dataLen]) else Err(e)
  {
    OscillatorRead(cmd[..], wire, dataLen, rx[..]);
    var i, err := 0, 0;
    while i < READ_CRC_RETRIES_MAX
      invariant 0 <= i <= READ_CRC_RETRIES_MAX && cmd[..] == old(cmd[..])
      invariant i < READ_CRC_RETRIES_MAX ==>
        ReadFrom(reg, cmd[..], wire, dataLen, 0, old(rx[..])) == ReadFrom(reg, cmd[..], wire, dataLen, i, rx[..])
      invariant i == READ_CRC_RETRIES_MAX ==>
        err == -EBADMSG && ReadFrom(reg, cmd[..], wire, dataLen, 0, old(rx[..])) == Err(err)
    {
      err := CrcReadOne(wire[i], cmd, rx, dataLen);
      if err == 0 {
        return Ok(rx[..dataLen]);
      }
      if err != -EBADMSG {
        return Err(err);
      }
      if reg == REG_OSC {
        return Ok(rx[..dataLen]);
      }
      i := i + 1;
    }
    result := Err(err);
  }

  // ---- what the checked read promises ----

  /** Attempt k delivers value with a matching CRC, and attempts i to k - 1 had CRC errors. */
  ghost predicate FirstPass(cmd: seq<bv8>, wire: seq<Transfer>, dataLen: nat, i: nat, k: nat, value: seq<bv8>)
    requires ValidWire(wire, dataLen)
  {
    && i <= k < |wire|
    && OneReadError(cmd, wire[k]) == 0 && wire[k].Received? && wire[k].bytes[..dataLen] == value
    && forall j | i <= j < k :: OneReadError(cmd, wire[j]) == -EBADMSG
  }

  /**
   Except for the oscillator register, a read succeeds exactly when some attempt
   passes the CRC check and every earlier one failed it, and it returns that attempt's data.
   */
  lemma {:induction false} ReadSucceedsIff(reg: nat, cmd: seq<bv8>, wire: seq<Transfer>, dataLen: nat, i: nat,
                                           buffer: seq<bv8>, value: seq<bv8>)
    requires ValidWire(wire, dataLen) && i < |wire| && |buffer| == dataLen + 2 && reg != REG_OSC
    ensures ReadFrom(reg, cmd, wire, dataLen, i, buffer) == Ok(value)
       <==> exists k: nat :: FirstPass(cmd, wire, dataLen, i, k, value)
    decreases |wire| - i
  {
    var err := OneReadError(cmd, wire[i]);
    if err == -EBADMSG {
      var next := i + 1;
      assert forall k: nat ::
          FirstPass(cmd, wire, dataLen, i, k, value) <==> FirstPass(cmd, wire, dataLen, next, k, value);
      if next < |wire| {
        ReadSucceedsIff(reg, cmd, wire, dataLen, next, BufferAfter(wire[i], buffer), value);
      } else {
        assert forall k: nat :: !FirstPass(cmd, wire, dataLen, next, k, value);
      }
    } else if err == 0 {
      assert FirstPass(cmd, wire, dataLen, i, i, wire[i].bytes[..dataLen]);
      assert forall k: nat :: FirstPass(cmd, wire, dataLen, i, k, value) ==> k == i;
    } else {
      assert forall k: nat :: !FirstPass(cmd, wire, dataLen, i, k, value);
    }
  }

  /** The high byte comes first. */
  lemma HighByteFirst(high: bv8, low: bv8)
    ensures BigEndian16(high, low) >> 8 == high as bv16 && BigEndian16(high, low) & 0xFF == low as bv16
  {
  }

  /**
   The oscillator register: whatever its CRC, the first transfer is handed out; an SPI error is
   returned with its own code, except -EBADMSG, which hands out what the buffer held before.
   */
  lemma OscillatorRead(cmd: seq<bv8>, wire: seq<Transfer>, dataLen: nat, buffer: seq<bv8>)
    requires ValidWire(wire, dataLen) && |buffer| == dataLen + 2
    ensures ReadFrom(0xe00, cmd, wire, dataLen, 0, buffer) ==
            match wire[0]
            case Received(bytes) => Ok(bytes[..dataLen])
            case SpiError(e) => if e == -74 then Ok(buffer[..dataLen]) else Err(e)
  {
    hide CrcMatches;
  }

  /** The transfer is retried: its CRC does not match, or SPI itself said -EBADMSG. */
  predicate Retried(cmd: seq<bv8>, t: Transfer)
    requires t.Received? ==> |t.bytes| >= 2
  {
    match t
    case SpiError(e) => e == -74
    case Received(bytes) =>
      var n := |bytes| - 2;
      BigEndian16(bytes[n], bytes[n + 1]) != CrcOf(cmd + bytes[..n])
  }

  /** Attempt k ends the read with the SPI error code, all attempts from i on before it having been retried. */
  ghost predicate FirstError(cmd: seq<bv8>, wire: seq<Transfer>, dataLen: nat, i: nat, k: nat, code: int)
    requires ValidWire(wire, dataLen)
  {
    && i <= k < |wire| && wire[k] == SpiError(code) && code != -74
    && forall j | i <= j < k :: Retried(cmd, wire[j])
  }

  /**
   Except for the oscillator register, a read fails with a code exactly when an attempt meets that
   SPI error after only retried ones, or the code is -EBADMSG and all attempts were retried.
   */
  lemma {:induction false} ReadFailsIff(reg: nat, cmd: seq<bv8>, wire: seq<Transfer>, dataLen: nat, i: nat,
                                        buffer: seq<bv8>, code: int)
    requires ValidWire(wire, dataLen) && i < |wire| && |buffer| == dataLen + 2 && reg != 0xe00
    ensures ReadFrom(reg, cmd, wire, dataLen, i, buffer) == Err(code)
       <==> ((exists k: nat :: FirstError(cmd, wire, dataLen, i, k, code))
             || (code == -74 && forall j | i <= j < |wire| :: Retried(cmd, wire[j])))
    decreases |wire| - i
  {
    hide BigEndian16;
    var err, next := OneReadError(cmd, wire[i]), i + 1;
    assert err == -74 <==> Retried(cmd, wire[i]);
    if Retried(cmd, wire[i]) {
      assert forall k: nat ::
        FirstError(cmd, wire, dataLen, i, k, code) <==> FirstError(cmd, wire, dataLen, next, k, code);
      if next < |wire| {
        ReadFailsIff(reg, cmd, wire, dataLen, next, BufferAfter(wire[i], buffer), code);
      } else {
        assert forall k: nat :: !FirstError(cmd, wire, dataLen, next, k, code);
      }
    } else if wire[i] == SpiError(code) {
      assert FirstError(cmd, wire, dataLen, i, i, code);
    } else {
      assert forall k: nat :: !FirstError(cmd, wire, dataLen, i, k, code);
    }
  }

  /** Three attempts, and the values of the constants. */
  lemma Constants()
    ensures READ_CRC_RETRIES_MAX == 3 && EBADMSG == 74 && REG_OSC == 0xe00 && CMD_SIZE == 3
  {
  }

  /** All differences lie in two adjacent bytes, the first of them at position at. */
  ghost predicate DiffersAround(truth: seq<bv8>, data: seq<bv8>, at: nat) {
    && |truth| == |data| && truth != data && at <= |truth|
    && truth[..at] == data[..at]
    && (at + 2 <= |truth| ==> truth[at + 2..] == data[at + 2..])
  }

  /** Corruption the CRC is built for: inside two adjacent bytes, or in an odd number of bits. */
  ghost predicate Detectable(truth: seq<bv8>, data: seq<bv8>) {
    && |truth| == |data|
    && (Differences(BitsOf(truth), BitsOf(data)) % 2 == 1 || exists at: nat :: DiffersAround(truth, data, at))
  }

  lemma OddErrorFails(cmd: seq<bv8>, truth: seq<bv8>, data: seq<bv8>)
    requires |truth| == |data| && Differences(BitsOf(truth), BitsOf(data)) % 2 == 1
    ensures CrcOf(cmd + truth) != CrcOf(cmd + data)
  {
    BitsOfConcat(cmd, truth);
    BitsOfConcat(cmd, data);
    SamePrefixDifferences(BitsOf(cmd), BitsOf(truth), BitsOf(data));
    OddErrorDetected(cmd + truth, cmd + data);
  }

  lemma AdjacentErrorFails(cmd: seq<bv8>, truth: seq<bv8>, data: seq<bv8>, at: nat)
    requires DiffersAround(truth, data, at)
    ensures CrcOf(cmd + truth) != CrcOf(cmd + data)
  {
    var end := if at + 2 <= |truth| then at + 2 else |truth|;
    var head, tail := cmd + truth[..at], truth[end..];
    assert truth == truth[..at] + truth[at..end] + truth[end..];
    assert data == data[..at] + data[at..end] + data[end..];
    assert cmd + truth == head + truth[at..end] + tail;
    assert cmd + data == head + data[at..end] + tail;
    AdjacentBytesDetected(head, truth[at..end], data[at..end], tail);
  }

  lemma DetectableFails(cmd: seq<bv8>, truth: seq<bv8>, data: seq<bv8>)
    requires Detectable(truth, data)
    ensures CrcOf(cmd + truth) != CrcOf(cmd + data)
  {
    if Differences(BitsOf(truth), BitsOf(data)) % 2 == 1 {
      OddErrorFails(cmd, truth, data);
    } else {
      var at: nat :| DiffersAround(truth, data, at);
      AdjacentErrorFails(cmd, truth, data, at);
    }
  }

  lemma {:induction false} SamePrefixDifferences(p: seq<bool>, a: seq<bool>, b: seq<bool>)
    requires |a| == |b|
    ensures Differences(p + a, p + b) == Differences(a, b)
  {
    if p == [] {
      assert p + a == a && p + b == b;
    } else {
      assert (p + a)[1..] == p[1..] + a && (p + b)[1..] == p[1..] + b;
      SamePrefixDifferences(p[1..], a, b);
    }
  }

  /** The transfer delivered corrupted data, but the CRC field the chip sent for the true data. */
  ghost predicate CorruptedInTransit(cmd: seq<bv8>, truth: seq<bv8>, t: Transfer) {
    && t.Received? && |t.bytes| == |truth| + 2
    && Detectable(truth, t.bytes[..|truth|])
    && BigEndian16(t.bytes[|truth|], t.bytes[|truth| + 1]) == CrcOf(cmd + truth)
  }

  lemma CorruptedFails(cmd: seq<bv8>, truth: seq<bv8>, t: Transfer)
    requires CorruptedInTransit(cmd, truth, t)
    ensures t.Received? && |t.bytes| == |truth| + 2 && OneReadError(cmd, t) == -EBADMSG
  {
    DetectableFails(cmd, truth, t.bytes[..|truth|]);
  }

  /**
   If every attempt is corrupted in transit the read reports it and hands out nothing, except
   for the oscillator register, whose first transfer is believed.
   */
  lemma {:induction false} CorruptionIsReported(reg: nat, cmd: seq<bv8>, truth: seq<bv8>, wire: seq<Transfer>, i: nat,
                                                buffer: seq<bv8>)
    requires ValidWire(wire, |truth|) && i < |wire| && |buffer| == |truth| + 2
    requires forall k | i <= k < |wire| :: CorruptedInTransit(cmd, truth, wire[k])
    ensures wire[i].Received?
    ensures ReadFrom(reg, cmd, wire, |truth|, i, buffer)
         == if reg == REG_OSC then Ok(wire[i].bytes[..|truth|]) else Err(-EBADMSG)
    decreases |wire| - i
  {
    hide OneReadError, CorruptedInTransit;
    assert CorruptedInTransit(cmd, truth, wire[i]);
    CorruptedFails(cmd, truth, wire[i]);
    if i + 1 < |wire| {
      CorruptionIsReported(reg, cmd, truth, wire, i + 1, wire[i].bytes);
    }
  }
}

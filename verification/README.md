# CAN driver and tool verification

A Dafny model of the parts of this repository's CAN / CAN FD drivers and test tools that carry
protocol logic, with proofs about every input, every run and every interleaving.
`dafny verify dfyconfig.toml` checks the whole project.

## What is modelled

- **MCP251xFD** (`RingIndex`, `TefProtocol`, `TefProtocolProof`, `TxRings`, `RxProtocol`, `RxRings`,
  `RamLayout`, `FrameCodec`, `Crc16Table`, `Crc16`, `RegmapCrc`). Driver and chip share transmit,
  transmit-event and receive FIFOs. The driver counts in free-running 32-bit counters, the chip shows
  small modular indices. The two protocol modules are transition systems in which the chip, the SPI
  queue, the xmit path and the interrupt thread take their steps in any order; `TxRings` and `RxRings`
  are the driver's functions on the fields they update in place. The rest are the RAM layout, the
  clearing of the RAM, the frame codec and the CRC on SPI transfers.
- **TJSG over a ring buffer** (`Tjsg`, `SangeRings`, `SangeLock`): packet builder, resynchronising parser,
  overwrite ring, reader loop, and any number of processes using the device under a file lock.
- **SLCAN** (`SlcanText`, `SlcanPrograms`): frame printer, write buffer, line assembler, line parser.
- **F81601A** (`DualTx`): two transmit slots in two kfifos, busy flag, last commanded slot.
- **CH36x** (`FlashWrite`, `I2c`): cutting a flash write into page programs; the bit-banged I2C engine as
  the levels on SDA and SCL, decoded by a listener after sections 3.1.3 to 3.1.5 of UM10204.
- **XPCFD** (`XpcFifo`): the single-producer single-consumer receive fifo.

`Frames` holds the few types several modules share. DLC coding is that of the control field of
ISO 11898-1.

## Results that differ from what the code intends

- The event head is rebuilt with a comparison and a minimum of wrapped counters. It is right across a
  wrap of 2^32 only under the condition of `RingIndex.TefHeadAcrossWrapIff`; `TefHeadWrapsWrong` is a
  concrete failure. The transmit protocol is therefore stated for runs below 2^32 frames; the receive
  protocol needs no such bound.
- A failed buffer allocation leaves the receive tail where it is while the batch goes on, so frames can be
  lost and delivered twice (`RxRings.ExactlyOnceIff`, `FailureLosesAndDuplicates`).
- The CRC of the oscillator register is not checked (`RegmapCrc.CorruptionIsReported`).
- A remote flag on an FD frame is encoded but not decoded, and error flags and surplus id bits are lost
  (`FrameCodec.IdSurvivesIff`).
- The F81601A wakes its queue after releasing the lock, so start_xmit can meet an empty fifo and lose a
  frame (`DualTx.LateWakeLosesFrame`).
- A failed chip-select deassert is ignored and lets the next packet join the frame
  (`SangeLock.FailedDeassertMerges`); `SangeLock.DeassertedIff` and `SangeLock.FramesMatchIff` say exactly which
  failures do harm.
- The I2C engine does not release SDA for the acknowledge, so a byte with a low bit of 0 (every address
  byte of a write) counts as acknowledged without a slave; a refused byte ends in spurious START and
  STOP conditions (`I2c.Bus.WaitAck`, `I2c.Bus.Write`).

## Model

| member | source | states |
|---|---|---|
| `Crc16Table.TableIsClocked` | SDCLinuxExpansionBoardDriver_V2.1.4.0/driver/mcp251xfd/mcp251xfd-crc16.c:23-56 | every one of the 256 table entries is its index clocked eight times through the feedback register of x^16+x^15+x^2+1 |
| `Crc16.ByteIsEightClocks` | SDCLinuxExpansionBoardDriver_V2.1.4.0/driver/mcp251xfd/mcp251xfd-crc16.c:58-63 | one table step is eight steps of the bit-serial register |
| `Crc16.TableCrcIsSerial` | SDCLinuxExpansionBoardDriver_V2.1.4.0/driver/mcp251xfd/mcp251xfd-crc16.c:58-71 | over any buffer and start value the table form and the bit-serial form agree |
| `Crc16.CrcIsRemainder` | SDCLinuxExpansionBoardDriver_V2.1.4.0/driver/mcp251xfd/mcp251xfd-crc16.c:65-78 | the CRC of any message is the remainder of long division by the generator, start value 0xffff |
| `Crc16.GeneratorIs` | SDCLinuxExpansionBoardDriver_V2.1.4.0/driver/mcp251xfd/mcp251xfd-crc16.c:23-56 | the divisor is x^16 + x^15 + x^2 + 1, coefficient by coefficient |
| `Crc16.Crc16Loop` | SDCLinuxExpansionBoardDriver_V2.1.4.0/driver/mcp251xfd/mcp251xfd-crc16.c:65-71 | the in-place loop computes the bit-serial register over the buffer |
| `Crc16.Compute` | SDCLinuxExpansionBoardDriver_V2.1.4.0/driver/mcp251xfd/mcp251xfd-crc16.c:73-78 | the CRC of the first size bytes |
| `Crc16.Compute2` | SDCLinuxExpansionBoardDriver_V2.1.4.0/driver/mcp251xfd/mcp251xfd-crc16.c:80-89 | the CRC of command and data is the CRC of their concatenation, for every split |
| `Crc16.BurstDetected` | SDCLinuxExpansionBoardDriver_V2.1.4.0/driver/mcp251xfd/mcp251xfd-crc16.c:65-71 | two messages that differ, and only inside sixteen adjacent bits, get different CRCs, whatever their length |
| `Crc16.AdjacentBytesDetected` | SDCLinuxExpansionBoardDriver_V2.1.4.0/driver/mcp251xfd/mcp251xfd-crc16.c:65-78 | so do messages that differ only inside two adjacent bytes |
| `Crc16.OddErrorDetected` | SDCLinuxExpansionBoardDriver_V2.1.4.0/driver/mcp251xfd/mcp251xfd-crc16.c:65-78 | so do messages that differ in an odd number of bits |
| `RegmapCrc.CrcReadOne` | SDCLinuxExpansionBoardDriver_V2.1.4.0/driver/mcp251xfd/mcp251xfd-regmap.c:244-269 | one transfer: the SPI error, -74 when the two bytes behind the data, high byte first, are not the CRC of command and data, 0 otherwise; a failed transfer leaves the buffer alone |
| `RegmapCrc.CrcRead` | SDCLinuxExpansionBoardDriver_V2.1.4.0/driver/mcp251xfd/mcp251xfd-regmap.c:271-360 | the retry loop returns what the specification of a read with three attempts says; a read of the oscillator register returns the data of the first transfer whatever its CRC, or its SPI error |
| `RegmapCrc.ReadSucceedsIff` | SDCLinuxExpansionBoardDriver_V2.1.4.0/driver/mcp251xfd/mcp251xfd-regmap.c:316-355 | except for the oscillator register a read succeeds with a value if and only if some attempt passes the check with that value and every earlier one failed it |
| `RegmapCrc.ReadFailsIff` | SDCLinuxExpansionBoardDriver_V2.1.4.0/driver/mcp251xfd/mcp251xfd-regmap.c:316-359 | except for the oscillator register a read fails with a code if and only if an attempt meets that SPI error and every earlier one had a CRC error, or the code is -74 and all three had one |
| `RegmapCrc.OscillatorRead` | SDCLinuxExpansionBoardDriver_V2.1.4.0/driver/mcp251xfd/mcp251xfd-regmap.c:323-353 | register 0xe00: an intact or corrupted first transfer is handed out, an SPI error is returned with its own code |
| `RegmapCrc.DetectableFails` | SDCLinuxExpansionBoardDriver_V2.1.4.0/driver/mcp251xfd/mcp251xfd-regmap.c:260-266 | data corrupted inside two adjacent bytes or in an odd number of bits never matches the CRC field of the true data |
| `RegmapCrc.CorruptionIsReported` | SDCLinuxExpansionBoardDriver_V2.1.4.0/driver/mcp251xfd/mcp251xfd-regmap.c:316-359 | when every attempt is corrupted that way the read returns -EBADMSG, except for the oscillator register, which hands out the first transfer |
| `RingIndex.RebuiltHeadExactIff` | SDCLinuxExpansionBoardDriver_V2.1.4.0/driver/mcp251xfd/mcp251xfd-core.c:1459-1472 | the rebuilt receive head is the chip's absolute count if and only if the FIFO is not empty, up to the full FIFO and across counter wraps |
| `RingIndex.RebuiltTefHeadIs` | SDCLinuxExpansionBoardDriver_V2.1.4.0/driver/mcp251xfd/mcp251xfd-core.c:1365-1373 | below 2^32 the rebuilt event head is the chip's completion count when that is past the old head, and everything queued otherwise |
| `RingIndex.TefHeadAcrossWrapIff` | SDCLinuxExpansionBoardDriver_V2.1.4.0/driver/mcp251xfd/mcp251xfd-core.c:1368-1373 | across a wrap the event head is right if and only if both sides of the minimum are in the same epoch of 2^32 or equal |
| `RingIndex.TefHeadWrapsWrong` | SDCLinuxExpansionBoardDriver_V2.1.4.0/driver/mcp251xfd/mcp251xfd-core.c:1368-1373 | a wrap at which the event head comes out 2^32 too low and the ring length exceeds the ring |
| `TefProtocol.LinearReadsFetchTheRing` | SDCLinuxExpansionBoardDriver_V2.1.4.0/driver/mcp251xfd/mcp251xfd-core.c:1411-1422 | the two linear reads fetch exactly the slots of the counters tail .. head - 1 |
| `TefProtocol.SeqMatchesIffComplete` | SDCLinuxExpansionBoardDriver_V2.1.4.0/driver/mcp251xfd/mcp251xfd-core.c:1299-1323 | a slot passes the 7-bit comparison if and only if its frame was completed when it was read; stale and zeroed slots never pass |
| `TefProtocolProof.StepKeeps` | SDCLinuxExpansionBoardDriver_V2.1.4.0/driver/mcp251xfd/mcp251xfd-core.c:1271-1449 | every step of xmit path, chip, SPI queue and interrupt thread keeps the invariant |
| `TefProtocolProof.RunKeepsInv` | SDCLinuxExpansionBoardDriver_V2.1.4.0/driver/mcp251xfd/mcp251xfd-core.c:1271-1449 | the invariant holds in every state of every run |
| `TefProtocolProof.TransmitSafety` | SDCLinuxExpansionBoardDriver_V2.1.4.0/driver/mcp251xfd/mcp251xfd-core.c:1299-1449 | in every interleaving: tx.tail <= tef.tail <= tef.head <= tx.head <= tx.tail + obj_num, the bus order is the accepted order, report k is the echo of frame k and comes after its completion, the event FIFO never overflows |
| `TefProtocolProof.PassIsExact` | SDCLinuxExpansionBoardDriver_V2.1.4.0/driver/mcp251xfd/mcp251xfd-core.c:1401-1449 | a pass that ends without an SPI error has reported every frame completed when it read FIFOSTA and only frames completed when their own event was read |
| `TefProtocolProof.HeadRebuilt` | SDCLinuxExpansionBoardDriver_V2.1.4.0/driver/mcp251xfd/mcp251xfd-core.c:1361-1373 | in every run the stored event head is the chip's completion count when FIFOSTA was read if that is past the old head, and everything queued otherwise |
| `TefProtocolProof.TailsAgree` | SDCLinuxExpansionBoardDriver_V2.1.4.0/driver/mcp251xfd/mcp251xfd-core.c:1223-1244 | chip and driver agree on the tail before the ring update, right after it where the sanity build compares them, and at every object of the loop |
| `TefProtocolProof.NoLostWakeup` | SDCLinuxExpansionBoardDriver_V2.1.4.0/driver/mcp251xfd/mcp251xfd-core.c:2489-2536 | while neither thread is at work, a stopped queue has a frame in flight, and a load, a completion or the next pass can happen |
| `TefProtocolProof.PassWakes` | SDCLinuxExpansionBoardDriver_V2.1.4.0/driver/mcp251xfd/mcp251xfd-core.c:1437-1446 | from the step that reads FIFOSTA on, without xmit steps: when the interrupt thread is idle again the queue runs |
| `TxRings.Priv.TxBusy` | SDCLinuxExpansionBoardDriver_V2.1.4.0/driver/mcp251xfd/mcp251xfd-core.c:2489-2512 | busy exactly when the ring is full at the second look, where an interrupt pass may come between the looks; a queue stopped in vain is started again |
| `TxRings.Priv.StartXmit` | SDCLinuxExpansionBoardDriver_V2.1.4.0/driver/mcp251xfd/mcp251xfd-core.c:2514-2555 | an invalid frame is swallowed; a frame is refused exactly when the ring is full; otherwise its object, echo and SPI message carry it and the low 23 bits of the head, an error of spi_async drops only the message, and the queue stops when the ring became full |
| `TxRings.Priv.TefRingUpdate` | SDCLinuxExpansionBoardDriver_V2.1.4.0/driver/mcp251xfd/mcp251xfd-core.c:1354-1376 | the new event head, computed in place |
| `TxRings.Priv.TefObjRead` | SDCLinuxExpansionBoardDriver_V2.1.4.0/driver/mcp251xfd/mcp251xfd-core.c:1378-1399 | a linear read fills the given part of the buffer and nothing else |
| `TxRings.Priv.HandleTefifOne` | SDCLinuxExpansionBoardDriver_V2.1.4.0/driver/mcp251xfd/mcp251xfd-core.c:1271-1352 | on a match the echo of the tail slot is handed out once, the chip told, both tails advanced, but not when telling the chip fails; a mismatch gives -EAGAIN, -ENOBUFS on an overflow, or the SPI error, and changes nothing |
| `TxRings.Priv.FetchTef` | SDCLinuxExpansionBoardDriver_V2.1.4.0/driver/mcp251xfd/mcp251xfd-core.c:1411-1422 | buffer entry j is the slot of counter tail + j, unless one of the one or two reads fails |
| `TxRings.Priv.HandleObjects` | SDCLinuxExpansionBoardDriver_V2.1.4.0/driver/mcp251xfd/mcp251xfd-core.c:1424-1435 | the loop hands out exactly the leading run of matching slots, in order, as far as the SPI accesses succeed; it returns the SPI error exactly when an access failed, else -105 exactly when a mismatch meets an overflow, else 0 |
| `TxRings.Priv.HandleTefif` | SDCLinuxExpansionBoardDriver_V2.1.4.0/driver/mcp251xfd/mcp251xfd-core.c:1401-1449 | a whole pass with any number of working SPI accesses: head rebuilt, leading matches reported with their echoes, tails advanced by the number released; the SPI error exactly when an access failed, else -105 exactly when a mismatch meets an overflow, else 0; a pass that returns 0 leaves the queue stopped only when the ring is still full, a failing pass leaves it as it was |
| `TxRings.QuietPassReportsAll` | SDCLinuxExpansionBoardDriver_V2.1.4.0/driver/mcp251xfd/mcp251xfd-core.c:1401-1449 | over RAM that does not change meanwhile the leading run of matches is exactly the completed frames |
| `RxProtocol.RxStepKeeps` | SDCLinuxExpansionBoardDriver_V2.1.4.0/driver/mcp251xfd/mcp251xfd-core.c:1590-1620 | every step of chip and receive thread keeps the receive invariant |
| `RxProtocol.ReceiveExactlyOnce` | SDCLinuxExpansionBoardDriver_V2.1.4.0/driver/mcp251xfd/mcp251xfd-core.c:1590-1620 | in every interleaving and across counter wraps frames are delivered exactly once in arrival order |
| `RxProtocol.PassDelivers` | SDCLinuxExpansionBoardDriver_V2.1.4.0/driver/mcp251xfd/mcp251xfd-core.c:1590-1620 | a pass ends with exactly what the chip had stored at the step that read FIFOSTA delivered, after one or two linear reads in between, and with tail equal to head |
| `RxRings.ExactlyOnceIff` | SDCLinuxExpansionBoardDriver_V2.1.4.0/driver/mcp251xfd/mcp251xfd-core.c:1545-1565 | with failing buffer allocations a pass delivers exactly once and in order if and only if no linear batch has a success after a failure |
| `RxRings.AllDelivered` | SDCLinuxExpansionBoardDriver_V2.1.4.0/driver/mcp251xfd/mcp251xfd-core.c:1590-1620 | when every allocation succeeds the pass delivers the counters from tail to head - 1, each once and in order |
| `RxRings.ObjectsAre` | SDCLinuxExpansionBoardDriver_V2.1.4.0/driver/mcp251xfd/mcp251xfd-core.c:1574-1588 | what is handed on for a counter is the object in its slot |
| `RxRings.FailureLosesAndDuplicates` | SDCLinuxExpansionBoardDriver_V2.1.4.0/driver/mcp251xfd/mcp251xfd-core.c:1545-1548 | one failed allocation in the middle: frame 1 is lost and frame 2 delivered twice |
| `RxRings.RxRing.RxRingUpdate` | SDCLinuxExpansionBoardDriver_V2.1.4.0/driver/mcp251xfd/mcp251xfd-core.c:1451-1473 | the new receive head, computed in place |
| `RxRings.RxRing.HandleRxifOne` | SDCLinuxExpansionBoardDriver_V2.1.4.0/driver/mcp251xfd/mcp251xfd-core.c:1530-1572 | a delivered object advances the tail by one and is released unless telling the chip fails; a failed allocation counts a drop and changes nothing else |
| `RxRings.RxRing.HandleBatch` | SDCLinuxExpansionBoardDriver_V2.1.4.0/driver/mcp251xfd/mcp251xfd-core.c:1610-1616 | the objects of one linear read, as the allocation outcomes decide and as far as the SPI accesses succeed |
| `RxRings.RxRing.HandleLinear` | SDCLinuxExpansionBoardDriver_V2.1.4.0/driver/mcp251xfd/mcp251xfd-core.c:1602-1617 | one turn of the drain loop reads and handles the linear part of the ring |
| `RxRings.RxRing.HandleTurn` | SDCLinuxExpansionBoardDriver_V2.1.4.0/driver/mcp251xfd/mcp251xfd-core.c:1602-1617 | a turn of the drain loop continues the pass by one batch, or by a prefix of it when an access fails |
| `RxRings.RxRing.HandleRxifRing` | SDCLinuxExpansionBoardDriver_V2.1.4.0/driver/mcp251xfd/mcp251xfd-core.c:1590-1620 | the drain loop delivers what the allocation outcomes decide and finishes with tail at the chip's count; an error is returned exactly when an SPI access failed, after a prefix of that, at most one object of which is not released |
| `RamLayout.RxObjNumIsLargest` | SDCLinuxExpansionBoardDriver_V2.1.4.0/driver/mcp251xfd/mcp251xfd-core.c:489-490 | a receive ring gets 1, 2, 4, 8, 16 or 32 objects, the largest of these that fits the free RAM |
| `RamLayout.RegionsDisjoint` | SDCLinuxExpansionBoardDriver_V2.1.4.0/driver/mcp251xfd/mcp251xfd-core.c:398-445 | for any object sizes and any number of receive rings all regions are pairwise disjoint and inside the 2 KiB from 0x400 on |
| `RamLayout.ObjectsInRegion` | SDCLinuxExpansionBoardDriver_V2.1.4.0/driver/mcp251xfd/mcp251xfd.h:729-745 | every object lies in its ring's region and no two objects overlap |
| `RamLayout.LookupInverts` | SDCLinuxExpansionBoardDriver_V2.1.4.0/driver/mcp251xfd/mcp251xfd.h:786-798 | on every byte: the lookup finds object k if and only if the byte belongs to object k |
| `RamLayout.Rings.ChooseSizes` | SDCLinuxExpansionBoardDriver_V2.1.4.0/driver/mcp251xfd/mcp251xfd-core.c:465-476 | object counts and sizes of classic, FD and listen-only mode |
| `RamLayout.Rings.AllocRx` | SDCLinuxExpansionBoardDriver_V2.1.4.0/driver/mcp251xfd/mcp251xfd-core.c:484-507 | rings are sized one after the other until the slots or the RAM run out; a failed allocation gives back all of them |
| `RamLayout.Rings.InitRings` | SDCLinuxExpansionBoardDriver_V2.1.4.0/driver/mcp251xfd/mcp251xfd-core.c:398-445 | each ring is based where the one before it ends, the first receive ring behind the transmit objects; ring i has number i and FIFO 2 + i |
| `RamLayout.Rings.Setup` | SDCLinuxExpansionBoardDriver_V2.1.4.0/driver/mcp251xfd/mcp251xfd-core.c:398-523 | allocation and initialisation together give disjoint regions inside the RAM and ring sizes that are powers of two |
| `RamLayout.Rings.GetTxNrByAddr` | SDCLinuxExpansionBoardDriver_V2.1.4.0/driver/mcp251xfd/mcp251xfd.h:786-798 | -ENOENT exactly outside the transmit region, otherwise the object holding the address |
| `RamLayout.DriverConfigurations` | SDCLinuxExpansionBoardDriver_V2.1.4.0/driver/mcp251xfd/mcp251xfd-core.c:465-490 | the two configurations in use have 16 and 32 receive objects |
| `RamLayout.EccInit` | SDCLinuxExpansionBoardDriver_V2.1.4.0/driver/mcp251xfd/mcp251xfd-core.c:970-1009 | the clearing loop zeroes exactly the 2048 bytes of RAM, or a prefix of whole writes when one fails, although its counter moves by 129; a failing register update or allocation before it returns with the RAM untouched |
| `FrameCodec.Len2DlcIsSmallest` | SDCLinuxExpansionBoardDriver_V2.1.4.0/driver/mcp251xfd/mcp251xfd-core.c:2411-2415 | the length code is that of the smallest DLC size holding the payload |
| `FrameCodec.DlcSizes` | SDCLinuxExpansionBoardDriver_V2.1.4.0/driver/mcp251xfd/mcp251xfd-core.c:1508-1524 | the sixteen payload sizes: 0 to 8, 12 to 24 in steps of four, 32, 48, 64; classic frames end at 8 |
| `FrameCodec.FlagsReadBack` | SDCLinuxExpansionBoardDriver_V2.1.4.0/driver/mcp251xfd/mcp251xfd-core.c:2394-2433 | every field of the flags word reads back, whatever the chip stores above bit 8 |
| `FrameCodec.SequenceReadBack` | SDCLinuxExpansionBoardDriver_V2.1.4.0/driver/mcp251xfd/mcp251xfd-core.c:2417 | the sequence field gives back the low 23 bits of the transmit head |
| `FrameCodec.FlagsLayout` | SDCLinuxExpansionBoardDriver_V2.1.4.0/driver/mcp251xfd/mcp251xfd.h:300-308 | where the encoder puts each flag, by literal bits: ESI 8, FDF 7, BRS 6, RTR 5, IDE 4, ESI and BRS only on FD frames, sequence number in 31 to 9, length code in 3 to 0 |
| `FrameCodec.IdLayout` | SDCLinuxExpansionBoardDriver_V2.1.4.0/driver/mcp251xfd/mcp251xfd.h:297-311 | where the encoder puts the id: bits 28 to 18 of an extended id in 10 to 0 and its bits 17 to 0 in 28 to 11, a standard id in 10 to 0 |
| `FrameCodec.ReadLayout` | SDCLinuxExpansionBoardDriver_V2.1.4.0/driver/mcp251xfd/mcp251xfd-core.c:1475-1528 | what the decoder makes of each bit of a received object, by literal bits, and how many bytes it copies |
| `FrameCodec.HwRxObjToSkb` | SDCLinuxExpansionBoardDriver_V2.1.4.0/driver/mcp251xfd/mcp251xfd-core.c:1475-1528 | the decoder's branches: id, FD and remote flag, ESI, BRS and payload length come from their literal bits of the received words |
| `FrameCodec.RoundTrip` | SDCLinuxExpansionBoardDriver_V2.1.4.0/driver/mcp251xfd/mcp251xfd-core.c:1475-1528 | decoding an encoded frame gives the id, flags and payload back, the payload zero-padded to its DLC size |
| `FrameCodec.IdSurvivesIff` | SDCLinuxExpansionBoardDriver_V2.1.4.0/driver/mcp251xfd/mcp251xfd-core.c:2386-2401 | the id word survives if and only if it has no error flag, no extended bits without the extended flag, and no remote flag on an FD frame |
| `FrameCodec.PayloadSurvivesIff` | SDCLinuxExpansionBoardDriver_V2.1.4.0/driver/mcp251xfd/mcp251xfd-core.c:2443-2452 | the payload comes back unpadded if and only if its length is a DLC size |
| `FrameCodec.TxObjBuf.FromSkb` | SDCLinuxExpansionBoardDriver_V2.1.4.0/driver/mcp251xfd/mcp251xfd-core.c:2376-2481 | the reused buffer holds id and flags with every field at its literal bits, payload and zeros up to the next word whatever it held before, bytes behind stay; the bytes sent are the command, with the CRC quirk the length in words, the object in little-endian words, and with the quirk a CRC that matches all of it |
| `FrameCodec.BytesReadBack` | SDCLinuxExpansionBoardDriver_V2.1.4.0/driver/mcp251xfd/mcp251xfd-core.c:2438-2474 | the little-endian and big-endian bytes give the words back |
| `FrameCodec.TxObjBuf.FillData` | SDCLinuxExpansionBoardDriver_V2.1.4.0/driver/mcp251xfd/mcp251xfd-core.c:2443-2453 | clearing the tail and copying the payload leave exactly payload and zeros |
| `FrameCodec.FilledObjectSendsPadded` | SDCLinuxExpansionBoardDriver_V2.1.4.0/driver/mcp251xfd/mcp251xfd-core.c:2443-2453 | what the chip sends of the filled buffer is the padded payload |
| `Tjsg.BuiltShape` | sange.h:127-140 | a built packet has the four magic bytes, its own length high byte first, the command, a zero byte, the payload and a valid checksum |
| `Tjsg.ChecksumAdds` | sange.h:119-124 | the checksum of a concatenation is the sum of the checksums modulo 256 (and that of one byte is the byte) |
| `Tjsg.PacketIsSound` | sange.h:256-284 | a packet handed on has the magic, a length field equal to its 9 to 512 bytes and a last byte equal to the sum of the others, fits the buffer, and stands in the stream right before the rest |
| `Tjsg.DrainIsSound` | sange.h:256-284 | so has every packet found by draining any stream |
| `Tjsg.ParserRefuses` | sange.h:256-284 | at a magic: a bad length costs one byte, a packet too long for the buffer or with a wrong checksum is skipped whole, a packet begun waits, any other is handed on |
| `Tjsg.DrainTwice` | sange.h:256-284 | parsing one part of the stream and then the rest is parsing the whole |
| `Tjsg.ChunkingIndependence` | sange.h:233-284 | however the stream is cut into chunks, draining after each gives the packets and the pending bytes of the whole stream |
| `Tjsg.Resync` | sange.h:127-284 | built packets separated by garbage without the magic parse back to exactly those packets; fewer than four bytes stay pending |
| `Tjsg.DrainLeavesLittle` | sange.h:256-284 | a drain leaves at most 511 bytes |
| `Tjsg.DrainIsComplete` | sange.h:256-284 | a second drain finds nothing and leaves the same bytes |
| `SangeRings.SangeRing.Push` | sange.h:233-241 | appends the bytes; the ring holds the newest 8192 of them |
| `SangeRings.SangeRing.Peek` | sange.h:243-247 | the byte at an offset, -1 past the end |
| `SangeRings.SangeRing.Consume` | sange.h:249 | drops the first n bytes |
| `SangeRings.SangeRing.ParseOne` | sange.h:256-284 | packet, 0 or -1 and the bytes consumed are those of the parser function |
| `SangeRings.TjsgChecksum` | sange.h:119-124 | the low byte of the sum |
| `SangeRings.TjsgBuild` | sange.h:127-140 | the buffer begins with the built packet, -1 and nothing written when it does not fit |
| `SangeRings.PushAndDrain` | sange_reader.c:242-255 | after a poll of at most 2048 bytes nothing has been overwritten, the packets found and the bytes left are those of draining, every packet has a valid length and checksum, and at most 511 bytes stay |
| `SangeRings.ReaderLoop` | sange_reader.c:231-255 | over any sequence of polls the packets handed on are those of the whole stream, each with a valid length and checksum |
| `SangeLock.OneOwner` | sange.h:155-222 | in every run of any number of processes, whatever ioctl fails, at most one process is between its flock calls |
| `SangeLock.ModesAre` | sange.h:78-115 | the mode each ioctl writes: 0x81 to send, 0x02 to count, 0x82 to read, 0x83 to end |
| `SangeLock.PollReads` | sange.h:78-115 | a poll none of whose ioctls fails reads a one- or two-byte count and then as many bytes as are counted, at most as many as asked for |
| `SangeLock.CountFails` | sange.h:78-93 | a failing read of the count ends the poll without reading data |
| `SangeLock.DataFails` | sange.h:105-115 | a failing read of the data ends the poll with the bytes before it |
| `SangeLock.FramesMatchIff` | sange.h:95-103 | whatever else fails, the device's frames are at all times what the senders wrote, one frame for each packet, if and only if no deassert that ends a packet fails |
| `SangeLock.FramesAreWhole` | sange.h:78-115 | while no deassert that ends a packet has failed, each frame is a packet that one process had begun to send: whole if and only if none of its ioctls failed in between, otherwise the bytes before the one whose write failed |
| `SangeLock.SuccessIsWhole` | sange.h:95-103 | a sender none of whose ioctls failed has its whole packet on the device as one frame |
| `SangeLock.DeassertedIff` | sange.h:78-115 | whatever else fails, chip-select is deasserted whenever the lock is free or about to be released, if and only if no operation's last write with chip-select asserted fails: the deassert before unlocking, or the read command after a failed deassert |
| `SangeLock.FailedDeassertMerges` | sange.h:95-103 | when the deasserting write fails the lock is free with chip-select asserted, and the next process's packet joins the same frame |
| `SlcanText.LineReadsBack` | slcan_reader.c:183-266 | a printed frame reads back with its kind, id, length code and payload |
| `SlcanText.LineLayout` | slcan_writer.c:354-393 | a printed line character by character: letter of its kind, three or eight id digits, length code, two digits for each byte, all upper case, carriage return |
| `SlcanText.ReadsAre` | slcan_reader.c:183-266 | which lines are read as data or remote frames, and kind, id, length code, byte count and bytes of a data line; a short line counts what it holds |
| `SlcanText.PairsAre` | slcan_reader.c:255-261 | digit pairs are bytes, first digit high |
| `SlcanText.StampIs` | slcan_reader.c:234-248 | a line gives a timestamp exactly when it counts eight bytes; a pair with a foreign character counts as zero |
| `SlcanText.StampReadsBack` | slcan_reader.c:238-248 | a printed frame of at least eight bytes gives its first eight back as the timestamp |
| `SlcanText.LineFits` | slcan_writer.c:354-393 | a line is at most 138 characters long and contains no line end |
| `SlcanText.CutTwice` | slcan_reader.c:410-433 | assembling lines from one part of the stream and then the rest is assembling them from the whole |
| `SlcanText.LongLine` | slcan_reader.c:410-433 | of a line of any length the first 511 characters are kept, a carriage return or line feed ends it, an empty line gives nothing |
| `SlcanText.EndToEnd` | slcan_reader.c:410-433 | any frames printed and any cutting of the stream: the reader shows exactly those frames, no line truncated |
| `SlcanPrograms.SlcanBuf.Write` | slcan_writer.c:60-66 | the stream grows by the characters written and the buffer is never overrun |
| `SlcanPrograms.SlcanBuf.Flush` | slcan_writer.c:52-58 | everything buffered is handed to write() and the buffer is empty |
| `SlcanPrograms.LenToDlc` | slcan_writer.c:75-82 | the smallest code whose size holds the length; 15 when none does |
| `SlcanPrograms.PlanLength` | slcan_writer.c:280-297 | the smallest size holding the requested length, raised to 8 for timestamps and capped at 8 or 64 |
| `SlcanPrograms.PutHex` | slcan_writer.c:370-374 | zero-padded upper-case digits behind what the buffer already held |
| `SlcanPrograms.BuildFrame` | slcan_writer.c:354-393 | the character buffer holds the printed frame with the id modulo 0x800 or 0x20000000 and the turn's bytes |
| `SlcanPrograms.RunWriter` | slcan_writer.c:343-422 | the stream is the run's frames printed one after the other; frame k has the configured kind, the id modulo 0x800 or 0x20000000, the smallest size that holds the request, byte i equal to (k + i) modulo 256, or the turn's timestamp byte for i < 8 with timestamps on |
| `SlcanPrograms.ParseFrame` | slcan_reader.c:183-266 | return value, listing and timestamp of any line are those of the reading functions |
| `SlcanPrograms.LineReader.Feed` | slcan_reader.c:410-433 | a chunk completes the lines and timestamps, and leaves the begun line, that cutting the characters gives |
| `SlcanPrograms.RunReader` | slcan_reader.c:365-433 | over any chunks the lines read are those of the whole stream |
| `SlcanPrograms.WriterToReader` | slcan_reader.c:365-433 | however the stream was cut, the reader shows one frame per turn of the writer: reading k has the configured kind, the id modulo 0x800 or 0x20000000, and byte i equal to (k + i) modulo 256, or the turn's timestamp byte for i < 8 with timestamps on |
| `DualTx.StepKeeps` | fbus_driver/f81601a.c:1573-1724 | start, xmit, transmit interrupt and wake-up keep the invariant |
| `DualTx.SlotsPartitioned` | fbus_driver/f81601a.c:1573-1595 | after any run the two fifos together hold slots 0 and 1 once each, the busy flag says whether one is in use, and the last commanded slot is the front of the used fifo |
| `DualTx.CommandedInOrder` | fbus_driver/f81601a.c:1678-1724 | since the last start the k-th command went to slot k mod 2 with the k-th accepted frame, completions follow in order, and the "same slot twice" branches were never taken |
| `DualTx.LostIff` | fbus_driver/f81601a.c:1573-1589 | after any run a frame is lost if and only if start_xmit finds both slots in use |
| `DualTx.XmitAccepts` | fbus_driver/f81601a.c:1573-1724 | after any run an accepted frame goes into the first empty slot, the last slot stops the queue, and the slot is commanded when the controller is idle |
| `DualTx.DoneCompletes` | fbus_driver/f81601a.c:2259-2365 | after any run a completion frees the front slot and completes its frame, commands the next slot in use or goes idle, and does nothing when none is in use |
| `DualTx.NoFrameLost` | fbus_driver/f81601a.c:1573-1589 | in every run whose wake-ups all find a free slot no frame is lost |
| `DualTx.LateWakeLosesFrame` | fbus_driver/f81601a.c:2385-2392 | a run in which it does: the wake-up after unlocking comes behind two more frames |
| `DualTx.Sja1000.Start` | fbus_driver/f81601a.c:1166-1175 | both slots empty, nothing in use, no last slot |
| `DualTx.Sja1000.StartXmit` | fbus_driver/f81601a.c:1566-1726 | the locked section of start_xmit is the xmit step |
| `DualTx.Sja1000.TransmitInterrupt` | fbus_driver/f81601a.c:2259-2365 | the locked section of the interrupt is the completion step |
| `FlashWrite.ProgramIsFlat` | ch36x_linux/driver/ch36x.c:883-888 | a page program that stays in its page is the flat write of its data |
| `FlashWrite.FlatAt` | ch36x_linux/driver/ch36x.c:874-892 | a flat write leaves old AND data on the range and everything else unchanged |
| `FlashWrite.BurstIsFlat` | ch36x_linux/driver/ch36x.c:877-889 | opcode, three address bytes and data of one page, deselected, perform the flat write at the 24-bit address |
| `FlashWrite.Ch36x.FlashWe` | ch36x_linux/driver/ch36x.c:684-693 | write enable sends the single byte 0x06 and sets the latch, or fails and sends nothing |
| `FlashWrite.Ch36x.ProgramPage` | ch36x_linux/driver/ch36x.c:877-890 | the bytes sent are 0x02, the 24-bit address high byte first and the data up to the end of the 256-byte page or of the buffer, then the status poll; the memory is the flat write of that data |
| `FlashWrite.Ch36x.Write` | ch36x_linux/driver/ch36x.c:827-899 | success exactly with every precondition met and then memory is the flat write; a failing write enable leaves a prefix ending at a page boundary; the page programs stay in their pages and cover the bytes written once each, in order and without a gap |
| `I2c.ByteReadsBack` | ch36x_linux/lib/ch36x_lib.c:994-1010 | the bits of a byte, most significant first, read back as the byte |
| `I2c.BitOrder` | ch36x_linux/lib/ch36x_lib.c:994-1010 | the first bit sent weighs 128, the last one 1 |
| `I2c.ShiftOrder` | ch36x_linux/lib/ch36x_lib.c:1012-1034 | the first bit received weighs 128, the last one 1 |
| `I2c.Bus.SdaSet` | ch36x_linux/lib/ch36x_lib.c:897-903 | sets bit 0 of the output register and nothing else; the listener hears the new level |
| `I2c.Bus.SdaClr` | ch36x_linux/lib/ch36x_lib.c:905-910 | clears it |
| `I2c.Bus.SclSet` | ch36x_linux/lib/ch36x_lib.c:912-917 | sets bit 1 of the output register and nothing else; a rising clock begins a pulse |
| `I2c.Bus.SclClr` | ch36x_linux/lib/ch36x_lib.c:919-924 | clears it |
| `I2c.Bus.Start` | ch36x_linux/lib/ch36x_lib.c:929-937 | from an idle bus or between bytes: one START on the wire |
| `I2c.Bus.Stop` | ch36x_linux/lib/ch36x_lib.c:939-947 | with the clock low one STOP; with the clock high a START before it |
| `I2c.Bus.WaitAck` | ch36x_linux/lib/ch36x_lib.c:949-969 | 0 and an acknowledge bit when SDA is low in the ninth pulse; otherwise, after 251 looks, -1 and a START and STOP on the wire |
| `I2c.Bus.SendByte` | ch36x_linux/lib/ch36x_lib.c:994-1010 | eight bits, most significant first |
| `I2c.Bus.SendAck` | ch36x_linux/lib/ch36x_lib.c:971-981 | a 0 bit, SDA released |
| `I2c.Bus.SendNack` | ch36x_linux/lib/ch36x_lib.c:983-992 | a 1 bit, SDA released |
| `I2c.Bus.ReadByte` | ch36x_linux/lib/ch36x_lib.c:1012-1034 | the slave's eight bits and the driver's acknowledge; the value shifted in |
| `I2c.Bus.Write` | ch36x_linux/lib/ch36x_lib.c:1046-1096 | the wire decodes to START, address, register, data with acknowledges, STOP; the first byte not acknowledged ends it with spurious START and STOP pairs; a byte whose low bit is 0 always counts as acknowledged |
| `I2c.Bus.Read` | ch36x_linux/lib/ch36x_lib.c:1108-1165 | the wire decodes to START, address, register, repeated START, address, the slave's bytes with acknowledges, STOP, and the buffer holds the slave's bytes; a refused register or second address ends it with spurious START and STOP pairs |
| `XpcFifo.StepKeeps` | zlg_pciecanfd_driver/xpcfd.c:428-464 | every step of producer and consumer keeps the invariant |
| `XpcFifo.RefinesQueue` | zlg_pciecanfd_driver/xpcfd.c:428-464 | every step is a step of a bounded queue of 8192; refusal exactly when full, nothing exactly when empty, put and get never fail after their lock |
| `XpcFifo.HeldSlotIsStable` | zlg_pciecanfd_driver/xpcfd.c:439-464 | the slot the consumer holds is not written before the get |
| `XpcFifo.NothingAcceptedIsLost` | zlg_pciecanfd_driver/xpcfd.c:1129-1156 | in every interleaving and across counter wraps frames come out in order and none accepted is lost |
| `XpcFifo.RxFifo.Cnt` | zlg_pciecanfd_driver/xpcfd.c:423-426 | the number of queued frames |
| `XpcFifo.RxFifo.Wlck` | zlg_pciecanfd_driver/xpcfd.c:428-437 | the next free slot, none exactly when full |
| `XpcFifo.RxFifo.Rlck` | zlg_pciecanfd_driver/xpcfd.c:439-448 | the front slot, none exactly when empty |
| `XpcFifo.RxFifo.Put` | zlg_pciecanfd_driver/xpcfd.c:450-456 | the filled slot joins the queue |
| `XpcFifo.RxFifo.Get` | zlg_pciecanfd_driver/xpcfd.c:458-464 | the front leaves the queue |
| `XpcFifo.RxFifo.IsrStore` | zlg_pciecanfd_driver/xpcfd.c:1402-1434 | the frame is appended, or dropped when full |
| `XpcFifo.RxFifo.IoctlRx` | zlg_pciecanfd_driver/xpcfd.c:1129-1149 | the front frame, on an empty fifo after a wait and a second look, or -EAGAIN; it is gone even when the copy to the caller fails |
| `XpcFifo.RxFifo.IoctlRxCount` | zlg_pciecanfd_driver/xpcfd.c:1150-1155 | without a buffer, the number of queued frames |

## Left out

- TefProtocolProof.StepKeeps: runs in which the 32-bit counters wrap are excluded, because the code's head computation is wrong there (`RingIndex.TefHeadAcrossWrapIff`).
- TefProtocolProof.PassIsExact: says nothing about passes that end in an SPI error, which return early in the code.
- TxRings.Priv.HandleTefif: an SPI access is taken never to fail with -EAGAIN itself, which the code would read as a mismatch.
- TxRings.Priv.StartXmit: has no interrupt pass between the two looks; that interleaving is in `TxBusy` and in `TefProtocol`.
- TxRings.Priv.TefRingUpdate: the chip's index is a parameter, since reading it is a register access.
- RxProtocol.PassDelivers: the same assumptions as ReceiveExactlyOnce.
- RxProtocol.ReceiveExactlyOnce: buffers can be allocated and SPI accesses succeed; both kinds of failure are in `RxRings`.
- RxRings.RxRing.HandleRxifOne: an error of the receive-offload queue counts the frame as handed over, as the code goes on after it.
- RamLayout.Rings.AllocRx: rings are a sequence of values; the kernel's allocation of each is one outcome.
- FrameCodec.TxObjBuf.FromSkb: the bytes sent are returned as a sequence; in the code they lie in the load buffer itself.
- SangeRings.SangeRing.Push: the C counters are ints, so the bytes of a run are bounded by 2^31.
- SangeLock.FramesAreWhole: flock succeeds; an ioctl that fails has no effect. What the bytes read contain is not modelled.
- SlcanPrograms.RunWriter: write() takes all bytes; its result is ignored by the code.
- DualTx.Sja1000.StartXmit: register writes of id, length and data to the slot are one assignment of the frame; the ESI bit, transmit size and byte counts are not modelled.
- DualTx.Sja1000.TransmitInterrupt: whether the interrupt means the frame is done (status, one-shot, forced resend) is decided before this section and not modelled, and neither is the forced abort command.
- DualTx.Sja1000.Start: chip registers and the bus-off work are not modelled; start is one step although it does not take the lock.
- FlashWrite.Ch36x.Write: flash id 0xBF uses another command and is left out; bus-level select and deselect succeed when write enable does, and the ready poll always ends with a ready chip.
- I2c.Bus.Write: the slave changes SDA only while SCL is low and stretches no clock; delays are not modelled.
- XpcFifo.RxFifo.IoctlRx: at most one frame arrives during the wait; any number is covered by the Rlck steps of the transition system.
- Flash erase, which does not cover the last sector of an unaligned range, and flash read.
- The second copy of ring and parser in sange_can.c, the one-deep transmitter of mcp251x.c, and the other SUNIX drivers.
- Probe, remove, suspend, procfs, sysfs, timing registers, statistics and user interfaces: they would only add easy members.

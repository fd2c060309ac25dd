# SAA7231 driver model

A Dafny model of the SAA7231 PCI Express bridge driver and of the code that
sits on it: the transport-stream DMA pipeline, the I2C engine, the LGS8GXX
demodulator, interrupt dispatch, the clock unit, the EDID walk and the shared
tuner instances. `dafny verify dfyconfig.toml` checks all of it.

Registers are maps or sequences the methods read and write; a device that
answers reads is an arbitrary function from the number of the read and the
register to a value, so every statement about a polled register holds for all
devices.
Methods follow the C functions step by step and are proved against functions
on values; the lemmas are about those functions and about all runs of them.

| file | what it models |
|---|---|
| Ring.dfy | the buffer ring (saa7231_ring.c) and the bounded queue it refines |
| MmuRegisters.dfy | page-table-address registers and packed DMA addresses |
| TsStream.dfy | the event handler, the slot registers, session start and stop |
| Pipeline.dfy | DMA engine and event handler as two interleaved actors |
| PageTable.dfy | scatter list to page table |
| I2cCodec.dfy, I2cEngine.dfy | the words of a transfer and their decoder; the polled engine |
| IfFrequency.dfy, Firmware.dfy, LockSearch.dfy | LGS8GXX frequency, download and search |
| Interrupts.dfy | vector registration and dispatch |
| ClockUnit.dfy | output-clock registers and their shadow |
| Edid.dfy | finding the source physical address |
| TunerInstances.dfy | sharing of tuner instances |
| Arithmetic.dfy, Basics.dfy, Lgs8gxx.dfy | division facts used by name; options, errors and register files; the demodulators |

## The pipeline's environment

`Pipeline` makes these assumptions about the hardware, and no others:

- the engine fills block h through the page table it finds in slot h mod 8
  when the block begins, and takes the slots in order from 0 after a session
  start;
- it does not begin block n + 8 before handler call n is over;
- there is one handler call per block. In `strict` runs call n comes after
  block n is complete. The mask the driver enables, 0x1800
  (saa7231_ts2dtl.c:287), is the START_INT field (saa7231_s2d_reg.h:100-101),
  so the results that do not need it are also proved when call n only follows
  the beginning of block n.

Handler calls, engine steps, and feeds starting and stopping interleave in any
order within these rules. A session may begin at any position of the ring,
because starting one resets the slots but not the ring.

## Where the code is not what it seems

- The handler gives away the buffer it has just put into a slot. It is an
  eight-deep pipeline: that buffer was last filled eight blocks before. Later
  sessions begin badly, because starting one leaves the ring where it is:
  `Pipeline.FirstDeliveryIff` (example: `Pipeline.NotFirstBlock`) says when the first
  delivery is not block 0, `Pipeline.EarlyBlockIff` which of the first eight
  blocks are lost, and `Pipeline.StaleIff` (example: `Pipeline.OldDataAtFirstBuffer`)
  when data from before the session is delivered. `Pipeline.TornIff` (run:
  `Pipeline.TornExample`) says when a call would deliver the buffer under way.
- `saa7231_ts2dtl_acquire` always returns 0. When it fails before the slots
  are reset the feed starts all the same and the old session goes on; stopping
  only forgets that the clocks run.
- Disabling a vector clears its whole enable word (`Interrupts.EnabledIff`), so
  taking down one external adapter disables the other
  (`Interrupts.NeighbourDisabled`). Vector 0 is what an unused table entry
  names. Vector 52 is handled only when no lower vector is pending; skipped for
  one of the first word it stays pending (`Interrupts.DcsnStays`), skipped for
  one of its own word it is lost (`Interrupts.DcsnLost`). Internal adapters are
  registered with a null handler (saa7231_dvb.c:157-162), and their first
  interrupt ends in a fault (`Interrupts.InternalAdapterFaults`).
- The address of row 18 in `cgu_system_setup` lacks the shift of eight
  registers `saa7231_set_clk` applies. After initialisation that row never
  writes, for clock indexes 19 and 20 as well, so registers and shadow agree
  for all indexes (`ClockUnit.RunSteady`); `ClockUnit.BbadcRowIff` says when it
  would not be harmless.
- Turning a clock domain off twice writes an all-zero word and turns it on
  again (`ClockUnit.OffDisablesIff`, example: `ClockUnit.SecondReleaseEnables`). Only
  `saa7231_disable_clocks` could do it, and no code of this repository calls it.
- A page table built from a first element with an offset counts its pages by the
  length alone and can miss the last one (`PageTable.LastByteIff`, example:
  `PageTable.LastByteMissed`). The skip test there adds a signed and an unsigned
  number: an offset argument overdrawn on the first element wraps, and the later
  pages are lost (`PageTable.LaterPagesIff`, example: `PageTable.LaterPageLost`).
  The driver passes elements without offsets and skips nothing, and then every
  page is listed (`PageTable.KeepsAll`).
- A transfer whose last message is empty sends no STOP
  (`I2cCodec.StopOnlyAtEnd`), and addresses of more than seven bits do not
  survive (`I2cCodec.RoundTripIff`).
- Tuner requests without an adapter, or for an address that does not fit the
  byte it is stored in, never share an instance (`TunerInstances.AloneIff`,
  examples: `TunerInstances.NullNeverShares`, `TunerInstances.WideNeverShares`).

## Model

| member | source | states |
|---|---|---|
| `Ring.WriteSoundIff` | saa7231_ring.c:59-83 | A write keeps tail = (head + count) mod size exactly when the ring was not full (one-buffer rings apart, where it always does). |
| `Ring.ReadSoundIff` | saa7231_ring.c:42-57 | A read keeps the ring sound exactly when it was not empty; otherwise the unsigned count wraps. |
| `Ring.RefinesQueue` | saa7231_ring.c:42-83 | For every size and every run of guarded reads and writes the ring is a bounded FIFO queue: buffers are read in the order written, the writes walk round the buffers, and count is what is written and not read. |
| `Ring.PerformQueues` | saa7231_ring.c:42-83 | One guarded operation keeps the queue invariant. |
| `Ring.BufferRing.constructor` | saa7231_ring.c:86-103 | A new ring is empty and stands at buffer 0. |
| `Ring.BufferRing.Reinit` | saa7231_ring.c:105-111 | Back to the state of a new ring of the same size. |
| `Ring.BufferRing.Write` | saa7231_ring.c:59-83 | Returns the buffer at the tail; the counters become those of the specification, overflow included. |
| `Ring.BufferRing.Read` | saa7231_ring.c:42-57 | Returns the buffer at the head; the counters become those of the specification, underflow included. |
| `MmuRegisters.NamedMacrosAgree` | saa7231_mmu_reg.h:41-75 | The named slot macros used at session start and the indexed macro used by the handler give the same addresses. |
| `MmuRegisters.PtaCollisionIff` | saa7231_mmu_reg.h:35-85 | Exactly when two slot registers coincide; below slot 8 the address is injective in channel, slot and half. |
| `MmuRegisters.HalfAfterWrite` | saa7231_mmu_reg.h:28-85 | One register write moves its own register and no other slot half of any channel; a configuration write moves none. |
| `MmuRegisters.SlotAfterPair` | saa7231_ts2dtl.c:361-362 | The two writes of a slot read back as the 64-bit table address and move no other slot of any channel. |
| `MmuRegisters.ChannelsIndependent` | saa7231_ts2dtl.c:359-399 | However single register writes of several channels interleave, each channel's eight slots end as if only its own writes had been made. |
| `MmuRegisters.HandlersApart` | saa7231_ts2dtl.c:347-407 | Two handlers' writes on different channels, interleaved at any register write, leave each channel's slots as its own handler alone does. |
| `MmuRegisters.DmaAddrFields` | saa7231_dtl.h:24-32 | INDEX recovers the slot DMAADDR packed, and the other three fields come back too. |
| `MmuRegisters.PackedChannel` | saa7231_dtl.h:24-32 | The channel packed into a DMA address is the one whose slots the stream programs, at 0x400 + 0x40 (port + 1) + 8 slot. |
| `TsStream.Stream.constructor` | saa7231_ts2dtl.c:486-580 | After initialisation the slots hold buffers 0 to 7, the ring is empty and nothing runs. |
| `TsStream.Stream.InitPtables` | saa7231_ts2dtl.c:47-86 | The slot registers at 0x440 + 0x40 port + 8 slot hold the tables of buffers 0 to 7, the configuration register at 0x84 + 4 port holds 7, the write index moves past the last slot, the ring stays, no other port's slot moves. |
| `TsStream.Stream.SetBuffer` | saa7231_ts2dtl.c:347-407 | The slot's registers take the buffer's table, an index above 7 changes nothing, no other port's slot moves. |
| `TsStream.Stream.EventHandler` | saa7231_dvb.c:65-151 | One interrupt is exactly the pipeline step: slot refilled, buffer handed on; no other port's slot moves. |
| `TsStream.InterruptsApart` | saa7231_dvb.c:65-151 | The register writes of interrupts on two different ports may interleave at any write: each port's slots end as its own interrupt leaves them. |
| `TsStream.BothInterrupts` | saa7231_dvb.c:65-151 | Of two streams on different ports of one MMU, each interrupted, each takes its own pipeline step and finds its own tables in its slots. |
| `TsStream.AcquireBeside` | saa7231_ts2dtl.c:231-273 | A session starting on one port leaves the stream on another port as it was, slots included. |
| `TsStream.Stream.Acquire` | saa7231_ts2dtl.c:231-273 | The result is 0 whatever fails; slots are reset exactly when the parameters are usable and the clocks ran or could be activated. |
| `TsStream.Stream.Start` | saa7231_ts2dtl.c:275-293 | The stream is marked running. |
| `TsStream.Stream.Stop` | saa7231_ts2dtl.c:337-345 | Only the mark that the clocks run goes; slots, ring and engine are left. |
| `TsStream.Adapter.StartFeed` | saa7231_dvb.c:266-300 | Only the first feed can start a session, and then the stream runs, with its clocks if they could be had; the result is the number of feeds even when the start failed. |
| `TsStream.Adapter.StopFeed` | saa7231_dvb.c:302-334 | Feeds are counted down; slots and ring are never touched, the clock mark goes with the last feed. |
| `Pipeline.InitialInv` | saa7231_ts2dtl.c:486-580 | The state after initialisation satisfies the pipeline invariant. |
| `Pipeline.BeginKeeps` | saa7231_ts2dtl.c:347-407 | Beginning a block keeps the invariant: no buffer still owed to the demultiplexer is overwritten. |
| `Pipeline.CompleteKeeps` | saa7231_ts2dtl.c:347-407 | Completing a block, into the buffer latched when it began, keeps the invariant. |
| `Pipeline.HandleInPlace` | saa7231_dvb.c:77-105 | Handler call n on any ring position takes the ring's next buffer, puts it into slot n mod 8 and delivers it, leaving the ring empty. |
| `Pipeline.InterruptKeeps` | saa7231_dvb.c:77-105 | A handler call keeps the invariant and its delivery is the right one. |
| `Pipeline.FeedKeeps` | saa7231_dvb.c:266-334 | Feeds starting, failing to start and stopping keep the invariant; a new session begins at the ring's present position. |
| `Pipeline.RunKeeps` | saa7231_dvb.c:77-105 | Every interleaving of engine, handler and feeds keeps the invariant. |
| `Pipeline.SteadyDelivery` | saa7231_dvb.c:77-105 | In every session of every run, whatever the ring position, call n >= 16 delivers the buffer holding exactly block n - 8, and the first 16 calls deliver what is worked out for them. |
| `Pipeline.ExactlyOnceInOrder` | saa7231_dvb.c:77-105 | Every block from 8 on is delivered whole, once, by call h + 8 and no other. |
| `Pipeline.TornIff` | saa7231_dvb.c:80-104 | Exactly when a call would deliver the buffer the engine is filling: only for one of the first eight blocks, never from the ninth call on. |
| `Pipeline.SlotsHoldLastEight` | saa7231_dvb.c:80-104 | After eight calls the slots hold eight different buffers, the last eight taken from the ring; the ring is empty between calls. |
| `Pipeline.NoDeadlock` | saa7231_dvb.c:77-105 | In every reached state one of the two actors can go on, and which one. |
| `Pipeline.FirstDeliveryIff` | saa7231_ts2dtl.c:67-84 | With handlers after their block a session begins with block 0 exactly when the ring stood at its first buffer. |
| `Pipeline.StaleIff` | saa7231_dvb.c:77-105 | Exactly when a call delivers data from before the session: one of the first 16, on a buffer filled before, unless it is one of the first eight buffers and the engine has begun it. |
| `Pipeline.EarlyBlockIff` | saa7231_ts2dtl.c:67-84 | Block h of the first eight is delivered exactly when it is complete by the call that comes to its buffer; with handlers after their block that always holds for a session begun at the first buffer or past buffer h, and with the engine no further ahead only then. |
| `Pipeline.NotFirstBlock` | saa7231_ts2dtl.c:67-84 | A run whose second session begins with something else than block 0. |
| `Pipeline.OldDataAtFirstBuffer` | saa7231_ts2dtl.c:67-84 | A run whose second session begins at the first buffer and still delivers old data at call 8. |
| `Pipeline.TornExample` | saa7231_dvb.c:80-104 | A run in which the first call would deliver the buffer the engine is filling. |
| `Pipeline.SecondSession` | saa7231_ts2dtl.c:231-273 | After a session of any k calls the next one begins at ring position k mod 16 over what the first left. |
| `Pipeline.FilledIsBlocks` | saa7231_dvb.c:77-105 | A log of the first session's shape, without the blanks, is the block sequence. |
| `Pipeline.FirstSession` | saa7231_dvb.c:77-105 | In the first session calls 0 to 7 deliver blocks 0 to 7, calls 8 to 15 buffers never filled, then blocks 8, 9, and so on; without the blanks the demultiplexer sees the block sequence. |
| `PageTable.StoreEntry` | saa7231_dmabuf.c:188-189 | The two 32-bit halves written are entry k; the entries before it stay. |
| `PageTable.EntryOfHalves` | saa7231_dmabuf.c:188-189 | The low word of an entry comes first, the high word second, each 32 bits. |
| `PageTable.OnePage` | saa7231_dmabuf.c:180-193 | One pass of the inner loop, with its unsigned test, skips a page or stores it as the next entry. |
| `PageTable.FillSegment` | saa7231_dmabuf.c:180-193 | The inner loop lists the pages of one segment it does not skip, and leaves so much of the offset. |
| `PageTable.FillList` | saa7231_dmabuf.c:172-194 | The outer loop lists the kept pages of the scatter list, in order. |
| `PageTable.SkipStops` | saa7231_dmabuf.c:182-185 | Once a page of an element is not skipped, no further one of it is. |
| `PageTable.SkipClosed` | saa7231_dmabuf.c:182-185 | The pages of an element skipped are as many as the offset and the element's own span together, read as an unsigned 32-bit number. |
| `PageTable.SgPageFill` | saa7231_dmabuf.c:155-199 | For any offset argument, and with a first offset too: the table lists the pages the unsigned test keeps, in order, then repeats the last one to its end; the later pages are those meant exactly when nothing was overdrawn on the first element or there are none. |
| `PageTable.KeptWithoutOffsets` | saa7231_dmabuf.c:172-194 | Without element offsets the pages kept are all past the whole pages the argument spans. |
| `PageTable.LaterPagesIff` | saa7231_dmabuf.c:172-194 | With a first offset the pages past the first element are those meant exactly when the offset left after it is not negative, or there are none; a negative one skips them all unless they are very many. |
| `PageTable.LaterPageLost` | saa7231_dmabuf.c:182-185 | An argument of 4000 and a first offset of 200 lose the second element's page. |
| `PageTable.KeptIsSuffix` | saa7231_dmabuf.c:172-194 | Where nothing is overdrawn the pages kept are all from some page on. |
| `PageTable.KeepsAll` | saa7231_dmabuf.c:248 | The driver's own call keeps every page. |
| `PageTable.PageAt` | saa7231_dmabuf.c:172-194 | The page list of a scatter list, at the page of byte x, gives the bus address the scatter list gives. |
| `PageTable.LastByteIff` | saa7231_dmabuf.c:180-193 | With a first offset the pages reach the last byte exactly when the length alone asks for as many pages as offset and length do. |
| `PageTable.LastByteMissed` | saa7231_dmabuf.c:180-193 | A page of data that begins 200 bytes into its page is listed without its end. |
| `PageTable.TranslatesLikeList` | saa7231_dmabuf.c:155-199 | Through such a table every byte is reached at the bus address the scatter list gives it, low and high words put together, at its distance from the first page not skipped, and every unused entry is the last page. |
| `I2cCodec.WordCount` | saa7231_i2c.c:288-338 | A transfer is one word a message and one a byte. |
| `I2cCodec.WordLayout` | saa7231_i2c.c:288-312 | As numbers: an address word is 256 + 2 address + direction, a data word its byte, or 0 for a read, and 512 more with the STOP. |
| `I2cCodec.UpToPrefix` | saa7231_i2c.c:288-338 | What is sent up to any point of a transfer is a prefix of its encoding. |
| `I2cCodec.DecodeWords` | saa7231_i2c.c:288-338 | With 7-bit addresses the decoder recovers every address, direction, length and written byte. |
| `I2cCodec.RoundTripIff` | saa7231_i2c.c:288-338 | Decoding the encoding gives the message list back exactly when every address has seven bits. |
| `I2cCodec.StopOnlyAtEnd` | saa7231_i2c.c:305-309 | A word carries the STOP exactly when it is the last and the last message has data. |
| `I2cEngine.RoomBit` | saa7231_i2c_reg.h:37-48 | Room is bit 6 of the status. |
| `I2cEngine.BusyBits` | saa7231_i2c.c:78 | A busy transmitter is bit 7 or bit 11. |
| `I2cEngine.DataBits` | saa7231_i2c.c:79 | Data is there when bits 4 and 10 are clear. |
| `I2cEngine.IdleBits` | saa7231_i2c.c:98-195 | The reset wants bit 0, 2 or 3 set. |
| `I2cEngine.I2cBus.HwInit` | saa7231_i2c.c:98-195 | Every result and read count of a reset, from what the reads showed. |
| `I2cEngine.I2cBus.AwaitFree` | saa7231_i2c.c:203-222 | Waiting ends with a status read that shows the FIFO free, a failed reset, or five rounds of a busy read and a reset that succeeded, read by read. |
| `I2cEngine.I2cBus.Send` | saa7231_i2c.c:197-243 | On success the word was pushed and then seen to leave by the first status read that showed room; on an error either a reset failed and nothing was pushed, or it was pushed and 1000 polls never showed room; at most 1516 reads. |
| `I2cEngine.I2cBus.Recv` | saa7231_i2c.c:245-267 | The word is the RX_FIFO read right after the first status that shows data; an error means 100 status polls without; at most 101 reads. |
| `I2cEngine.StoredStep` | saa7231_i2c.c:319-329 | One more received word changes one byte of memory, whichever messages' buffers it lies in. |
| `I2cEngine.StoredIsFilled` | saa7231_i2c.c:319-329 | A read into a buffer no other read overlaps ends with its own bytes, in order. |
| `I2cEngine.LowByte` | saa7231_i2c.c:327 | A byte buffer takes the low eight bits of a received word. |
| `I2cEngine.StoredByte` | saa7231_i2c.c:319-329 | Byte j of a read no other read overlaps is the low eight bits of the word received for it. |
| `I2cEngine.BytesReceived` | saa7231_i2c.c:319-329 | The same of every such read once all words are in. |
| `I2cEngine.StoredUntil` | saa7231_i2c.c:319-329 | A byte no read so far covers keeps what it held. |
| `I2cEngine.SentAsGiven` | saa7231_i2c.c:302-312 | A write whose buffer no earlier read overlaps goes out as it was given. |
| `I2cEngine.SentStays` | saa7231_i2c.c:302-329 | A word received for message i changes nothing sent up to it. |
| `I2cEngine.I2cBus.Push` | saa7231_i2c.c:296-317 | Sending the next word of the encoding goes one word on, or gives up with a prefix sent and a stuck device. |
| `I2cEngine.I2cBus.Take` | saa7231_i2c.c:319-329 | Receiving a byte goes one byte on, or gives up with the bytes so far and a stuck device. |
| `I2cEngine.I2cBus.OneByte` | saa7231_i2c.c:302-330 | One pass of the inner loop. |
| `I2cEngine.I2cBus.OneMessage` | saa7231_i2c.c:288-331 | One pass of the outer loop. |
| `I2cEngine.I2cBus.Xfer` | saa7231_i2c.c:269-340 | For any messages, their buffers overlapping or not: on success exactly the encoding of the messages as they stand when their turn comes was pushed, each word seen to leave before the next, and every byte of a read no other read overlaps is the low eight bits of its own received word; an error comes only from a device whose last answers were stuck, with prefixes sent and received; at most 1 + 1516 (num + sum of len) + 101 (sum of read len) register reads. |
| `I2cEngine.WholeTransfer` | saa7231_i2c.c:288-338 | With 7-bit addresses and reads that overlap no other message, decoding what a successful transfer pushed gives every message back as it was given, and each byte of every read is the low eight bits of the word received for it. |
| `IfFrequency.FrequencyUnit.SetIfFreq` | lgs8gxx.c:142-176 | The four byte registers from 0x08, or 0x09, are the 32-bit phase, least significant byte first, and no other register changes. |
| `IfFrequency.FrequencyUnit.ReadWord` | lgs8gxx.c:190-195 | Reading from the top address down puts the four bytes together. |
| `IfFrequency.FrequencyUnit.GetAfcPhase` | lgs8gxx.c:178-202 | The frequency is the phase in the four byte registers from 0x20, or 0x45, times the clock over 2^32. |
| `IfFrequency.PhaseModulo` | lgs8gxx.c:142-160 | The phase is the quotient of (f mod clk) 2^32 by clk, below 2^32; only f modulo the clock counts. |
| `IfFrequency.PhaseZero` | lgs8gxx.c:142-160 | Without a clock, or without a frequency, the phase is 0. |
| `IfFrequency.AfcReadsBack` | lgs8gxx.c:142-202 | The programmed phase reads back as f mod clk when clk divides (f mod clk) 2^32, and as one less otherwise. |
| `Firmware.DownloadPort.SendByte` | lgs8gxx.c:608-613 | One pass of the loop stores one byte at its 16-bit address. |
| `Firmware.DownloadPort.Download` | lgs8gxx.c:603-616 | Every address ends with the last image byte sent to it, and one never addressed keeps what it had; images of any size. |
| `Firmware.LastSentTo` | lgs8gxx.c:608-613 | Which byte of an image is the last to go to an address. |
| `Firmware.HoldsImage` | lgs8gxx.c:603-616 | An image of at most 65536 bytes is held exactly, at addresses 0 to size - 1, the rest as before. |
| `LockSearch.MissesExact` | lgs8gxx.c:101-116 | Every read before the count misses, and the next one hits unless the tries have run out. |
| `LockSearch.TrailUnique` | lgs8gxx.c:358-396 | Which attempts lock and where each ends follows from the demodulator's answers, in one way. |
| `LockSearch.LocksMeans` | lgs8gxx.c:315-396 | By the status bits read: an attempt that locks had at most 39 acquisition reads that miss, one that hits, at most 19 detection reads that miss and one that hits, its last; one that does not had 40 acquisition reads that miss, or one that hits and then 20 detection reads that miss. |
| `LockSearch.LocksOrFails` | lgs8gxx.c:358-396 | No attempt does both, and it locks at one read only. |
| `LockSearch.MadeExplained` | lgs8gxx.c:416-440 | The attempts of the plan follow one another read by read, all failing by their status bits but the one that locks. |
| `LockSearch.PlanOfRound` | lgs8gxx.c:416-440 | Each round is 945 and 420 in both carrier modes, then 595 in the second. |
| `LockSearch.GuardCodes` | lgs8gxx_priv.h:42-45 | The register codes and lengths of the guard intervals, and the reads made to set the mode and to program an attempt. |
| `LockSearch.FieldBits` | lgs8gxx.c:371-379 | Which bits the guard interval, carrier mode, detection bit and parameters are, and that setting a field leaves the other bits. |
| `LockSearch.DetectedBits` | lgs8gxx.c:443-451 | The detected parameters are register 0xA2, or the low six bits of 0x1F. |
| `LockSearch.RelaidBits` | lgs8gxx.c:481-487 | For the LGS8913 bits 5 and 6 become 3 where bit 5 was clear and 2 where it was set; the others stay. |
| `LockSearch.Demodulator.WaitRegMask` | lgs8gxx.c:101-116 | Stops at the first hit, says whether there was one, reads no more after it, sleeps once for each miss. |
| `LockSearch.Demodulator.WaitCaLock` | lgs8gxx.c:315-334 | Locked exactly when a poll of 0x13 or 0x4B under the product's mask hits within 40 tries, and the reads made are that poll's. |
| `LockSearch.Demodulator.IsAutodetectFinished` | lgs8gxx.c:336-356 | Finished exactly when a poll of 0x1F or 0xA4 under the product's mask hits within 20 tries, and the reads made are that poll's. |
| `LockSearch.Demodulator.AutolockGi` | lgs8gxx.c:358-396 | An attempt locks exactly when the polls right after its programming both hit, makes no other reads, and leaves the guard interval and carrier mode asked for programmed. |
| `LockSearch.Demodulator.Search` | lgs8gxx.c:416-440 | The attempts made are those of the plan, one right after the other, up to the first that locks, or all ten. |
| `LockSearch.Demodulator.SearchExplained` | lgs8gxx.c:416-440 | The same, and by the status bits read in each attempt. |
| `LockSearch.Demodulator.AutoDetect` | lgs8gxx.c:398-466 | Against any demodulator: the planned attempts, each beginning where the one before ended, up to the first that locks and none after it; by the status bits read, each failed for want of a hit and the last had both, its detection hit in the read just before the parameters are read; reports its guard interval, which is still programmed; -1 exactly when all ten fail; sleeps at most 22510 ms. |
| `LockSearch.Demodulator.Apply` | lgs8gxx.c:481-499 | The detected parameters are in the product's registers, with the LGS8913's other interleaver code. |
| `LockSearch.Demodulator.SetModeManual` | lgs8gxx.c:251-293 | Manual mode turns the detection bit off and leaves the applied parameters in place. |
| `LockSearch.Demodulator.AutoLock` | lgs8gxx.c:468-515 | The guard interval recorded is that of the first attempt that locked, and the parameters left applied are those in the read after its polls; 945 and zero when none did; detection ends off. |
| `Interrupts.EntryIff` | saa7231_msi.c:210-247 | Over every run the table entry of a vector is what its last add put there, unless that had a handler and a removal came after it. |
| `Interrupts.RemovesIff` | saa7231_msi.c:231-247 | A removal finds a handler exactly when the last call for its vector was an add with one. |
| `Interrupts.RegisteredIff` | saa7231_msi.c:210-247 | Over every run a vector other than 0 is registered exactly when some add of it was not followed by a removal of it that found a handler. |
| `Interrupts.HandlersCount` | saa7231_msi.c:210-247 | The counter is the number of adds less the removals that found a handler. |
| `Interrupts.EnabledIff` | saa7231_msi.c:143-247 | Over every run a vector is enabled exactly when some add of it was not followed by a removal, of a vector of its 32-vector word, that found a handler. |
| `Interrupts.EntriesNameThemselves` | saa7231_msi.c:210-247 | Every table entry is unused or names itself, and every enabled vector is registered. |
| `Interrupts.AddOnlyEnabled` | saa7231_msi.c:210-228 | While nothing is removed the enabled vectors are those added, and but for vector 0 those registered; the counter counts the calls. |
| `Interrupts.RemovedNotCalled` | saa7231_drv.c:569-588 | After a removal that found a handler the dispatch does not call the vector, whatever is pending, until it is added again. |
| `Interrupts.ReachedIff` | saa7231_drv.c:569-588 | Every pending vector is reached, vector 52 only if no lower one is pending. |
| `Interrupts.EdgeCodes` | saa7231_msi.h:34-36 | Rising is 1, falling 2, any 3. |
| `Interrupts.LeftAtEnd` | saa7231_drv.c:567-590 | After a full dispatch only a skipped vector 52 is left pending, and only if it was skipped for a vector of the first word. |
| `Interrupts.DcsnLost` | saa7231_drv.c:576-584 | Vector 52 pending with vector 40 is neither handled nor left pending. |
| `Interrupts.DcsnStays` | saa7231_drv.c:576-584 | Vector 52 pending with vector 3 is not handled and stays pending. |
| `Interrupts.InternalAdapterFaults` | saa7231_dvb.c:512-525 | The first interrupt of an internal adapter, registered without a handler, faults. |
| `Interrupts.NeighbourDisabled` | saa7231_dvb.c:582-593 | Removing the first external adapter's vector disables the second's, which stays registered. |
| `Interrupts.IrqUnit.VectorCtl` | saa7231_msi.c:143-155 | Enabling adds one vector; disabling clears the vector's whole word. |
| `Interrupts.IrqUnit.SetupVector` | saa7231_msi.c:157-189 | The vector's edge field is set and the vector enabled. |
| `Interrupts.IrqUnit.AddIrqEvent` | saa7231_msi.c:210-228 | The edge is set, the entry names its vector, that vector alone is enabled besides those that were, the counter goes up; pending bits stay. |
| `Interrupts.IrqUnit.RemoveIrqEvent` | saa7231_msi.c:231-248 | Nothing without a handler; otherwise the entry is unused again and its whole word disabled. |
| `Interrupts.IrqUnit.HandleIrq` | saa7231_drv.c:545-593 | Unless nothing or everything is pending, the handlers called are exactly the pending registered vectors, each once, ascending, vector 52 only if no lower one is pending; a registered vector without a handler is where it faults; and which bits stay pending. |
| `Interrupts.IrqUnit.OneBit` | saa7231_drv.c:569-588 | One pass of the inner loop goes from the vectors below n to those below n + 1. |
| `ClockUnit.SelectionInRange` | saa7231_cgu.c:279-300 | Whatever a preset asks of a domain is an alternative with a divider, and the three domains behind the register gap are never asked for. |
| `ClockUnit.OutWordFields` | saa7231_cgu_reg.h:25-34 | Source, divider and enable bit come back out of an output-clock word. |
| `ClockUnit.WordsByValue` | saa7231_cgu_reg.h:25-34 | Output-clock words by value: source 15 divided by 8, a clock turned off, the word written for PCC. |
| `ClockUnit.RegisterTable` | saa7231_cgu_reg.h:83-113 | The register of every domain by its number: 0x58 to 0x90, then 0xB4 to 0xC0. |
| `ClockUnit.Alternatives` | saa7231_cgu.h:217-220 | The alternative of a mode is the other one of its kind, its clock index the number of its bit. |
| `ClockUnit.SetClkSets` | saa7231_cgu.c:319-344 | A domain with another frequency takes the first alternative of the table: its source and divider in use, enabled; the low divider, enabled, at low; the low divider, disabled, when off. |
| `ClockUnit.SetClkInStep` | saa7231_cgu.c:302-355 | Setting a clock keeps every domain in step that was, puts a domain that was off in step, leaves registers and shadow of the others, and turns a clock off only at the low divider and only when asked to. |
| `ClockUnit.RowSteady` | saa7231_cgu.c:740-777 | One row of the set-up keeps registers and shadow in step and the clocks running, the row with the missing shift because it does not write. |
| `ClockUnit.ApplySteady` | saa7231_cgu.c:959-1077 | One activation or release keeps registers and shadow in step and the clocks running. |
| `ClockUnit.RunSteady` | saa7231_cgu.c:302-355 | Over every run of activations and releases, every clock index included, source and divider in the registers equal the shadow for all domains but PCC, and no clock but EXT_CA's is off, the transport output clock's apart, which is off only at the low divider. |
| `ClockUnit.RowAddressIff` | saa7231_cgu.c:345-348 | The row address drives the right register exactly for the domains before the gap. |
| `ClockUnit.BbadcRowIff` | saa7231_cgu.c:766-771 | For the base-band ADC row that is harmless exactly while the domain already runs as the row would set it. |
| `ClockUnit.RowsDone` | saa7231_cgu.c:740-777 | After the set-up loop the shadow of every managed domain the preset names is the table's entry. |
| `ClockUnit.ActivationPrograms` | saa7231_cgu.c:1010-1077 | An activation that goes through, on the port's own index or on the alternative path, leaves every managed domain its preset names enabled and running from the table's source and divider, in the register, and the port active with the setting gone by. |
| `ClockUnit.ActivationKeeps` | saa7231_cgu.c:1010-1077 | An active port, or one with no usable path, changes nothing, and an activation no register of a domain its preset does not name. |
| `ClockUnit.ReleaseIs` | saa7231_cgu.c:959-1008 | A release turns the transport output clock off when the last of its two ports goes, and changes nothing else. |
| `ClockUnit.OffDisablesIff` | saa7231_cgu.c:319-348 | Turning a domain off disables its clock exactly when it was not off already. |
| `ClockUnit.SecondReleaseEnables` | saa7231_cgu.c:959-1008 | Releasing the transport input port twice, the output port idle, turns their clock off and then on. |
| `ClockUnit.Unit.SetClk` | saa7231_cgu.c:302-355 | Writes register, shadow and frequency together, nothing for PCC; a domain with another frequency gets the source and divider of the first alternative in use, the low divider at low and off, disabled only when off, and one asked again gets 0; refuses exactly an unknown frequency other than the present one. |
| `ClockUnit.Unit.SystemSetup` | saa7231_cgu.c:702-780 | Loops over all 19 rows in order, each compared with the shadow the rows before it left. |
| `ClockUnit.Unit.BitNumber` | saa7231_cgu.c:1052-1053 | The loop counts the number of the bit. |
| `ClockUnit.Unit.Activate` | saa7231_cgu.c:1010-1077 | An active port changes nothing; an unusable index falls back to the alternative path; it fails exactly when there is none. |
| `ClockUnit.Unit.Disable` | saa7231_cgu.c:959-1008 | Releases the port, and turns the transport output clock off when its other port is idle. |
| `ClockUnit.Unit.Init` | saa7231_cgu.c:365-466 | Whatever the registers held, initialisation leaves every domain but PCC and EXT_CA enabled and running from the first alternative of the table, EXT_CA off at the low divider, PCC as written directly, registers and shadow in step. |
| `Edid.WalkChain` | include/media/cec.h:520-536 | The walk of one extension block finds its first matching data block, or there is none. |
| `Edid.GetSpaLocation` | include/media/cec.h:487-539 | For any bytes: in bounds and terminating, 4 past the first matching data block in block order, then chain order; 0 exactly when there is none; otherwise at most size - 2. |
| `Edid.LinkOfPrinted` | include/media/cec.h:520-536 | In an extension block made of data blocks the chain visits exactly their headers. |
| `Edid.PrintedMatchIff` | include/media/cec.h:520-536 | There the search matches exactly the data blocks that carry an address, and what it locates is that block's two address bytes. |
| `Edid.MatchIff` | include/media/cec.h:490-536 | A match, by the bytes alone and on any bytes: a counted extension of whole blocks with tag 2, revision 3 and data blocks, and a link before their end whose block is a vendor block of five bytes or more, 03 0C 00, that ends within them. |
| `TunerInstances.RequestKeeps` | tuner-i2c.h:119-148 | A request, granted or not, keeps counts equal to holds and handles apart. |
| `TunerInstances.ReleaseKeeps` | tuner-i2c.h:150-162 | A release of a held instance keeps them too, and takes the instance off the list with its last hold. |
| `TunerInstances.ListedWhileHeld` | tuner-i2c.h:119-162 | Over every run, failed allocations included: listed exactly while held, count equal to the outstanding holds. |
| `TunerInstances.RequestUnshared` | tuner-i2c.h:119-148 | A request for an address of one byte keeps at most one instance for a device. |
| `TunerInstances.OneInstancePerDevice` | tuner-i2c.h:119-162 | Over every run of requests for addresses of one byte, requests without an adapter included: two listed instances with the same adapter and the same address are one. |
| `TunerInstances.RequestReturnsHolds` | tuner-i2c.h:109-148 | The result is the number of holds on the granted instance; it is 0 exactly when nothing matches and the allocation fails. |
| `TunerInstances.RequestGrants` | tuner-i2c.h:119-148 | What is granted is listed for the adapter asked for and the address cut to its byte, with the result as its count; nothing joins the list where there was one, and the others stay. |
| `TunerInstances.ReleaseUndoesRequest` | tuner-i2c.h:119-162 | Giving back what was just granted restores the list and the holds. |
| `TunerInstances.AloneIff` | tuner-i2c.h:119-148 | A granted instance is the only one with its adapter and stored address exactly when there is an adapter and the address fits its byte, or there was none such before. |
| `TunerInstances.NullNeverShares` | tuner-i2c.h:119-148 | Two requests without an adapter end with two instances at one address. |
| `TunerInstances.WideNeverShares` | tuner-i2c.h:15-16 | Two requests for an address of 256 or more end with two instances at one stored address. |
| `TunerInstances.TunerList.Request` | tuner-i2c.h:119-148 | The first listed instance that serves the request gets one more hold, else a new one, its address cut to a byte, is appended unless the allocation fails; the result is its count. |
| `TunerInstances.TunerList.Release` | tuner-i2c.h:150-162 | One hold less on that instance, which leaves the list exactly when none is left; the result is what is left. |

## Left out

- Pipeline: an engine that laps the handler, a missed or doubled interrupt, and an engine that starts at another slot than 0 after a reset are outside the assumptions above.
- Pipeline.FirstSession: proved for handlers that follow their whole block; when they only follow its beginning, one of the first eight blocks can be delivered in part (`Pipeline.TornIff` says when).
- TsStream.Stream.SetBuffer: the block start address written after the table is not recorded, because it is the same packed value each time; the buffer offset inside it is taken as 0, and the read of it at `dmabuf[index]`, which goes past the buffers for late ones, is not modelled. The function's result, unset on the good path and unused, is not modelled either.
- TsStream.Stream.EventHandler: `get_buffer` is left out; the index it finds is not used by the handler, and its error counters do not influence anything here. The write index is unbounded.
- TsStream.Stream.Start: the channel, interrupt and control register writes that start the engine are not recorded; the engine's own rules are those above.
- TsStream.Stream.Acquire: locking, among it the unlock without a lock when the parameters are refused. What the clocks and the page-table preload answer are parameters.
- TsStream.Adapter.StopFeed: more stops than starts are not kept out; the feed count then goes below zero as in the source.
- PageTable.SgPageFill: lengths and page counts are unbounded, so the loop's own index arithmetic never overflows here; asks for what the function checks with BUG_ON (an address that is page-aligned and non-zero once the offset is taken off, offsets in the first element only) and for a list that fits the 512 entries.
- PageTable.TranslatesLikeList: every element but the last ends on a page boundary, and the first one's data is covered (`PageTable.LastByteIff`).
- I2cEngine.I2cBus.HwInit: the constant values it writes (control, clock divisors, interrupt masks) are not recorded.
- I2cEngine.I2cBus.Xfer: the buffers lie in one memory, as they do in the source; the control register's GO bit is read but its value not recorded.
- I2cCodec: address and length fields are not limited to 16 bits.
- IfFrequency.FrequencyUnit.SetIfFreq: the register bus is taken to work; the source ignores its errors here and in the download.
- Firmware: what else the download routine does (reset, mode registers, start of the firmware, pacing).
- LockSearch.Demodulator.SetModeAuto: of the mode registers only the detection bit is stated, here and in SetModeManual.
- LockSearch.Demodulator.SetModeManual: see SetModeAuto.
- LockSearch.Demodulator.WaitRegMask: a read that fails on the bus leaves the source's last byte in place; here every read answers some byte, which may be that one.
- Interrupts.IrqUnit.HandleIrq: what the called handlers do, vectors that become pending meanwhile, and the bus-violation registers read for vector 52.
- Interrupts.IrqUnit.AddIrqEvent: descriptions, the other fields of the configuration register, and the out-of-range vector its check lets through by one.
- ClockUnit: the input-clock half of the set-up (no input clock is ever marked active, so it writes nothing), the set-up masks, PLLs, ADC clocks, and the conflict scan, which has no effect.
- ClockUnit.Unit.Activate: mapping a mode and stream port to a clock port; the port is a parameter and within range.
- ClockUnit.RunSteady: PCC, which is also written directly.
- Edid.GetSpaLocation: the size is not limited to 32 bits.
- TunerInstances: counts are unbounded; a handle is never reused, where the allocator may hand out a freed address again.
- Locking, sleeping (but for the counted milliseconds of the search), PCI probing, DVB registration, sysfs files, board tables, GPIO sequences, firmware loading by the bridge, and the diagnostic programs.
- saa7231_msi.c's MSI-X entry points, which do the same to a second table.
- saa7231_i2c_stock_20260903.c, saa7231_i2c_routeA_bak_20260901.c, lgs8gxx_nosrst.c and lgsmod/lgs8gxx.c, variants of the files modelled.
- The demodulator's status, SNR and strength readers.

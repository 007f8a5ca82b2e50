# A verified model of the Dante receive path and the H.26x stream code

This project models, in Dafny, the parts of the repository in which a packet or a NAL unit can be
lost, doubled, moved or damaged, and proves what happens to it:

- the RTP reorder element of the video coordinator: a ring of slots under a sixteen-bit counter,
  with overflow and timeout skipping and a table of numbers declared lost;
- the UDP source's own loss estimate, and the ring between its reader thread and the pipeline;
- the DEP context: period timestamps, the per-endpoint frame queues, the copy out of a shared ring
  while its writer goes on writing, and the worker's account of periods;
- the H.26x parser: incremental splitting, emulation prevention, Exp-Golomb reading, H.264 sequence
  parameter sets and access-unit aggregation;
- the converters between start codes and length prefixes in the H.264 and H.265 decoders and in the
  HLS sink, and the expansion of an HEVC configuration record;
- the session's registry of flows and the events it posts.

## How it is built

Each component has up to three layers. A **class or method** with the fields, arrays and loops of the
source (`ReorderElement`, `DepFifo`, `DepWorker`, `ReaderRing`, `NalParser`, `BitReader`, `SpsReader`,
`AuAggregator`, `LengthPrefixed`, `AnnexBToAvcc`, `HvccConfig`, `FlowRegistry`) is proved equal, call
by call, to a **step function** on values. The step functions are then related to a **simpler
description**: unbounded sequence numbers and a set of waiting ones for the ring, a plain queue for the
circular buffers, a list of NAL units for the byte streams, a map of open flows for the list. The
theorems about whole runs are about the step functions and their simpler descriptions.

| files | subject |
|---|---|
| `Words`, `Residues`, `Ranges`, `Subsequences`, `Circular`, `Grouping` | machine words and wrap-around, remainders, index ranges, subsequences, circular buffers, grouping of a list |
| `RtpHeader`, `ReorderRing`, `ReorderElement` | the reorder element as it is |
| `ReorderGate`, `ReorderAccounting`, `ReorderAdvance`, `ReorderLabels`, `ReorderNumbers` | which packets are let in, where each ends up, under which number it is sent, and that no number is passed uncounted |
| `ReorderUnwrapped`, `ReorderOrder`, `ReorderGuard`, `ReorderNarrow`, `ReorderEviction`, `ReorderStream`, `ReorderSorting`, `ReorderLateness` | the element over unbounded sequence numbers |
| `ReorderOvertaken`, `ReorderEvicted`, `ReorderSwitched`, `ReorderRepeat` | runs that show which hypotheses are needed |
| `LossEstimator`, `ReaderRing` | the UDP source |
| `DepTime`, `DepClock`, `DepRing`, `DepFifo`, `DepTransmit`, `DepReceive`, `DepStamps`, `DepWorker`, `DepPeriodTimes` | the DEP context |
| `StartCodes`, `NalSplitter`, `FormatDetection`, `NalParser`, `EmulationPrevention`, `AnnexBStream`, `BitReader`, `SequenceParameters`, `OrderCounts`, `HighProfile`, `SpsReader`, `AccessUnits`, `NalTypes`, `AuAggregator`, `ParserOutput` | the H.26x parser |
| `LengthPrefixed`, `AnnexBToAvcc`, `AvccRoundTrip`, `HvccConfig`, `RecordMistaken` | the converters |
| `FlowTrace`, `FlowReplies`, `FlowRegistry` | the session's flows |

`dafny verify dfyconfig.toml` checks everything.

## What turned out not to hold

- **Order of the reorder element.** A timeout skip goes to the nearest packet that has *timed out*, and
  can step over a nearer one that has not. A run in which no skip does (a guarded run) keeps every waiting
  packet in the window and emits in order (`ReorderOrder.EmittedInOrder`). A run keeps every waiting packet
  in the window after every event if and only if it is guarded (`ReorderGuard.RunGuardIsExact`). Every run
  does so if and only if the window is 1 or 2 (`ReorderNarrow.NeverOvertakesExactly`), and for every larger
  window `ReorderOvertaken.OvertakenPacket` is a run of four events that emits 0, 3, 2.
- **Eviction, and the comparison of the two loss counters.** A guarded run never evicts a waiting packet,
  and the element's gaps never exceed the source's estimate over an orderly stream, if and only if the window
  divides 65536 (`ReorderEvicted.NeverEvictsExactly`, `ReorderEvicted.NeverMoreExactly`). For every other
  window `ReorderEvicted.EvictedPacketIsMiscounted` is a run of four events in which a packet that came in
  time is evicted and counted as lost.
- **The table of lost numbers survives an SSRC switch.** For the numbers of the new stream from its first
  one on, "late" is exact all the same; for numbers before its first one the verdict is that of the marks
  found in the table when it began (`ReorderLateness.LateExactly`, `ReorderLateness.LeftFromBefore`).
  `ReorderSwitched.LeftoverMarkIsCounted` is a run in which such a mark is counted.
- **The last addition in the extrapolated period time is not checked for overflow.** The time given out is
  right unless a stable reading is so far away that the sum wraps and what is left of it fits
  (`DepTime.PeriodPtsIsExact`, which also says what comes out then; `DepTime.NanosecondsWrap` is an input).
- **Taking a torn copy back restores indices, not frames.** Whatever the writer does, the queue is unchanged
  if there was room for the period, and without room there is always a writer and a timing that changes it
  (`DepFifo.TornUnchanged`). Frames are handed out in order as long as no copy is taken back from a queue
  without room (`DepReceive.HandsOutInOrder`); `DepReceive.TornCopyRepeats` is a run in which one frame is
  then handed out twice.
- **End-of-stream flags depend on the cut into buffers** exactly if the last buffer is empty and the stream
  is length-prefixed and ends on a unit (`NalSplitter.FlagsAgreeExactly`, `NalSplitter.EmptyLastChunk`).
- **Length-prefixed input whose first length reads like something else.** For H.264 it is passed on as it is
  if the length reads like a start code (`LengthPrefixed.ConvertedExactly` says exactly when). For H.265 it
  is also taken for a configuration record if the length has 1 in its high byte; a first unit without a start
  code inside then never reaches the decoder as what it is (`RecordMistaken.ConvertedExactly265`,
  `RecordMistaken.ArrivesExactly`, `RecordMistaken.TakenForEmptyRecord`). Separable units can be relied on to
  arrive exactly if the first length reads neither way (`RecordMistaken.FirstLengthDecides`).
- **H.264 sequence parameter sets.** Monochrome pictures are cropped by twice the width that section 7.4.2.1.1
  of ITU-T H.264 says, and parameter sets that send a scaling list are refused: with picture order count type
  0 a set is read back exactly if it does neither (`SequenceParameters.SpsComesBack`). A cropping of 2^32
  samples or more wraps (`SequenceParameters.NothingLeftRefused`, `SequenceParameters.CropCanWrap`). The
  source reads a field behind the picture order count type
  whatever the type is, so only type 0 is always read as it was written (`OrderCounts.ReadBackExactly`):
  `OrderCounts.TypeOneMisreads` is a valid parameter set of type 1 that is read as another size,
  `OrderCounts.TypeTwoRefused` one of type 2 that is refused, and `OrderCounts.TypeTwoCanComeBack` one of
  type 2 that happens to be read back.
- **A stream whose format the parser is to find out** comes back if it has start codes, and with length fields
  can be relied on to come back exactly if the first four bytes do not read as a start code
  (`FormatDetection.StartCodesComeBack`, `FormatDetection.LengthsComeBack`,
  `FormatDetection.ComesBackExactly`).
- **A packet half a lap behind the newest reads as one far ahead.** `ReorderRepeat.FarRepeatBreaks` is a stream
  in order whose first packet is repeated after 40000 others: gaps are counted where nothing is missing.

Where comments and code differ, the model follows the code: the comment in `src/hls_sink.c` speaks of a
growth by one third in the worst case, and the proof shows that one quarter is the most
(`AnnexBToAvcc.ConvertedFits`).

## Model

| member | source | states |
|---|---|---|
| RtpHeader.ParseWritten | src/dante_video_coordinator.c:452-470 | a packet written from its parts (CSRC list, extension, payload) parses to its own sequence number and SSRC, and is refused if the SSRC is 0 |
| RtpHeader.PartsBack | src/dante_video_coordinator.c:452-470 | every packet that parses is put together again, byte for byte, from the parts found in it |
| RtpHeader.ParsesExactly | src/dante_video_coordinator.c:452-470 | the accepted packets are exactly the well-formed version-2, type-96 packets with a complete extension and a nonzero SSRC (RFC 3550, section 5.1) |
| ReorderRing.Drain | src/dante_video_coordinator.c:491-502 | emitting what is due terminates, because each emission empties a slot, keeps the shape of the ring and releases nothing |
| ReorderRing.Overflow | src/dante_video_coordinator.c:604-611 | the window-overflow loop terminates, with the forward distance as measure, and leaves the arriving number inside the window |
| ReorderRing.Nearest | src/dante_video_coordinator.c:504-519 | the scan finds a timed-out slot at the least forward distance, and never one at distance 65535 |
| ReorderElement.Reorder.constructor | src/dante_video_coordinator.c:680-691 | creation with a timeout in milliseconds and open: empty slots, a clear table, and an inactivity time of fifty timeouts |
| ReorderElement.Reorder.EmitHead | src/dante_video_coordinator.c:472-481 | emission sends the packet at the expected number, frees its slot and moves the counter on by one, wrapping |
| ReorderElement.Reorder.SkipHead | src/dante_video_coordinator.c:483-489 | a skip marks the expected number lost, counts one gap and moves the counter on |
| ReorderElement.Reorder.DrainReady | src/dante_video_coordinator.c:491-502 | the draining loop does what ReorderRing.Drain says |
| ReorderElement.Reorder.FindNearest | src/dante_video_coordinator.c:504-519 | the scanning loop over the slots computes ReorderRing.Nearest |
| ReorderElement.Reorder.SkipUntil | src/dante_video_coordinator.c:520-523 | the skipping loop marks and counts every number up to its target |
| ReorderElement.Reorder.SkipGapIfTimedOut | src/dante_video_coordinator.c:504-524 | a timeout skip changes the ring as ReorderRing.SkipGap |
| ReorderElement.Reorder.MakeRoom | src/dante_video_coordinator.c:604-611 | the overflow loop changes the ring as ReorderRing.Overflow |
| ReorderElement.Reorder.DropBehind | src/dante_video_coordinator.c:593-603 | a packet behind the expected number is late or old by the table, and clears its mark |
| ReorderElement.Reorder.StoreBuffer | src/dante_video_coordinator.c:612-624 | storing evicts whatever other packet the slot held, and clears the mark of the number |
| ReorderElement.Reorder.InsertBuffer | src/dante_video_coordinator.c:612-630 | a packet inside the window is a duplicate, or is stored and everything due is sent on |
| ReorderElement.Reorder.PlaceBuffer | src/dante_video_coordinator.c:589-631 | from the half-range test on, the method is the step function |
| ReorderElement.Reorder.ReleaseAll | src/dante_video_coordinator.c:576-579 | every waiting packet is let go, in slot order |
| ReorderElement.Reorder.AcceptBuffer | src/dante_video_coordinator.c:560-631 | the SSRC gate: lock, pass, refuse, or switch after inactivity; when the call fails, and when it counts as a sign of life of the stream |
| ReorderElement.Reorder.PushBuffer | src/dante_video_coordinator.c:526-632 | one push at the sink pad is one step of ReorderRing, whatever the buffer and the clock; it fails exactly if the depayloader refuses the SSRC, and sets the time of the last valid packet exactly if the packet is kept |
| ReorderGate.UnparseableIsLet | src/dante_video_coordinator.c:538-558 | a buffer without an RTP header is let go and counted, and changes nothing else |
| ReorderGate.ForeignExactly | src/dante_video_coordinator.c:560-575 | a parsed packet is let go as foreign, and then changes nothing, if and only if another SSRC is locked and the last valid packet is unknown or no longer ago than the inactivity time, on 64 bits |
| ReorderGate.TakesOver | src/dante_video_coordinator.c:570-588 | another SSRC after that time: every waiting packet is flushed and no other, the lock is the new SSRC, and the newcomer is sent at once and begins an epoch, or is refused by the depayloader |
| ReorderGate.PropertyErrorExactly | src/dante_video_coordinator.c:561-588 | the depayloader is the reason exactly for the first packet of an SSRC that it does not take; and the lock afterwards is the packet's own SSRC unless that came too soon |
| ReorderElement.Reorder.WatchdogDrain | src/dante_video_coordinator.c:634-642 | one watchdog pass is one step of ReorderRing |
| ReorderElement.Reorder.Close | src/dante_video_coordinator.c:660-675 | closing releases what waits and clears the counter |
| ReorderAccounting.PlaceMoves | src/dante_video_coordinator.c:589-629 | placing a packet adds it to exactly one place and moves no other packet out of the account |
| ReorderAccounting.SwitchMoves | src/dante_video_coordinator.c:576-581 | an SSRC switch turns every waiting packet into a released one |
| ReorderAccounting.AcceptAgrees | src/dante_video_coordinator.c:560-629 | after any accepted packet each discard counter equals the number of packets discarded for its reason |
| ReorderAccounting.ExactlyOnePlace | src/dante_video_coordinator.c:472-642 | over every run of pushes and watchdog passes, at any window size and any clock readings, each packet is in exactly one of: a slot, the output, the released packets with their reason; and every counter is exact |
| ReorderAccounting.ClosedAccount | src/dante_video_coordinator.c:472-675 | after close each packet was sent or released, exactly once |
| ReorderAdvance.EveryNumberCounted | src/dante_video_coordinator.c:472-642 | over every run, of any events and at any window: in each epoch the expected number is, on 16 bits, the epoch's first plus the packets sent since plus the gaps counted since |
| ReorderUnwrapped.DrainSimulates | src/dante_video_coordinator.c:491-502 | draining the ring is draining the set of waiting unbounded numbers |
| ReorderUnwrapped.NearestAgrees | src/dante_video_coordinator.c:504-519 | on 16-bit numbers the scan finds the first expired number of the unbounded stream |
| ReorderUnwrapped.SkipGapSimulates | src/dante_video_coordinator.c:504-524 | a guarded timeout skip on the ring is one on unbounded numbers |
| ReorderUnwrapped.AdvanceSimulates | src/dante_video_coordinator.c:604-611 | making room on the ring is advancing on unbounded numbers |
| ReorderUnwrapped.StoreSimulates | src/dante_video_coordinator.c:612-624 | storing in a slot is adding a number and removing those that share its slot |
| ReorderUnwrapped.InsertSimulates | src/dante_video_coordinator.c:612-629 | a packet inside the window does to the ring what it does to the set of waiting numbers |
| ReorderUnwrapped.BehindSimulates | src/dante_video_coordinator.c:593-603 | a packet behind is judged by the table as by the set of unbounded lost numbers, in every epoch and whatever the table held when it began |
| ReorderUnwrapped.PlaceSimulates | src/dante_video_coordinator.c:589-629 | one packet of an epoch does to the 16-bit ring what it does to the unbounded flow |
| ReorderOrder.RunFollows | src/dante_video_coordinator.c:526-642 | every guarded run, through any number of SSRC switches, is followed by an unbounded flow |
| ReorderOrder.EmittedInOrder | src/dante_video_coordinator.c:472-642 | over every guarded run, of any packets and through any SSRC switches, each occupied slot i holds a number congruent to i within the window; every packet sent was sent under the number in its own header; the numbers emitted in an epoch strictly increase; and the advance of the counter is emitted plus newly counted gaps |
| ReorderOrder.SkipToTotal | src/dante_video_coordinator.c:520-523 | skipping to a target counts exactly the distance, and touches no slot |
| ReorderOrder.GuardIsExact | src/dante_video_coordinator.c:504-524 | one timeout skip keeps the slots inside the window if and only if no waiting packet is nearer than its target |
| ReorderGuard.OvertakenStays | src/dante_video_coordinator.c:504-524 | a packet that a timeout skip steps over is still outside the window after the drain that follows |
| ReorderGuard.RunGuardIsExact | src/dante_video_coordinator.c:504-642 | over every run of any packets: after each event every waiting packet is in its slot and inside the window, if and only if no timeout skip ever steps over a waiting packet |
| ReorderLabels.RunLabelled | src/dante_video_coordinator.c:472-642 | over every run, of any events, whatever waits in a slot or was sent under a number is the buffer whose own header holds that number |
| ReorderOvertaken.Jumps | src/dante_video_coordinator.c:504-524 | one timed-out slot that is not next: a timeout skip counts the gap and sends it |
| ReorderOvertaken.OvertakenPacket | src/dante_video_coordinator.c:504-524 | for every window of 3 or more, a run of four events in which order is lost: 0, 3, 2 are emitted in this order and a whole lap of gaps is counted |
| ReorderNarrow.NeverOvertakesExactly | src/dante_video_coordinator.c:504-642 | over all runs every waiting packet stays in its slot and inside the window, if and only if the window is 1 or 2 |
| ReorderStream.StepRefines | src/dante_video_coordinator.c:526-642 | one event of a stream with one SSRC: the ring and the unbounded flow stay related |
| ReorderStream.StreamRefines | src/dante_video_coordinator.c:526-642 | the 16-bit ring refines the flow of unbounded numbers over every orderly run of one stream |
| ReorderEviction.EvictionFreeWindows | src/dante_video_coordinator.c:613-620 | no two numbers of a window share a slot if and only if the window divides 65536 |
| ReorderEviction.StoreEvictsNothing | src/dante_video_coordinator.c:613-624 | with a window that divides 65536, storing a packet inside the window of a ring whose slots are in the window releases nothing |
| ReorderEviction.NothingEvicted | src/dante_video_coordinator.c:526-642 | with such a window no guarded run, of any packets and through any SSRC switches, ever evicts a packet |
| ReorderNumbers.StreamSends | src/dante_video_coordinator.c:472-642 | in every orderly stream the buffer emitted as an unbounded number was pushed with that very number |
| ReorderEviction.NoClash | src/dante_video_coordinator.c:613-620 | with such a window no waiting number shares the slot of a number that fits the window |
| ReorderSorting.StreamSorted | src/dante_video_coordinator.c:589-629 | a stream displaced by less than the window stays inside the hypotheses of the refinement, and is sorted |
| ReorderSorting.SortsDisplacedStreams | src/dante_video_coordinator.c:589-629 | reordering sorts: after every push the output is the longest contiguous run of the numbers that arrived, from the first, each once, in order and in a buffer pushed with that number, with no gap counted, across any number of 16-bit laps |
| ReorderRepeat.FarRepeatBreaks | src/dante_video_coordinator.c:592-611 | a run that meets every hypothesis of the sorting theorem but that nothing half a lap ahead has arrived, and is not sorted: 40001 packets in order, and the first again |
| ReorderLateness.TrackRunLost | src/dante_video_coordinator.c:483-629 | over every run, in every epoch, the numbers marked lost are exactly: from the epoch's first on, those given up and not seen since; before it, those marked when the epoch began and not seen since |
| ReorderLateness.LateExactly | src/dante_video_coordinator.c:593-603 | in every epoch of every guarded run, of any packets, an arrival up to 32768 behind is counted late exactly if its number is marked in that sense, and old otherwise |
| ReorderLateness.LeftFromBefore | src/dante_video_coordinator.c:576-588 | the marks that an epoch finds are those in the table at the event with which it began, up to half a lap before its first number |
| ReorderSwitched.LeftoverMarkIsCounted | src/dante_video_coordinator.c:576-603 | a guarded run in which the second stream gives nothing up and yet has a packet counted late, for a mark of the first |
| ReorderEvicted.EvictedPacketIsMiscounted | src/dante_video_coordinator.c:613-622 | for every window that does not divide 65536, an orderly run of four events in which the source counts 65536 mod window packets lost and the element one more: a packet that arrived in time and was evicted |
| ReorderEvicted.NeverEvictsExactly | src/dante_video_coordinator.c:613-622 | no guarded run evicts if and only if the window divides 65536 |
| ReorderEvicted.NeverMoreExactly | src/dante_udp_source.c:128-148 | lost_gaps <= rtp_lost over all orderly streams if and only if the window divides 65536 |
| LossEstimator.RtpStatistics.Update | src/dante_udp_source.c:128-148 | one packet changes the estimate as its step function, and nothing for other packets |
| LossEstimator.EstimateRun | src/dante_udp_source.c:128-148 | fed any packets, within half range of the highest number, the estimate is the number of unbounded numbers jumped over on the way to it |
| LossEstimator.OnlyVersionTwo | src/dante_udp_source.c:128-133 | exactly the packets of at least 12 bytes whose two top bits are 10 are looked at |
| LossEstimator.EstimateTallies | src/dante_udp_source.c:128-148 | over every run: each packet looked at is counted, out of order exactly those behind the highest number so far; and the packets in order and the numbers counted lost make up the way from the first number to the highest |
| LossEstimator.StreamCovers | src/dante_udp_source.c:128-148 | at any window, what the element has emitted, given up, evicted and keeps waiting covers the same numbers that the source has counted or seen |
| LossEstimator.JumpedSplit | src/dante_udp_source.c:140-147 | the source's count and the packets that were evicted for good split into the element's gaps, numbers filled in before they were given up, and numbers still missing |
| LossEstimator.CountersCompared | src/dante_udp_source.c:128-148 | fed the same orderly stream, at any window: rtp_lost plus the packets that came in their turn and were evicted for good is lost_gaps plus the numbers filled in before they were given up and those still missing |
| LossEstimator.NeverMoreGaps | src/dante_udp_source.c:128-148 | with a window that divides 65536, lost_gaps <= rtp_lost at all times |
| ReaderRing.PacketRing.Enqueue | src/dante_udp_source.c:302-313 | a packet goes behind the others, or is counted and given back if the ring is full |
| ReaderRing.PacketRing.Dequeue | src/dante_udp_source.c:512-520 | the oldest packet is handed on |
| ReaderRing.PacketRing.Clear | src/dante_udp_source.c:330-337 | stopping gives every packet back and empties the ring |
| ReaderRing.RunAccounted | src/dante_udp_source.c:302-337 | over every run packets are handed on in order of arrival, and each is handed on, held or given back, once |
| ReaderRing.LosslessUnlessFull | src/dante_udp_source.c:302-313 | as long as no packet meets a full ring, everything that arrived is handed on or held, in order |
| ReaderRing.OverflowCounts | src/dante_udp_source.c:302-308 | over every run the overflow count is the number of packets that met a full ring, and they were given back |
| DepTime.SamplesToNs | src/dante_dep_context.c:333-343 | equals the least of 2^64-1 and the exact time rounded down, with every intermediate value in 64 bits |
| DepTime.SamplesToNsMonotone | src/dante_dep_context.c:333-343 | more samples never give an earlier time |
| DepTime.PeriodStart | src/dante_dep_context.c:379-382 | equals (period * samples) mod capacity without forming that product |
| DepTime.PeriodPtsIsExact | src/dante_dep_context.c:345-377 | for every reading, stable or not, the time given out is right (the exact extrapolation where all of it fits 64 bits, otherwise the time of the samples handed out) if and only if the sum does not wrap back into range, or happens to give that time; a wrapped one lies within a second of the reading's time |
| DepTime.ExtrapolatedExactly | src/dante_dep_context.c:362-366 | the unchecked sum is right if and only if the true one fits 64 bits |
| DepTime.NanosecondsWrap | src/dante_dep_context.c:345-377 | a reading and a period for which the time is 0.29 seconds where it should be 0 |
| DepClock.StableIsConsistent | src/dante_dep_context.c:348-357 | however the six reads fall among the writer's updates, a stable reading is of a period count and a time that stood together when no update was in progress |
| DepClock.QuietIsStable | src/dante_dep_context.c:348-357 | a reading that no update disturbs is stable |
| DepClock.StableReadingIsExact | src/dante_dep_context.c:345-377 | with a clock that keeps time, every stable reading gives periods within range exactly their time |
| DepTime.RunningTime | src/dante_dep_context.c:384-399 | running time starts at 0 and never decreases, whatever the timestamps do |
| DepRing.PeriodIntact | src/dante_dep_context.c:409-451 | every period still inside the ring is there in full after any number of publications |
| DepRing.NoTornRead | src/dante_dep_context.c:417-446 | for any interleaving of publications with the copy, if both checks pass then each sample read is the published one |
| DepRing.LappedIsOverwritten | src/dante_dep_context.c:439-446 | for every ring and however far the writer has gone: if the second check fails because it has lapped the period, the period's first sample has been overwritten by a later period in every channel |
| DepFifo.PushedParts | src/dante_dep_context.c:881-898 | skipping the oldest input and dropping the oldest queued frames keeps the newest of both |
| DepFifo.CopiedIsPublished | src/dante_dep_context.c:409-451 | with both checks passed the frames copied are exactly the period's published samples in channel order |
| DepFifo.TornUnchanged | src/dante_dep_context.c:409-446 | after a failed second check the frames and their timestamps are as they were, whatever is published and whenever it is read, if and only if there was room for the period |
| DepFifo.Endpoint.Drop | src/dante_dep_context.c:401-407 | the oldest frames go, and are counted |
| DepFifo.Endpoint.Prepare | src/dante_dep_context.c:296-331 | the queue is emptied only when the period length or capacity changes, and a refused size changes nothing |
| DepFifo.Endpoint.Write | src/dante_dep_context.c:870-901 | the queue becomes the last capacity frames of old and new together; every frame offered is used or counted as dropped |
| DepFifo.Endpoint.Read | src/dante_dep_context.c:816-868 | a read returns and removes the oldest block with its first timestamp, or nothing |
| DepFifo.Stamp | src/dante_dep_context.c:435-436 | frame i of a period has the time of the period plus i times a billion over the rate, rounded down, and at most 2^64-1 |
| DepFifo.Endpoint.CopyPeriod | src/dante_dep_context.c:427-438 | the copy loop appends the frames as read, with those times |
| DepFifo.Endpoint.FramesFor | src/dante_dep_context.c:300-303 | a queue of any size holds the wanted periods and a block, and is as long as one of them |
| DepFifo.Endpoint.CopyAndCheck | src/dante_dep_context.c:420-446 | the copy is kept if the second check passes and taken back if not |
| DepFifo.Endpoint.ReceivePeriod | src/dante_dep_context.c:409-451 | with both checks passed the queue gains exactly the published period; with the first failed it is untouched |
| DepFifo.Endpoint.PlayPeriod | src/dante_dep_context.c:465-475 | the play loop writes the queue's frames and silence to the endpoint's channels and leaves everything else in the ring alone |
| DepFifo.Endpoint.TransmitPeriod | src/dante_dep_context.c:453-480 | a period of the ring becomes a prefix of the queue padded with silence, and the prefix leaves the queue |
| DepFifo.TxStart | src/dante_dep_context.c:458-462 | a transmitted period starts at its own place in the ring, moved on by the lead |
| DepTransmit.PlaysInOrder | src/dante_dep_context.c:453-480 | over every run frames offered are frames waiting plus frames dropped, and the output without padding is an in-order subsequence of what was written |
| DepTransmit.WriteStep | src/dante_dep_context.c:870-901 | an accepted write to the endpoint is one step of that run, any other none |
| DepTransmit.PlayStep | src/dante_dep_context.c:453-480 | a period played by the endpoint is one step of that run, and what the step adds to the output stands at the period's place in the ring |
| DepTransmit.ResizeStep | src/dante_dep_context.c:296-331 | a change of size empties the queue and begins a new run, whatever was dropped before |
| DepReceive.HandsOutInOrder | src/dante_dep_context.c:409-451 | over every run of received periods and block reads, at any moments of the copy's reads, the frames handed out are an in-order subsequence of the published ones, as long as no copy is taken back from a queue without room |
| DepReceive.TornCopyRepeats | src/dante_dep_context.c:440-446 | a possible run with such a copy, in which a frame published once is handed out twice |
| DepReceive.NoOverrunNoLoss | src/dante_dep_context.c:409-451 | as long as no overrun is counted, the frames of every period taken are handed out or wait, and only those handed out count as dropped |
| DepReceive.OverrunsGrow | src/dante_dep_context.c:421-446 | an overrun is counted exactly if a copy is taken back or frames have to make room for it |
| DepStamps.WaitingFramesAreStamped | src/dante_dep_context.c:427-438 | over every run, torn copies and full queues included, every waiting frame carries the time of its place in the period it was copied from |
| DepStamps.WaitingFramesArePublished | src/dante_dep_context.c:409-451 | as long as no copy is taken back from a queue without room, that is also the published frame at that place |
| DepStamps.BlockHasItsTime | src/dante_dep_context.c:816-868 | a block read comes with the time of its first frame, by the period that this frame was published in |
| DepReceive.ReceiveStep | src/dante_dep_context.c:409-451 | a period received by the endpoint is one step of that run |
| DepReceive.ReadStep | src/dante_dep_context.c:816-868 | a block read from the endpoint is one step of that run; what it returns is what the step hands out, with the time of its first frame |
| DepReceive.ResizeStep | src/dante_dep_context.c:296-331 | a change of size empties the queue and begins a new run, whatever was counted before |
| DepWorker.Worker.constructor | src/dante_dep_context.c:262-270 | a new connection starts at the current period with nothing lost |
| DepWorker.Worker.HandOver | src/dante_dep_context.c:588-605 | one period is handed over, with the time that the reading or the fallback gives it, held monotone, and the fallback moves on |
| DepWorker.FallbackKept | src/dante_dep_context.c:603-604 | the fallback count is exactly the samples of the periods handed over, as long as that fits 64 bits |
| DepWorker.Worker.SkipLost | src/dante_dep_context.c:575-577 | periods that the ring no longer holds are counted as lost, each once |
| DepWorker.Worker.HandOverAll | src/dante_dep_context.c:588-605 | the loop hands over every period up to the current one, in order, each with its time |
| DepWorker.Worker.WakeUp | src/dante_dep_context.c:561-605 | each wake-up hands over exactly the periods [max(next, current - ring), current) in order, counts the skipped ones as lost and ends at the current count; a reset mapping hands over nothing |
| DepWorker.LostAreTheRest | src/dante_dep_context.c:561-605 | between reconnects every period index is handed over once or counted as lost once |
| DepPeriodTimes.EachPeriodTime | src/dante_dep_context.c:588-605 | every period handed over comes with the time since the first period's stamp by its own reading, or by the samples counted if the stamp is earlier, held at the time before it if that is later |
| DepPeriodTimes.ExactClockExactTimes | src/dante_dep_context.c:345-399 | with an exact clock and stable readings period p comes exactly p - first period lengths after the first |
| StartCodes.FirstCodeFinds | src/h26x_parser.c:407-408 | the search finds the first match, and without a result there is none |
| StartCodes.StartCode | src/h26x_parser.c:407-408 | the search loop computes it |
| StartCodes.FirstCodeStable | src/h26x_parser.c:407-408 | more bytes never change a start code already found |
| NalSplitter.CutStable | src/h26x_parser.c:410-424 | more bytes never change a cut already possible |
| NalSplitter.TrimAll | src/h26x_parser.c:415-422 | dropping the bytes in front of the first start code changes nothing that comes later |
| NalSplitter.KeptIsOneUnit | src/h26x_parser.c:415-423 | of an Annex B stream no more than one unit is kept between buffers, from its start code on, unless no start code has come at all |
| NalSplitter.AnnexBNeverFails | src/h26x_parser.c:414-417 | an Annex B stream is never refused or cut short by the splitter |
| NalSplitter.SplitMore | src/h26x_parser.c:410-424 | splitting part of the bytes now and the rest later is splitting all of them |
| NalSplitter.PushSplit | src/h26x_parser.c:426-441 | pushing the bytes of two buffers at once is pushing the two |
| NalSplitter.ChunksAgree | src/h26x_parser.c:407-441 | chunk independence: however a stream is cut into buffers, for Annex B, length-prefixed and detected input, the same NAL units are handed on, with the same outcome and bytes left over |
| NalSplitter.FlagsAgreeExactly | src/h26x_parser.c:407-441 | for every stream and every cut into buffers the end-of-stream flags, too, are those of one buffer, if and only if the last buffer carries bytes or the stream does not end on a length-prefixed unit |
| NalSplitter.EmptyLastChunk | src/h26x_parser.c:419 | an empty last buffer changes the end-of-stream flag of a length-prefixed unit already handed on |
| FormatDetection.DetectedFormat | src/h26x_parser.c:413 | four bytes decide: 00 00 01 or 00 00 00 01 in front is Annex B, anything else length fields, and fewer bytes nothing |
| FormatDetection.TooShortToTell | src/h26x_parser.c:413 | a stream of fewer than four bytes is kept, and nothing is handed on, even at its end |
| FormatDetection.StartCodesComeBack | src/h26x_parser.c:413-417 | from a parser that is to find the format out: separable units behind start codes of either length, in any buffers, come back |
| FormatDetection.LengthsComeBack | src/h26x_parser.c:413-421 | units behind length fields of 1 to 4 bytes, in any buffers, come back if and only if there are four bytes and they do not read as a start code, or reading them so happens to give the same units |
| FormatDetection.ReadsExactly | src/h26x_parser.c:413 | length fields read as a start code exactly if they are four bytes wide and the first length is 1 or 256 to 511, or three bytes wide and it is 1 |
| FormatDetection.ComesBackExactly | src/h26x_parser.c:413-421 | for each first length: all streams of units that begin with it come back, if and only if it does not read so |
| FormatDetection.PrefixedEnds | src/h26x_parser.c:418-421 | length-prefixed units come back, the last one flagged |
| FormatDetection.BadLengthRefused | src/h26x_parser.c:419 | a length of 0 or over the limit is refused, after the units before it have been handed on |
| FormatDetection.CutOffUnit | src/h26x_parser.c:418-421 | a stream that ends inside a unit: the units before come, and the part is kept before the end of the stream, and at it an error or dropped and counted, as the policy says |
| NalParser.WalkIsSplit | src/h26x_parser.c:414-417 | the walk over start codes by offsets hands on what cutting does |
| NalParser.LengthsAreSplit | src/h26x_parser.c:418-421 | the walk over length-prefixed units does, too |
| NalParser.Parser.ParseAnnexB | src/h26x_parser.c:414-417 | one pass over an Annex B adapter |
| NalParser.Parser.ReadField | src/h26x_parser.c:419 | the length loop reads a big-endian number and refuses 0 and lengths over the limit |
| NalParser.Parser.ParseLength | src/h26x_parser.c:418-421 | one pass over a length-prefixed adapter, with the error and drop policies for a cut last unit |
| NalParser.Parser.ParseAdapter | src/h26x_parser.c:410-424 | one pass hands on the complete units and moves the rest to the front; the format is decided by the first four bytes |
| NalParser.Parser.Push | src/h26x_parser.c:426-441 | one buffer is one step of the splitter, or is refused whole when it does not fit |
| EmulationPrevention.RbspFromNal | src/h26x_parser.c:101-115 | the loop removes exactly the emulation prevention bytes, with a 03 in the last place kept |
| EmulationPrevention.UnescapeChangesExactly | src/h26x_parser.c:109-113 | removal changes a payload if and only if it holds a 03 behind two zeros with a byte of at most 03 behind it |
| EmulationPrevention.UnescapeEscape | src/h26x_parser.c:101-115 | removal undoes insertion for every payload |
| EmulationPrevention.EscapedIsClean | src/h26x_parser.c:101-115 | an escaped payload holds no start code, whatever zeros precede it |
| EmulationPrevention.WrittenIsFramable | src/h26x_parser.c:101-115 | a NAL unit written for a nonzero header and a payload not ending in zero can stand between start codes and reads back |
| AnnexBStream.SplitStream | src/h26x_parser.c:407-417 | units without start codes, joined with start codes of either length, split back to the same list |
| AnnexBStream.UnitsComeBack | src/h26x_parser.c:407-441 | so they do when the stream is cut into buffers anywhere and pushed through the parser |
| AnnexBStream.PayloadsComeBack | src/h26x_parser.c:101-115 | payloads escaped, framed, cut up, parsed and unescaped are the same payloads |
| BitReader.Reader.Read | src/h26x_parser.c:82-89 | the bit loop returns the number in the next n bits and moves exactly past them; more than 32, or more than there are, fail |
| BitReader.Reader.ReadUeValue | src/h26x_parser.c:91-99 | the prefix loop and the suffix read are the Exp-Golomb reading |
| BitReader.UeBack | src/h26x_parser.c:91-99 | every value up to 2^31-2 is read back from its codeword, and exactly the codeword is consumed |
| BitReader.UeTooLarge | src/h26x_parser.c:91-99 | larger values are refused: the bound is exact |
| SequenceParameters.HeadBack | src/h26x_parser.c:151-160 | the chroma fields are looked for in exactly the twelve profiles that section 7.3.2.1.1 of ITU-T H.264 lists here, and read back unless a scaling list is sent |
| SequenceParameters.HighBack | src/h26x_parser.c:152-160 | the fields of those profiles read back with any chroma format, bit depths and absent scaling lists, and are refused if a list is sent |
| SequenceParameters.SizeBack | src/h26x_parser.c:161-162 | the coded size fields read back |
| SequenceParameters.CropBack | src/h26x_parser.c:163-164 | the cropping fields read back |
| SequenceParameters.PictureIsExact | src/h26x_parser.c:165-170 | in range, the 32-bit size arithmetic gives the size of section 7.4.2.1.1 of ITU-T H.264 if and only if it does not crop a monochrome picture in width |
| SequenceParameters.NothingLeftRefused | src/h26x_parser.c:165-170 | with sizes and cropping of less than 2^32 samples, a parameter set is refused for its picture exactly if the cropping leaves nothing |
| SequenceParameters.CropCanWrap | src/h26x_parser.c:168 | a cropping of 2^32 samples is taken for none |
| SequenceParameters.SpsComesBack | src/h26x_parser.c:145-176 | a parameter set of any profile, written with any NAL header and picture order count type 0, gives back its identifier, profile, level, coded and cropped size, if and only if it sends no scaling list and does not crop a monochrome picture in width |
| HighProfile.FullHdComesBack | src/h26x_parser.c:145-176 | the NAL unit of a High-profile parameter set, byte by byte, is read as 1920 by 1088 samples coded and 1920 by 1080 shown |
| OrderCounts.ReadBackExactly | src/h26x_parser.c:161-162 | all valid parameter sets of one picture order count type, without scaling lists or a monochrome picture cropped in width, come back from their NAL units, if and only if the type is 0 |
| OrderCounts.TypeOneMisreads | src/h26x_parser.c:161-162 | the NAL unit of a valid parameter set of type 1 for 32 by 32 samples that is read as 16 by 288 |
| OrderCounts.TypeTwoRefused | src/h26x_parser.c:161-162 | the NAL unit of a valid parameter set of type 2 that is refused |
| OrderCounts.TypeTwoCanComeBack | src/h26x_parser.c:161-162 | the NAL unit of a valid parameter set of type 2 that is read back |
| SpsReader.ReadSps | src/h26x_parser.c:145-176 | the field-by-field reading with the cursor computes that parse, failures included |
| Grouping.GroupsAreOk | src/h26x_parser.c:366-405 | the groups hold the items in order, none goes on past an item that opens the next, and each later one starts where one opens after a slice |
| Grouping.GroupsAreUnique | src/h26x_parser.c:366-405 | no other list of groups has these properties |
| AccessUnits.RunCollects | src/h26x_parser.c:366-405 | a run meets the size limit nowhere exactly when every group fits, and has then collected the groups |
| AccessUnits.BuffersAreGroups | src/h26x_parser.c:298-308 | the buffers put out are the groups, in order; the run fails exactly if one is longer than the limit |
| AccessUnits.BuffersAreUnique | src/h26x_parser.c:298-405 | any grouping with the properties of section 7.4.1.2.3 of ITU-T H.264 named here is the one put out |
| AccessUnits.EachBuffer | src/h26x_parser.c:366-405 | no buffer has a NAL unit of type 6-9 or 14-18, or the first slice of a picture, after a slice; it is flagged a key frame exactly if it holds one, and end of stream exactly if it is the last or holds a flagged unit |
| NalTypes.TypeBack264 | src/h26x_parser.c:369 | the type written into an H.264 header byte is the one read, whatever the other bits |
| NalTypes.TypeBack265 | src/h26x_parser.c:369 | the type written into an H.265 header is the one read, whatever the other bits |
| NalTypes.EachPicture | src/h26x_parser.c:366-405 | by the first bytes alone: a buffer is flagged a key frame exactly if it holds a unit of type 5 (H.264) or 16 to 21 (H.265); after a slice (1 to 5, up to 31) it holds no unit of type 6 to 9 or 14 to 18 and no first slice of a picture; and each buffer after the first begins with such a unit |
| NalTypes.EachAlone | src/h26x_parser.c:400 | without aggregation every NAL unit goes out by itself, flagged by its first byte |
| AccessUnits.OutputIsByteStream | src/h26x_parser.c:288-405 | aggregating or not, the output is the NAL units in order, each with a four-byte start code |
| AccessUnits.NoLimitUnaggregated | src/h26x_parser.c:400 | without aggregation nothing is refused |
| AccessUnits.SliceHeaderBack | src/h26x_parser.c:319-326 | a written slice header gives back its first macroblock number, and is not recognised exactly if its PPS identifier is over 255 |
| AuAggregator.ReadFirstMb | src/h26x_parser.c:319-326 | the three reads with the cursor compute it |
| AuAggregator.Aggregator.FlushAu | src/h26x_parser.c:298-308 | a flush puts the collected unit out with its flags and clears them; an empty one does nothing |
| AuAggregator.Aggregator.Append | src/h26x_parser.c:402-403 | the unit is appended behind a start code, unless the limit would be passed |
| AuAggregator.Aggregator.HandleNal | src/h26x_parser.c:366-405 | one NAL unit is one step of AccessUnits |
| AuAggregator.Aggregator.EndOfStream | src/h26x_parser.c:440 | the last unit goes out flagged |
| ParserOutput.HandedOn | src/h26x_parser.c:410-424 | no empty unit is handed on, and from Annex B none with a start code inside |
| ParserOutput.OutputParsesAlike | src/h26x_parser.c:288-441 | parsing the parser's own output again gives the same NAL units, whatever Annex B stream went in and however either is cut into buffers |
| ParserOutput.ChunksPutOutAlike | src/h26x_parser.c:366-441 | how the input is cut into buffers makes no difference to the bytes and key-frame flags put out |
| LengthPrefixed.UnboxBoxed | src/h264_decoder.c:69-85 | units written with their lengths read back |
| LengthPrefixed.BoxUnboxed | src/h264_decoder.c:69-85 | whatever is accepted is exactly such units |
| LengthPrefixed.LengthsValid | src/h264_decoder.c:69-85 | the checking loop accepts exactly the nonempty buffers that are nothing but nonempty length-prefixed units |
| LengthPrefixed.ConvertLengths | src/h264_decoder.c:102-117 | the conversion loop fills the packet exactly, with a start code for each length |
| LengthPrefixed.PacketFromBuffer | src/h264_decoder.c:87-124 | the packet for any buffer, converted or passed on |
| LengthPrefixed.PacketKeepsSize | src/h264_decoder.c:87-124 | the packet is as long as the buffer |
| LengthPrefixed.FirstLengthShows | src/h264_decoder.c:61-67 | a length-prefixed buffer looks like Annex B exactly if its first length is 1 or 256 to 511 |
| LengthPrefixed.ConvertedExactly | src/h264_decoder.c:100-121 | its units reach the decoder with start codes if and only if it does not, or all its units are one byte long |
| AnnexBToAvcc.NalEnd | src/hls_sink.c:183 | the loop finds where the trailing zeros begin |
| AnnexBToAvcc.PutLength | src/hls_sink.c:186-189 | four shifts write the length big-endian |
| AnnexBToAvcc.ConvertedFits | src/hls_sink.c:173-175 | the output is at most five quarters of the input and one code more |
| AnnexBToAvcc.Convert | src/hls_sink.c:165-200 | the conversion never leaves its allocation of size + size/2 + 4, and computes its function; without a start code there is no output |
| AvccRoundTrip.ToAvccIsSplit | src/hls_sink.c:165-200 | the sink keeps exactly the NAL units that the parser would split off, in order, without trailing zeros |
| AvccRoundTrip.RestoredExactly | src/hls_sink.c:165-200 | units with start codes come back with their lengths if and only if none has a start code inside or a zero at its end |
| AvccRoundTrip.ThereAndBack | src/hls_sink.c:165-200 | through the decoder's conversion and back: same size, same units for the parser, and the original bytes exactly under that condition |
| HvccConfig.MeasureNals | src/h265_decoder.c:110-119 | the validating loop over one array fails exactly if a unit does not fit, and measures the output otherwise |
| HvccConfig.MeasureArrays | src/h265_decoder.c:103-120 | the validating pass accepts exactly the records that can be read, and measures the packet |
| HvccConfig.FillNals | src/h265_decoder.c:129-140 | the writing loop needs no check of its own |
| HvccConfig.FillArrays | src/h265_decoder.c:124-141 | the writing pass stays inside the record and fills the packet to the last byte with every unit behind a start code, in order |
| HvccConfig.PacketFromRecord | src/h265_decoder.c:94-143 | the two passes together, with the errors for nothing and too much |
| HvccConfig.PacketFromBuffer265 | src/h265_decoder.c:145-184 | a record is expanded, other buffers are treated as for H.264 |
| HvccConfig.RecordRoundTrip | src/h265_decoder.c:94-120 | arrays are read from a record if and only if it was written from them (section 8.3.3.1 of ISO/IEC 14496-15), trailing bytes ignored |
| HvccConfig.ParameterSetsArrive | src/h265_decoder.c:94-143 | the units of a record reach the decoder so that the parser's splitting finds them |
| HvccConfig.TakenForRecord | src/h265_decoder.c:70-74 | a length-prefixed buffer is taken for a record exactly if its first length is at least 2^24 and below 2^25 |
| RecordMistaken.ConvertedExactly265 | src/h265_decoder.c:145-184 | a length-prefixed buffer whose first unit holds no start code reaches the decoder with start codes if and only if its first length is not in that range and is not read as a start code, or all units are one byte long |
| RecordMistaken.ArrivesExactly | src/h265_decoder.c:145-184 | separable units are found again by the parser in what the decoder gets if and only if the first length is not in that range, and if it reads like a start code, the lengths happen to part the buffer into the same units |
| RecordMistaken.FirstLengthDecides | src/h265_decoder.c:145-184 | for each first length: all separable units that begin with a unit of that length arrive, if and only if it is neither in that range nor read as a start code |
| RecordMistaken.TakenForEmptyRecord | src/h265_decoder.c:94-143 | a buffer of one such unit from which the decoder gets nothing |
| RecordMistaken.ShortRecordPassedOn | src/h265_decoder.c:70-74 | of at most 23 bytes nothing is taken for a record |
| RecordMistaken.RecordRefusedExactly | src/h265_decoder.c:94-121 | a record is refused exactly if it cannot be read, holds no unit, or its units with start codes take more than 2^31-1 bytes |
| FlowTrace.Alternate | src/dante_session.c:133-289 | in a well bracketed trace each key is created and deleted in turn |
| FlowTrace.RunIsTraced | src/dante_session.c:133-345 | over every run of records and disconnects: keys in the list are unique, the list is what the events leave open, each flow is deleted as it was created, and none is open when Disconnected is posted |
| FlowTrace.EventsAlternate | src/dante_session.c:133-345 | for each key Created and Deleted alternate, Created first, and Created last exactly if the flow is in the list |
| FlowReplies.EachRecordReplies | src/dante_session.c:236-345 | over every run, each record posts what the events before it call for: a create is accepted exactly if its channel is advertised in its direction and its key is not open, a delete deletes the open flow with its key, and everything refused is a warning |
| FlowReplies.InvalidatePosts | src/dante_session.c:133-154 | dropping the connection posts a deletion for exactly the flows that are open, and then Disconnected, unless the session closes itself |
| FlowTrace.CountersAreRight | src/dante_session.c:260-278 | the two counters are the numbers of listed flows in each direction, on 32 bits |
| FlowTrace.FreedExactlyOnce | src/dante_session.c:125-289 | each address string is freed exactly once once the flows are dropped, whether its flow was kept, refused, deleted or dropped, and never twice |
| FlowRegistry.Session.FindFlow | src/dante_session.c:220-234 | the walk returns the first node with the key and the link that leads to it |
| FlowRegistry.Session.Link | src/dante_session.c:258-259 | a new node becomes the head of the list |
| FlowRegistry.Session.Unlink | src/dante_session.c:275-276 | redirecting one link takes exactly that node out of the list |
| FlowRegistry.Session.HandleCreate | src/dante_session.c:236-266 | unadvertised channels and duplicate keys are refused with a warning and leave the strings with the message; others are listed, counted and announced |
| FlowRegistry.Session.HandleDelete | src/dante_session.c:268-289 | the flow with the key goes, is uncounted, announced and freed; an unknown key is a warning |
| FlowRegistry.Session.InvalidateFlows | src/dante_session.c:133-154 | every flow is announced as deleted and freed, counters are zero, then Disconnected is posted |
| FlowRegistry.Session.HandleRecord | src/dante_session.c:302-345 | one record is one step of FlowTrace, the message cleared included |

## Left out

- Sockets, polling, shared memory mapping, semaphores, thread creation, sleeping, logging and environment
  variables: clock readings, what a peer sends and when threads run are parameters of the steps.
- Locking: each step that the source runs under a lock is one step here; in the DEP context, and only
  there, the other side's steps are interleaved inside one.
- What a downstream push returns, and the failure of caps events, allocations and buffer creation.
- `zst_queue`, `zst_buffer_pool`, pads, caps and the scheduler: their sources are not part of this model.
  Pushing a buffer appends to an output trace.
- `zst_find_start_code`, which the HLS sink calls, is not part of this model: it is taken to search as
  `start_code` in `src/h26x_parser.c` does.
- The largest reorder window is defined in a header that is not part of this model: windows from 1 to
  32768 are covered.
- The reorder element's probe twin and the main element share a route; each is modelled by itself, with
  the route's time of the last valid packet as a parameter.
- The 64-bit statistics counters are unbounded numbers.
- The shared sample ring's writer publishes a period's samples and its count in one step; a period
  written in part but not yet counted is outside what the reader's check can see.
- An endpoint's interleaved sample array is modelled as one frame of samples for each slot.
- The conversion between microseconds of lead and samples, the mixing gains and drift compensation use
  floating point or other files.
- H.265 sequence parameter sets: `bits_read` refuses more than 32 bits, so the 48-bit read in
  `skip_h265_ptl` fails for every input, and there is no success to describe.
- VUI frame rates of H.264 sequence parameter sets, and the caching of parameter sets into caps.
- Timestamps of access units, and the reset of parser state by a buffer flagged as dropped.
- Buffers of 2 GiB and more in the converters, where the source truncates the size to `int`.
- The JSON protocol of the session, its sockets and its reconnection timing; the event for a new
  connection.
- Route element construction, property strings, plugin registration, compositors, codecs and sinks.
- ReorderSorting.SortsDisplacedStreams: the first arrival has to be the lowest number, each number n has to
  arrive after all numbers up to n minus the window and before any number from n + 32768 on, and no timeout
  may expire, as the element needs them.

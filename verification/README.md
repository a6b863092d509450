# A verified model of the anettrace event pipeline

anettrace moves kernel network events through several stateful stages: BPF programs that number packets,
remember who submitted them and who woke a task, a capture queue between the perf reader and the export
worker, a gate that holds receive events back until their owner is known, the exporter's rings, queues
and tables, the writers and the trimmer of Perfetto traces, and the traffic history. Each stage has a simple
meaning and a bounded, incremental or concurrent implementation. This project models the implementations and
proves that they have that meaning, over all inputs, all runs and all interleavings.

Each stage has a machine of values (`State`, `Step`, `Run`) that takes the program's steps, theorems about
every run of that machine, and a class or methods with the program's own loops and updates that are proved
equal to it. Beside the invariants stand laws that say exactly what each operation does (names ending in
`Exactly` and the like), in terms of the fields, the bytes or the history and without the functions that the machine is
made of. Every lemma carries `{:induction false}`, so that what is written is the proof.

| files | stage |
|---|---|
| `RxGate`, `RxGateRuns`, `RxGateOrder`, `RxGateOwners`, `PendingList`, `RxContext` | RX ownership gate: machine, every run, order of evidence, what the slots hold and what becomes of a record, linked list, program |
| `QueueRecords`, `CaptureRing`, `CaptureQueue`, `CaptureProgram` | capture queue: record layout, byte ring, protocol of producer and worker, program |
| `Wire`, `WireMeaning`, `Trim`, `TrimPacket`, `TrimStream`, `TrimTwice`, `TrimWritten`, `TrimCode` | Protocol Buffers wire format and trace trimmer: meaning, second pass, trimming what was written, program |
| `ProtoWriter` | field writers and in-place annotations |
| `TrailingRing`, `TrailingEviction` | trailing-window ring, and what it gives up |
| `Overview`, `OverviewRuns`, `OverviewWrites`, `OverviewQueue` | delayed packet overview queue and its owner slots: machine, every run, what is written and when, program |
| `FlowTable`, `FlowMeaning` | flow binding, and what a lookup and each event mean |
| `PendingIo`, `IoMeaning` | pairing of I/O calls, and what their records say |
| `TrafficRows`, `TrafficRecords`, `TrafficIndex`, `TrafficTotals`, `TrafficPeaks` | traffic rows, history records, open-addressing index, totals of whole runs, totals told from the rows |
| `Wakeup` | wakeup evidence of the scheduler tracepoints |
| `Submission`, `PacketIdentity`, `PacketLifetimes`, `PacketReuse`, `PacketPrograms` | packet generations under interleaved processors, submitting calls |
| `RateLimit` | rate limiter |
| `Bits`, `Wrappers`, `Packet` | bytes, exclusive or, little-endian numbers; optional values; packet directions |

`dafny verify dfyconfig.toml` checks everything.

Where something one would expect turned out false of the code, the code is modelled as it is, a lemma gives the failing case
and another says when it holds:

- Two overlapping calls for one packet address can draw the same generation
  (`PacketPrograms.OverlapDrawsOneNumberTwice`); the exact condition is `PacketIdentity.LaterIsLargerExactly`.
- The packet table's refusal of an instance is not looked at, and then a released generation is used again
  (`PacketPrograms.RefusalSharesAGeneration`); the exact condition is `PacketLifetimes.ResultsFitExactly` for a run
  and `PacketPrograms.FitsUnlessRefusedBesideOld` for one call.
- An event from before a flow began opens a second flow beside it (`FlowTable.BackwardTimeBreaksIt`); the
  exact condition is `FlowTable.DistinguishedExactly`.
- A task that leaves its processor outside the capture filter keeps its old wakeup evidence
  (`Wakeup.OutsideTheFilterEvidenceIsStale`); what is reported is exactly `Wakeup.ObservedExactlyWhenChained`,
  and when it is real exactly `Wakeup.ObservedWakeupsAreGenuine`.
- A rate limiter left idle too long turns a call away, because the refill is cut to an `int`
  (`RateLimit.LongSilenceIsTurnedAway`); the exact condition is `RateLimit.RefillExactly`.
- Trimming a trimmed trace again may drop more, because a default clock may have been announced by a packet that was
  itself dropped (`TrimTwice.TrimmingTwiceMayDropMore`); the exact condition is `TrimTwice.TrimmingTwiceExactly`.
- A record pushed after the worker has found the stop request and an empty ring is never exported
  (`CaptureQueue.LatePushIsLost`); the exact condition is `CaptureQueue.StopDeliversEverything`.
- The writers can write field number 0 with wire type 0, which the parser refuses; this is the only field that does
  not read back (`ProtoWriter.FieldReadsBack`).

## Model

| member | source | states |
|---|---|---|
| `RxGateRuns.EveryRunKeepsInvariant` | src/rx_context.h:43-195 | after any feeds, ticks and finishes: the list is stably sorted by time, within both limits and within one window of the watermark; everything queued, held as evidence or emitted goes back to fed events; each record has one fate; no queued record matches the evidence in its slot |
| `RxGateRuns.StepKeepsInvariant` | src/rx_context.h:57-195 | every single operation keeps that invariant |
| `RxGateRuns.ReplaysAreJustified` | src/rx_context.h:68-164 | in every run an emitted record is unchanged and was not pending, or was quarantined and carries the owner of a fed direct-evidence event of the same key and generation dated 0 to one window after it, field by field, whatever collided in the slots |
| `RxGateRuns.NothingIsLostOrOverlooked` | src/rx_context.h:89-195 | in every run nothing queued matches the evidence now in its own slot, nor any direct evidence fed after it, whatever collided since; the records fed are exactly the queued ones and those with an outcome, each once; pending fed = replayed + expired + capacity dropped + unresolved + queued; finish empties the queue |
| `RxGateOwners.PendingFateExactly` | src/rx_context.h:109-186 | in every run a pending record of a received packet that is fed is expired if it is more than a window behind the watermark, dropped if it cannot fit beside the owner table or gets no memory, else replayed at once if and only if direct evidence for its key and generation, dated 0 to one window after it and no older than a window, was fed before it and since the last finish with none for another packet of that slot in between, and carries the owner of such evidence; and else it is quarantined |
| `RxGateOwners.EveryRunTellsSlots` | src/rx_context.h:112-123 | in every run each slot holds the latest evidence fed to it since the last finish and since any evidence of another packet, and nothing if there is none |
| `RxGateOwners.CapacityDropsAreForced` | src/rx_context.h:145-169 | records are dropped for lack of room only when a pending record is fed: that record alone if it can never fit or gets no memory, or else, unless it is replayed at once, the fewest of the oldest ones that make room for it |
| `RxGateOwners.UnresolvedOnlyAtEnd` | src/rx_context.h:188-195 | outside finish a record counts as unresolved only if it is pending and cannot be tracked at all |
| `RxGateOwners.WatermarkIsLatest` | src/rx_context.h:57-66 | the watermark is the latest time fed or ticked, of whatever record |
| `RxGateOrder.EvidenceWasFedBefore` | src/rx_context.h:108-164 | outcomes are only ever added, so the evidence of a replayed record is among the events fed up to the operation that emitted it |
| `RxGateRuns.InsertSorted` | src/rx_context.h:170-183 | inserting before the first strictly younger record keeps the list sorted by time and by arrival among equal times |
| `RxGateRuns.ReplayLoopSettles` | src/rx_context.h:124-136 | after the replay loop no remaining record matches the new evidence, and those that were settled stay so |
| `PendingList.List.Remove` | src/rx_context.h:43-55 | unlinking the node behind a link takes exactly that node out of the chain, and count and bytes stay exact |
| `PendingList.List.Add` | src/rx_context.h:170-185 | linking a new node by time leaves the chain, the tail, count and bytes right and the records those of the sorted insertion |
| `RxContext.Gate.ExpireUntil` | src/rx_context.h:57-66 | the loop on the links equals expiry in the machine |
| `RxContext.Gate.Replay` | src/rx_context.h:124-136 | the replay loop, which also rebuilds the tail, equals the machine's and leaves a well-formed list |
| `RxContext.Gate.Evict` | src/rx_context.h:165-169 | the eviction loop has no test for an empty list and never needs one |
| `RxContext.Gate.FeedRecord` | src/rx_context.h:89-186 | one fed record takes the gate to the machine's next state, on real links |
| `RxContext.Gate.FinishAll` | src/rx_context.h:188-195 | finish counts all that is left as unresolved and clears the evidence |
| `RxContext.Gate.Perform` | src/rx_context.h:57-195 | the program on its linked list follows the machine through every run, so that all theorems hold of it |
| `QueueRecords.HeaderRoundTrip` | src/capture_queue.c:15-20 | a header read back gives the size to read next, and header and sample give the record that was pushed, for every 32-bit cpu and 64-bit loss count |
| `CaptureRing.Ring.Write` | src/capture_queue.c:35-44 | two copies, one wrapping, append the bytes to the ring's contents at every wrap position |
| `CaptureRing.Ring.Read` | src/capture_queue.c:46-55 | reads take the front of the contents and leave the rest |
| `CaptureRing.Ring.Push` | src/capture_queue.c:123-141 | a push is accepted if and only if the sample has at most 65536 bytes and with its 16 bytes of header fits into what `used` leaves free; it then appends the record whole to the FIFO that the bytes encode, and otherwise counts one event or the loss count; it signals exactly when the ring was empty |
| `CaptureRing.Ring.Take` | src/capture_queue.c:78-81 | the worker's read removes exactly the first record of the FIFO, unsplit |
| `CaptureQueue.StepKeepsInvariant` | src/capture_queue.c:57-173 | every step of producer or worker keeps delivery order, capacity, balance of the loss counters and the absence of lost wakeups |
| `CaptureQueue.EveryRunKeepsInvariant` | src/capture_queue.c:57-173 | all of it holds after every interleaving |
| `CaptureQueue.DeliveryIsFifo` | src/capture_queue.c:57-94 | what was exported is always a prefix of what was accepted; a worker blocked without a signal has an empty ring, no tick and no stop, although pushes signal only on the empty ring |
| `CaptureQueue.AcceptedExactly` | src/capture_queue.c:123-141 | in every run a record is accepted if and only if its sample has at most 65536 bytes and its header and sample fit beside the records accepted and not yet taken; otherwise it is counted as lost |
| `CaptureQueue.TicksAreServed` | src/capture_queue.c:64-77 | a tick stays requested until the worker begins the periodic work, which it begins for no other reason until it leaves; with nothing to do it waits, and records come first |
| `CaptureQueue.StopDeliversEverything` | src/capture_queue.c:162-173 | when stop returns, events offered = accepted + dropped and loss counts offered = accepted + reported; everything accepted was exported if and only if nothing was pushed after the worker had found the stop request and an empty ring |
| `CaptureQueue.LatePushIsLost` | src/capture_queue.c:65-77 | a run in which a push after that point is accepted and never exported |
| `CaptureQueue.StopMakesProgress` | src/capture_queue.c:64-94 | once stop is requested the worker always has exactly one move, and it leaves less work |
| `CaptureQueue.StopReturns` | src/capture_queue.c:162-170 | left to itself from any stopping state the worker reaches its end with everything exported that was accepted before it left |
| `CaptureQueue.EveryScheduleEnds` | src/capture_queue.c:64-94 | under every schedule of ticks and worker moves after the stop request the worker can make no more moves than there is work, always has one to make until it has finished, and once it has made that many has finished with everything exported that was accepted before it left |
| `CaptureProgram.Program.PushRecord` | src/capture_queue.c:123-141 | a push on the real bytes, counters and flags is the push of the protocol, accepted exactly when header and sample fit beside the bytes in use, signal included |
| `CaptureProgram.Program.TakeLock` | src/capture_queue.c:65-81 | the worker's critical section on the real bytes is that of the protocol |
| `CaptureProgram.Program.Perform` | src/capture_queue.c:57-173 | the program on its byte ring follows the protocol through every interleaving |
| `CaptureProgram.Program.BytesDeliver` | src/capture_queue.c:35-94 | at every point of every run what came out of the bytes is a prefix of what was accepted, whole and in order, at every wrap position; a worker asleep without a signal has an empty ring, no tick and no stop; at the end every loss is reported and everything came out if and only if no push came after the worker had left |
| `CaptureProgram.Execute` | src/capture_queue.c:57-173 | the program run from its start through any sequence of actions exports a prefix of what it accepted, and all of it but late pushes once the worker has finished |
| `Wire.DecodeEncode` | src/perfetto_trim.c:149-162 | every 64-bit value written as a varint is decoded to itself, whatever follows |
| `Wire.DecodeFacts` | src/perfetto_trim.c:45-65 | a successful decode stays inside 64 bits, looks at no byte behind the varint, and no encoding is shorter than the written one |
| `WireMeaning.DecodeExactly` | src/perfetto_trim.c:45-65 | decoding succeeds exactly on a varint (at most ten bytes, only the last without the continuation bit, at most one bit in the tenth), shortest or not, and gives the number whose seven-bit digits its bytes are, low first |
| `WireMeaning.NumbersExactly` | src/perfetto_trim.c:80-86 | wire type 0: a key and a varint are a field with that number |
| `WireMeaning.LengthsExactly` | src/perfetto_trim.c:92-99 | wire type 2: a key, a length and that many bytes are a field with those bytes |
| `WireMeaning.WidthsExactly` | src/perfetto_trim.c:87-104 | wire types 1 and 5: a key and eight or four bytes are a field |
| `WireMeaning.RefusedExactly` | src/perfetto_trim.c:67-111 | a zero key, another wire type, too few bytes for a fixed width and a varint that is not there are refused, each with its own error |
| `WireMeaning.TooLongIsRefused` | src/perfetto_trim.c:92-95 | a length beyond the end of the message is refused |
| `Wire.NextFieldFacts` | src/perfetto_trim.c:67-111 | a parsed field is a non-empty front of its message and parses to itself wherever its bytes stand |
| `Wire.ParsePartitions` | src/perfetto_trim.c:67-111 | the fields of a message that parses partition its bytes exactly |
| `Wire.ParseConcat` | src/perfetto_trim.c:67-111 | messages put end to end parse to their fields end to end |
| `Trim.BundleMeaning` | src/perfetto_trim.c:261-294 | a bundle trims if and only if it parses, has no compressed part and its events parse; the result has its fields in order minus exactly the events stamped below the cutoff, is no longer, and trims to itself |
| `TrimPacket.MetadataMeaning` | src/perfetto_trim.c:296-338 | each number of the metadata is the last one in the packet, whatever the order of the fields |
| `TrimPacket.FieldsMeaning` | src/perfetto_trim.c:375-402 | a rewritten packet parses to the fields of the original with trimmed bundles, is no longer, and is left alone by a second pass |
| `TrimPacket.FieldsExactly` | src/perfetto_trim.c:375-402 | a packet can be rewritten if and only if it parses and its bundles can be trimmed |
| `TrimPacket.MetadataExactly` | src/perfetto_trim.c:296-338 | a packet has metadata if and only if it parses, has no field of the two unsupported kinds and its defaults parse |
| `TrimPacket.RetrimChangesNothing` | src/perfetto_trim.c:340-402 | trimming a kept packet again, under the table it was judged with or the one it left, changes neither packet nor table |
| `TrimPacket.DelimitedReads` | src/perfetto_trim.c:149-169 | a length-delimited field written with shortest key and length reads back as itself |
| `TrimStream.TrimmingPreservesMeaning` | src/perfetto_trim.c:491-531 | whenever trimming succeeds the output parses to the input's packets in order, minus exactly the bundle-free ones stamped below the cutoff of their effective clock (explicit, else latest default of the sequence, else boottime), each bundle rid of exactly the events below the cutoff |
| `TrimStream.TrimmingSucceedsExactly` | src/perfetto_trim.c:491-531 | trimming succeeds if and only if every top-level field is a packet, every packet parses with supported fields only, and every packet that is not dropped has bundles that parse, are not compressed and hold events that parse |
| `TrimTwice.TrimmingTwiceExactly` | src/perfetto_trim.c:360-374 | a trimmed trace can always be trimmed again, and the second pass changes nothing if and only if none of the packets kept by the first is below the cutoff of its effective clock once the defaults of the dropped packets are gone |
| `TrimTwice.TrimmingTwiceMayDropMore` | src/perfetto_trim.c:360-374 | a trace of two packets of which the first pass keeps one and the second pass none |
| `TrimWritten.LastOfExactly` | src/perfetto_trim.c:171-191 | a number is read as the varint at the last place where its field stands, and as nothing if there is none |
| `TrimWritten.WrittenBundleTrims` | src/perfetto_trim.c:261-294 | trimming a written bundle writes the bundle without the events, which are field 2, whose last field 1 is below the cutoff |
| `TrimWritten.CompressedBundleIsRefused` | src/perfetto_trim.c:261-294 | a bundle with a field 4 is refused as compressed |
| `TrimWritten.WrittenPacketJudged` | src/perfetto_trim.c:340-402 | a written packet without a bundle is dropped if and only if its last field 8 is below the cutoff of its clock, which is the last field 58, else the default of its field 10, else boottime; and otherwise kept byte for byte; it teaches no default |
| `TrimWritten.WrittenDefaultsAreLearnt` | src/perfetto_trim.c:323-364 | the last field 58 inside field 59 becomes the default of the sequence in field 10, and already counts for the packet itself |
| `TrimWritten.WrittenBundleIsKept` | src/perfetto_trim.c:365-402 | a packet with a bundle, which is field 1, is kept whatever its stamp, with the bundle trimmed and all other fields as they were |
| `TrimStream.JudgedByHistory` | src/perfetto_trim.c:360-374 | the verdict from the clock table is the verdict from the packets read so far |
| `TrimStream.TableGrows` | src/perfetto_trim.c:360-364 | the clock table always holds the latest default of every sequence |
| `TrimCode.DecodeVarint` | src/perfetto_trim.c:45-65 | the shift-and-mask loop is the decoder |
| `TrimCode.AppendVarint` | src/perfetto_trim.c:149-162 | the loop appends the shortest varint |
| `TrimCode.MessageVarint` | src/perfetto_trim.c:171-191 | the scan returns the last varint of that number, or the parse error |
| `TrimCode.TrimFtraceBundle` | src/perfetto_trim.c:261-294 | the cursor loop gives the trimmed bundle or the first error |
| `TrimCode.PacketMetadata` | src/perfetto_trim.c:296-338 | the cursor loop gives the packet's metadata or the first error |
| `TrimCode.CopyFields` | src/perfetto_trim.c:375-402 | the copying loop gives the rewritten packet or the first error |
| `TrimCode.ClockDefaults.Get` | src/perfetto_trim.c:193-205 | the list lookup is lookup in the clock table |
| `TrimCode.ClockDefaults.Set` | src/perfetto_trim.c:207-226 | overwriting or prepending an entry is assignment in the clock table |
| `TrimCode.ClockDefaults.TrimPacket` | src/perfetto_trim.c:340-402 | a packet is dropped, rewritten or refused, and the table changed, as the specification says |
| `TrimCode.TrimStreamPackets` | src/perfetto_trim.c:491-531 | the stream loop computes the trimmed trace |
| `ProtoWriter.FieldReadsBack` | src/perfetto_export.c:283-308 | the trimmer's parser finds every written field with all its bytes, whatever follows, and refuses only the reserved key zero |
| `ProtoWriter.NumberSurvives` | src/perfetto_export.c:278-281 | cutting the parsed number to 32 bits loses nothing of a number that was written |
| `ProtoWriter.Fixed64Value` | src/perfetto_export.c:289-298 | the eight bytes written hold the value, low byte first |
| `ProtoWriter.ParseWhatWasWritten` | src/perfetto_export.c:283-320 | any sequence of written fields parses back to those fields, and the parse partitions the bytes |
| `ProtoWriter.AnnotationLength` | src/perfetto_export.c:878-895 | the precomputed length is the length of the nested message |
| `ProtoWriter.ProtoBuffer.AppendVarint` | src/perfetto_export.c:263-276 | the writer's loop appends the shortest varint, or nothing after a failure |
| `ProtoWriter.ProtoBuffer.WriteUint` | src/perfetto_export.c:283-287 | a varint field is appended whole unless the buffer has failed |
| `ProtoWriter.ProtoBuffer.WriteFixed64` | src/perfetto_export.c:289-298 | a fixed field is appended whole unless the buffer has failed |
| `ProtoWriter.ProtoBuffer.WriteText` | src/perfetto_export.c:300-308 | a length-delimited field is appended whole unless the buffer has failed |
| `ProtoWriter.ProtoBuffer.WriteMessage` | src/perfetto_export.c:310-320 | a nested message is wrapped whole, and a failed one fails the outer buffer |
| `ProtoWriter.ProtoBuffer.AnnotationInPlace` | src/perfetto_export.c:878-895 | the in-place form leaves byte for byte what building the nested message separately and wrapping it leaves |
| `TrailingRing.RingIsFilterOfHistory` | src/perfetto_export.c:335-453 | in every run, failed or not, the stamped packets written at close are, without truncation, exactly all packets offered before the first failure at or after the final cutoff, in order; with it that filter of a suffix; unstamped packets offered before the failure are all there |
| `TrailingEviction.EvictionKeepsLongestSuffix` | src/perfetto_export.c:374-392 | eviction leaves the longest suffix that is empty or starts inside the window and fits the guardrail, and marks the trace as truncated if and only if the packets did not all fit |
| `TrailingEviction.WriteExactly` | src/perfetto_export.c:419-453 | a packet without a timestamp is kept for good, one from before the window is skipped, and any other is put behind the packets held, of which the longest suffix that may stay remains |
| `TrailingEviction.NothingLostThatFits` | src/perfetto_export.c:374-453 | in every run whose stamped packets fit the guardrail together the trace is never marked as truncated, and what is held is exactly the filter of what was offered |
| `TrailingRing.FailureFreezes` | src/perfetto_export.c:419-453 | a failed allocation and everything after it leave the ring as it was |
| `TrailingRing.GuardrailHolds` | src/perfetto_export.c:374-453 | after every write the byte count is the sum of the retained sizes and within the limit |
| `TrailingRing.Ring.Evict` | src/perfetto_export.c:374-392 | the head-only eviction loop is the machine's |
| `TrailingRing.Ring.WriteAt` | src/perfetto_export.c:419-453 | one offered packet fails to be wrapped, is skipped, fails to be stored or is stored, in this order, as in the machine |
| `TrailingRing.Ring.PruneAll` | src/perfetto_export.c:394-417 | pruning leaves exactly the packets at or after the cutoff, in order, and the byte count exact |
| `OverviewRuns.EveryRunKeepsInvariant` | src/perfetto_export.c:2261-2460 | after any observations, queueings and flushes: order, limits, what slots remember and where sockets came from |
| `OverviewRuns.WrittenOnceInOrder` | src/perfetto_export.c:2261-2460 | in every run written and queued events are all arrivals, each once and in order, within both limits; a final flush leaves none |
| `OverviewRuns.SlotNamesAreUnanimous` | src/perfetto_export.c:2261-2407 | a socket taken from an owner slot was named by an observation of that very packet and direction, and no observation of it made while the event was queued named another, for any hash and any collisions |
| `OverviewWrites.EveryWriteIsTold` | src/perfetto_export.c:2261-2340 | in every run every event is written with the socket it names itself; if it names none, it is ambiguous, or has the socket of its slot or of its flow, each exactly under the conditions on the slot and flow of that moment (same packet and direction within a window, not collided; usable slot, known direction, same local endpoint, unambiguous flow), and none if no condition holds; so too the events written without being queued |
| `OverviewWrites.FlushExactly` | src/perfetto_export.c:2342-2351 | a flush writes the events at the front up to the first that is less than a window old, or all |
| `OverviewWrites.EnqueueWrites` | src/perfetto_export.c:2409-2460 | queueing an event writes the fewest of the oldest events that leave room for it, then those at the front that are due, the new one included, and no others |
| `OverviewWrites.RefusedWrites` | src/perfetto_export.c:2422-2431 | an event that is too large or gets no memory is written at once, behind everything in the queue |
| `OverviewWrites.EnqueueExactly` | src/perfetto_export.c:2409-2460 | an event is queued with its own time, packet, direction, socket, flow and local endpoint, and written without being queued only if it is too large or gets no memory |
| `OverviewWrites.ObserveWrites` | src/perfetto_export.c:2364-2407 | an observation writes the events at the front that its time makes due, and no others |
| `OverviewWrites.ObserveExactly` | src/perfetto_export.c:2364-2407 | an observed packet gives up an outdated slot unless a queued event refers to it; a name fills a free slot, and otherwise is kept, contradicts or collides, and is never forgotten; all other slots stay |
| `OverviewQueue.Queue.WriteHead` | src/perfetto_export.c:2261-2340 | the head is written with the socket it resolves to and leaves the queue |
| `OverviewQueue.Queue.FlushDue` | src/perfetto_export.c:2342-2351 | the flush loop is the machine's |
| `OverviewQueue.Queue.IsSlotPending` | src/perfetto_export.c:2353-2362 | the scan says whether any queued event uses the slot |
| `OverviewQueue.Queue.ObserveDetail` | src/perfetto_export.c:2364-2407 | expiry, conflict and collision marking as in the machine |
| `OverviewQueue.Queue.QueueEvent` | src/perfetto_export.c:2409-2460 | making room, queueing or writing at once as in the machine |
| `FlowTable.LookupMeaning` | src/perfetto_export.c:1052-1078 | a lookup says absent exactly when no flow is exact or a candidate, and falls back on a candidate only when no flow is exact |
| `FlowMeaning.LookupExactly` | src/perfetto_export.c:1052-1078 | a lookup finds a flow if and only if it is the only exact one, or none is exact and it is the only candidate; it is ambiguous if and only if two are exact, or none is and two are candidates; it says absent otherwise |
| `FlowMeaning.TouchExactly` | src/perfetto_export.c:1503-1627 | an event extends the flow it belongs to and tells it the socket, and nothing else; an ambiguous one changes nothing; any other opens a flow that starts with it if there is memory |
| `FlowMeaning.FinishExactly` | src/perfetto_export.c:1396-1464 | a flow ends no earlier than its last activity and its start, and only once; only the destruction of its socket marks it closed |
| `FlowMeaning.EndsExactly` | src/perfetto_export.c:3734-3741 | which flows each operation ends, and when: those of the destroyed socket, UDP flows idle for thirty seconds as of the end of these, and all at close |
| `FlowTable.SocketNeverChanges` | src/perfetto_export.c:1466-1627 | from any point of any run on, a flow keeps the socket it has, its endpoints and its start, and the ambiguity mark is never set |
| `FlowTable.ActiveFlowsHaveDistinctSockets` | src/perfetto_export.c:1052-1097 | in every run whose event times never go backwards two active flows with the same tuple and namespace have distinct non-zero sockets |
| `FlowTable.TouchDistinguishesExactly` | src/perfetto_export.c:1503-1539 | one event of any time keeps active flows apart if and only if it does not open a flow beside a later one that its socket cannot tell from it |
| `FlowTable.DistinguishedExactly` | src/perfetto_export.c:1503-1627 | for every run, in whatever order its times come, active flows are apart at all its points if and only if no event opened a flow where it clashes |
| `FlowTable.BackwardTimeBreaksIt` | src/perfetto_export.c:1052-1097 | two events in backward order leave two active flows with one socket |
| `FlowTable.Table.Find` | src/perfetto_export.c:1052-1078 | the single pass gives the exact, the only candidate, absent or ambiguous |
| `FlowTable.Table.TouchFlow` | src/perfetto_export.c:1503-1539 | an event extends, binds, opens or leaves a flow as in the machine, and is told its flow |
| `FlowTable.Table.FromPacket` | src/perfetto_export.c:1566-1627 | a packet does the same unless it is terminal; a terminal one changes nothing and may refer back to one destroyed flow |
| `FlowTable.Table.LookBack` | src/perfetto_export.c:1129-1147 | the scan gives the destroyed flow of the connection, or nothing |
| `FlowTable.DestroyedMeaning` | src/perfetto_export.c:1129-1147 | a destroyed flow is named if and only if it is the only one that fits |
| `FlowTable.Table.FinishMatching` | src/perfetto_export.c:3734-3741 | the finishing loops (socket destruction, idle timeout, close) end exactly the flows they match |
| `PendingIo.EveryRunKeepsInvariant` | src/perfetto_export.c:1629-1988 | after any starts, returns, links and closes: pairing, exclusion and the rules of ambiguity |
| `PendingIo.StartsAndEndsPair` | src/perfetto_export.c:1765-1951 | in every run each activated call has emitted one start and at most one end behind it; after close exactly one end, and nothing is open |
| `PendingIo.OpenCallsAreExclusive` | src/perfetto_export.c:1629-1685 | in every run open calls differ in function or thread and in thread, socket or direction |
| `PendingIo.AmbiguityIsFinal` | src/perfetto_export.c:1765-1988 | from any point of any run to any later point an open ambiguous call is still open and ambiguous without a flow, or has ended naming none and charging nothing |
| `IoMeaning.EveryRunTellsLinks` | src/perfetto_export.c:1978-1988 | in every run an open call has the one flow that all its associations named, and is ambiguous exactly when they named two |
| `IoMeaning.EndExactly` | src/perfetto_export.c:1765-1890 | the end record of an open call charges its own flow while that is active, else, for an unambiguous TCP call, the active flow of its socket, else none; it names the flow charged or the one associated, is ambiguous exactly when its associations named two, and charges a positive result and nothing else |
| `IoMeaning.ReturnExactly` | src/perfetto_export.c:1765-1890 | a return ends the open call of its function and thread with its result, and does nothing without one |
| `IoMeaning.StartExactly` | src/perfetto_export.c:1892-1951 | a repeated entry does nothing; any other ends an unfinished call of its function and thread as incomplete and starts a call in a free or new slot, unless the thread is already in the same operation on the same socket or there is no memory |
| `PendingIo.Table.FindCall` | src/perfetto_export.c:1629-1638 | the first open call of function and thread |
| `PendingIo.Table.FinishCall` | src/perfetto_export.c:1765-1890 | an open call gets its last chance of a flow and emits its end |
| `PendingIo.Table.StartCall` | src/perfetto_export.c:1892-1951 | a repeated entry is ignored, an unfinished call is ended as incomplete, a nested one is not started |
| `PendingIo.Table.LinkFlow` | src/perfetto_export.c:1978-1988 | the association loop binds matching calls or marks them ambiguous |
| `PendingIo.Table.CloseAll` | src/perfetto_export.c:3874-3875 | the closing loop ends every open call |
| `TrafficRows.UniqueFlows` | src/traffic.c:110-129 | sorting and compacting in place leave one row a key, in key order, each a row of that key that no other is newer than, and touch nothing behind the rows |
| `TrafficRows.Compact` | src/traffic.c:115-128 | the compaction loop computes the fold of the rows, whatever their order |
| `TrafficRows.UniqueKeepsNewest` | src/traffic.c:110-129 | this holds for every sorted input, in whatever order the sort left equal keys |
| `TrafficRecords.TotalsNeverDecrease` | src/traffic_history.c:80-107 | no row, be it a reset counter, a new or a late old generation, lowers a record's totals |
| `TrafficRecords.RunGrows` | src/traffic_history.c:54-109 | from any point of any run on, records stay where they are, keep their keys and never lose any of their totals |
| `TrafficRecords.TotalIsSumOfDeltas` | src/traffic.c:148-168 | for a key sampled every round with all samples valid the total is the sum of the reported deltas, across generation changes |
| `TrafficRecords.RunRingAgrees` | src/traffic_history.c:33-51 | in every run each slot of the last sixty rounds since a record's birth holds what was last accepted in that round, or nothing, and never a value sixty rounds old |
| `TrafficRecords.RunFramesAgree` | src/traffic_history.c:36-41 | in every run the frame of each of the last sixty rounds is the heading of that very round |
| `TrafficTotals.EveryRunAttributes` | src/traffic_history.c:54-109 | in every run each record is what its own rows make it, whatever came in between for other keys, and nothing is turned away while there is room |
| `TrafficTotals.ArchivedExactly` | src/traffic_history.c:42-50 | in every run the records marked archived are exactly those that no row has come for since the last round began |
| `TrafficTotals.StoredTotalIsSumOfDeltas` | src/traffic.c:400-421 | in every run a stored key whose rows came from one valid sample a round has a total equal to the sum of its deltas |
| `TrafficTotals.StoresFirstKeys` | src/traffic_history.c:72-79 | in every run the keys stored are the first that came, up to the capacity |
| `TrafficPeaks.TotalsArePeaks` | src/traffic_history.c:80-107 | in every run the totals of a key whose rows carry a generation are the sums of the highest counters of its successive generations, and its mark is valid if and only if the last row was sampled validly, of the newest generation and below no earlier counter of it |
| `TrafficPeaks.RowsAreNoted` | src/traffic_history.c:80-107 | in every run such a row is noted in the ring with its deltas and as valid exactly when it is sound, and not at all if its generation was already replaced |
| `TrafficPeaks.RowsAreShown` | src/traffic_history.c:54-109 | a row is shown by the record of its key, a new one born in this round if there was none and there is room, and by no other; a late row shows nothing, and one without a record marks the table full |
| `TrafficPeaks.RoundsAreShown` | src/traffic_history.c:33-51 | a new round resets the rates, marks every record as archived and dates its idle time from its last row; totals and all else stay |
| `TrafficPeaks.DeltaExactly` | src/traffic.c:148-168 | a delta is a gap exactly when the counters fell or belong to a generation that did not begin since the last sample; otherwise it is their growth, or all of them for a new generation |
| `TrafficPeaks.RowExactly` | src/traffic.c:400-421 | a row carries what was read, its deltas, rates that give the deltas back over the interval, and the time since the counters last moved; it is valid unless there is a gap |
| `TrafficIndex.FreeSlotExists` | src/traffic_history.c:8-24 | more slots than records leave one free |
| `TrafficIndex.ProbeStops` | src/traffic_history.c:63-71 | probing meets a free slot before it has gone around |
| `TrafficIndex.FreeSlotMeansAbsent` | src/traffic_history.c:63-71 | a free slot on the way proves that the key is stored nowhere |
| `TrafficIndex.EnterKeepsIndex` | src/traffic_history.c:76-79 | a new key entered where its probing ended leaves every key reachable |
| `TrafficIndex.Search` | src/traffic_history.c:63-71 | the probing loop ends, with a record of the key or at a free slot reached past other keys only |
| `TrafficIndex.History.Locate` | src/traffic_history.c:63-71 | probing gives the record of the key, or nothing exactly when it is absent, and the slot where it belongs |
| `TrafficIndex.History.UpdateRow` | src/traffic_history.c:54-109 | an update does what the map of keys says; a stored key keeps its record; nothing is returned exactly when the key is absent and the table full |
| `TrafficIndex.History.BeginSamples` | src/traffic_history.c:33-51 | a round writes its frame, clears one slot of every record's ring, resets the rates, marks every record archived and dates its idle time |
| `Wakeup.EveryEntryIsExplained` | src/progs/network_wakeup.h:129-247 | in every reachable table each entry goes back to a lookup by its very task and to the last waking, wakeup and switch-in since, with nothing after them that would have reset it |
| `Wakeup.ObservedExactlyWhenChained` | src/progs/network_wakeup.h:129-277 | a snapshot reports status 2 if and only if the trace holds, for the asking task and since its entry was made, the last waking, then the last wakeup before a switch-in, then the last switch-in, in time and with no reset since |
| `Wakeup.ObservedWakeupsAreGenuine` | src/progs/network_wakeup.h:129-277 | a status 2 report names a waking, a wakeup and a switch-in of this same task in this order, under reuse of thread ids and eviction; it has no later switch-out if and only if the task passed the filter at every switch-out since that waking |
| `Wakeup.ObservedWakeupsAreReal` | src/progs/network_wakeup.h:129-277 | for a task that stays inside the filter such a report has no waking and no switch-out of the thread id afterwards |
| `Wakeup.RunningExactly` | src/progs/network_wakeup.h:249-265 | a snapshot tells since when its task runs if and only if the task is a known one inside the filter that was switched in before the call and not reset since, and then it tells that moment and processor |
| `Wakeup.WakerExactly` | src/progs/network_wakeup.h:188-203 | a waker is named only if the waking ran in task context and the task is known |
| `Wakeup.EntriesAreOfKnownTasks` | src/progs/network_wakeup.h:129-155 | in every run an entry was made for a known task when that task was looked up inside the filter |
| `Wakeup.OutsideTheFilterEvidenceIsStale` | src/progs/network_wakeup.h:139-143 | under the same assumptions on thread ids and switches, a task that leaves while outside the filter is later reported with its old waking and wakeup though a switch-out came after them |
| `Wakeup.Programs.FindCurrent` | src/progs/network_wakeup.h:129-155 | the entry of the current task is found, made, refused or lost |
| `Wakeup.Programs.SchedWaking` | src/progs/network_wakeup.h:174-206 | a waking resets the entry and names its waker only in task context |
| `Wakeup.Programs.SchedWakeup` | src/progs/network_wakeup.h:208-223 | a wakeup counts only after a waking and before a switch-in |
| `Wakeup.Programs.SchedSwitch` | src/progs/network_wakeup.h:225-247 | a switch clears the leaving task and dates the entering one |
| `Wakeup.Programs.TakeSnapshot` | src/progs/network_wakeup.h:249-277 | the report is that of the table, which changes as the lookup changes it |
| `PacketIdentity.GenerationCountsAdds` | src/progs/core.c:695-709 | in every interleaving an assigned generation is the number of adds before its read, modulo 2^32 |
| `PacketIdentity.LaterIsLargerExactly` | src/progs/core.c:695-709 | two generations differ by the adds between their reads; barring wrap the later is larger if and only if some processor added in between |
| `PacketLifetimes.NewGenerationsRise` | src/progs/core.c:694-709 | if calls for an address do not overlap and the counter does not wrap, generations newly assigned to it strictly increase, whatever other processors add between add and read and whatever is evicted or refused |
| `PacketLifetimes.ResultsAreTheLatest` | src/progs/core.c:690-718 | in every such run, whatever is evicted or refused, stored generations rise, every result is zero or the generation stored last, and the instance in the table is that one, released exactly when the address ended since |
| `PacketLifetimes.ResultsFitExactly` | src/progs/core.c:690-718 | in every such run each non-zero result names an instance stored with its head and not ended before the call began (unless the call is a release) if and only if no call, having drawn a number, found another one in the table |
| `PacketLifetimes.LifetimesNeverShare` | src/progs/core.c:690-718 | then, if no call was left with an instance it could not use, results never go back, an equal generation means the same head, and results on two sides of a release never share one |
| `PacketLifetimes.SplitLifetimesDiffer` | src/progs/core.c:690-718 | in such a run the later of two results with different heads, or with a release between them, has the larger generation |
| `PacketReuse.BeginExactly` | src/progs/core.c:690-709 | in every run without overlap or wrap a call reuses the instance stored last if and only if that is in the table, has its head and has not ended (unless the call is a release); otherwise it goes on to draw a number |
| `PacketReuse.FinishReleasesExactly` | src/progs/core.c:710-718 | a call releases the instance it finds exactly when it is a release or the last consumer, and leaves the rest of it alone |
| `PacketReuse.RetireExactly` | src/progs/core.c:1099-1105 | retiring an address releases its instance, if there is one, and nothing else |
| `PacketReuse.SameLifetimeSameGeneration` | src/progs/core.c:690-718 | a call that finds the instance of an earlier result usable returns the same generation |
| `PacketPrograms.ScriptIsWhole` | src/progs/core.c:690-718 | the steps of an uninterrupted call amount to the sequential program |
| `PacketPrograms.FitsUnlessRefusedBesideOld` | src/progs/core.c:695-711 | after an uninterrupted call the results still fit if and only if they did and it is not the case that the call needed a fresh instance, the table refused it and held an old one |
| `PacketPrograms.RefusalSharesAGeneration` | src/progs/core.c:703-711 | a refused instance makes the same generation stand on both sides of a release |
| `PacketPrograms.OverlapDrawsOneNumberTwice` | src/progs/core.c:695-706 | two overlapping calls for one address are assigned the same generation |
| `PacketPrograms.EveryRunRemembers` | src/progs/core.c:214-229 | in every run an instance remembers exactly what the submissions since it was stored say |
| `PacketPrograms.EventsNameOnlyAgreedCalls` | src/progs/core.c:214-253 | in every run an event names a submitting call exactly when all submissions recorded on the stored instance agree on it |
| `Submission.RememberedMeaning` | src/progs/core.c:214-229 | the first submission with a start is remembered, and the multiple mark is set if and only if a later one disagrees |
| `Submission.ReportsOnlyWhatAllAgreeOn` | src/progs/core.c:231-253 | what an event reports, told from the list of submissions alone |
| `Submission.SameCallExactly` | src/progs/core.c:214-223 | two submissions agree if and only if start, task and socket are all the same |
| `PacketPrograms.Tables.PacketGeneration` | src/progs/core.c:690-718 | the program's updates are those of the whole call and its result is the one logged |
| `PacketPrograms.Tables.RetirePacket` | src/progs/core.c:1099-1105 | the instance of an address is marked released if there is one |
| `PacketPrograms.Tables.RememberSubmission` | src/progs/core.c:214-229 | a disagreeing submission sets the sticky mark, another is remembered |
| `PacketPrograms.Tables.ApplySubmission` | src/progs/core.c:231-253 | the event gets what the instance remembers |
| `RateLimit.AdmissionsAreBounded` | src/progs/core.c:378-405 | for every run with positive limit L whose clock never goes back, admitted * 10^9 <= L * 10^9 + L * nanoseconds since the first call, despite flooring, the cap, 64-bit wrap and the cut to an int |
| `RateLimit.RefillIsEarned` | src/progs/core.c:393-395 | a refill is never more than the time was worth |
| `RateLimit.RefillExactly` | src/progs/core.c:392-399 | with an empty budget a call is admitted exactly when the low 32 bits of what the time was worth, in 64-bit arithmetic, make a positive int |
| `RateLimit.RefillIsGranted` | src/progs/core.c:392-399 | a refill grants what the time was worth, cut to an int and capped at the limit; a call on an empty budget is admitted if and only if that is positive, and takes one of it |
| `RateLimit.RefillIsSpent` | src/progs/core.c:390-402 | a refill that grants n calls admits the call that asked and exactly the next n - 1, whenever they come; then the budget is empty |
| `RateLimit.RejectionsCostNothing` | src/progs/core.c:390-402 | calls that are turned away change nothing: the time goes on counting from the last refill |
| `RateLimit.LongSilenceIsTurnedAway` | src/progs/core.c:392-397 | at every limit: a burst uses the budget up, and the next call comes after a silence worth more than the limit and is turned away |
| `RateLimit.BurstIsAdmitted` | src/trace.c:869 | the first calls up to the limit are all admitted |
| `RateLimit.EdgeLimits` | src/progs/core.c:381-397 | no limit admits every call; a limit that does not fit an int admits none |
| `RateLimit.Limiter.Check` | src/progs/core.c:378-405 | the program admits and changes its fields as the machine says |

## Left out

- BPF loading and attaching, kernel structure reads, header parsing, argument parsing, terminal rendering, the Perfetto child process and the host tools.
- Files, pipes, clocks, malloc results, map updates and evictions are inputs; read and write errors of the trimmer and its allocation failures are not modelled.
- Counters, sizes and timestamps are unbounded except where a width is named (varints, field numbers, record headers, packet generations, the rate limiter); 64-bit wrap of byte totals and sums of times is not modelled.
- Hashes of identities are abstract and injective; the owner slots of the overview queue are a modulo of an arbitrary hash, and the slot of the RX gate and the FNV index of the traffic history are the program's own.
- JSONL text, annotation lists, native tracks, overview counters and names; the output of the exporter is a log of abstract records.
- The owner and task fields and the packet counts of flows, pending syscalls and their flow binding.
- Rounding of rates and idle times, which are real numbers here, and display order in the traffic sampler; the process rows, which are compacted like the flow rows; qsort is any method that leaves the same rows in order.
- One critical section or one export of the capture queue is one step, the mutex and condition variable have their POSIX meaning, and nothing is pushed once stop has returned and the queue is gone.
- BPF handlers are one step each, apart from the packet generation call, whose lookup, add, read, update and final lookup are separate steps; a pointer into an evicted map entry is not followed, and the wakeup programs are taken as enabled throughout.
- The bits of the preemption count that classify a waking context are an input; the lookup of the packet counter, a one-element array, is taken not to fail.
- PacketLifetimes.LifetimesNeverShare: asks that calls for the address do not overlap; overlapping calls are the subject of `PacketPrograms.OverlapDrawsOneNumberTwice` and `PacketIdentity.LaterIsLargerExactly`.
- OverviewRuns.SlotNamesAreUnanimous: an observation made in the same call as an expiry flush counts after that flush, which is the order in which the program acts.
- TrafficPeaks.TotalsArePeaks: speaks of rows whose generation, the kernel's time of the first byte, is not zero, because the program takes zero for "none yet"; `TrafficTotals.EveryRunAttributes` covers all rows.

# gmv: a verified model

gmv is a GB28181 video platform with two halves: `session` (SIP signalling) and `stream` (RTP media). This
project models the state machines at its core in Dafny and proves what each keeps over all inputs, runs and
interleavings. `dafny verify dfyconfig.toml` checks everything.

## The parts

**RTP to access units** (`stream/src/media/rtp.rs`). `ReorderRing` is the 1024-slot ring as values; its meaning is a
sorted map keyed by unwrapped sequence number, and whole runs of the ring are runs of that map. `StartCodes`,
`NalPayloads`, `Depacketizers` and `AacPayloads` are the payload formats, each with the packing it undoes and an
exact round trip. `AccessUnits` is the assembler with its loss marking and keyframe gate; it keeps a log of every
decision, so that conservation and gating are statements about whole inputs; `PacketLosses` says what becomes of
each flagged loss. `RtpPipeline` joins formats and assembler. `RtpBuffers.RtpPacketBuffer` is the source's struct
with its fields and loops: every method is tied to those value functions, and ghost fields carry the history of
arrivals, deliveries, units and chunks. `StreamNumbers` gives every packet of an input its unwrapped number and says
which inputs always fit the window; `RtpReader` has the end-to-end statements, what a reader gets.

**The durable SIP dialog** (`session/src/storage/dialog_session.rs`). `DialogSessions` has the record, its validation,
the six atomic updates with their SQL guards, and what any sequence of calls keeps; `DialogColumns` says where each
column comes from, `DialogValidation` which records and calls are accepted. `DialogProtocol` adds the actors of
`command.rs`, `api_serv.rs`, `dialog_recovery.rs`, `stream_close.rs` and `hook_serv.rs`, each a read followed later by
a compare-and-swap, under every interleaving; a request of a restored dialog then reads the record again and is sent
with the number it finds. `DialogActors` says what each actor does when undisturbed. `DialogRecovery` is the paging
loop of startup recovery with the decision for each dialog.

**Device routing** (`session/src/register/network.rs`). `Networks.Network` keeps device-to-session and
association-to-device in agreement and makes delayed cleanup safe by a generation token.

**Closing streams and talks** (`session/src/state/session.rs`, `service/stream_close.rs`, `service/talk_close.rs`).
`CloseProtocol` is one automaton per close generation: it starts once, BYEs go out one at a time, it ends once.
`StreamClosing.StreamCache` and `TalkClosing.TalkCache` are two implementations of it, with deadlines.
`CloseCallers` interleaves any number of callers of `begin`, step by step, with everything else.

**Smaller protocols.** `TcpFraming` (RTP over TCP), `SsrcSequences` (the cyclic allocator and the decimal form of an
SSRC), `UnknownStreams` (notification rate limiting), `AuthLocks` (ordered locking in the authorization cache).

`Wrappers`, `Bytes` and `SortedKeys` are shared basics. Octets are numbers below 256, and masks and shifts are
written as division and remainder by powers of two. A channel is the sequence of packets still to come, closed once
it is used up. Clocks are numbers supplied from outside; where two things may come first, both orders are allowed.

## What the code does not guarantee

Each of these is stated as an exact condition or shown by a concrete case in the project.

- Packets 1024 or more ahead of the expected sequence number are delivered out of order or overwritten
  (`FittingIsExactlySafe`, `WideWindowMisorders`).
- A packet below the least number of the initial batch that arrives after it is dropped, and no delivery is flagged
  for it (`StreamAccountedFor`, `PacketBelowTheStartIsLost`).
- An H.265 NAL unit of its two header bytes alone (end of sequence, end of bitstream), sent as a single NAL unit, is
  dropped although RFC 7798 allows it (`SingleUnitsNeedThreeBytes`, `EndOfSequenceIsDropped`).
- An AAC packet of 4095 access units is taken for ADTS, and the 13-bit frame length silently wraps for units above
  8184 bytes (`AacRoundTrip`); seven channels are announced as eight (`ChannelsAreRightIff`). An aggregation packet's
  single trailing byte is ignored (`AggregationIsExact`).
- A TCP frame shorter than 12 bytes stays in the buffer until more bytes follow it (`RoundTripIsExact`).
- A flagged loss in raw video leaves the keyframe gate open in all but two cases (`LossClosesTheGateIff`): when a
  tail is missing (`IncompleteDropDoesNotGate`), when a head is missing (`HeadLossPasses`), and when the damage is
  forgotten before new data (`ForgottenDamagePasses`, `MarkerForgetsDamage`). The rest of a unit whose head was lost
  is then handed on as a whole one (`RestOfUnitIff`). In program streams only empty payloads can make damage
  forgotten (`NoTornUnits`, `EmptyPayloadForgetsDamage`).
- `can_transition_to` allows INVITING to ESTABLISHED, which produces a record that fails `validate`
  (`ValidityIsExact`); no caller asks for it (`ActorsBehave`).
- On a restored dialog, requests whose reservations both come before a reload are sent with the same CSeq, and a
  reserved number is never used (`RequestCarriesReloadedNumber`, `ConcurrentRequestsCollide`).
- Any update between a BYE's reservation and its confirmation makes the confirmed stop fail
  (`ByeIsRecordedIffUndisturbed`, `TouchSpoilsTheBye`).
- `insert` over a connected device that comes over another association leaves a stale route (`InsertIsExact`), and a
  cleanup token outlives the session entry (`TokenOutlivesTheEntry`): it is harmless to a later entry exactly when
  that one begins with a higher generation (`TokenOfEarlierLife`), which `insert` does not see to.
- A restored stream that starts to close while its device is absent never gets a deadline, and no other close lacks
  one once `begin` is done with it (`BeginClose`, `QuietMeansCovered`, `WaivedForGood`). A deadline scheduled for a
  close that ended meanwhile (`LivenessIsExact`, `DeadlineMayOutliveItsClose`) stays until it fires, doing nothing
  (`StaleDeadlineDoesNothing`).
- The unknown-stream expiry looks and removes in two steps; a packet in between breaks the 30-second spacing
  (`InterruptedExpiryNotifiesTwice`). A removal is harmless exactly when the last notification is at least 28 seconds
  old (`RemovalIsHarmlessIff`).
- Invalidating a device's authorization while it is being loaded admits a second loader
  (`InvalidationAdmitsTwoLoaders`), and stays a danger exactly until every lock in use is the table's again
  (`LoadsStayExclusiveIff`).

## Model

| member | source | states |
|---|---|---|
| ReorderRing.CountIsFilledSlots | stream/src/media/rtp.rs:445-487 | On any input, with no assumption on it, the count field is the number of filled slots after an arrival, an initial arrival and a delivery |
| ReorderRing.TakeFindsPacket | stream/src/media/rtp.rs:493-562 | A delivery finds a packet exactly when the count is positive, so the slot scan never comes back empty-handed |
| ReorderRing.ArriveRefines | stream/src/media/rtp.rs:463-487 | Within the window an arrival is an insertion into a map keyed by unwrapped sequence number: old numbers and duplicates change nothing, no other packet is overwritten |
| ReorderRing.TakeRefines | stream/src/media/rtp.rs:533-562 | A delivery removes the least unwrapped number, and is flagged lost exactly when that number exceeds the expected one |
| ReorderRing.RingSorts | stream/src/media/rtp.rs:445-562 | Every run whose arrivals fit the window delivers exactly what the sorted map delivers, with the same loss flags, and holds exactly what the map still holds |
| ReorderRing.RunsStaySorted | stream/src/media/rtp.rs:463-562 | Deliveries are the accepted packets below the expected number, once each, strictly ascending, flagged lost exactly at the gaps |
| ReorderRing.DeliveriesInSerialOrder | stream/src/media/rtp.rs:147-149 | Consecutive deliveries are in serial order across the 16-bit wrap; a flag is set exactly when the predecessor is not the previous number |
| ReorderRing.SerialOrder | stream/src/media/rtp.rs:147-149 | Of two different 16-bit numbers exactly one comes before the other, unless they lie half a cycle apart, when neither does; an arrival is old exactly when it comes before the expected number |
| ReorderRing.ArrivalOrderDoesNotMatter | stream/src/media/rtp.rs:463-562 | Once nothing is pending, the deliveries depend only on which packets were accepted |
| ReorderRing.InitialBatchViews | stream/src/media/rtp.rs:200-206 | An initial batch within one window of 1024 numbers, in any order, starts the ring at its least number in serial order, first arrivals kept |
| ReorderRing.WindowIsExact | stream/src/media/rtp.rs:463-487 | An accepted arrival leaves the slots a view of the sorted map if and only if it lies less than 1024 ahead of the expected number |
| ReorderRing.FittingIsExactlySafe | stream/src/media/rtp.rs:463-562 | An arrival overwrites no packet, and lets every fitting continuation deliver in serial order without overwriting any, if and only if it lies less than 1024 ahead of the expected number (or is old) |
| ReorderRing.WideWindowMisorders | stream/src/media/rtp.rs:545-562 | A packet 1024 ahead is delivered before one 5 ahead: the window hypothesis is needed |
| StartCodes.ScanStartCode | stream/src/media/rtp.rs:921-933 | The loop finds the first three- or four-byte start code from a position on |
| StartCodes.ScanAccessUnit | stream/src/media/rtp.rs:898-919 | The loop answers whether any NAL unit between start codes satisfies the predicate, as the recursive scan defines it |
| StartCodes.ScanIsExact | stream/src/media/rtp.rs:885-933 | On start codes followed by NAL units free of 00 00 01 the scan is true if and only if a listed NAL unit satisfies the predicate |
| StartCodes.KeyframeBytes | stream/src/media/rtp.rs:885-896 | The first bytes that make a NAL unit a keyframe: those of an H.264 IDR slice, and of H.265 IDR_W_RADL, IDR_N_LP and CRA slices of at least two bytes |
| StartCodes.FindIsFirst | stream/src/media/rtp.rs:921-933 | What the search finds is the first place from there on where a start code begins, with four bytes when it has four; nothing is found exactly when there is none |
| StartCodes.ScanIff | stream/src/media/rtp.rs:898-933 | In any buffer with start codes, long and short mixed as may be, the scan is true if and only if a NAL unit between two of them, or behind the last, satisfies the predicate; a buffer without any counts as one NAL unit |
| AccessUnits.BytesAreConserved | stream/src/media/rtp.rs:260-423 | Over any input, whatever is lost or dropped, the logged stretches followed by the pending buffer are the depacketized bytes in order |
| AccessUnits.UnitsAreRuns | stream/src/media/rtp.rs:317-423 | Every emitted access unit is the data of a consecutive run of deliveries with one timestamp and no loss inside; the runs are disjoint and in order, and what is pending is the open run after them; a run's first packet is flagged, or a unit boundary is seen just before it; no emitted run begins with a flagged packet directly after unfinished data of its timestamp |
| AccessUnits.LosslessInputIsWhole | stream/src/media/rtp.rs:260-362 | Outside raw video, when no loss is flagged, the emitted units plus the pending buffer are all the payload bytes |
| AccessUnits.PacketsAreUnits | stream/src/media/rtp.rs:287-305 | AAC and G.711: the data of every packet is handed on as a unit of its own, in order, whatever is flagged lost |
| AccessUnits.IntactUnitGetsThrough | stream/src/media/rtp.rs:317-389 | An intact unit is handed on whole with its marker packet, unless a keyframe is awaited and it holds none; a unit without data leaves no trace |
| AccessUnits.RunsStayGated | stream/src/media/rtp.rs:335-423 | The gate flag is a function of the log alone: closed exactly when nothing was emitted since the start or since the last damaged drop or fragment loss; units dropped at the gate hold no keyframe and were dropped only while it was closed |
| AccessUnits.FirstUnitIsKeyframe | stream/src/media/rtp.rs:364-423 | The first unit ever emitted, and the first after any damaged-unit drop or fragment loss, contains a keyframe NAL unit |
| AccessUnits.UnitIsFinished | stream/src/media/rtp.rs:317-389 | The packets of a unit that are all there, from a state that holds nothing, are dropped together if the unit is known to be damaged, else handed on whole subject to the gate |
| PacketLosses.LossClosesTheGateIff | stream/src/media/rtp.rs:391-423 | Over every run, for every flagged loss: it closes the gate if and only if nothing but an unfinished fragment is held, or data of the packet's own timestamp is held and the damage is noticed, which is a condition on the inputs that follow: the unit ends with new data in it, every further loss before that being one of its timestamp that found new data, or such a loss finds nothing but an unfinished fragment |
| PacketLosses.RestOfUnitIff | stream/src/media/rtp.rs:335-423 | For every grouped payload kind, program streams and passthrough included: what follows a flagged packet up to the marker is dropped as damaged if and only if data of its timestamp was held at the loss; otherwise it is handed on as a whole unit, for raw video subject to the gate; with the events of the loss itself |
| PacketLosses.TornUnitsAreFlagged | stream/src/media/rtp.rs:317-423 | Over every run of every grouped kind, an emitted unit that lacks earlier delivered data of its timestamp has a flagged first packet |
| PacketLosses.NoTornUnits | stream/src/media/rtp.rs:391-423 | Where every packet has data, as in program streams and passthrough: no emitted unit lacks earlier data of its timestamp that had been delivered just before it |
| PacketLosses.EmptyPayloadForgetsDamage | stream/src/media/rtp.rs:395-401 | In a program stream an empty payload between two flagged packets makes the damage forgotten, and the tail passes as a whole unit |
| PacketLosses.IncompleteDropDoesNotGate | stream/src/media/rtp.rs:403-417 | A tail is missing (the next packet has another timestamp): the gate stays open and a unit without keyframe passes next |
| PacketLosses.HeadLossPasses | stream/src/media/rtp.rs:391-401 | A head is missing: the rest of the unit passes as a whole one, and the loss leaves no trace |
| PacketLosses.ForgottenDamagePasses | stream/src/media/rtp.rs:395-401 | A second loss before any new data makes the damage forgotten, and the end of the unit passes as a whole one |
| PacketLosses.MarkerForgetsDamage | stream/src/media/rtp.rs:335-340 | So does the marker of a packet without data, and the next unit passes without a keyframe |
| NalPayloads.SplitAggregation | stream/src/media/rtp.rs:833-883 | The position loops of the two aggregation formats compute the recursive reading, rejections included |
| NalPayloads.AggregationIsExact | stream/src/media/rtp.rs:833-883 | An aggregation packet yields `out` if and only if it is a non-empty list of sized NAL units, up to one ignored trailing byte, and `out` is those units behind start codes |
| NalPayloads.FragmentsRejoin | stream/src/media/rtp.rs:665-701 | From any unfinished state the fragments of a NAL unit yield nothing until the last one, which yields the whole unit and clears the state |
| NalPayloads.KeptIff | stream/src/media/rtp.rs:665-701 | Over any fragments in any order: what is kept is exactly the open NAL unit (one start, then readable pieces without another start or an end), and nothing when there is none |
| NalPayloads.FragmentYieldsIff | stream/src/media/rtp.rs:665-701 | A NAL unit comes out exactly with the end of an open one, as start code, rebuilt header and pieces in order; an end without its start yields nothing |
| Depacketizers.FuHeadersRoundTrip | stream/src/media/rtp.rs:665-771 | Each fragmentation packet is read back with its flags, its rebuilt NAL header and its piece, for H.264 and for single-layer H.265 with non-zero temporal id |
| Depacketizers.CarrierRoundTrip | stream/src/media/rtp.rs:651-771 | Every legal carrier (single, aggregated, fragmented) fed in order from any unfinished state yields its NAL units behind start codes, with the last packet, if and only if it is not a bare two-byte H.265 header sent alone, which yields nothing |
| Depacketizers.CarriersRoundTrip | stream/src/media/rtp.rs:651-771 | Any mixture of legal carriers depacketizes to all its NAL units behind start codes, in order, without exactly the bare H.265 headers sent alone, leaving nothing unfinished |
| Depacketizers.SingleUnitsNeedThreeBytes | stream/src/media/rtp.rs:703-733 | A legal single H.265 NAL unit comes out if and only if it has at least three bytes; one of two bytes changes nothing |
| Depacketizers.EndOfSequenceIsDropped | stream/src/media/rtp.rs:703-707 | The legal end-of-sequence NAL unit, type 36, is dropped |
| Depacketizers.UnreadableIff | stream/src/media/rtp.rs:665-683 | A fragment cannot be read exactly when it is shorter than its headers and one byte, or marked as first and last at once |
| Depacketizers.H264Ignored | stream/src/media/rtp.rs:651-663 | The empty payload and every type but NAL units, STAP-A and FU-A change nothing |
| Depacketizers.H265Ignored | stream/src/media/rtp.rs:703-733 | Payloads below three bytes, of another layer, with temporal id zero, or of a type above 49 change nothing |
| AacPayloads.RewriteAac | stream/src/media/rtp.rs:773-823 | The access-unit loop computes the recursive reading, with its error exits; what that reading accepts and writes is `AcceptedIff` and `AacRoundTrip` |
| AacPayloads.AcceptedIff | stream/src/media/rtp.rs:773-823 | A packet that begins with the ADTS sync word is passed on as it is; any other is accepted if and only if the sample rate has an index and the packet carries access units as RFC 3640 lays them out (the AU-index bits and trailing bytes ignored), and then their ADTS frames come out in order |
| AacPayloads.IndexIsInTable | stream/src/media/rtp.rs:961-978 | The rate index is the place of the rate in the MPEG-4 table, for exactly the 13 rates in it |
| AacPayloads.PacketBecomesFrames | stream/src/media/rtp.rs:773-823 | A packet of n access units becomes n ADTS frames for every n except 4095, whose length word is taken for an ADTS sync word |
| AacPayloads.WalkIsExact | stream/src/media/rtp.rs:939-959 | A reader that walks by the 13-bit frame length finds one frame for each unit, announced as AAC LC at the configured rate and channel configuration, if and only if each has at most 8184 bytes |
| AacPayloads.AacRoundTrip | stream/src/media/rtp.rs:773-823 | An independent reader of the depacketized stream finds exactly the units put in, each announced as AAC LC, at the configured sample rate, with the channel count up to 7 as configuration, if and only if there are at most 4094 of them and each has at most 8184 bytes |
| AacPayloads.ChannelsAreRightIff | stream/src/media/rtp.rs:939-957 | The channel count is announced rightly exactly for up to six channels and for eight: configuration 7 means eight |
| RtpPipeline.LosslessStreamIsRestored | stream/src/media/rtp.rs:260-362 | For program streams, passthrough and G.711 without flagged loss: emitted units plus the pending buffer are all delivered payloads, and nothing is pending at the end of input |
| RtpPipeline.VideoUnitGetsThrough | stream/src/media/rtp.rs:260-389 | The packets of a raw-video access unit, whatever mixture of legal carriers, come out as one unit holding exactly its NAL units (bare H.265 headers sent alone left out), unless a keyframe is awaited and none of them is one |
| RtpPipeline.KeyframeOfStream | stream/src/media/rtp.rs:885-896 | A start-code stream counts as a keyframe unit exactly when one of its NAL units is a keyframe NAL unit |
| RtpPipeline.LossStartsAfresh | stream/src/media/rtp.rs:391-393 | After a flagged loss depacketizing depends on nothing before it: no NAL unit is put together from fragments on both sides of a loss |
| RtpPipeline.FragmentIsReported | stream/src/media/rtp.rs:391-393 | The assembler is told of an unfinished fragment exactly when one of the stream's own codec is kept |
| RtpPipeline.AacStreamIsRewritten | stream/src/media/rtp.rs:287-296 | A stream of AAC packets is handed on as their ADTS frames, packet by packet and in order, whatever is flagged lost |
| RtpBuffers.RtpPacketBuffer.Init | stream/src/media/rtp.rs:171-206 | A buffer is handed out once a full window (32 packets, 8 for audio) has been enqueued; the error is returned when the channel closes before that |
| RtpBuffers.RtpPacketBuffer.EnqueueInitial | stream/src/media/rtp.rs:445-461 | In place: the ring becomes what the value function says; the count stays the number of filled slots |
| RtpBuffers.RtpPacketBuffer.Enqueue | stream/src/media/rtp.rs:463-487 | In place: the ring becomes what the value function says; the count stays the number of filled slots |
| RtpBuffers.RtpPacketBuffer.ReducePacket | stream/src/media/rtp.rs:429-437 | Receives until the window is filled or the channel closes; answers which; never fills the ring beyond the window, and receives nothing when it is full |
| RtpBuffers.RtpPacketBuffer.TakeExpectedPacket | stream/src/media/rtp.rs:533-543 | Delivers the expected packet exactly when its slot holds that number, else changes nothing |
| RtpBuffers.RtpPacketBuffer.TakeFirstAvailablePacket | stream/src/media/rtp.rs:545-562 | Delivers the first filled slot going round from the expected one, with the number of slots gone past; nothing exactly when the ring is empty |
| RtpBuffers.RtpPacketBuffer.WaitUntilGapDeadline | stream/src/media/rtp.rs:593-626 | Answers whether the expected packet is there; gives up only at the watermark, at the deadline, or when the channel is closed |
| RtpBuffers.RtpPacketBuffer.WaitForGapPacket | stream/src/media/rtp.rs:572-591 | The growing phases add up to the whole waiting time: it gives up only at the watermark, on a closed channel, or after 80 ms (video) or 5 ms (audio) |
| RtpBuffers.RtpPacketBuffer.TakeNextPacket | stream/src/media/rtp.rs:493-531 | One delivery, appended to the history; a number is skipped only after the whole wait, at the watermark, or when nothing more will come; None exactly when the ring was empty |
| RtpBuffers.RtpPacketBuffer.DepacketizeH264FuA | stream/src/media/rtp.rs:665-701 | In place: result and unfinished fragment are those of the reassembly function |
| RtpBuffers.RtpPacketBuffer.DepacketizeH265Fu | stream/src/media/rtp.rs:735-771 | In place: result and unfinished fragment are those of the reassembly function |
| RtpBuffers.RtpPacketBuffer.DepacketizeH264Payload | stream/src/media/rtp.rs:651-663 | In place: the H.264 payload function |
| RtpBuffers.RtpPacketBuffer.DepacketizeH265Payload | stream/src/media/rtp.rs:703-733 | In place: the H.265 payload function |
| RtpBuffers.RtpPacketBuffer.ShouldOutputAccessUnit | stream/src/media/rtp.rs:364-389 | Passes a unit unless raw video awaits a keyframe and the unit has none; passing raw video opens the gate |
| RtpBuffers.RtpPacketBuffer.FinishAccessUnit | stream/src/media/rtp.rs:335-362 | In place: the assembler finishes its unit; the ready queue holds exactly what was emitted and not yet taken |
| RtpBuffers.RtpPacketBuffer.MarkPacketLoss | stream/src/media/rtp.rs:391-423 | In place: the assembler marks the loss and unfinished fragments are discarded |
| RtpBuffers.RtpPacketBuffer.AppendAccessUnit | stream/src/media/rtp.rs:317-333 | In place: the assembler appends, finishing a unit of another timestamp first and at a marker afterwards |
| RtpBuffers.RtpPacketBuffer.ProcessPacket | stream/src/media/rtp.rs:260-315 | The assembler and the unfinished fragments become those of the whole delivery history extended by this packet |
| RtpBuffers.RtpPacketBuffer.ConsumeRemaining | stream/src/media/rtp.rs:632-644 | Hands out `maxLen` bytes of what is at hand, or all of it when that is less; None exactly when nothing is |
| RtpBuffers.RtpPacketBuffer.ConsumeReadyAu | stream/src/media/rtp.rs:254-258 | Takes the next ready unit; None only when the queue is empty afterwards |
| RtpBuffers.RtpPacketBuffer.ConsumePacket | stream/src/media/rtp.rs:208-252 | Each chunk has `maxLen` bytes or ends its unit, is non-empty for a non-zero `maxLen` and continues the chunks before it; None comes exactly when channel, ring, ready queue, unit and remainder are all empty, and then keeps coming; it always returns |
| RtpReader.BufferSorts | stream/src/media/rtp.rs:200-562 | Between calls the buffer has delivered what the sorted map delivers and holds what it still holds |
| RtpReader.ConsumedIsEmitted | stream/src/media/rtp.rs:208-258 | Once everything is read, the chunks together are the emitted units of the assembler run over the deliveries, whatever the chunk sizes |
| RtpReader.ArrivalOrderDoesNotReachTheReader | stream/src/media/rtp.rs:208-562 | Two readers of which the same packets were accepted get the same bytes, whatever the arrival order, waiting times and chunk sizes |
| RtpReader.SortedPayloadsAreEmitted | stream/src/media/rtp.rs:260-362 | When nothing was given up on and nothing is pending, the accepted numbers are contiguous and the emitted units are together their payloads in sequence-number order |
| StreamNumbers.ArrivalsAreAccountedFor | stream/src/media/rtp.rs:463-487 | While no loss is flagged, every arrival has an unwrapped number, and that number is among the accepted ones if and only if it is not below the start |
| StreamNumbers.AcceptedCameFromArrivals | stream/src/media/rtp.rs:445-487 | Nothing is accepted but what was held before or arrived, under its own number |
| RtpReader.StreamAccountedFor | stream/src/media/rtp.rs:200-206 | The same for the initial batch and all arrivals after it together: every packet of the input, in order, with its number, is accepted if and only if its number is not below the least of the initial batch |
| RtpReader.LosslessStreamReachesTheReader | stream/src/media/rtp.rs:208-562 | Program streams, passthrough, G.711: when no delivery was flagged lost, the reader has got the payloads of the accepted numbers in order, from the least number of the initial batch on without a gap, and a packet of the input is among them if and only if its number is not below that start |
| RtpReader.PacketBelowTheStartIsLost | stream/src/media/rtp.rs:463-471 | The packet just below the initial batch, arriving after it, is refused without any loss being flagged |
| StreamNumbers.InitialBatchFits | stream/src/media/rtp.rs:200-206 | The initial batch of a stream of distinct numbers, each at most 204 places from its position, lies in one window of 1024 numbers |
| StreamNumbers.NearlyOrderedFits | stream/src/media/rtp.rs:429-437 | Every later arrival of such a stream lies less than 1024 ahead of the number expected then, because nothing is received at the watermark of 819, whatever the timing |
| RtpReader.NearlyOrderedInputFits | stream/src/media/rtp.rs:208-252 | So whenever a buffer has read from such a source it has never left the window: the hypothesis is on the input alone |
| RtpReader.NearlyOrderedStreamReachesTheReader | stream/src/media/rtp.rs:208-562 | The end-to-end statement for such a source, with no hypothesis on the timing |
| DialogSessions.Repository.InsertInviting | session/src/storage/dialog_session.rs:331-388 | Inserts only a valid INVITING record of version 0 without remote tag, under a new id; otherwise an error and no change |
| DialogSessions.Repository.CasMarkEstablished | session/src/storage/dialog_session.rs:390-462 | In place: checks, among them the 65535-byte limit on the stored route set, WHERE clause and SET clause of the establishing update |
| DialogSessions.Repository.CasBeginTerminating | session/src/storage/dialog_session.rs:464-520 | In place: checks, WHERE clause and SET clause; the CSeq goes up by one and stays below 2^31 |
| DialogSessions.Repository.CasTransition | session/src/storage/dialog_session.rs:522-574 | In place: checks, WHERE clause and SET clause |
| DialogSessions.Repository.CasReserveLocalCseq | session/src/storage/dialog_session.rs:576-634 | In place: checks, WHERE clause and SET clause of the reservation |
| DialogSessions.Repository.CasTouch | session/src/storage/dialog_session.rs:636-691 | In place: the production form, with the guard on UPDATED_AT |
| DialogSessions.RowsAreIndependent | session/src/storage/dialog_session.rs:390-691 | Under any sequence of calls on any ids a row evolves as if the calls on it were alone |
| DialogSessions.VersionCountsWins | session/src/storage/dialog_session.rs:390-691 | The version is the initial one plus the number of successful calls |
| DialogSessions.SameVersionSameRow | session/src/storage/dialog_session.rs:390-691 | No ABA: a row with the version read earlier is the very row read, and that holds exactly when nobody won in between |
| DialogSessions.ReadThenCasIsAtomic | session/src/storage/dialog_session.rs:390-691 | A call naming a version read earlier wins if and only if nobody won in between and it would have won at once |
| DialogSessions.CseqsAreConsecutive | session/src/storage/dialog_session.rs:464-520 | Over any calls at all from an invitation, the reserved CSeqs are consecutive and end at the row's own |
| DialogSessions.HandedOutOnce | session/src/storage/dialog_session.rs:576-634 | No CSeq is reserved twice |
| DialogSessions.CseqCountsReservations | session/src/storage/dialog_session.rs:576-634 | When establishing keeps the persisted CSeq, the row's CSeq is its first one plus the number of reservations |
| DialogSessions.LaterCseqCountsReservations | session/src/storage/dialog_session.rs:576-634 | Once the invitation is over, whatever calls follow, the row's CSeq goes up by exactly the number of reservations |
| DialogSessions.TransitionTable | session/src/storage/dialog_session.rs:105-122 | The transition table allows every step up but INVITING to TERMINATING, and nothing after a terminal state |
| DialogSessions.StatesMoveUp | session/src/storage/dialog_session.rs:105-122 | The state only moves up, terminal rows never change again, UPDATED_AT never decreases |
| DialogSessions.DialogEndsOnce | session/src/storage/dialog_session.rs:522-574 | After a successful transition to a terminal state no later call on the row wins |
| DialogSessions.ValidityIsExact | session/src/storage/dialog_session.rs:181-225 | A successful call keeps a valid row valid if and only if it is not a plain transition from INVITING to ESTABLISHED |
| DialogSessions.RecordsStayValid | session/src/storage/dialog_session.rs:181-225 | Without that transition every reachable record passes validation |
| DialogSessions.BlindTransitionBreaksTheRecord | session/src/storage/dialog_session.rs:110-122 | The transition table accepts INVITING to ESTABLISHED, and the row then fails its own validation |
| DialogColumns.RowsStay | session/src/storage/dialog_session.rs:331-691 | Under any sequence of insertions and calls on any ids, a row that is there stays and evolves by the calls on it alone |
| DialogColumns.NewRowsAreAdmitted | session/src/storage/dialog_session.rs:331-388 | A row comes in only as a valid invitation of version 0 without remote tag |
| DialogColumns.InsertionIff | session/src/storage/dialog_session.rs:331-388 | A row is inserted, and the caller told so, if and only if it is a valid new invitation with a storable route set under a free id; else there is an error and no change |
| DialogColumns.OutcomeIsTold | session/src/storage/dialog_session.rs:390-691 | An error is answered exactly for inadmissible arguments, and true exactly when the row was written, with the version one up and no other row touched |
| DialogColumns.IdentityStays | session/src/storage/dialog_session.rs:390-691 | Ids, nodes, SSRC, call id, URIs, local tag, transport and creation time are for good those of the insertion |
| DialogColumns.DialogComesFromAnswer | session/src/storage/dialog_session.rs:390-462 | Remote tag, remote CSeq, contact, route set, both addresses and the established time are, column by column, those of the winning establishing call, or still the inserted ones |
| DialogColumns.EstablishedOnce | session/src/storage/dialog_session.rs:390-462 | At most one establishing call wins |
| DialogColumns.TimesComeFromWinners | session/src/storage/dialog_session.rs:390-691 | Last-seen and expiry times are those of the last winning establishing call or touch, the state that of the last winning call that sets one, the update time that of the last winning call |
| DialogColumns.OwnersWriteForward | session/src/storage/dialog_session.rs:390-691 | Only calls in the owning node's name win, and after the invitation the last-seen time never goes back |
| DialogColumns.WinsAlongEdges | session/src/storage/dialog_session.rs:390-691 | An admissible call wins if and only if its caller is up to date (node, version, CSeq, clock) and the state diagram has an edge for it, and the record moves along that edge |
| DialogProtocol.ActorsBehave | session/src/gb/sip/command.rs:742-875 | No actor makes the record-breaking transition, and whatever CSeq an answer carries, the inviter establishes only with the one it persisted |
| DialogProtocol.ForeignAnswerRollsBack | session/src/gb/sip/command.rs:742-761 | An answer whose snapshot differs from the persisted identity changes nothing in the record and is rolled back |
| DialogProtocol.EveryInterleavingIsSafe | session/src/gb/sip/command.rs:1250-1324 | Every interleaving of any number of inviters, INFO, BYE, peer BYE, recovery, cleanup and touch actors: record valid, version counts the updates, CSeq is the first plus the reservations, the reserved numbers are the next ones in order, state and time move forward |
| DialogProtocol.RequestCarriesReloadedNumber | session/src/gb/sip/command.rs:1105-1121 | A request of a restored dialog carries its own reserved number plus the reservations that won between its reservation and its reload, so its own number if and only if there were none, whatever happens around them |
| DialogProtocol.ConcurrentRequestsCollide | session/src/gb/sip/command.rs:1180-1236 | Two INFO requests that both reserve before the first reloads are sent with the same number, and the first one's number is never used |
| DialogProtocol.SerialRequestsAscend | session/src/gb/sip/command.rs:1180-1236 | When nobody reserves while another is between reserving and sending, the numbers sent strictly ascend, each the one its sender reserved |
| DialogProtocol.ByeIsRecordedIffUndisturbed | session/src/gb/sip/command.rs:1089-1152 | A confirmed BYE is recorded TERMINATED if and only if no other update succeeded since its reservation and the clock did not go back; otherwise the stop reports failure |
| DialogProtocol.TouchSpoilsTheBye | session/src/service/hook_serv.rs:185-208 | Media activity between a BYE and its answer makes the confirmed stop report failure and leaves the record TERMINATING |
| DialogActors.AnswerEstablishes | session/src/gb/sip/command.rs:762-791 | A fitting answer, undisturbed: the record is ESTABLISHED with every column as answered, for eight hours |
| DialogActors.InvitationEnds | session/src/gb/sip/command.rs:857-913 | A refusal ends the invitation in its state; a rollback in TERMINATED when the BYE was confirmed, else in ORPHAN |
| DialogActors.ReadersEndIt | session/src/service/api_serv.rs:570-625 | Undisturbed, a hang-up terminates, giving up and a forced-out close orphan, and vanished media makes terminating; nothing else of the record changes |
| DialogActors.TouchProlongs | session/src/service/hook_serv.rs:185-208 | Media activity sets the last-seen time to now and the expiry to eight hours later, and nothing else |
| DialogActors.RequestReserves | session/src/gb/sip/command.rs:1250-1324 | A seek or speed request takes the next CSeq and leaves everything else |
| DialogActors.StopEnds | session/src/gb/sip/command.rs:1089-1152 | A stop, first or repeated: TERMINATING under the next CSeq when the BYE goes out, TERMINATED when it is confirmed, left TERMINATING when it is not |
| DialogActors.AnswersAreNotRecorded | session/src/gb/sip/command.rs:1180-1236 | The answer to a seek or speed request changes nothing in the record |
| DialogActors.ReadersCallIff | session/src/gb/sip/command.rs:1250-1324 | Who acts on a record it has read: requests, stops, hang-ups and recovery only on records of their own node, each only in the states that concern it; media activity and a beginning close ask no owner |
| DialogActors.OtherCallsIff | session/src/gb/sip/command.rs:742-913 | The other calls come from an inviter that got the persisted identity or a final refusal or rolls back, and from a confirmed stop |
| DialogActors.InvitationRollsBackIff | session/src/gb/sip/command.rs:742-791 | An invitation is rolled back exactly after an answer that did not establish and after a refusal that had established |
| DialogActors.EverythingInTurn | session/src/gb/sip/command.rs:1250-1324 | Actors take their steps in turn: read, reserve, reload, send, conclude |
| DialogActors.RestoredRequestIff | session/src/gb/sip/command.rs:248-275 | A request of a restored dialog can be made of every valid record, except over TCP while the device is away and for CSeqs above 32 bits |
| DialogValidation.ValidSipUriIff | session/src/storage/dialog_session.rs:871-878 | A stored URI is one that begins, after white space and opening brackets, with sip: or sips:, within its length and without line breaks |
| DialogValidation.ValidIff | session/src/storage/dialog_session.rs:181-225 | A record is valid if and only if every text fits its column, URIs and addresses are such, the CSeqs are positive, the times are in order, and the far end's data are there as the state demands |
| DialogValidation.AnswerFieldsIff | session/src/storage/dialog_session.rs:241-262 | Exactly which answers can establish a dialog, field by field |
| DialogValidation.StorableRoutesIff | session/src/storage/dialog_session.rs:838-850 | A route set can be stored if and only if each route is a SIP URI and its JSON text, as a separate writer gives it, fits 65535 bytes; an empty one is NULL |
| DialogValidation.AdmissibleIff | session/src/storage/dialog_session.rs:390-691 | Exactly which calls are made at all; the others are errors |
| DialogValidation.ReservedCseqsFit | session/src/storage/dialog_session.rs:464-634 | Over any calls, every reserved CSeq is at least 2 and below 2^31 |
| DialogRecovery.RecoverDialog | session/src/service/dialog_recovery.rs:65-204 | The outcome is the one that record and findings call for, each by its own condition (`CalledFor`), with exactly the one compare-and-swap that goes with it |
| DialogRecovery.OneOutcome | session/src/service/dialog_recovery.rs:65-204 | Restored exactly when not expired, answered, not TLS, locatable, reachable over UDP, online and inserted; closed exactly when the same up to a stream reported offline; orphaned and failed by their own conditions; these leave one outcome and no more |
| DialogRecovery.MarkOrphan | session/src/service/dialog_recovery.rs:304-321 | The compare-and-swap to ORPHAN from the state read |
| DialogRecovery.RecoveredRecord | session/src/service/dialog_recovery.rs:65-204 | The record an outcome leaves: an orphan, the same record, or a terminating one, with version and time and nothing else changed; it stays valid, and no invitation survives |
| DialogRecovery.OwnedIsLive | session/src/storage/dialog_session.rs:787-835 | Live are exactly the node's dialogs in INVITING, ESTABLISHED and TERMINATING |
| DialogRecovery.PageOwnedByStates | session/src/storage/dialog_session.rs:787-835 | A page is the first `limit` live records of the node after the cursor, ascending, complete up to its last id; an error only for a stored record that fails validation |
| DialogRecovery.RecoverOwnedDialogs | session/src/service/dialog_recovery.rs:30-63 | The paging loop ends; whatever records others update or insert meanwhile, it processes ids in ascending order, none twice, each as it was read, and every dialog of the node that is live whenever a page is read; when nobody else comes in, exactly the live dialogs, each in its starting state, although processing changes the states the pages select by, and the final table is the initial one with exactly those recovered |
| Networks.Network.UpdateNetDeviceMapping | session/src/register/network.rs:27-49 | In place: the association changes hands, a previous owner is disconnected and expired; returns it |
| Networks.Network.RemoveDeviceMapping | session/src/register/network.rs:52-65 | Removes the mapping only while it leads to this device |
| Networks.Network.Insert | session/src/register/network.rs:68-77 | In place: the whole new table |
| Networks.Network.Rebind | session/src/register/network.rs:79-118 | In place: the whole new table and the ended disconnection, if any; None for an absent device |
| Networks.Network.RebindRegistration | session/src/register/network.rs:120-161 | In place: the whole new table and the generation to clean up; the session is handed back when the device is absent or connected |
| Networks.Network.DetachAssociation | session/src/register/network.rs:163-182 | In place: the whole new table and the cleanup token with its timeout |
| Networks.Network.RemoveDisconnected | session/src/register/network.rs:184-195 | In place: removes exactly a disconnected entry of that generation |
| Networks.AssociationsAreExclusive | session/src/register/network.rs:20-23 | No two connected devices share an association |
| Networks.ConnectedMeansRouted | session/src/register/network.rs:197-206 | A device is addressed as connected exactly when some association leads to it, namely its own |
| Networks.InsertIsExact | session/src/register/network.rs:68-77 | Insertion keeps the two maps in agreement if and only if the device is absent, disconnected, or comes over the same association |
| Networks.DelayedCloseIsHarmless | session/src/register/network.rs:163-182 | A late close of an association its owner has left does not touch that owner |
| Networks.RunsStayRouted | session/src/register/network.rs:27-206 | After every run an association leads to a device if and only if the device is connected over it |
| Networks.TokenIsGeneration | session/src/register/network.rs:163-182 | A detach of a routed association succeeds, and its token is the generation of the disconnected entry |
| Networks.TokenMeansStillAway | session/src/register/network.rs:184-195 | Within one life of the entry the token removes it if and only if the device has stayed disconnected ever since; the generation never decreases |
| Networks.TokenOutlivesTheEntry | session/src/register/network.rs:68-77 | Across lives it does not: registering anew restarts the count, so an old token can remove a device that has been back |
| Networks.TokenStrikesIff | session/src/register/network.rs:184-195 | From any routed table, wherever the token comes from: some proper continuation within the entry's present life lets it remove the entry if and only if the entry's generation is not above it |
| Networks.TokenOfEarlierLife | session/src/register/network.rs:68-77 | After registering anew, a token of an earlier life is harmless for good if and only if the new session's generation is above it |
| Networks.DetachTimeout | session/src/register/network.rs:163-182 | The timeout of a detach is three heartbeats, or what is left of the registration when that is less |
| Networks.ReturnNamesTheCleanup | session/src/register/network.rs:79-118 | A device that comes back after having been away all the time names exactly the token its disconnection announced; one that was not away names none |
| Networks.RenewalReplaces | session/src/register/network.rs:120-161 | A renewed registration puts the new session in place in the next generation, reached over the new association only; it is handed back exactly when the device is unknown or connected, and then nothing changes |
| Networks.ReturnKeepsTheSession | session/src/register/network.rs:79-118 | A keepalive changes nothing of the session but association, connection, last-seen time and, after an absence, the generation; other devices change only if the association was theirs |
| Networks.PreviousOwnerIsExpired | session/src/register/network.rs:27-161 | Whoever held the association is disconnected and expired, in the next generation after a return or renewal, in the same one after an insertion |
| Networks.DetachKeepsTheSession | session/src/register/network.rs:163-182 | A detach changes nothing of the session but the connection and the generation, which is the token; its association leads nowhere, every other one where it led |
| Networks.ExpiredIsNotAddressed | session/src/register/network.rs:197-206 | A session marked expired is not addressed, connected or not |
| Networks.OnlyTheHolderIsDetached | session/src/register/network.rs:163-182 | In any table a close detaches a device if and only if the association leads to it and it is connected over it; a stale route detaches nobody and changes nothing |
| Networks.RemovalTakesEntryAndRoute | session/src/register/network.rs:184-195 | In any table a removal hits exactly a disconnected entry of that generation, takes out the entry and the route that leads to it, and nothing else |
| CloseProtocol.EveryRunIsAccepted | session/src/state/session.rs:358-479 | Over every sequence of operations on any entries, the events of each generation are accepted by the close protocol, and what is closing is exactly what is open |
| CloseProtocol.GenerationsAreUnique | session/src/state/session.rs:358-367 | No close generation starts twice |
| CloseProtocol.GenerationIsFixed | session/src/state/session.rs:1277-1287 | Whatever happens to a closing entry, it keeps its generation until it is gone |
| CloseProtocol.RetryFollowsFailure | session/src/state/session.rs:1277-1325 | Between two successive BYEs of a close the first was reported failed, and the CSeq goes up by exactly one (saturating at 2^32-1) |
| CloseProtocol.RemoveIsPrecise | session/src/state/session.rs:405-421 | Completing or forcing with a generation removes only the entry whose close started as that generation, and does remove it |
| CloseProtocol.CoverageIsKept | session/src/service/stream_close.rs:12-53 | One step of anyone: each closing entry keeps exactly one of a pending deadline, a caller that has still to set it, and a waiver; a deadline set breaks this if and only if it is for a waived close or one that has not begun |
| CloseProtocol.BeginMayReturn | session/src/service/stream_close.rs:12-53 | One step: the caller lets go of a close by setting the deadline, by removing the entry, or by waiving the deadline of a restored one |
| CloseProtocol.DeadlineIffNotWaived | session/src/service/stream_close.rs:12-53 | Then a closing entry has its deadline pending if and only if its close is neither in a caller's hand nor waived |
| CloseProtocol.LivenessIsExact | session/src/register/event.rs:123-145 | Deadlines keep naming live closes through every operation, except exactly the scheduling of a deadline for a close that is already over |
| CloseProtocol.StaleDeadlineDoesNothing | session/src/register/event.rs:123-145 | A deadline whose close is over does nothing, however late it fires and whatever has happened since |
| CloseCallers.EveryCloseIsCovered | session/src/service/stream_close.rs:12-53 | Over every interleaving of any number of callers of `begin`, step by step, with one another and with every other operation: a closing entry has its deadline pending if and only if its close is not in the hand of a caller still inside `begin` and was not waived; only restored entries are waived, and no waived close has a deadline |
| CloseCallers.QuietMeansCovered | session/src/service/stream_close.rs:12-53 | When no caller is inside `begin`: a closing entry has its deadline pending if and only if its close was not waived, so every one that was not restored has it |
| CloseCallers.WaivedForGood | session/src/service/stream_close.rs:20-28 | A close that was waived never gets a deadline, whatever happens later |
| CloseCallers.DeadlinesNameCloses | session/src/service/stream_close.rs:12-53 | Over every such interleaving each pending deadline names a close that is under way or over for good |
| CloseCallers.DeadlineMayOutliveItsClose | session/src/service/stream_close.rs:20-45 | A peer's hang-up between the marking and the scheduling leaves a deadline without an entry |
| StreamClosing.StreamCache.StreamMapInsert | session/src/state/session.rs:207-240 | Adds a playing stream under a free id only |
| StreamClosing.StreamCache.StreamCloseBegin | session/src/state/session.rs:358-367 | One Begin operation; answers the generation in force and whether the close is new; a repeated close uses up a generation |
| StreamClosing.StreamCache.StreamCloseTakeBye | session/src/state/session.rs:369-379 | One TakeBye operation; a command exactly when closing with none in flight, with the next CSeq |
| StreamClosing.StreamCache.StreamCloseMarkFailed | session/src/state/session.rs:381-392 | One MarkFailed operation; true exactly for the BYE in flight of that generation |
| StreamClosing.StreamCache.StreamCloseRemove | session/src/state/session.rs:413-421 | One Remove operation; returns the stream exactly when it closes under that generation |
| StreamClosing.StreamCache.FinishRemovedStream | session/src/state/session.rs:455-479 | The stream leaves both maps and its deadline is cancelled |
| StreamClosing.StreamCache.DeviceMapRemoveStream | session/src/state/session.rs:481-493 | The device's list loses exactly that stream and keeps its order; an empty list is removed |
| StreamClosing.StreamCache.StreamTerminatedByCallId | session/src/state/session.rs:423-435 | Removes a stream with that call id, closing or not; None exactly when there is none |
| StreamClosing.StreamCache.ResetDeviceState | session/src/state/session.rs:968-1004 | Removes exactly the streams on the device's list and those naming the device, with their deadlines; coverage and liveness are kept |
| StreamClosing.StreamCache.BeginClose | session/src/service/stream_close.rs:12-53 | Run by one caller alone, for every way a close can begin: the stream is closing with a new deadline and a first BYE; or it is restored and waiting, without a deadline, which counts as waived; or it is gone, the deadlines as before |
| StreamClosing.StreamCache.ByeAnswered | session/src/service/stream_close.rs:68-119 | Success ends the stream of that generation, failure makes it retryable |
| StreamClosing.StreamCache.DeadlineExpired | session/src/register/event.rs:123-145 | Forces out exactly the stream whose close has that generation |
| StreamClosing.StreamCache.RetryDevice | session/src/service/stream_close.rs:55-66 | Returns exactly one BYE, with the next CSeq, for each closing stream of the device that had none in flight, and has exactly these in flight afterwards; every other stream is unchanged |
| TalkClosing.TalkCache.TalkMapInsert | session/src/state/session.rs:604-612 | Adds a talk, in whatever state, under a free id only; one that is not closing is an Insert of the protocol |
| TalkClosing.TalkCache.TalkCloseBegin | session/src/state/session.rs:668-681 | The same Begin operation on the abstracted talk, without using up a generation when repeated |
| TalkClosing.TalkCache.TalkCloseTakeBye | session/src/state/session.rs:683-698 | The same TakeBye operation on the abstracted talk |
| TalkClosing.TalkCache.TalkCloseMarkFailed | session/src/state/session.rs:700-719 | The same MarkFailed operation on the abstracted talk |
| TalkClosing.TalkCache.TalkCloseRemove | session/src/state/session.rs:733-760 | The same Remove operation on the abstracted talk |
| TalkClosing.TalkCache.TalkMapRemove | session/src/state/session.rs:614-622 | The same Drop operation on the abstracted talk, with its deadline cancelled |
| TalkClosing.TalkCache.ResetDeviceState | session/src/state/session.rs:1005-1032 | Removes exactly the talks that name the device, with their deadlines; coverage and liveness are kept |
| TalkClosing.TalkCache.BeginClose | session/src/service/talk_close.rs:10-44 | As for streams, without the exception for restored ones |
| TcpFraming.Receiver.FeedTcpPackets | stream/src/io/rtp_handler.rs:187-217 | In place: packets handed to the callback, residue and outcome are those of the recursive reading |
| TcpFraming.FeedSplit | stream/src/io/rtp_handler.rs:187-217 | Feeding A and then B is feeding A++B, until an error, which A alone brings about exactly when A++B does at that point |
| TcpFraming.ChunkingDoesNotMatter | stream/src/io/rtp_handler.rs:187-217 | Every chunking gives the same packets and outcome, and without an error the same residue |
| TcpFraming.BytesAreConserved | stream/src/io/rtp_handler.rs:187-217 | Frames handed on plus residue are the bytes fed in (an oversize length clears the residue), and a waiting residue stays below 16386 bytes |
| TcpFraming.RoundTripIsExact | stream/src/io/rtp_handler.rs:182-217 | Framed packets of at most 16384 bytes come back without residue if and only if the last one has at least 12 bytes |
| TcpFraming.ChunkedRoundTrip | stream/src/io/rtp_handler.rs:182-217 | Every chunking of framed packets of 12 to 16384 bytes gives back exactly the list |
| SsrcSequences.SequenceTable.TakeNextValue | session/src/storage/ssrc_sequence.rs:136-182 | Returns the counter and advances it round 1..9999; an error and no change exactly for a missing or incompatible row |
| SsrcSequences.UsableRowIff | session/src/storage/ssrc_sequence.rs:136-160 | A counter row is usable if and only if it counts from 1 by 1, stands at 1 to 9999, and is for a four-digit code behind this very prefix |
| SsrcSequences.SequenceTable.Allocate | session/src/storage/ssrc_sequence.rs:70-100 | Returns the first inactive SSRC from the counter on, all before it being active, and leaves the counter at its successor; fails only when all 9999 are active |
| SsrcSequences.CycleIsComplete | session/src/storage/ssrc_sequence.rs:81-93 | 9999 probes visit every value, none of them twice |
| SsrcSequences.AllocatedSsrcIsWellFormed | session/src/service/hook_serv.rs:86-101 | Every allocated SSRC has ten digits, fits 32 bits, is reproduced by ten-digit formatting, carries its kind in its range and passes the unknown-stream filter |
| SsrcSequences.SsrcsAreDistinct | session/src/storage/ssrc_sequence.rs:103-112 | SSRCs of one domain that look alike have the same kind and the same value |
| SsrcSequences.FilterReadsDigits | session/src/service/hook_serv.rs:86-101 | The unknown-stream filter, read off the ten digits: the first is 0 or 1 and the last four are not all 0 |
| SsrcSequences.PrefixOfDomain | session/src/storage/ssrc_sequence.rs:103-134 | A prefix is the kind's digit and digits 4 to 8 of a domain of exactly 20 digits |
| UnknownStreams.UnknownStreamMap.ObserveUnknownRtp | stream/src/state/register.rs:312-364 | One packet: the key's observation and the notification are those of the step function; other keys untouched; a new key gets its expiry timer |
| UnknownStreams.UnknownStreamMap.LookAtUnknownStream | stream/src/state/register.rs:366-382 | The first half: answers whether the observation has been idle for 30 s, else sets the timer to the time left; the observations are untouched |
| UnknownStreams.UnknownStreamMap.RemoveUnknownStream | stream/src/state/register.rs:375-376 | The second half: the key goes, whatever its observation has become; other keys are untouched |
| UnknownStreams.UnknownStreamMap.ExpireUnknownStream | stream/src/state/register.rs:366-383 | Look and removal with nothing in between: the key's observation goes when idle for 30 s, else it is looked at again within 30 s |
| UnknownStreams.NotificationsAreSpaced | stream/src/state/register.rs:157-175 | With an uninterrupted expiry, any two notifications for a key are at least 30000 ms apart, across expiry and re-creation |
| UnknownStreams.RemovalIsHarmlessIff | stream/src/state/register.rs:366-383 | After any removal, however interrupted the run before it: every timely, uninterrupted continuation keeps the 30 seconds if and only if the run has kept them so far and its last notification is at least 28000 ms old |
| UnknownStreams.RemovesOnce | stream/src/state/register.rs:366-383 | A look that found the observation idle is good for one removal |
| UnknownStreams.NotificationsAreConfirmed | stream/src/state/register.rs:157-175 | However the expiry is interrupted, they are at least 2000 ms apart |
| UnknownStreams.NotificationIsEarned | stream/src/state/register.rs:157-175 | Each notification comes with at least 3 packets and 2000 ms of its observation |
| UnknownStreams.PacketNotifiesIff | stream/src/state/register.rs:157-170 | Over every run, a packet notifies if and only if it is at least the third of its observation, at least 2 seconds after the first, and at least 30 seconds after the last that did; so a stream that keeps arriving is notified again |
| UnknownStreams.InterruptedExpiryNotifiesTwice | stream/src/state/register.rs:366-383 | A packet between the look and the removal breaks the 30 seconds: notifications at 32000 and 34000 ms |
| AuthLocks.RunsStayInOrder | session/src/gb/sip/auth.rs:96-129 | Over every run of any number of callers, each holds the locks of its first keys and waits for that of the next, strictly greater one |
| AuthLocks.StartTakesAll | session/src/gb/sip/auth.rs:96-129 | A caller that starts is to take the locks of exactly the keys it found missing, ascending |
| AuthLocks.NoDeadlock | session/src/gb/sip/auth.rs:96-129 | In no run do callers wait for one another in a circle, whatever lock objects are replaced meanwhile |
| AuthLocks.SomeoneCanProceed | session/src/gb/sip/auth.rs:96-129 | While any caller is at work, some caller at work can take its next step |
| AuthLocks.OneLoaderPerKey | session/src/gb/sip/auth.rs:165-169 | From the start, as long as no lock object is forgotten in use, at most one caller at a time is loading a key |
| AuthLocks.LoadsStayExclusiveIff | session/src/gb/sip/auth.rs:96-181 | From wherever any run has got to, with one more caller at rest: careful forgetting keeps one loader per key from then on if and only if every lock in use is still the table's |
| AuthLocks.InvalidationAdmitsTwoLoaders | session/src/gb/sip/auth.rs:178-181 | Invalidating a device while its lock is held lets two callers load the same key at once |

## Left out

- RtpBuffers.RtpPacketBuffer.Init: does not model how the payload kind and the ADTS parameters are read off the media description; they are parameters.
- RtpBuffers.RtpPacketBuffer.ConsumePacket: returns the bytes instead of writing them through a raw pointer; blocking on the channel is not an event of the model.
- AccessUnits.FirstUnitIsKeyframe: is about the losses that close the gate; which ones do is stated in `PacketLosses`.
- DialogSessions.Repository.CasTouch: models the statement sent to the database; the in-memory variant for tests omits one guard and takes a maximum instead.
- DialogSessions.ValidityIsExact: strings are sequences of single-byte characters, white space is ASCII, and whether an address text parses is part of the address value.
- DialogProtocol.EveryInterleavingIsSafe: 64-bit overflow of the version is not modelled, because it cannot be reached in the life of a dialog.
- DialogProtocol.ActorsBehave: a read always yields the row, because reachable rows pass validation; database failures are not modelled.
- DialogProtocol.RequestCarriesReloadedNumber: is about restored dialogs; on a live dialog the SIP runtime numbers the request itself, which is not part of this model.
- DialogRecovery.RecoverOwnedDialogs: other actors may update and insert records while the loop runs, but do not delete any or change their owner, leave valid ones valid and insert valid ones; the ids that ever come up are finitely many, without which the loop need not end; ids are compared byte by byte, where the database uses its column's collation.
- DialogRecovery.RecoverDialog: the media, device and cache queries are answers supplied from outside, and the cache insertions themselves are not part of this model.
- Networks.RunsStayRouted: every method is one atomic step, and `Register::remove_device_by_inner`, which removes a mapping without checking whose it is, is not one of them.
- Networks.TokenMeansStillAway: generations are unbounded; wrap-around after 2^64 reconnections is not modelled.
- StreamClosing.StreamCache.BeginClose: is one caller alone; its interleavings with others are those of `CloseCallers`.
- TalkClosing.TalkCache.BeginClose: likewise.
- StreamClosing.StreamCache.ResetDeviceState: the setup locks and the catalog subscription are left out, because they take no part in closing.
- TalkClosing.TalkCache.TalkMapInsert: a talk inserted while already closing, which no caller does, is added but is not traced as a close of the protocol.
- SsrcSequences.SequenceTable.Allocate: no other caller takes values and no stream starts or ends during the call.
- UnknownStreams.NotificationsAreSpaced: is about one key, since keys do not interact.
- AuthLocks.NoDeadlock: keys are their places in the key order; entry lifetimes, capacity eviction and the database batches are left out, because they take no locks.
- Agreement of the device list with the stream map: not an invariant of the code, since the list is filled after a suspension point.
- `TcpRtpBuffer` and `RtpState::update`: no call to them is part of the modelled code.
- Sockets, HTTP, the pjsip runtime, FFmpeg and muxers, SDP text, PTZ commands, the catalog splitter, image handling: foreign code or finite tables that would only add easy members.

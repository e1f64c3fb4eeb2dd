/**
  `RtpPacketBuffer` of stream/src/media/rtp.rs with its fields and its loops. Every method is tied to the
  value functions of the other modules; ghost fields keep the history those functions speak about.

  The channel is the packets still to arrive, closed once they are used up; the clock is a number of
  milliseconds that only moves forward; whether a packet or a timeout comes first is left open.
*/
module RtpBuffers {
  import opened Wrappers
  import opened Bytes
  import opened ReorderRing
  import opened StreamNumbers
  import opened StartCodes
  import opened AccessUnits
  import opened NalPayloads
  import opened Depacketizers
  import opened AacPayloads
  import opened RtpPipeline

  const DEFAULT_VIDEO_QUEUE_WINDOW: nat := 32
  const DEFAULT_AUDIO_QUEUE_WINDOW: nat := 8
  const VIDEO_GAP_WAIT_MS: nat := 80
  const AUDIO_GAP_WAIT_MS: nat := 5
  const GAP_WAIT_FIRST_MS: nat := 5
  const GAP_WAIT_SECOND_MS: nat := 15
  const GAP_WAIT_STEP_MS: nat := 10

  function ReorderWindow(kind: PayloadKind): (n: nat)
    ensures 0 < n < REORDER_BUFFER_HIGH_WATERMARK
  {
    if GroupsPackets(kind) then DEFAULT_VIDEO_QUEUE_WINDOW else DEFAULT_AUDIO_QUEUE_WINDOW
  }

  function MaxGapWaitMs(kind: PayloadKind): nat {
    if GroupsPackets(kind) then VIDEO_GAP_WAIT_MS else AUDIO_GAP_WAIT_MS
  }

  function Min(a: nat, b: nat): nat { if a < b then a else b }

  lemma FirstSlot(s: Seq16)
    ensures Slot(s, 0) == s % 1024
  {}

  lemma NextSlot(s: Seq16, offset: nat)
    ensures Slot(s, offset + 1) == if Slot(s, offset) + 1 == BUFFER_SIZE then 0 else Slot(s, offset) + 1
  {}

  lemma FirstOffsetStep(slots: seq<Option<RtpPacket>>, start: nat, from: nat)
    requires |slots| == BUFFER_SIZE && from < BUFFER_SIZE
    ensures FirstOffset(slots, start, from) ==
            if slots[Slot(start, from)].Some? then from else FirstOffset(slots, start, from + 1)
  {}

  lemma AacYieldsBytes(p: seq<Byte>, cfg: AdtsConfig)
    ensures var r := DepacketizeAac(p, cfg); r.Some? ==> r.value != []
  {
    hide AacFrames;
  }

  lemma UngroupedHoldsNothing(kind: PayloadKind, cfg: AdtsConfig, ds: seq<Delivery>, ends: nat)
    ensures GroupsPackets(kind) || Assembled(kind, cfg, ds, ends).buffer == []
  {
    hide Run, Depacketized;
    BytesAreConserved(kind, Inputs(kind, cfg, ds, ends));
  }

  lemma NoInitialPackets()
    ensures InitialRing([]) == EmptyRing(65535)
  {}

  lemma NothingDigested(kind: PayloadKind, cfg: AdtsConfig)
    ensures Assembled(kind, cfg, [], 0) == NewAssembler(kind) && Depacketized(kind, cfg, []).rest == NOTHING_UNFINISHED
  {
    AccessUnits.RunNothing(kind, NewAssembler(kind));
    assert Inputs(kind, cfg, [], 0) == [];
  }

  class RtpPacketBuffer {
    const kind: PayloadKind
    const aacAdts: AdtsConfig
    const queueWindow: nat
    const queue: array<Option<RtpPacket>>

    var firstReadRtpSn: Seq16
    var queueCount: nat
    var input: seq<RtpPacket>
    var clock: nat
    var remaining: seq<Byte>
    var readyAus: seq<seq<Byte>>
    var auBuffer: seq<Byte>
    var auTimestamp: Option<nat>
    var auDamaged: bool
    var waitKeyframe: bool
    var h264Fu: Option<seq<Byte>>
    var h265Fu: Option<seq<Byte>>
    /** The caller's `RtpState`: timestamp and marker of the packet delivered last. */
    var stamp: Option<(nat, bool)>

    /** Everything the channel will ever carry. */
    ghost const source: seq<RtpPacket>
    ghost var initial: seq<RtpPacket>
    ghost var ops: seq<Op>
    ghost var out: seq<Delivery>
    ghost var ends: nat
    ghost var log: seq<Event>
    ghost var popped: seq<seq<Byte>>
    ghost var consumed: seq<Byte>

    ghost function AsRing(): Ring
      reads `firstReadRtpSn, `queueCount, queue
    {
      Ring(queue[..], queueCount, firstReadRtpSn)
    }

    ghost function AsAssembler(): Assembler
      reads `auBuffer, `auTimestamp, `auDamaged, `waitKeyframe, `log
    {
      Assembler(auBuffer, auTimestamp, auDamaged, waitKeyframe, log)
    }

    ghost function AsUnfinished(): Unfinished
      reads `h264Fu, `h265Fu
    {
      Unfinished(h264Fu, h265Fu)
    }

    /** The ring is what the history of arrivals and deliveries makes it, and no packet is unaccounted for. */
    ghost predicate Traced()
      reads `firstReadRtpSn, `queueCount, queue, `input, `initial, `ops, `out
    {
      && queue.Length == BUFFER_SIZE && queueWindow == ReorderWindow(kind)
      && WellCounted(AsRing())
      && queueCount <= 819
      && RunRing(InitialRing(initial), ops) == RingRun(AsRing(), out)
      && initial + Arrived(ops) + input == source
      && Throttled(InitialRing(initial), ops)
    }

    // -------------------------------------------------------------- construction

    constructor (kind: PayloadKind, cfg: AdtsConfig, source: seq<RtpPacket>)
      ensures this.kind == kind && aacAdts == cfg && this.source == source
      ensures fresh(queue) && queue.Length == BUFFER_SIZE && queueWindow == ReorderWindow(kind)
      ensures AsRing() == EmptyRing(65535) && input == source && initial == [] && ops == [] && out == []
      ensures AsAssembler() == NewAssembler(kind) && AsUnfinished() == NOTHING_UNFINISHED
      ensures ends == 0 && remaining == [] && readyAus == [] && popped == [] && consumed == [] && stamp == None
    {
      this.kind, aacAdts, queueWindow, this.source, input := kind, cfg, ReorderWindow(kind), source, source;
      queue := new Option<RtpPacket>[BUFFER_SIZE](_ => None);
      firstReadRtpSn, queueCount, clock := 65535, 0, 0;
      remaining, readyAus, stamp := [], [], None;
      auBuffer, auTimestamp, auDamaged, waitKeyframe := [], None, false, IsRawVideo(kind);
      h264Fu, h265Fu := None, None;
      initial, ops, out, ends, log, popped, consumed := [], [], [], 0, [], [], [];
      new;
      assert queue[..] == EmptyRing(65535).slots;
    }

    /** `init`: a buffer is handed out once its first window of packets has arrived; it is an error for the
        channel to close before that. */
    static method Init(kind: PayloadKind, cfg: AdtsConfig, source: seq<RtpPacket>)
      returns (r: Result<RtpPacketBuffer, string>)
      ensures r.Ok? ==> fresh(r.value) && fresh(r.value.queue) && r.value.Valid()
                        && r.value.kind == kind && r.value.aacAdts == cfg && r.value.source == source
                        && r.value.consumed == [] && r.value.queueCount == (if kind.Aac? || kind.G711? then 8 else 32)
                        && r.value.ops == []
      ensures r.Err? ==> InitialRing(source).count < ReorderWindow(kind)
    {
      hide Filled, InitialRing, Run;
      var b := new RtpPacketBuffer(kind, cfg, source);
      EmptyRingIsCounted(65535);
      NoInitialPackets();
      var ok := b.CalculateIndex();
      if !ok {
        assert b.initial == source;
        return Err("rtp input channel closed");
      }
      NothingDigested(kind, cfg);
      ReorderRing.RunNothing(InitialRing(b.initial));
      assert b.initial + [] == b.initial;
      return Ok(b);
    }

    method CalculateIndex() returns (ok: bool)
      requires queue.Length == BUFFER_SIZE && queueWindow == ReorderWindow(kind) && WellCounted(AsRing())
      requires AsRing() == InitialRing(initial) && initial + input == source && FillsUp(initial, queueWindow)
      modifies `firstReadRtpSn, `queueCount, queue, `input, `initial
      ensures WellCounted(AsRing()) && AsRing() == InitialRing(initial) && initial + input == source
      ensures FillsUp(initial, queueWindow)
      ensures ok ==> queueCount >= queueWindow && (old(queueCount) <= queueWindow ==> queueCount == queueWindow)
      ensures !ok ==> queueCount < queueWindow && input == []
    {
      hide Filled;
      while queueCount < queueWindow
        invariant WellCounted(AsRing()) && AsRing() == InitialRing(initial) && initial + input == source
        invariant FillsUp(initial, queueWindow)
        invariant old(queueCount) <= queueWindow ==> queueCount <= queueWindow
        decreases |input|
      {
        if input == [] {
          return false;
        }
        var pkt := input[0];
        assert (initial + [pkt])[..|initial|] == initial;
        assert (initial + [pkt]) + input[1..] == initial + input;
        FillsFurther(initial, pkt, queueWindow);
        EnqueueInitial(pkt);
        input := input[1..];
        initial := initial + [pkt];
      }
      return true;
    }

    // -------------------------------------------------------------- the ring

    method EnqueueInitial(pkt: RtpPacket)
      requires queue.Length == BUFFER_SIZE && WellCounted(AsRing())
      modifies `firstReadRtpSn, `queueCount, queue
      ensures AsRing() == ReorderRing.EnqueueInitial(old(AsRing()), pkt) && WellCounted(AsRing())
      ensures queueCount <= old(queueCount) + 1
    {
      CountIsFilledSlots(AsRing(), pkt);
      var i := pkt.seqNo % 1024;
      if queue[i].Some? && queue[i].value.seqNo == pkt.seqNo {
        return;
      }
      if queueCount == 0 || SeqBefore(pkt.seqNo, firstReadRtpSn) {
        firstReadRtpSn := pkt.seqNo;
      }
      if queue[i].None? {
        queueCount := queueCount + 1;
      }
      queue[i] := Some(pkt);
    }

    method Enqueue(pkt: RtpPacket)
      requires queue.Length == BUFFER_SIZE && WellCounted(AsRing())
      modifies `queueCount, queue
      ensures AsRing() == ReorderRing.Enqueue(old(AsRing()), pkt) && WellCounted(AsRing())
      ensures old(queueCount) <= queueCount <= old(queueCount) + 1
    {
      CountIsFilledSlots(AsRing(), pkt);
      if IsOldPacket(firstReadRtpSn, pkt.seqNo) {
        return;
      }
      var i := pkt.seqNo % 1024;
      if queue[i].Some? && queue[i].value.seqNo == pkt.seqNo {
        return;
      }
      if queue[i].None? {
        queueCount := queueCount + 1;
      }
      queue[i] := Some(pkt);
    }

    /** One packet from the channel goes into the ring. */
    method Receive()
      requires Traced() && input != [] && queueCount < REORDER_BUFFER_HIGH_WATERMARK
      modifies `queueCount, queue, `input, `ops
      ensures Traced() && input == old(input)[1..]
      ensures old(queueCount) <= queueCount <= old(queueCount) + 1
    {
      hide WellCounted, RunRing, InitialRing, ReorderRing.Enqueue, Arrived;
      var pkt := input[0];
      assert (ops + [Arrive(pkt)])[..|ops|] == ops;
      ReorderRing.RunSnoc(InitialRing(initial), ops, Arrive(pkt));
      ArrivedSnoc(ops, Arrive(pkt));
      assert initial + (Arrived(ops) + [pkt]) + input[1..] == initial + Arrived(ops) + input;
      input := input[1..];
      ops := ops + [Arrive(pkt)];
      Enqueue(pkt);
    }

    method ReducePacket() returns (open: bool)
      requires Traced()
      modifies `queueCount, queue, `input, `ops
      ensures Traced() && |input| + queueCount <= old(|input| + queueCount)
      ensures open <==> queueCount >= queueWindow
      ensures !open ==> input == []
      ensures open ==> queueCount > 0
      ensures if old(queueCount) < queueWindow then queueCount <= queueWindow
              else queueCount == old(queueCount) && input == old(input)
    {
      hide WellCounted, RunRing, InitialRing, Arrived;
      while queueCount < queueWindow
        invariant Traced() && |input| + queueCount <= old(|input| + queueCount)
        invariant if old(queueCount) < queueWindow then queueCount <= queueWindow
                  else queueCount == old(queueCount) && input == old(input)
        decreases |input|
      {
        if input == [] {
          return false;
        }
        Receive();
      }
      return true;
    }

    /** Removes the packet in slot `i`, the first filled one from the expected slot on. */
    method TakeSlot(i: nat, ghost offset: nat) returns (pkt: RtpPacket)
      requires Traced() && queueCount > 0 && i < BUFFER_SIZE
      requires offset == FirstOffset(queue[..], firstReadRtpSn, 0) && offset < BUFFER_SIZE
      requires i == Slot(firstReadRtpSn, offset)
      modifies `queueCount, queue, `firstReadRtpSn, `ops, `out
      ensures Traced() && queueCount == old(queueCount) - 1
      ensures out == old(out) + [Delivery(pkt, offset > 0)]
    {
      hide Filled, RunRing, InitialRing, Arrived, FirstOffset, Slot, Wrap;
      CountIsFilledSlots(AsRing(), queue[i].value);
      ReorderRing.RunSnoc(InitialRing(initial), ops, Take);
      ArrivedSnoc(ops, Take);
      assert (ops + [Take])[..|ops|] == ops;
      assert Arrived(ops) + [] == Arrived(ops);
      pkt := queue[i].value;
      queueCount := queueCount - 1;
      queue[i] := None;
      firstReadRtpSn := Wrap(pkt.seqNo + 1);
      ops := ops + [Take];
      out := out + [Delivery(pkt, offset > 0)];
    }

    method TakeExpectedPacket() returns (r: Option<RtpPacket>)
      requires Traced() && queueCount > 0
      modifies `queueCount, queue, `firstReadRtpSn, `ops, `out
      ensures Traced()
      ensures r.Some? <==> HasPacket(old(queue[..]), old(firstReadRtpSn))
      ensures r.None? ==> queueCount == old(queueCount) && queue[..] == old(queue[..])
                          && firstReadRtpSn == old(firstReadRtpSn) && ops == old(ops) && out == old(out)
      ensures r.Some? ==> queueCount == old(queueCount) - 1 && out == old(out) + [Delivery(r.value, false)]
    {
      hide Filled, RunRing, InitialRing, Arrived;
      var i := firstReadRtpSn % 1024;
      if queue[i].None? || queue[i].value.seqNo != firstReadRtpSn {
        return None;
      }
      var pkt := TakeSlot(i, 0);
      return Some(pkt);
    }

    method TakeFirstAvailablePacket() returns (r: Option<(RtpPacket, nat)>)
      requires Traced()
      modifies `queueCount, queue, `firstReadRtpSn, `ops, `out
      ensures Traced()
      ensures r.None? <==> old(queueCount) == 0
      ensures r.None? ==> queueCount == 0 && out == old(out)
      ensures r.Some? ==> queueCount == old(queueCount) - 1 && out == old(out) + [Delivery(r.value.0, r.value.1 > 0)]
      ensures r.Some? ==> r.value.1 == FirstOffset(old(queue[..]), old(firstReadRtpSn), 0)
    {
      hide Filled, RunRing, InitialRing, Arrived, Slot, FirstOffset;
      TakeFindsPacket(AsRing());
      var index := firstReadRtpSn % 1024;
      FirstSlot(firstReadRtpSn);
      for offset := 0 to BUFFER_SIZE
        invariant Traced() && unchanged(`queueCount, queue, `firstReadRtpSn, `ops, `out)
        invariant FirstOffset(queue[..], firstReadRtpSn, 0) == FirstOffset(queue[..], firstReadRtpSn, offset)
        invariant index <= BUFFER_SIZE && Slot(firstReadRtpSn, offset) == if index == BUFFER_SIZE then 0 else index
      {
        if index == BUFFER_SIZE {
          index := 0;
        }
        FirstOffsetStep(queue[..], firstReadRtpSn, offset);
        if queue[index].Some? {
          var pkt := TakeSlot(index, offset);
          return Some((pkt, offset));
        }
        index := index + 1;
        NextSlot(firstReadRtpSn, offset);
      }
      return None;
    }

    /** Receives until the expected packet is there, the ring is too full, the deadline passes or the
        channel closes. */
    method WaitUntilGapDeadline(expected: Seq16, deadline: nat) returns (found: bool)
      requires Traced()
      modifies `queueCount, queue, `input, `ops, `clock
      ensures Traced() && |input| + queueCount <= old(|input| + queueCount) && queueCount >= old(queueCount)
      ensures out == old(out) && clock >= old(clock)
      ensures found <==> HasPacket(queue[..], expected)
      ensures !found ==> queueCount >= REORDER_BUFFER_HIGH_WATERMARK || clock >= deadline || input == []
    {
      hide WellCounted, RunRing, InitialRing, Arrived;
      while true
        invariant Traced() && |input| + queueCount <= old(|input| + queueCount) && queueCount >= old(queueCount)
        invariant out == old(out) && clock >= old(clock)
        decreases |input|
      {
        if HasPacket(queue[..], expected) {
          return true;
        }
        if queueCount >= REORDER_BUFFER_HIGH_WATERMARK || clock >= deadline {
          return false;
        }
        var later: nat :| later >= clock;
        clock := later;
        if * {
          clock := if clock < deadline then deadline else clock;
          return HasPacket(queue[..], expected);
        } else if input == [] {
          return false;
        }
        Receive();
      }
    }

    /** Waits in growing phases: 80 ms in all, for audio 5 ms. */
    method WaitForGapPacket(expected: Seq16, startedAt: nat) returns (found: bool)
      requires Traced()
      modifies `queueCount, queue, `input, `ops, `clock
      ensures Traced() && |input| + queueCount <= old(|input| + queueCount) && queueCount >= old(queueCount)
      ensures out == old(out) && clock >= old(clock)
      ensures found <==> HasPacket(queue[..], expected)
      ensures !found ==> || queueCount >= 819 || input == []
                         || clock >= startedAt + (if kind.Aac? || kind.G711? then 5 else 80)
    {
      hide Traced;
      var maxWait := MaxGapWaitMs(kind);
      var phase := Min(GAP_WAIT_FIRST_MS, maxWait);
      var useSecondGap := true;
      while true
        invariant Traced() && |input| + queueCount <= old(|input| + queueCount) && queueCount >= old(queueCount)
        invariant out == old(out) && clock >= old(clock) && phase <= maxWait
        decreases maxWait - phase
      {
        found := WaitUntilGapDeadline(expected, startedAt + phase);
        if found || phase >= maxWait {
          return;
        }
        var step := if useSecondGap then GAP_WAIT_SECOND_MS else GAP_WAIT_STEP_MS;
        useSecondGap := false;
        phase := Min(phase + step, maxWait);
      }
    }

    /** One delivery. A packet is skipped only after its whole waiting time, or when the ring has filled up
        to the watermark, or when nothing more will come. */
    method TakeNextPacket(inputClosed: bool) returns (r: Option<Delivery>)
      requires Traced() && (inputClosed ==> input == [])
      modifies `queueCount, queue, `input, `ops, `clock, `firstReadRtpSn, `out
      ensures Traced() && clock >= old(clock) && (inputClosed ==> input == [])
      ensures r.None? <==> old(queueCount) == 0
      ensures r.None? ==> input == old(input) && queueCount == 0 && out == old(out)
      ensures r.Some? ==> out == old(out) + [r.value] && |input| + queueCount < old(|input| + queueCount)
      ensures r.Some? && r.value.lostBefore ==>
                || input == [] || queueCount + 1 >= 819
                || clock >= old(clock) + (if kind.Aac? || kind.G711? then 5 else 80)
    {
      hide Traced;
      if queueCount == 0 {
        return None;
      }
      var expected := TakeExpectedPacket();
      if expected.Some? {
        return Some(Delivery(expected.value, false));
      }
      if !inputClosed {
        var found := WaitForGapPacket(firstReadRtpSn, clock);
        if found {
          expected := TakeExpectedPacket();
          if expected.Some? {
            return Some(Delivery(expected.value, false));
          }
        }
      }
      var available := TakeFirstAvailablePacket();
      return Some(Delivery(available.value.0, available.value.1 > 0));
    }

    // -------------------------------------------------------------- depacketizing

    method DepacketizeH264FuA(p: seq<Byte>) returns (r: Option<seq<Byte>>)
      modifies `h264Fu
      ensures FuStep(r, h264Fu) == Reassemble(old(h264Fu), H264Fragment(p))
    {
      if |p| < 3 {
        h264Fu := None;
        return None;
      }
      var start, end := p[1] / 128 == 1, p[1] / 64 % 2 == 1;
      if start && end {
        h264Fu := None;
        return None;
      }
      if start {
        h264Fu := Some(START_CODE + [p[0] / 32 * 32 + p[1] % 32] + p[2..]);
        return None;
      }
      if h264Fu.None? {
        return None;
      }
      h264Fu := Some(h264Fu.value + p[2..]);
      if end {
        r := h264Fu;
        h264Fu := None;
        return r;
      }
      return None;
    }

    method DepacketizeH265Fu(p: seq<Byte>) returns (r: Option<seq<Byte>>)
      modifies `h265Fu
      ensures FuStep(r, h265Fu) == Reassemble(old(h265Fu), H265Fragment(p))
    {
      if |p| < 4 {
        h265Fu := None;
        return None;
      }
      var start, end := p[2] / 128 == 1, p[2] / 64 % 2 == 1;
      if start && end {
        h265Fu := None;
        return None;
      }
      if start {
        h265Fu := Some(START_CODE + [p[0] / 128 * 128 + p[2] % 64 * 2 + p[0] % 2, p[1]] + p[3..]);
        return None;
      }
      if h265Fu.None? {
        return None;
      }
      h265Fu := Some(h265Fu.value + p[3..]);
      if end {
        r := h265Fu;
        h265Fu := None;
        return r;
      }
      return None;
    }

    method DepacketizeH264Payload(p: seq<Byte>) returns (r: Option<seq<Byte>>)
      modifies `h264Fu
      ensures FuStep(r, h264Fu) == DepacketizeH264(old(h264Fu), p)
    {
      hide Reassemble, H264Fragment, AggregationPacket;
      if p == [] {
        return None;
      }
      var nalType := p[0] % 32;
      if nalType <= 23 {
        return Some(START_CODE + p);
      } else if nalType == 24 {
        r := SplitAggregation(p, 1);
      } else if nalType == 28 {
        r := DepacketizeH264FuA(p);
      } else {
        return None;
      }
    }

    method DepacketizeH265Payload(p: seq<Byte>) returns (r: Option<seq<Byte>>)
      modifies `h265Fu
      ensures FuStep(r, h265Fu) == DepacketizeH265(old(h265Fu), p)
    {
      hide Reassemble, H265Fragment, AggregationPacket;
      if |p| < 3 {
        return None;
      }
      var nalType := p[0] / 2 % 64;
      if p[0] % 2 * 32 + p[1] / 8 != 0 || p[1] % 8 == 0 || nalType > 50 {
        return None;
      }
      if nalType <= 47 {
        return Some(START_CODE + p);
      } else if nalType == 48 {
        r := SplitAggregation(p, 2);
      } else if nalType == 49 {
        r := DepacketizeH265Fu(p);
      } else {
        return None;
      }
    }

    // -------------------------------------------------------------- access units

    method ShouldOutputAccessUnit(data: seq<Byte>) returns (output: bool)
      modifies `waitKeyframe
      ensures output == !(IsRawVideo(kind) && old(waitKeyframe) && !HasKeyframe(kind, data))
      ensures waitKeyframe == if IsRawVideo(kind) && output then false else old(waitKeyframe)
    {
      if !IsRawVideo(kind) {
        return true;
      }
      var keyframe;
      if kind.H264? {
        keyframe := ScanAccessUnit(data, IsH264Keyframe);
      } else {
        keyframe := ScanAccessUnit(data, IsH265Keyframe);
      }
      if !waitKeyframe {
        return true;
      }
      if keyframe {
        waitKeyframe := false;
      }
      return keyframe;
    }

    /** What was emitted is what was handed on and what is ready. */
    ghost predicate Queued()
      reads `log, `popped, `readyAus
    {
      Emissions(log) == popped + readyAus
    }

    /** No unit in the queue is empty. */
    ghost predicate NonEmptyUnits()
      reads `readyAus
    {
      forall i :: 0 <= i < |readyAus| ==> readyAus[i] != []
    }

    method FinishAccessUnit()
      requires Queued() && NonEmptyUnits()
      modifies `auBuffer, `auTimestamp, `auDamaged, `waitKeyframe, `log, `readyAus
      ensures AsAssembler() == Finish(kind, old(AsAssembler()))
      ensures Queued() && NonEmptyUnits() && (old(auBuffer) == [] ==> readyAus == old(readyAus))
    {
      hide HasKeyframe, Emissions;
      if auBuffer == [] {
        auTimestamp := None;
        auDamaged := false;
        return;
      }
      EmissionsSnoc(log, DroppedDamaged(auBuffer));
      EmissionsSnoc(log, DroppedWaiting(auBuffer));
      EmissionsSnoc(log, Emitted(auBuffer));
      if auDamaged {
        log := log + [DroppedDamaged(auBuffer)];
        auBuffer := [];
        if IsRawVideo(kind) {
          waitKeyframe := true;
        }
      } else {
        var data := auBuffer;
        auBuffer := [];
        var output := ShouldOutputAccessUnit(data);
        if output {
          readyAus := readyAus + [data];
        }
        log := log + [if output then Emitted(data) else DroppedWaiting(data)];
      }
      auTimestamp := None;
      auDamaged := false;
    }

    method MarkPacketLoss(nextTimestamp: nat)
      requires Queued()
      modifies `auBuffer, `auTimestamp, `auDamaged, `waitKeyframe, `log, `h264Fu, `h265Fu
      ensures AsAssembler() == MarkLoss(kind, old(AsAssembler()), nextTimestamp, old(h264Fu.Some? || h265Fu.Some?))
      ensures AsUnfinished() == NOTHING_UNFINISHED && Queued()
    {
      hide Emissions;
      EmissionsSnoc(log, FragmentLost);
      EmissionsSnoc(log, DroppedIncomplete(auBuffer));
      EmissionsSnoc(log, ClearedByLoss(auBuffer));
      assert log + [] == log;
      var hadFragment := h264Fu.Some? || h265Fu.Some?;
      h264Fu := None;
      h265Fu := None;
      if auBuffer == [] {
        auTimestamp := None;
        auDamaged := false;
        if hadFragment && IsRawVideo(kind) {
          waitKeyframe := true;
          log := log + [FragmentLost];
        }
        return;
      }
      if auTimestamp.Some? && auTimestamp.value != nextTimestamp {
        log := log + [DroppedIncomplete(auBuffer)];
        auBuffer := [];
        auTimestamp := None;
        auDamaged := false;
        return;
      }
      log := log + [ClearedByLoss(auBuffer)];
      auBuffer := [];
      auTimestamp := Some(nextTimestamp);
      auDamaged := true;
    }

    method AppendAccessUnit(timestamp: nat, marker: bool, data: seq<Byte>)
      requires Queued() && NonEmptyUnits()
      modifies `auBuffer, `auTimestamp, `auDamaged, `waitKeyframe, `log, `readyAus
      ensures AsAssembler() == Append(kind, old(AsAssembler()), timestamp, marker, data)
      ensures Queued() && NonEmptyUnits()
    {
      hide Finish, Emissions;
      FinishClears(kind, AsAssembler());
      if auTimestamp.Some? && auTimestamp.value != timestamp {
        FinishAccessUnit();
      }
      if auTimestamp.None? {
        auTimestamp := Some(timestamp);
      }
      auBuffer := auBuffer + data;
      if marker {
        FinishAccessUnit();
      }
    }

    /** The assembler and the unfinished fragments are what depacketizing and assembling `ds` makes them. */
    ghost predicate Digested(ds: seq<Delivery>, n: nat)
      reads `auBuffer, `auTimestamp, `auDamaged, `waitKeyframe, `log, `h264Fu, `h265Fu
    {
      AsAssembler() == Assembled(kind, aacAdts, ds, n) && AsUnfinished() == Depacketized(kind, aacAdts, ds).rest
    }

    /** The payload through the depacketizer of the payload kind. */
    method ReadPacket(payload: seq<Byte>) returns (r: Option<seq<Byte>>)
      modifies `h264Fu, `h265Fu
      ensures Reading(r, AsUnfinished()) == ReadPayload(kind, aacAdts, old(AsUnfinished()), payload)
      ensures kind.Aac? && r.Some? ==> r.value != []
      ensures kind.G711? ==> r == Some(payload)
    {
      AacYieldsBytes(payload, aacAdts);
      hide DepacketizeH264, DepacketizeH265, DepacketizeAac;
      match kind
      case H264 => r := DepacketizeH264Payload(payload);
      case H265 => r := DepacketizeH265Payload(payload);
      case Aac => r := RewriteAac(payload, aacAdts);
      case _ => r := Some(payload);
    }

    /** Loss marking, depacketizing and assembling of one delivered packet. */
    method ProcessPacket(pkt: RtpPacket, lostBefore: bool, ghost before: seq<Delivery>)
      requires Digested(before, 0) && Queued() && NonEmptyUnits()
      modifies `auBuffer, `auTimestamp, `auDamaged, `waitKeyframe, `log, `readyAus, `h264Fu, `h265Fu
      ensures Digested(before + [Delivery(pkt, lostBefore)], 0) && Queued()
      ensures kind.G711? || NonEmptyUnits()
      ensures kind.G711? ==> |readyAus| == |old(readyAus)| + 1
    {
      hide Finish, MarkLoss, Append, ReadPayload, Assembled, Depacketized, Emissions, DepacketizeAac;
      AssembledSnoc(kind, aacAdts, before, Delivery(pkt, lostBefore));
      DepacketizedSnoc(kind, aacAdts, before, Delivery(pkt, lostBefore));
      if lostBefore && GroupsPackets(kind) {
        MarkPacketLoss(pkt.timestamp);
      }
      var data := ReadPacket(pkt.payload);
      if GroupsPackets(kind) {
        if data.Some? {
          AppendAccessUnit(pkt.timestamp, pkt.marker, data.value);
        } else if pkt.marker {
          FinishAccessUnit();
        }
      } else if data.Some? {
        EmissionsSnoc(log, Emitted(data.value));
        readyAus := readyAus + [data.value];
        log := log + [Emitted(data.value)];
      }
    }

    // -------------------------------------------------------------- reading chunks

    /** The bytes handed out and those still at hand are the units popped so far. */
    ghost predicate Drawn()
      reads `consumed, `remaining, `popped
    {
      consumed + remaining == Concat(popped)
    }

    /** The buffer between two calls. */
    ghost predicate Valid()
      reads this, queue
    {
      && Traced() && Digested(out, ends) && Queued() && Drawn() && NonEmptyUnits()
      && (kind.G711? ==> readyAus == [])
      && (ends > 0 ==> input == [] && queueCount == 0)
      && Stamped() && Started()
    }

    /** The buffer began with a batch that just filled its first window. */
    ghost predicate Started()
      reads `initial
    {
      initial != [] && FillsUp(initial, queueWindow)
    }

    ghost predicate Stamped()
      reads `stamp, `out
    {
      stamp == if out == [] then None else Some((out[|out| - 1].pkt.timestamp, out[|out| - 1].pkt.marker))
    }

    /** Nothing is left anywhere. */
    ghost predicate Drained()
      reads `input, `queueCount, `readyAus, `auBuffer, `remaining
    {
      input == [] && queueCount == 0 && readyAus == [] && auBuffer == [] && remaining == []
    }

    method ConsumeRemaining(maxLen: nat) returns (r: Option<seq<Byte>>)
      requires maxLen > 0 && Drawn()
      modifies `remaining, `consumed
      ensures Drawn()
      ensures r.None? <==> old(remaining) == []
      ensures r.None? ==> unchanged(`remaining, `consumed)
      ensures r.Some? ==> 0 < |r.value| <= maxLen && consumed == old(consumed) + r.value
      ensures r.Some? ==> |r.value| == maxLen || remaining == []
    {
      if remaining == [] {
        return None;
      }
      var copyLen := Min(|remaining|, maxLen);
      var chunk := remaining[..copyLen];
      assert remaining == chunk + remaining[copyLen..];
      remaining := remaining[copyLen..];
      consumed := consumed + chunk;
      return Some(chunk);
    }

    method ConsumeReadyAu(maxLen: nat) returns (r: Option<seq<Byte>>)
      requires maxLen > 0 && Drawn() && Queued() && remaining == []
      requires if kind.G711? then |readyAus| <= 1 else NonEmptyUnits()
      modifies `remaining, `consumed, `readyAus, `popped
      ensures Drawn() && Queued() && NonEmptyUnits() && (kind.G711? ==> readyAus == [])
      ensures r.None? ==> remaining == [] && readyAus == [] && consumed == old(consumed)
      ensures old(readyAus) == [] ==> r.None?
      ensures r.Some? ==> 0 < |r.value| <= maxLen && consumed == old(consumed) + r.value
      ensures r.Some? ==> |r.value| == maxLen || remaining == []
    {
      hide Emissions, Concat;
      if readyAus == [] {
        return None;
      }
      ConcatSnoc(popped, readyAus[0]);
      assert popped + readyAus == (popped + [readyAus[0]]) + readyAus[1..];
      remaining := readyAus[0];
      popped := popped + [readyAus[0]];
      readyAus := readyAus[1..];
      assert kind.G711? ==> readyAus == [];
      r := ConsumeRemaining(maxLen);
    }

    /** The next chunk. Over all calls the chunks are the emitted units, whole and in order; `None` comes
        exactly when the channel is closed and everything has been handed out, and then keeps coming. */
    method ConsumePacket(maxLen: nat) returns (r: Option<seq<Byte>>)
      requires Valid()
      modifies this, queue
      ensures Valid() && initial == old(initial)
      ensures maxLen == 0 ==> r == Some([]) && consumed == old(consumed)
      ensures r.Some? ==> |r.value| <= maxLen && consumed == old(consumed) + r.value
      ensures r.Some? && maxLen > 0 ==> r.value != [] && (|r.value| == maxLen || remaining == [])
      ensures r.None? ==> Drained() && ends > 0 && consumed == old(consumed)
      ensures maxLen > 0 && old(Drained()) ==> r.None?
    {
      hide Traced, Digested, Queued, Drawn;
      if maxLen == 0 {
        assert consumed + [] == consumed;
        return Some([]);
      }
      r := ConsumeRemaining(maxLen);
      if r.Some? { return; }
      r := ConsumeReadyAu(maxLen);
      if r.Some? { return; }
      r := ConsumeNextUnit(maxLen);
    }

    /** The loop of `consume_packet`: delivers packets until a unit is ready or the input has ended. */
    method ConsumeNextUnit(maxLen: nat) returns (r: Option<seq<Byte>>)
      requires maxLen > 0 && Valid() && remaining == [] && readyAus == []
      modifies this, queue
      ensures Valid() && initial == old(initial)
      ensures r.Some? ==> 0 < |r.value| <= maxLen && consumed == old(consumed) + r.value
      ensures r.Some? ==> |r.value| == maxLen || remaining == []
      ensures r.None? ==> Drained() && ends > 0 && consumed == old(consumed)
      ensures old(Drained()) ==> r.None?
    {
      hide Traced, Digested, Queued, Drawn, Stamped;
      while true
        invariant Valid() && remaining == [] && readyAus == [] && consumed == old(consumed)
        invariant initial == old(initial)
        invariant old(Drained()) ==> Drained()
        decreases |input| + queueCount
      {
        var open := ReducePacket();
        var delivered := DeliverNext(open);
        if delivered {
          r := ConsumeReadyAu(maxLen);
          if r.Some? { return; }
        }
        if !open && queueCount == 0 {
          r := ConsumeLastUnit(maxLen);
          return;
        }
        if !delivered {
          // An open channel has just refilled the ring.
          assert false;
        }
      }
    }

    /** At the end of the input the unit still open is the last one. */
    method ConsumeLastUnit(maxLen: nat) returns (r: Option<seq<Byte>>)
      requires maxLen > 0 && Valid() && remaining == [] && readyAus == [] && input == [] && queueCount == 0
      modifies `auBuffer, `auTimestamp, `auDamaged, `waitKeyframe, `log, `readyAus, `ends,
        `remaining, `consumed, `popped
      ensures Valid() && ends > 0
      ensures r.Some? ==> 0 < |r.value| <= maxLen && consumed == old(consumed) + r.value
      ensures r.Some? ==> |r.value| == maxLen || remaining == []
      ensures r.None? ==> Drained() && consumed == old(consumed)
      ensures old(Drained()) ==> r.None?
    {
      hide Traced, Digested, Queued, Drawn, Stamped;
      CloseUnit();
      r := ConsumeReadyAu(maxLen);
    }

    /** Nothing more will come: whatever unit is open ends here. */
    method CloseUnit()
      requires Digested(out, ends) && Queued() && NonEmptyUnits() && (kind.G711? ==> readyAus == [])
      modifies `auBuffer, `auTimestamp, `auDamaged, `waitKeyframe, `log, `readyAus, `ends
      ensures Digested(out, ends) && Queued() && NonEmptyUnits() && ends == old(ends) + 1
      ensures auBuffer == [] && (kind.G711? ==> readyAus == [])
      ensures old(auBuffer) == [] ==> readyAus == old(readyAus)
    {
      hide Assembled, Finish, Depacketized, Run, Emissions;
      AssembledEnd(kind, aacAdts, out, ends);
      FinishClears(kind, AsAssembler());
      UngroupedHoldsNothing(kind, aacAdts, out, ends);
      FinishAccessUnit();
      ends := ends + 1;
    }

    /** Takes the next packet out of the ring, waiting for it if need be, and processes it. */
    method DeliverNext(open: bool) returns (delivered: bool)
      requires Valid() && readyAus == [] && (!open ==> input == [])
      modifies `queueCount, queue, `input, `ops, `clock, `firstReadRtpSn, `out, `stamp,
        `auBuffer, `auTimestamp, `auDamaged, `waitKeyframe, `log, `readyAus, `h264Fu, `h265Fu
      ensures Traced() && Digested(out, ends) && Queued() && Stamped()
      ensures delivered <==> old(queueCount) > 0
      ensures !delivered ==> input == old(input) && queueCount == 0 && readyAus == [] && auBuffer == old(auBuffer)
      ensures !open ==> input == []
      ensures delivered ==> ends == 0 && |input| + queueCount < old(|input| + queueCount)
      ensures if kind.G711? then |readyAus| <= 1 else NonEmptyUnits()
    {
      hide Traced, Digested, Queued, Drawn;
      ghost var before := out;
      var next := TakeNextPacket(!open);
      if next.None? {
        return false;
      }
      stamp := Some((next.value.pkt.timestamp, next.value.pkt.marker));
      ProcessPacket(next.value.pkt, next.value.lostBefore, before);
      return true;
    }
  }
}

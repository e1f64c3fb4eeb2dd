/**
  From delivered RTP packets to access units: depacketizing each payload, then assembling. Whole-run facts
  that need both halves live here.
*/
module RtpPipeline {
  import opened Wrappers
  import opened Bytes
  import opened ReorderRing
  import opened StartCodes
  import opened AccessUnits
  import opened NalPayloads
  import opened Depacketizers
  import opened AacPayloads

  /** The unfinished H.264 and H.265 fragments. */
  datatype Unfinished = Unfinished(h264: Option<seq<Byte>>, h265: Option<seq<Byte>>)

  const NOTHING_UNFINISHED: Unfinished := Unfinished(None, None)

  datatype Reading = Reading(data: Option<seq<Byte>>, rest: Unfinished)

  function ReadPayload(kind: PayloadKind, cfg: AdtsConfig, u: Unfinished, payload: seq<Byte>): Reading {
    match kind
    case H264 => var s := DepacketizeH264(u.h264, payload); Reading(s.out, u.(h264 := s.fu))
    case H265 => var s := DepacketizeH265(u.h265, payload); Reading(s.out, u.(h265 := s.fu))
    case Aac => Reading(DepacketizeAac(payload, cfg), u)
    case _ => Reading(Some(payload), u)
  }

  /** What one delivery hands to the assembler. A flagged loss first discards unfinished fragments. */
  function ItemOf(kind: PayloadKind, cfg: AdtsConfig, u: Unfinished, d: Delivery): (Item, Unfinished) {
    var had := u.h264.Some? || u.h265.Some?;
    var u' := if d.lostBefore && GroupsPackets(kind) then NOTHING_UNFINISHED else u;
    var r := ReadPayload(kind, cfg, u', d.pkt.payload);
    (Item(d.pkt.timestamp, d.pkt.marker, d.lostBefore, had, r.data), r.rest)
  }

  datatype Front = Front(items: seq<Item>, rest: Unfinished)

  function Depacketized(kind: PayloadKind, cfg: AdtsConfig, ds: seq<Delivery>): (f: Front)
    ensures |f.items| == |ds|
  {
    if ds == [] then Front([], NOTHING_UNFINISHED)
    else
      var f := Depacketized(kind, cfg, ds[..|ds| - 1]);
      var (it, u) := ItemOf(kind, cfg, f.rest, ds[|ds| - 1]);
      Front(f.items + [it], u)
  }

  /** The assembler's whole input: the deliveries, then `ends` notices that nothing more will come. */
  function Inputs(kind: PayloadKind, cfg: AdtsConfig, ds: seq<Delivery>, ends: nat): seq<Input> {
    Packets(Depacketized(kind, cfg, ds).items) + seq(ends, _ => EndOfInput)
  }

  function Assembled(kind: PayloadKind, cfg: AdtsConfig, ds: seq<Delivery>, ends: nat): Assembler {
    Run(kind, NewAssembler(kind), Inputs(kind, cfg, ds, ends))
  }

  lemma DepacketizedSnoc(kind: PayloadKind, cfg: AdtsConfig, ds: seq<Delivery>, d: Delivery)
    ensures var f := Depacketized(kind, cfg, ds);
            var (it, u) := ItemOf(kind, cfg, f.rest, d);
            Depacketized(kind, cfg, ds + [d]) == Front(f.items + [it], u)
  {
    assert (ds + [d])[..|ds|] == ds;
  }

  lemma AssembledSnoc(kind: PayloadKind, cfg: AdtsConfig, ds: seq<Delivery>, d: Delivery)
    ensures Assembled(kind, cfg, ds + [d], 0) ==
            Step(kind, Assembled(kind, cfg, ds, 0), Packet(ItemOf(kind, cfg, Depacketized(kind, cfg, ds).rest, d).0))
  {
    hide Run, Step, ItemOf;
    DepacketizedSnoc(kind, cfg, ds, d);
    var it := ItemOf(kind, cfg, Depacketized(kind, cfg, ds).rest, d).0;
    assert Inputs(kind, cfg, ds + [d], 0) == Inputs(kind, cfg, ds, 0) + [Packet(it)];
    AccessUnits.RunSnoc(kind, NewAssembler(kind), Inputs(kind, cfg, ds, 0), Packet(it));
  }

  lemma AssembledEnd(kind: PayloadKind, cfg: AdtsConfig, ds: seq<Delivery>, ends: nat)
    ensures Assembled(kind, cfg, ds, ends + 1) == Finish(kind, Assembled(kind, cfg, ds, ends))
  {
    hide Run;
    assert Inputs(kind, cfg, ds, ends + 1) == Inputs(kind, cfg, ds, ends) + [EndOfInput];
    AccessUnits.RunSnoc(kind, NewAssembler(kind), Inputs(kind, cfg, ds, ends), EndOfInput);
  }

  // ---------------------------------------------------------------- program streams, end to end

  function PayloadsOf(ds: seq<Delivery>): seq<seq<Byte>> {
    seq(|ds|, i requires 0 <= i < |ds| => ds[i].pkt.payload)
  }

  ghost predicate KeepsPayloads(kind: PayloadKind) {
    kind.Ps? || kind.Passthrough? || kind.G711?
  }

  lemma {:induction false} PayloadsKept(kind: PayloadKind, cfg: AdtsConfig, ds: seq<Delivery>)
    requires KeepsPayloads(kind)
    ensures var items := Depacketized(kind, cfg, ds).items;
            Data(Packets(items)) == Concat(PayloadsOf(ds)) &&
            forall i :: 0 <= i < |ds| ==> items[i].lost == ds[i].lostBefore
  {
    if ds != [] {
      var n := |ds| - 1;
      var front, items := ds[..n], Depacketized(kind, cfg, ds).items;
      PayloadsKept(kind, cfg, front);
      assert Packets(items)[..n] == Packets(Depacketized(kind, cfg, front).items);
      assert PayloadsOf(ds)[..n] == PayloadsOf(front);
    }
  }

  lemma {:induction false} EndsCarryNothing(inputs: seq<Input>, ends: nat)
    ensures Data(inputs + seq(ends, _ => EndOfInput)) == Data(inputs)
  {
    var all := inputs + seq(ends, _ => EndOfInput);
    if ends == 0 {
      assert all == inputs;
    } else {
      EndsCarryNothing(inputs, ends - 1);
      assert all[..|all| - 1] == inputs + seq(ends - 1, _ => EndOfInput);
    }
  }

  /** For program streams, passthrough and G.711: when no delivery is flagged lost, the emitted units and
      what is pending are together all delivered payloads in order; at the end of input nothing is pending. */
  lemma LosslessStreamIsRestored(kind: PayloadKind, cfg: AdtsConfig, ds: seq<Delivery>, ends: nat)
    requires KeepsPayloads(kind) && forall d :: d in ds ==> !d.lostBefore
    ensures var a := Assembled(kind, cfg, ds, ends);
            Concat(Emissions(a.log)) + a.buffer == Concat(PayloadsOf(ds)) && (ends > 0 ==> a.buffer == [])
  {
    hide Run, Finish, Data, Depacketized;
    PayloadsKept(kind, cfg, ds);
    EndsCarryNothing(Packets(Depacketized(kind, cfg, ds).items), ends);
    assert forall i :: 0 <= i < |ds| ==> ds[i] in ds;
    LosslessInputIsWhole(kind, Inputs(kind, cfg, ds, ends));
    if ends > 0 {
      AssembledEnd(kind, cfg, ds, ends - 1);
      FinishClears(kind, Assembled(kind, cfg, ds, ends - 1));
    }
  }

  // ---------------------------------------------------------------- H.264 and H.265 units, end to end

  function CodecOf(kind: PayloadKind): Codec
    requires IsRawVideo(kind)
  {
    if kind.H264? then Avc else Hevc
  }

  function FragmentOf(kind: PayloadKind, u: Unfinished): Option<seq<Byte>> {
    if kind.H264? then u.h264 else u.h265
  }

  lemma {:induction false} RunSplit(kind: PayloadKind, a: Assembler, xs: seq<Input>, ys: seq<Input>)
    ensures Run(kind, a, xs + ys) == Run(kind, Run(kind, a, xs), ys)
  {
    hide Step;
    if ys == [] {
      assert xs + ys == xs;
    } else {
      var n := |ys| - 1;
      RunSplit(kind, a, xs, ys[..n]);
      assert (xs + ys)[..|xs| + n] == xs + ys[..n];
    }
  }

  /** One delivery without loss is depacketized by the codec, from that codec's unfinished fragment. */
  lemma VideoItem(kind: PayloadKind, cfg: AdtsConfig, u: Unfinished, d: Delivery)
    requires IsRawVideo(kind) && !d.lostBefore
    ensures var (it, u') := ItemOf(kind, cfg, u, d);
            var s := Depacketize(CodecOf(kind), FragmentOf(kind, u), d.pkt.payload);
            && it.timestamp == d.pkt.timestamp && it.marker == d.pkt.marker && !it.lost
            && it.data == s.out && FragmentOf(kind, u') == s.fu
  {
    hide DepacketizeH264, DepacketizeH265;
  }

  ghost predicate ItemFor(it: Item, d: Delivery) {
    it.timestamp == d.pkt.timestamp && it.marker == d.pkt.marker && !it.lost
  }

  lemma DataSnoc(items: seq<Item>, it: Item)
    ensures Data(Packets(items + [it])) == Data(Packets(items)) + if it.data.Some? then it.data.value else []
  {
    assert Packets(items + [it])[..|items|] == Packets(items);
  }

  /** Deliveries without loss depacketize as their payloads fed in order. */
  lemma {:induction false} VideoItems(
    kind: PayloadKind, cfg: AdtsConfig, before: seq<Delivery>, ds: seq<Delivery>)
    returns (items: seq<Item>)
    requires IsRawVideo(kind) && forall d :: d in ds ==> !d.lostBefore
    ensures var f, g := Depacketized(kind, cfg, before), Depacketized(kind, cfg, before + ds);
            var r := FeedAll(CodecOf(kind), FragmentOf(kind, f.rest), PayloadsOf(ds));
            && g.items == f.items + items && FragmentOf(kind, g.rest) == r.fu
            && Data(Packets(items)) == r.data && |items| == |ds|
            && (ds != [] ==> items[|ds| - 1].data == r.last)
    ensures forall i :: 0 <= i < |ds| ==> ItemFor(items[i], ds[i])
  {
    hide ItemOf, Depacketized, FeedAll, Data, Depacketize, CodecOf, FragmentOf, IsRawVideo;
    items := [];
    if ds == [] {
      assert before + ds == before && PayloadsOf(ds) == [];
      NoItems(CodecOf(kind), FragmentOf(kind, Depacketized(kind, cfg, before).rest));
    } else {
      var n := |ds| - 1;
      var front, d := ds[..n], ds[n];
      items := VideoItems(kind, cfg, before, front);
      var h := Depacketized(kind, cfg, before + front);
      assert before + ds == (before + front) + [d];
      DepacketizedSnoc(kind, cfg, before + front, d);
      FeedSnoc(CodecOf(kind), FragmentOf(kind, Depacketized(kind, cfg, before).rest), PayloadsOf(front), d.pkt.payload);
      assert PayloadsOf(ds) == PayloadsOf(front) + [d.pkt.payload];
      VideoItem(kind, cfg, h.rest, d);
      var it := ItemOf(kind, cfg, h.rest, d).0;
      DataSnoc(items, it);
      items := items + [it];
    }
  }

  lemma NoItems(codec: Codec, fu: Option<seq<Byte>>)
    ensures Data(Packets([])) == [] && FeedAll(codec, fu, []) == Feed([], None, fu)
  {}

  /** The deliveries of one access unit: the payloads of some carriers, one timestamp, a marker on the last
      packet only, no loss. */
  ghost predicate UnitDeliveries(kind: PayloadKind, cs: seq<Carrier>, t: nat, ds: seq<Delivery>)
    requires IsRawVideo(kind)
  {
    && cs != [] && (forall c :: c in cs ==> Legal(CodecOf(kind), c))
    && PayloadsOf(ds) == AllPayloads(CodecOf(kind), cs)
    && forall i :: 0 <= i < |ds| ==>
         ds[i].pkt.timestamp == t && (ds[i].pkt.marker <==> i == |ds| - 1) && !ds[i].lostBefore
  }

  predicate IsKeyframe(kind: PayloadKind, nal: seq<Byte>) {
    (kind.H264? && IsH264Keyframe(nal)) || (kind.H265? && IsH265Keyframe(nal))
  }

  lemma CarriersHavePackets(codec: Codec, cs: seq<Carrier>)
    requires cs != [] && forall c :: c in cs ==> Legal(codec, c)
    ensures AllPayloads(codec, cs) != []
  {
    var c := cs[|cs| - 1];
    assert c in cs && Legal(codec, c);
    assert |Payloads(codec, c)| > 0;
  }

  /** Raw video end to end: the packets of an access unit, whatever mixture of single, aggregated and
      fragmented NAL units they are, come out as one unit holding exactly its NAL units behind start codes
      (bare H.265 headers left out), unless a keyframe is awaited and none of them is one. A unit of bare
      headers only leaves no trace. */
  lemma VideoUnitGetsThrough(
    kind: PayloadKind, cfg: AdtsConfig, before: seq<Delivery>, cs: seq<Carrier>, t: nat, ds: seq<Delivery>)
    requires kind in {H264, H265} && UnitDeliveries(kind, cs, t, ds)
    requires AtBoundary(Assembled(kind, cfg, before, 0))
    requires FragmentOf(kind, Depacketized(kind, cfg, before).rest) == None
    requires forall n :: n in AllSurviving(CodecOf(kind), cs) ==> EmulationFree(n)
    ensures var a, b := Assembled(kind, cfg, before, 0), Assembled(kind, cfg, before + ds, 0);
            var nals := AllSurviving(CodecOf(kind), cs);
            && AtBoundary(b) && FragmentOf(kind, Depacketized(kind, cfg, before + ds).rest) == None
            && b.log == a.log + (
                 if Stream(nals) == [] then []
                 else if a.waitKeyframe && !(exists n :: n in nals && IsKeyframe(kind, n))
                     then [DroppedWaiting(Stream(nals))]
                 else [Emitted(Stream(nals))])
  {
    hide Run, Depacketized, FeedAll, AllPayloads, Legal, Stream, EmulationFree, Data, AtBoundary, HasKeyframe,
      IsKeyframe, AllSurviving;
    var codec := CodecOf(kind);
    var items := VideoItems(kind, cfg, before, ds);
    CarriersRoundTrip(codec, cs);
    CarriersHavePackets(codec, cs);
    assert Inputs(kind, cfg, before + ds, 0) == Inputs(kind, cfg, before, 0) + Packets(items);
    RunSplit(kind, NewAssembler(kind), Inputs(kind, cfg, before, 0), Packets(items));
    assert IntactUnit(items, t);
    IntactUnitGetsThrough(kind, Assembled(kind, cfg, before, 0), items, t);
    KeyframeOfStream(kind, AllSurviving(codec, cs));
  }

  lemma KeyframeOfStream(kind: PayloadKind, nals: seq<seq<Byte>>)
    requires kind in {H264, H265} && forall n :: n in nals ==> EmulationFree(n)
    ensures HasKeyframe(kind, Stream(nals)) <==> exists n :: n in nals && IsKeyframe(kind, n)
  {
    hide Stream, AccessUnitHasNal, EmulationFree;
    ScanIsExact(nals, IsH264Keyframe);
    ScanIsExact(nals, IsH265Keyframe);
  }

  // ---------------------------------------------------------------- fragments and losses

  /** Only the fragment of the stream's own codec is ever kept. */
  lemma {:induction false} OwnFragmentOnly(kind: PayloadKind, cfg: AdtsConfig, ds: seq<Delivery>)
    ensures var u := Depacketized(kind, cfg, ds).rest;
            && (u.h264.Some? ==> kind.H264?) && (u.h265.Some? ==> kind.H265?)
  {
    hide DepacketizeH264, DepacketizeH265, DepacketizeAac;
    if ds != [] { OwnFragmentOnly(kind, cfg, ds[..|ds| - 1]); }
  }

  /** The assembler is told of an unfinished fragment exactly when one of the stream's codec is kept. */
  lemma FragmentIsReported(kind: PayloadKind, cfg: AdtsConfig, ds: seq<Delivery>, d: Delivery)
    ensures var u := Depacketized(kind, cfg, ds).rest;
            ItemOf(kind, cfg, u, d).0.hadFragment <==>
            (kind.H264? && u.h264.Some?) || (kind.H265? && u.h265.Some?)
  {
    OwnFragmentOnly(kind, cfg, ds);
  }

  /** After a flagged loss depacketizing starts afresh: what comes out depends on nothing before it, so no NAL unit
      is put together from fragments on both sides of a loss. */
  lemma {:induction false} LossStartsAfresh(
    kind: PayloadKind, cfg: AdtsConfig, before: seq<Delivery>, ds: seq<Delivery>)
    requires kind !in {Aac, G711} && ds != [] && ds[0].lostBefore
    ensures var f, g := Depacketized(kind, cfg, before + ds), Depacketized(kind, cfg, ds);
            f.rest == g.rest && forall i :: 0 <= i < |ds| ==> f.items[|before| + i].data == g.items[i].data
  {
    hide DepacketizeH264, DepacketizeH265, DepacketizeAac;
    var n := |ds| - 1;
    assert (before + ds)[..|before + ds| - 1] == before + ds[..n];
    if n == 0 {
      assert ds[..n] == [] && before + ds[..n] == before;
    } else {
      LossStartsAfresh(kind, cfg, before, ds[..n]);
    }
  }

  // ---------------------------------------------------------------- AAC, end to end

  lemma {:induction false} AacItems(cfg: AdtsConfig, ds: seq<Delivery>, packed: seq<seq<seq<Byte>>>)
    requires |packed| == |ds| && cfg.sampleRate in RATES
    requires forall i :: 0 <= i < |ds| ==> Packable(packed[i]) && 1 <= |packed[i]| <= 4094
    requires forall i :: 0 <= i < |ds| ==> ds[i].pkt.payload == AacPacket(packed[i])
    ensures PacketData(Packets(Depacketized(Aac, cfg, ds).items)) ==
            seq(|ds|, i requires 0 <= i < |ds| => Frames(packed[i], cfg))
  {
    hide DepacketizeAac, AacPacket, Packable, Frames;
    if ds != [] {
      var n := |ds| - 1;
      AacItems(cfg, ds[..n], packed[..n]);
      PacketBecomesFrames(packed[n], cfg);
      var items := Depacketized(Aac, cfg, ds).items;
      assert Packets(items)[..n] == Packets(items[..n]) && items[..n] == Depacketized(Aac, cfg, ds[..n]).items;
    }
  }

  /** AAC: packets of access units are handed on as their ADTS frames, packet by packet and in order, whatever is
      flagged lost. */
  lemma AacStreamIsRewritten(cfg: AdtsConfig, ds: seq<Delivery>, packed: seq<seq<seq<Byte>>>)
    requires |packed| == |ds| && cfg.sampleRate in RATES
    requires forall i :: 0 <= i < |ds| ==> Packable(packed[i]) && 1 <= |packed[i]| <= 4094
    requires forall i :: 0 <= i < |ds| ==> ds[i].pkt.payload == AacPacket(packed[i])
    ensures Emissions(Assembled(Aac, cfg, ds, 0).log) ==
            seq(|ds|, i requires 0 <= i < |ds| => Frames(packed[i], cfg))
  {
    hide Run, Depacketized, AacPacket, Packable, Frames, PacketData;
    AacItems(cfg, ds, packed);
    PacketsAreUnits(Aac, Inputs(Aac, cfg, ds, 0));
    assert Inputs(Aac, cfg, ds, 0) == Packets(Depacketized(Aac, cfg, ds).items);
  }
}

/**
  The H.264 (RFC 6184) and H.265 (RFC 7798) payload depacketizers of stream/src/media/rtp.rs as values, and
  the packings they undo: single NAL units, aggregation packets and fragmentation units.
*/
module Depacketizers {
  import opened Wrappers
  import opened Bytes
  import opened StartCodes
  import opened NalPayloads

  // ---------------------------------------------------------------- reading

  /** FU-A: indicator, header with start bit, end bit and type, then the piece. The NAL header is rebuilt
      from the top three bits of the indicator and the low five of the header. */
  function H264Fragment(p: seq<Byte>): Fragment {
    if |p| < 3 then NotOne
    else
      var start, end := p[1] / 128 == 1, p[1] / 64 % 2 == 1;
      if start && end then NotOne
      else Fragment(start, end, [p[0] / 32 * 32 + p[1] % 32], p[2..])
  }

  function DepacketizeH264(fu: Option<seq<Byte>>, p: seq<Byte>): FuStep {
    if p == [] then FuStep(None, fu)
    else
      var nalType := p[0] % 32;
      if nalType <= 23 then FuStep(Some(START_CODE + p), fu)
      else if nalType == 24 then FuStep(AggregationPacket(p, 1), fu)
      else if nalType == 28 then Reassemble(fu, H264Fragment(p))
      else FuStep(None, fu)
  }

  /** The H.265 fragmentation unit; the NAL header keeps the forbidden bit and the layer bit of the first
      byte, takes the type from the FU header, and keeps the second byte. */
  function H265Fragment(p: seq<Byte>): Fragment {
    if |p| < 4 then NotOne
    else
      var start, end := p[2] / 128 == 1, p[2] / 64 % 2 == 1;
      if start && end then NotOne
      else Fragment(start, end, [p[0] / 128 * 128 + p[2] % 64 * 2 + p[0] % 2, p[1]], p[3..])
  }

  function H265Type(header: seq<Byte>): nat
    requires |header| >= 2
  {
    header[0] / 2 % 64
  }

  /** One layer, and a temporal id that is not zero. */
  predicate SingleLayer(header: seq<Byte>)
    requires |header| >= 2
  {
    header[0] % 2 * 32 + header[1] / 8 == 0 && header[1] % 8 != 0
  }

  function DepacketizeH265(fu: Option<seq<Byte>>, p: seq<Byte>): FuStep {
    if |p| < 3 || !SingleLayer(p) then FuStep(None, fu)
    else
      var nalType := H265Type(p);
      if nalType <= 47 then FuStep(Some(START_CODE + p), fu)
      else if nalType == 48 then FuStep(AggregationPacket(p, 2), fu)
      else if nalType == 49 then Reassemble(fu, H265Fragment(p))
      else FuStep(None, fu)
  }

  datatype Codec = Avc | Hevc

  function Depacketize(codec: Codec, fu: Option<seq<Byte>>, p: seq<Byte>): FuStep {
    match codec
    case Avc => DepacketizeH264(fu, p)
    case Hevc => DepacketizeH265(fu, p)
  }

  // ---------------------------------------------------------------- writing, as the RFCs prescribe

  /** One way of carrying NAL units: alone, several in one packet, or one cut into pieces. */
  datatype Carrier =
    | Single(nal: seq<Byte>)
    | Aggregated(header: seq<Byte>, nals: seq<seq<Byte>>)
    | Fragmented(header: seq<Byte>, bodies: seq<seq<Byte>>)

  function NalHeaderLength(codec: Codec): nat {
    match codec { case Avc => 1 case Hevc => 2 }
  }

  /** RFC 6184 sections 5.6 to 5.8 and RFC 7798 sections 4.4.1 to 4.4.3: which carriers are legal, for H.265
      within a single layer. An H.265 NAL unit may consist of its two header bytes alone. */
  ghost predicate Legal(codec: Codec, c: Carrier) {
    match c
    case Single(nal) =>
      (match codec
       case Avc => nal != [] && nal[0] % 32 <= 23
       case Hevc => |nal| >= 2 && SingleLayer(nal) && H265Type(nal) <= 47)
    case Aggregated(header, nals) =>
      nals != [] && AllSized(nals) && |header| == NalHeaderLength(codec) &&
      (match codec
       case Avc => header[0] % 32 == 24
       case Hevc => SingleLayer(header) && H265Type(header) == 48)
    case Fragmented(header, bodies) =>
      |header| == NalHeaderLength(codec) && |bodies| >= 2 && (forall b :: b in bodies ==> b != []) &&
      (codec.Hevc? ==> SingleLayer(header))
  }

  /** The depacketizer gives the carrier's NAL units: all but a bare H.265 header sent alone. */
  predicate Survives(codec: Codec, c: Carrier) {
    codec.Hevc? && c.Single? ==> |c.nal| >= 3
  }

  /** The NAL units of a carrier that the depacketizer gives. */
  ghost function Surviving(codec: Codec, c: Carrier): seq<seq<Byte>> {
    if Survives(codec, c) then NalsOf(c) else []
  }

  ghost function NalsOf(c: Carrier): seq<seq<Byte>> {
    match c
    case Single(nal) => [nal]
    case Aggregated(_, nals) => nals
    case Fragmented(header, bodies) => [header + Concat(bodies)]
  }

  /** The start and end bits of piece `i` of `n`. */
  function FuFlags(i: nat, n: nat): nat {
    if i == 0 then 128 else if i == n - 1 then 64 else 0
  }

  /** RFC 6184 section 5.8 and RFC 7798 section 4.4.3: one piece of a NAL unit. */
  function FuPayload(codec: Codec, header: seq<Byte>, i: nat, n: nat, body: seq<Byte>): seq<Byte>
    requires |header| == NalHeaderLength(codec)
  {
    match codec
    case Avc => [header[0] / 32 * 32 + 28, FuFlags(i, n) + header[0] % 32] + body
    case Hevc => [header[0] / 128 * 128 + 98 + header[0] % 2, header[1], FuFlags(i, n) + H265Type(header)] + body
  }

  ghost function Payloads(codec: Codec, c: Carrier): seq<seq<Byte>>
    requires Legal(codec, c)
  {
    match c
    case Single(nal) => [nal]
    case Aggregated(header, nals) => [header + Aggregate(nals)]
    case Fragmented(header, bodies) =>
      seq(|bodies|, i requires 0 <= i < |bodies| => FuPayload(codec, header, i, |bodies|, bodies[i]))
  }

  // ---------------------------------------------------------------- reading undoes writing

  lemma AvcPieceReadBack(header: seq<Byte>, i: nat, n: nat, body: seq<Byte>)
    requires |header| == 1 && n >= 2 && i < n && body != []
    ensures var p := FuPayload(Avc, header, i, n, body);
            p[0] % 32 == 28 && H264Fragment(p) == Fragment(i == 0, i == n - 1, header, body)
  {
    var p := FuPayload(Avc, header, i, n, body);
    assert p[2..] == body && header == [header[0]];
  }

  lemma HevcPieceReadBack(header: seq<Byte>, i: nat, n: nat, body: seq<Byte>)
    requires |header| == 2 && n >= 2 && i < n && body != [] && SingleLayer(header)
    ensures var p := FuPayload(Hevc, header, i, n, body);
            SingleLayer(p) && H265Type(p) == 49 && H265Fragment(p) == Fragment(i == 0, i == n - 1, header, body)
  {
    var p := FuPayload(Hevc, header, i, n, body);
    assert p[0] / 128 == header[0] / 128 && p[0] % 2 == header[0] % 2 && p[0] / 2 % 64 == 49;
    assert p[2] % 64 == H265Type(header);
    assert p[3..] == body && header == [header[0], header[1]];
  }

  /** The headers of a piece are read back as they were written. */
  lemma FuHeadersRoundTrip(
    codec: Codec, fu: Option<seq<Byte>>, header: seq<Byte>, i: nat, n: nat, body: seq<Byte>)
    requires |header| == NalHeaderLength(codec) && n >= 2 && i < n && body != []
    requires codec.Hevc? ==> SingleLayer(header)
    ensures Depacketize(codec, fu, FuPayload(codec, header, i, n, body)) ==
            Reassemble(fu, Fragment(i == 0, i == n - 1, header, body))
  {
    hide Reassemble, H264Fragment, H265Fragment;
    match codec
    case Avc => AvcPieceReadBack(header, i, n, body);
    case Hevc => HevcPieceReadBack(header, i, n, body);
  }

  /** What feeding payloads in order yields in all, what the last of them yields, and what stays unfinished. */
  datatype Feed = Feed(data: seq<Byte>, last: Option<seq<Byte>>, fu: Option<seq<Byte>>)

  function FeedAll(codec: Codec, fu: Option<seq<Byte>>, ps: seq<seq<Byte>>): Feed {
    if ps == [] then Feed([], None, fu)
    else
      var r := FeedAll(codec, fu, ps[..|ps| - 1]);
      var s := Depacketize(codec, r.fu, ps[|ps| - 1]);
      Feed(r.data + (if s.out.Some? then s.out.value else []), s.out, s.fu)
  }

  lemma FeedSnoc(codec: Codec, fu: Option<seq<Byte>>, ps: seq<seq<Byte>>, p: seq<Byte>)
    ensures var r := FeedAll(codec, fu, ps);
            var s := Depacketize(codec, r.fu, p);
            FeedAll(codec, fu, ps + [p]) == Feed(r.data + (if s.out.Some? then s.out.value else []), s.out, s.fu)
  {
    assert (ps + [p])[..|ps|] == ps;
  }

  lemma FeedNothing(codec: Codec, fu: Option<seq<Byte>>)
    ensures FeedAll(codec, fu, []) == Feed([], None, fu)
  {}

  lemma {:induction false} FeedSplit(codec: Codec, fu: Option<seq<Byte>>, xs: seq<seq<Byte>>, ys: seq<seq<Byte>>)
    ensures var a := FeedAll(codec, fu, xs);
            var b := FeedAll(codec, a.fu, ys);
            FeedAll(codec, fu, xs + ys) == Feed(a.data + b.data, if ys == [] then a.last else b.last, b.fu)
  {
    hide *;
    var a := FeedAll(codec, fu, xs);
    if ys == [] {
      assert xs + ys == xs;
      FeedNothing(codec, a.fu);
    } else {
      var n := |ys| - 1;
      FeedSplit(codec, fu, xs, ys[..n]);
      assert xs + ys == (xs + ys[..n]) + [ys[n]] && ys == ys[..n] + [ys[n]];
      FeedSnoc(codec, fu, xs + ys[..n], ys[n]);
      FeedSnoc(codec, a.fu, ys[..n], ys[n]);
    }
  }

  lemma {:induction false} FeedFragments(
    codec: Codec, fu: Option<seq<Byte>>, c: Carrier, n: nat)
    requires c.Fragmented? && Legal(codec, c) && 0 < n <= |c.bodies|
    ensures var r := FeedAll(codec, fu, Payloads(codec, c)[..n]);
            var s := ReassembleAll(fu, Fragments(c.header, c.bodies)[..n]);
            r.fu == s.fu && r.last == s.out &&
            r.data == if n == |c.bodies| then START_CODE + c.header + Concat(c.bodies) else []
  {
    hide Depacketize, Reassemble, FuPayload;
    var ps, fs := Payloads(codec, c), Fragments(c.header, c.bodies);
    assert ps[..n][..n - 1] == ps[..n - 1] && fs[..n][..n - 1] == fs[..n - 1];
    assert c.bodies[n - 1] in c.bodies;
    FragmentsRejoin(fu, c.header, c.bodies, n);
    if n > 1 {
      FeedFragments(codec, fu, c, n - 1);
    } else {
      assert ps[..0] == [] && fs[..0] == [];
    }
    FuHeadersRoundTrip(codec, FeedAll(codec, fu, ps[..n - 1]).fu, c.header, n - 1, |c.bodies|, c.bodies[n - 1]);
  }

  lemma AggregatedYields(codec: Codec, fu: Option<seq<Byte>>, c: Carrier)
    requires c.Aggregated? && Legal(codec, c)
    ensures Depacketize(codec, fu, c.header + Aggregate(c.nals)) == FuStep(Some(Stream(c.nals)), fu)
  {
    hide AggregationPacket, Stream, Aggregate;
    AggregateYields(c.header, c.nals, []);
    assert Aggregate(c.nals) + [] == Aggregate(c.nals);
    AggregateIsLong(c.nals);
  }

  lemma AggregateIsLong(nals: seq<seq<Byte>>)
    requires nals != [] && AllSized(nals)
    ensures |Aggregate(nals)| > 2
  {}

  /** A legal single H.265 NAL unit comes out if and only if it is more than its two header bytes. */
  lemma SingleUnitsNeedThreeBytes(fu: Option<seq<Byte>>, nal: seq<Byte>)
    requires Legal(Hevc, Single(nal))
    ensures DepacketizeH265(fu, nal) == FuStep(Some(START_CODE + nal), fu) <==> |nal| >= 3
    ensures |nal| == 2 ==> DepacketizeH265(fu, nal) == FuStep(None, fu)
  {}

  /** An end-of-sequence NAL unit, type 36, is a legal one that is dropped. */
  lemma EndOfSequenceIsDropped()
    ensures Legal(Hevc, Single([72, 1])) && H265Type([72, 1]) == 36
              && DepacketizeH265(None, [72, 1]) == FuStep(None, None)
  {}

  /** Every legal carrier, fed in order from any unfinished state, yields exactly its NAL units behind start
      codes, the last of them with the last packet, except that a bare H.265 header yields nothing; a
      fragmented carrier also clears the unfinished state. */
  lemma CarrierRoundTrip(codec: Codec, fu: Option<seq<Byte>>, c: Carrier)
    requires Legal(codec, c)
    ensures var r := FeedAll(codec, fu, Payloads(codec, c));
            && r.data == Stream(Surviving(codec, c)) && (r.last.Some? <==> Survives(codec, c))
            && r.fu == if c.Fragmented? then None else fu
    ensures FeedAll(codec, fu, Payloads(codec, c)).data == Stream(NalsOf(c)) <==> Survives(codec, c)
  {
    hide FeedAll, ReassembleAll, AggregationPacket, Aggregate;
    match c
    case Single(nal) =>
      OnePayload(codec, fu, nal);
      assert Stream([nal]) == START_CODE + nal && Stream([]) == [];
    case Aggregated(header, nals) =>
      OnePayload(codec, fu, header + Aggregate(nals));
      AggregatedYields(codec, fu, c);
    case Fragmented(header, bodies) =>
      var n := |bodies|;
      assert Payloads(codec, c)[..n] == Payloads(codec, c) && Fragments(header, bodies)[..n]
          == Fragments(header, bodies);
      FeedFragments(codec, fu, c, n);
      FragmentsRejoin(fu, header, bodies, n);
      assert Stream([header + Concat(bodies)]) == START_CODE + header + Concat(bodies);
  }

  lemma OnePayload(codec: Codec, fu: Option<seq<Byte>>, p: seq<Byte>)
    ensures var s := Depacketize(codec, fu, p);
            FeedAll(codec, fu, [p]) == Feed(if s.out.Some? then s.out.value else [], s.out, s.fu)
  {
    assert [p][..0] == [];
  }

  ghost function AllPayloads(codec: Codec, cs: seq<Carrier>): seq<seq<Byte>>
    requires forall c :: c in cs ==> Legal(codec, c)
  {
    if cs == [] then [] else AllPayloads(codec, cs[..|cs| - 1]) + Payloads(codec, cs[|cs| - 1])
  }

  /** The NAL units of all carriers that survive, in order. */
  ghost function AllSurviving(codec: Codec, cs: seq<Carrier>): seq<seq<Byte>> {
    if cs == [] then [] else AllSurviving(codec, cs[..|cs| - 1]) + Surviving(codec, cs[|cs| - 1])
  }

  /** Any mixture of legal carriers depacketizes to all its NAL units behind start codes, the bare H.265 headers
      among them left out. */
  lemma {:induction false} CarriersRoundTrip(codec: Codec, cs: seq<Carrier>)
    requires forall c :: c in cs ==> Legal(codec, c)
    ensures var r := FeedAll(codec, None, AllPayloads(codec, cs));
            && r.data == Stream(AllSurviving(codec, cs)) && r.fu == None
            && (cs != [] ==> (r.last.Some? <==> Survives(codec, cs[|cs| - 1])))
  {
    hide Depacketize, Surviving, Survives;
    if cs != [] {
      var front, c := cs[..|cs| - 1], cs[|cs| - 1];
      CarriersRoundTrip(codec, front);
      CarrierRoundTrip(codec, None, c);
      FeedSplit(codec, None, AllPayloads(codec, front), Payloads(codec, c));
      StreamSplit(AllSurviving(codec, front), Surviving(codec, c));
      assert Payloads(codec, c) != [];
    }
  }

  // ---------------------------------------------------------------- what is not taken

  /** A fragment that cannot be read: shorter than its headers and one byte, or marked as first and last at once. */
  lemma UnreadableIff(p: seq<Byte>)
    ensures H264Fragment(p).NotOne? <==> |p| <= 2 || p[1] >= 192
    ensures H265Fragment(p).NotOne? <==> |p| <= 3 || p[2] >= 192
  {
    if |p| >= 2 {
      var b: int := p[1];
      assert b / 128 == 1 && b / 64 % 2 == 1 <==> b >= 192;
    }
    if |p| >= 3 {
      var c: int := p[2];
      assert c / 128 == 1 && c / 64 % 2 == 1 <==> c >= 192;
    }
  }

  /** H.264 payloads that change nothing: the empty one, and every type but NAL units, STAP-A and FU-A. */
  lemma H264Ignored(fu: Option<seq<Byte>>, p: seq<Byte>)
    requires p == [] || p[0] % 32 in {25, 26, 27, 29, 30, 31}
    ensures DepacketizeH264(fu, p) == FuStep(None, fu)
  {}

  /** H.265 payloads that change nothing: below three bytes, of another layer, with temporal id zero, or of a type
      above fragmentation units. */
  lemma H265Ignored(fu: Option<seq<Byte>>, p: seq<Byte>)
    requires |p| <= 2 || p[0] % 2 == 1 || p[1] >= 8 || p[1] == 0 || p[0] / 2 % 64 >= 50
    ensures DepacketizeH265(fu, p) == FuStep(None, fu)
  {}
}

/**
  AAC payloads (RFC 3640 section 3.3.6, AAC-hbr) rewritten as an ADTS stream, as stream/src/media/rtp.rs
  does, and what a reader that walks the ADTS frame lengths recovers from it.
*/
module AacPayloads {
  import opened Wrappers
  import opened Bytes
  import opened NalPayloads

  datatype AdtsConfig = AdtsConfig(sampleRate: nat, channels: nat)

  function SampleRateIndex(rate: nat): (r: Option<nat>)
    ensures r.Some? ==> r.value <= 12
  {
    match rate
    case 96000 => Some(0)
    case 88200 => Some(1)
    case 64000 => Some(2)
    case 48000 => Some(3)
    case 44100 => Some(4)
    case 32000 => Some(5)
    case 24000 => Some(6)
    case 22050 => Some(7)
    case 16000 => Some(8)
    case 12000 => Some(9)
    case 11025 => Some(10)
    case 8000 => Some(11)
    case 7350 => Some(12)
    case _ => None
  }

  /** The sampling frequencies of ISO/IEC 14496-3, table 1.18, by their four-bit index. */
  const RATES: seq<nat> := [
    96000, 88200, 64000, 48000, 44100, 32000, 24000, 22050, 16000, 12000, 11025, 8000, 7350]

  lemma IndexIsInTable(rate: nat)
    ensures SampleRateIndex(rate).Some? <==> rate in RATES
    ensures forall i :: SampleRateIndex(rate) == Some(i) <==> 0 <= i < |RATES| && RATES[i] == rate
  {
    assert RATES[0] == 96000 && RATES[1] == 88200 && RATES[2] == 64000 && RATES[3] == 48000 && RATES[4] == 44100;
    assert RATES[5] == 32000 && RATES[6] == 24000 && RATES[7] == 22050 && RATES[8] == 16000 && RATES[9] == 12000;
    assert RATES[10] == 11025 && RATES[11] == 8000 && RATES[12] == 7350;
  }

  predicate IsAdts(data: seq<Byte>) {
    |data| >= 2 && data[0] == 255 && data[1] / 16 == 15
  }

  /** One frame behind its ADTS header; nothing for an unsupported sample rate. The length field has 13 bits
      and silently drops what does not fit. */
  function AdtsFrame(frame: seq<Byte>, cfg: AdtsConfig): seq<Byte> {
    match SampleRateIndex(cfg.sampleRate)
    case None => []
    case Some(index) =>
      var channels := if cfg.channels < 7 then cfg.channels else 7;
      var frameLen := |frame| + 7;
      [ 255,
        241,
        64 + index * 4 + channels / 4,
        channels % 4 * 64 + frameLen / 2048 % 4,
        frameLen / 8 % 256,
        frameLen % 8 * 32 + 31,
        252 ] + frame
  }

  /** The access units from the i-th on, each behind an ADTS header. */
  function AacFrames(p: seq<Byte>, cfg: AdtsConfig, i: nat, count: nat, offset: nat): Option<seq<Byte>>
    requires i <= count
    decreases count - i
  {
    if i == count then Some([])
    else if 4 + 2 * i > |p| then None
    else
      var size := U16Be(p[2 + 2 * i], p[3 + 2 * i]) / 8;
      if offset + size > |p| then None
      else Prepend(AdtsFrame(p[offset..offset + size], cfg), AacFrames(p, cfg, i + 1, count, offset + size))
  }

  function DepacketizeAac(p: seq<Byte>, cfg: AdtsConfig): Option<seq<Byte>> {
    if IsAdts(p) then Some(p)
    else if |p| < 4 then None
    else
      var bits := U16Be(p[0], p[1]);
      if bits == 0 || bits % 16 != 0 || |p| < 2 + bits / 8 then None
      else
        var out := AacFrames(p, cfg, 0, bits / 16, 2 + bits / 8);
        if out == Some([]) then None else out
  }

  /** Where the loop over the units stands: reading unit `i` either fails or moves on. */
  lemma AacStep(p: seq<Byte>, cfg: AdtsConfig, i: nat, count: nat, offset: nat)
    requires i < count
    ensures 4 + 2 * i > |p| ==> AacFrames(p, cfg, i, count, offset) == None
    ensures 4 + 2 * i <= |p| ==>
              var size := U16Be(p[2 + 2 * i], p[3 + 2 * i]) / 8;
              AacFrames(p, cfg, i, count, offset) ==
              if offset + size > |p| then None
              else Prepend(AdtsFrame(p[offset..offset + size], cfg), AacFrames(p, cfg, i + 1, count, offset + size))
  {}

  lemma AacDone(p: seq<Byte>, cfg: AdtsConfig, count: nat, offset: nat)
    ensures AacFrames(p, cfg, count, count, offset) == Some([])
  {}

  /** The loop over the access units. */
  method RewriteUnits(p: seq<Byte>, cfg: AdtsConfig, count: nat, from: nat) returns (r: Option<seq<Byte>>)
    ensures r == AacFrames(p, cfg, 0, count, from)
  {
    hide AacFrames, AdtsFrame, U16Be;
    var offset: nat, out: seq<Byte> := from, [];
    ghost var all := AacFrames(p, cfg, 0, count, from);
    PrependNothing(all);
    for i := 0 to count
      invariant all == Prepend(out, AacFrames(p, cfg, i, count, offset))
    {
      AacStep(p, cfg, i, count, offset);
      if 2 + 2 * i + 2 > |p| {
        return None;
      }
      var size := U16Be(p[2 + 2 * i], p[3 + 2 * i]) / 8;
      if offset + size > |p| {
        return None;
      }
      PrependTwice(out, AdtsFrame(p[offset..offset + size], cfg), AacFrames(p, cfg, i + 1, count, offset + size));
      out := out + AdtsFrame(p[offset..offset + size], cfg);
      offset := offset + size;
    }
    AacDone(p, cfg, count, offset);
    assert out + [] == out;
    return Some(out);
  }

  method RewriteAac(p: seq<Byte>, cfg: AdtsConfig) returns (r: Option<seq<Byte>>)
    ensures r == DepacketizeAac(p, cfg)
  {
    hide AacFrames, AdtsFrame, U16Be, IsAdts;
    if IsAdts(p) {
      return Some(p);
    }
    if |p| < 4 {
      return None;
    }
    var bits := U16Be(p[0], p[1]);
    var headerBytes := (bits + 7) / 8;
    if bits == 0 || bits % 16 != 0 || |p| < 2 + headerBytes {
      return None;
    }
    r := RewriteUnits(p, cfg, bits / 16, 2 + headerBytes);
    if r == Some([]) {
      r := None;
    }
  }

  // ---------------------------------------------------------------- what a sender packs

  /** Access units whose sizes fit the 13-bit size field. */
  ghost predicate Packable(units: seq<seq<Byte>>) {
    forall u :: u in units ==> |u| < 8192
  }

  ghost function AuHeaders(units: seq<seq<Byte>>): (h: seq<Byte>)
    requires Packable(units)
    ensures |h| == 2 * |units|
  {
    if units == [] then []
    else
      assert units[|units| - 1] in units;
      AuHeaders(units[..|units| - 1]) + BeBytes(|units[|units| - 1]| * 8)
  }

  /** RFC 3640 section 3.3.6: the headers' length in bits, a 16-bit header each, the access units. */
  ghost function AacPacket(units: seq<seq<Byte>>): seq<Byte>
    requires Packable(units) && |units| < 4096
  {
    BeBytes(|units| * 16) + AuHeaders(units) + Concat(units)
  }

  ghost function Frames(units: seq<seq<Byte>>, cfg: AdtsConfig): seq<Byte> {
    if units == [] then [] else AdtsFrame(units[0], cfg) + Frames(units[1..], cfg)
  }

  lemma {:induction false} HeaderAt(units: seq<seq<Byte>>, i: nat)
    requires Packable(units) && i < |units|
    ensures |units[i]| < 8192 && AuHeaders(units)[2 * i..2 * i + 2] == BeBytes(|units[i]| * 8)
  {
    assert units[i] in units;
    var n := |units| - 1;
    if i < n {
      HeaderAt(units[..n], i);
      assert AuHeaders(units)[2 * i..2 * i + 2] == AuHeaders(units[..n])[2 * i..2 * i + 2];
    }
  }

  /** Unit `i` in the packet: its size field and its bytes. */
  lemma UnitAt(units: seq<seq<Byte>>, i: nat)
    requires Packable(units) && |units| < 4096 && i < |units|
    ensures var p := AacPacket(units);
            var offset := 2 + 2 * |units| + |Concat(units[..i])|;
            4 + 2 * i <= |p| && U16Be(p[2 + 2 * i], p[3 + 2 * i]) / 8 == |units[i]| &&
            offset + |units[i]| <= |p| && p[offset..offset + |units[i]|] == units[i]
  {
    hide AuHeaders, BeBytes, U16Be;
    HeaderAt(units, i);
    var p := AacPacket(units);
    assert p[2..2 + 2 * |units|] == AuHeaders(units);
    assert p[2 + 2 * i] == AuHeaders(units)[2 * i..2 * i + 2][0];
    assert p[3 + 2 * i] == AuHeaders(units)[2 * i..2 * i + 2][1];
    UnitInConcat(units, i);
    assert p[2 + 2 * |units|..] == Concat(units);
  }

  lemma UnitInConcat(units: seq<seq<Byte>>, i: nat)
    requires i < |units|
    ensures var at := |Concat(units[..i])|;
            at + |units[i]| <= |Concat(units)| && Concat(units)[at..at + |units[i]|] == units[i]
    ensures |Concat(units[..i + 1])| == |Concat(units[..i])| + |units[i]|
  {
    ConcatSplit(units[..i + 1], units[i + 1..]);
    assert units == units[..i + 1] + units[i + 1..];
    assert units[..i + 1] == units[..i] + [units[i]];
    ConcatSnoc(units[..i], units[i]);
  }

  /** For 1 to 4094 units a packet becomes exactly their ADTS frames in order. With 4095 units the length
      word reads FF F0, which is taken for an ADTS syncword, and the packet passes unchanged. */
  lemma PacketBecomesFrames(units: seq<seq<Byte>>, cfg: AdtsConfig)
    requires Packable(units) && 1 <= |units| < 4096 && cfg.sampleRate in RATES
    ensures DepacketizeAac(AacPacket(units), cfg) ==
            Some(if |units| == 4095 then AacPacket(units) else Frames(units, cfg))
  {
    hide DepacketizeAac, Frames, AacPacket, PackedIn, SampleRateIndex, AuHeaders, BeBytes;
    LengthWord(units);
    SentIsPacked(units);
    if |units| == 4095 {
      AdtsPasses(AacPacket(units), cfg);
    } else {
      AcceptedIff(AacPacket(units), cfg);
    }
  }

  lemma AdtsPasses(p: seq<Byte>, cfg: AdtsConfig)
    requires IsAdts(p)
    ensures DepacketizeAac(p, cfg) == Some(p)
  {}

  /** The first two bytes of a packet. */
  lemma LengthWord(units: seq<seq<Byte>>)
    requires Packable(units) && 1 <= |units| < 4096
    ensures var p := AacPacket(units);
            |p| >= 2 + 2 * |units| && U16Be(p[0], p[1]) == |units| * 16 && (IsAdts(p) <==> |units| == 4095)
  {
    hide AuHeaders;
    var p := AacPacket(units);
    assert p[0] == BeBytes(|units| * 16)[0] && p[1] == BeBytes(|units| * 16)[1];
  }

  // ---------------------------------------------------------------- which packets are accepted

  /** The packet carries these access units: the headers' length in bits, a 16-bit header for each unit with its
      size in the upper 13 bits, the units one after the other; whatever follows them is ignored. */
  ghost predicate PackedIn(p: seq<Byte>, units: seq<seq<Byte>>) {
    && units != [] && 2 + 2 * |units| + |Concat(units)| <= |p|
    && U16Be(p[0], p[1]) == 16 * |units|
    && (forall i :: 0 <= i < |units| ==> SizeAt(p, i, |units[i]|))
    && p[2 + 2 * |units|..2 + 2 * |units| + |Concat(units)|] == Concat(units)
  }

  predicate SizeAt(p: seq<Byte>, i: nat, size: nat) {
    4 + 2 * i <= |p| && U16Be(p[2 + 2 * i], p[3 + 2 * i]) / 8 == size
  }

  lemma PackedUnitAt(p: seq<Byte>, units: seq<seq<Byte>>, i: nat)
    requires PackedIn(p, units) && i < |units|
    ensures var offset := 2 + 2 * |units| + |Concat(units[..i])|;
            && SizeAt(p, i, |units[i]|) && offset + |units[i]| <= |p|
            && p[offset..offset + |units[i]|] == units[i]
  {
    hide U16Be, Concat, SizeAt;
    UnitInConcat(units, i);
    SliceOfSlice(p, 2 + 2 * |units|, |Concat(units)|, |Concat(units[..i])|, |units[i]|);
  }

  lemma SliceOfSlice(p: seq<Byte>, base: nat, n: nat, at: nat, m: nat)
    requires base + n <= |p| && at + m <= n
    ensures p[base..base + n][at..at + m] == p[base + at..base + at + m]
  {
    var q := p[base..base + n];
    var x, y := q[at..at + m], p[base + at..base + at + m];
    forall k | 0 <= k < m ensures x[k] == y[k] {
      assert q[at + k] == p[base + at + k];
    }
    assert x == y;
  }

  lemma {:induction false} PackedFramesFrom(p: seq<Byte>, units: seq<seq<Byte>>, cfg: AdtsConfig, i: nat)
    requires PackedIn(p, units) && i <= |units|
    ensures AacFrames(p, cfg, i, |units|, 2 + 2 * |units| + |Concat(units[..i])|) == Some(Frames(units[i..], cfg))
    decreases |units| - i
  {
    hide AdtsFrame, PackedIn, U16Be;
    if i < |units| {
      PackedUnitAt(p, units, i);
      UnitInConcat(units, i);
      PackedFramesFrom(p, units, cfg, i + 1);
      assert units[i..][0] == units[i] && units[i..][1..] == units[i + 1..];
    }
  }

  /** Reading on from unit `i`, when it succeeds, finds the units that are there. */
  lemma {:induction false} AcceptedUnits(p: seq<Byte>, cfg: AdtsConfig, i: nat, count: nat, offset: nat)
    returns (units: seq<seq<Byte>>)
    requires i <= count && offset <= |p| && AacFrames(p, cfg, i, count, offset).Some?
    ensures |units| == count - i && offset + |Concat(units)| <= |p|
    ensures forall k :: 0 <= k < |units| ==> SizeAt(p, i + k, |units[k]|)
    ensures p[offset..offset + |Concat(units)|] == Concat(units)
    decreases count - i
  {
    hide U16Be, AdtsFrame, AacFrames, SizeAt;
    units := [];
    if i < count {
      AacStep(p, cfg, i, count, offset);
      var size := U16Be(p[2 + 2 * i], p[3 + 2 * i]) / 8;
      var u := p[offset..offset + size];
      var rest := AcceptedUnits(p, cfg, i + 1, count, offset + size);
      assert SizeAt(p, i, |u|) by { SizeIs(p, i); }
      JoinUnits(p, i, offset, u, rest);
      units := [u] + rest;
    }
  }

  lemma SizeIs(p: seq<Byte>, i: nat)
    requires 4 + 2 * i <= |p|
    ensures SizeAt(p, i, U16Be(p[2 + 2 * i], p[3 + 2 * i]) / 8)
  {}

  lemma JoinUnits(p: seq<Byte>, i: nat, offset: nat, u: seq<Byte>, rest: seq<seq<Byte>>)
    requires offset + |u| + |Concat(rest)| <= |p| && p[offset..offset + |u|] == u && SizeAt(p, i, |u|)
    requires p[offset + |u|..offset + |u| + |Concat(rest)|] == Concat(rest)
    requires forall k :: 0 <= k < |rest| ==> SizeAt(p, i + 1 + k, |rest[k]|)
    ensures var units := [u] + rest;
            && offset + |Concat(units)| <= |p| && p[offset..offset + |Concat(units)|] == Concat(units)
            && forall k :: 0 <= k < |units| ==> SizeAt(p, i + k, |units[k]|)
  {
    hide SizeAt, Concat;
    var units := [u] + rest;
    ConcatCons(u, rest);
    forall k | 0 <= k < |units| ensures SizeAt(p, i + k, |units[k]|) {
      if k > 0 { assert SizeAt(p, i + 1 + (k - 1), |rest[k - 1]|); }
    }
  }

  /** The ADTS sync word: twelve ones. */
  predicate HasSyncWord(p: seq<Byte>) {
    |p| >= 2 && U16Be(p[0], p[1]) >= 0xFFF0
  }

  lemma SyncWordIff(p: seq<Byte>)
    ensures IsAdts(p) <==> HasSyncWord(p)
  {}

  /** Exactly which packets are accepted. One that begins with a sync word is passed on as it is; any other is accepted
      if it carries access units, and what comes out is those units behind ADTS headers; nothing at all for a sample
      rate without an index. */
  lemma AcceptedIff(p: seq<Byte>, cfg: AdtsConfig)
    ensures HasSyncWord(p) ==> DepacketizeAac(p, cfg) == Some(p)
    ensures !HasSyncWord(p) ==>
              (DepacketizeAac(p, cfg).Some? <==> cfg.sampleRate in RATES && exists units :: PackedIn(p, units))
    ensures forall units :: !HasSyncWord(p) && PackedIn(p, units) && cfg.sampleRate in RATES ==>
              DepacketizeAac(p, cfg) == Some(Frames(units, cfg))
  {
    hide PackedIn, Frames, AacFrames, U16Be, HasSyncWord, IsAdts;
    SyncWordIff(p);
    if !IsAdts(p) { AcceptedWithoutSync(p, cfg); }
  }

  lemma AcceptedWithoutSync(p: seq<Byte>, cfg: AdtsConfig)
    requires !IsAdts(p)
    ensures DepacketizeAac(p, cfg).Some? <==> cfg.sampleRate in RATES && exists units :: PackedIn(p, units)
    ensures forall units :: PackedIn(p, units) && cfg.sampleRate in RATES ==>
              DepacketizeAac(p, cfg) == Some(Frames(units, cfg))
  {
    hide PackedIn, AacFrames, Frames, U16Be, IsAdts, AdtsFrame, SizeAt;
    IndexIsInTable(cfg.sampleRate);
    forall units | PackedIn(p, units) && cfg.sampleRate in RATES
      ensures DepacketizeAac(p, cfg) == Some(Frames(units, cfg))
    {
      PackedMeans(p, units);
      PackedFramesFrom(p, units, cfg, 0);
      assert units[..0] == [] && units[0..] == units && |Concat(units[..0])| == 0;
      FramesNonEmpty(units, cfg);
    }
    if DepacketizeAac(p, cfg).Some? {
      var n := U16Be(p[0], p[1]) / 16;
      var units := AcceptedUnits(p, cfg, 0, n, 2 + 2 * n);
      IsPacked(p, units);
      if cfg.sampleRate !in RATES {
        PackedFramesFrom(p, units, cfg, 0);
        assert units[..0] == [] && units[0..] == units && |Concat(units[..0])| == 0;
        NoFrames(units, cfg);
        assert false;
      }
    }
  }

  lemma PackedMeans(p: seq<Byte>, units: seq<seq<Byte>>)
    requires PackedIn(p, units)
    ensures units != [] && |p| >= 2 + 2 * |units| && U16Be(p[0], p[1]) == 16 * |units|
  {}

  lemma IsPacked(p: seq<Byte>, units: seq<seq<Byte>>)
    requires units != [] && 2 + 2 * |units| + |Concat(units)| <= |p| && U16Be(p[0], p[1]) == 16 * |units|
    requires forall k :: 0 <= k < |units| ==> SizeAt(p, 0 + k, |units[k]|)
    requires p[2 + 2 * |units|..2 + 2 * |units| + |Concat(units)|] == Concat(units)
    ensures PackedIn(p, units)
  {
    forall i | 0 <= i < |units| ensures SizeAt(p, i, |units[i]|) {
      assert SizeAt(p, 0 + i, |units[i]|);
    }
  }

  lemma {:induction false} NoFrames(units: seq<seq<Byte>>, cfg: AdtsConfig)
    requires cfg.sampleRate !in RATES
    ensures Frames(units, cfg) == []
  {
    IndexIsInTable(cfg.sampleRate);
    if units != [] { NoFrames(units[1..], cfg); }
  }

  /** The packets a sender makes are among them. */
  lemma SentIsPacked(units: seq<seq<Byte>>)
    requires Packable(units) && 1 <= |units| < 4096
    ensures PackedIn(AacPacket(units), units)
  {
    hide AuHeaders, U16Be;
    LengthWord(units);
    var p := AacPacket(units);
    forall i | 0 <= i < |units| ensures SizeAt(p, i, |units[i]|) { UnitAt(units, i); }
    assert p[2 + 2 * |units|..] == Concat(units);
  }

  lemma FramesNonEmpty(units: seq<seq<Byte>>, cfg: AdtsConfig)
    requires units != [] && cfg.sampleRate in RATES
    ensures Frames(units, cfg) != []
  {}

  // ---------------------------------------------------------------- what a reader recovers

  /** What a reader of ISO/IEC 14496-3, section 1.A.2.2, finds in an ADTS header. */
  datatype Header = Header(
    mpeg4: bool, layer: nat, noCrc: bool, objectType: nat, rateIndex: nat, channelConfiguration: nat,
    frameLength: nat, bufferFullness: nat, rawBlocks: nat)

  function HeaderOf(out: seq<Byte>): Header
    requires |out| >= 7
  {
    var b1: int, b2: int, b3: int, b4: int, b5: int, b6: int := out[1], out[2], out[3], out[4], out[5], out[6];
    Header(b1 / 8 % 2 == 0, b1 / 2 % 4, b1 % 2 == 1, b2 / 64 + 1, b2 / 4 % 16, b2 % 2 * 4 + b3 / 64,
           b3 % 4 * 2048 + b4 * 8 + b5 / 32, b5 % 32 * 64 + b6 / 4, b6 % 4 + 1)
  }

  const AAC_LC: nat := 2
  const VARIABLE_RATE: nat := 0x7ff

  /** A frame of the stream: its header, and the access unit behind it. */
  datatype Frame = Frame(header: Header, unit: seq<Byte>)

  /** A reader that finds each next header by the frame length alone. */
  function WalkAdts(out: seq<Byte>): Option<seq<Frame>> {
    if out == [] then Some([])
    else if |out| < 7 || !IsAdts(out) || !(7 <= HeaderOf(out).frameLength <= |out|) then None
    else
      var n := HeaderOf(out).frameLength;
      match WalkAdts(out[n..])
      case None => None
      case Some(rest) => Some([Frame(HeaderOf(out), out[7..n])] + rest)
  }

  /** What the stream should announce for a unit: AAC LC at the configured rate, without CRC, one block. */
  ghost predicate Announces(h: Header, cfg: AdtsConfig, size: nat) {
    && h.mpeg4 && h.layer == 0 && h.noCrc && h.objectType == AAC_LC && h.rawBlocks == 1
    && h.rateIndex < |RATES| && RATES[h.rateIndex] == cfg.sampleRate
    && h.channelConfiguration == (if cfg.channels < 7 then cfg.channels else 7)
    && h.frameLength == size + 7 && h.bufferFullness == VARIABLE_RATE
  }

  /** The frames are those of these units, each announced as configured. */
  ghost predicate FramesOf(frames: seq<Frame>, units: seq<seq<Byte>>, cfg: AdtsConfig) {
    && |frames| == |units|
    && forall i :: 0 <= i < |frames| ==>
         frames[i].unit == units[i] && Announces(frames[i].header, cfg, |units[i]|)
  }

  /** The number of channels that a channel configuration stands for (ISO/IEC 14496-3, table 1.19). */
  function ChannelsOf(configuration: nat): nat {
    if configuration == 7 then 8 else configuration
  }

  /** The number of channels is announced rightly exactly up to six and for eight. */
  lemma ChannelsAreRightIff(h: Header, cfg: AdtsConfig, size: nat)
    requires Announces(h, cfg, size)
    ensures ChannelsOf(h.channelConfiguration) == cfg.channels <==> cfg.channels <= 6 || cfg.channels == 8
  {}

  lemma HeaderFields(frame: seq<Byte>, cfg: AdtsConfig, rest: seq<Byte>)
    requires |frame| < 8192 && cfg.sampleRate in RATES
    ensures var out := AdtsFrame(frame, cfg) + rest;
            && |out| == 7 + |frame| + |rest| && IsAdts(out) && out[7..7 + |frame|] == frame
            && out[7 + |frame|..] == rest && HeaderOf(out).frameLength == (|frame| + 7) % 8192
            && (|frame| <= 8184 ==> Announces(HeaderOf(out), cfg, |frame|))
  {
    hide SampleRateIndex, AdtsFrame, HeaderOf;
    IndexIsInTable(cfg.sampleRate);
    var n, index := |frame| + 7, SampleRateIndex(cfg.sampleRate).value;
    var channels := if cfg.channels < 7 then cfg.channels else 7;
    HeaderBytes(frame, cfg, rest);
    HeaderRead(index, channels, n, AdtsFrame(frame, cfg) + rest);
  }

  /** The bytes of the header, as numbers. */
  ghost predicate WrittenHeader(out: seq<Byte>, index: nat, channels: nat, n: nat) {
    && |out| >= 7 && out[0] == 255 && out[1] == 241 && out[2] as int == 64 + index * 4 + channels / 4
    && out[3] as int == channels % 4 * 64 + n / 2048 % 4 && out[4] as int == n / 8 % 256
    && out[5] as int == n % 8 * 32 + 31 && out[6] == 252
  }

  lemma HeaderBytes(frame: seq<Byte>, cfg: AdtsConfig, rest: seq<Byte>)
    requires SampleRateIndex(cfg.sampleRate).Some?
    ensures var out := AdtsFrame(frame, cfg) + rest;
            && |out| == 7 + |frame| + |rest| && out[7..7 + |frame|] == frame && out[7 + |frame|..] == rest
            && WrittenHeader(out, SampleRateIndex(cfg.sampleRate).value, if cfg.channels < 7 then cfg.channels else 7,
                             |frame| + 7)
  {
    hide SampleRateIndex;
  }

  lemma HeaderRead(index: nat, channels: nat, n: nat, out: seq<Byte>)
    requires index <= 12 && channels <= 7 && WrittenHeader(out, index, channels, n)
    ensures IsAdts(out)
    ensures HeaderOf(out) ==
            Header(true, 0, true, AAC_LC, index, channels, n % 8192, VARIABLE_RATE, 1)
  {
    LengthBits(channels, n);
    RateBits(index, channels);
  }

  lemma LengthBits(channels: nat, n: nat)
    requires channels <= 7
    ensures var b3, b4, b5 := channels % 4 * 64 + n / 2048 % 4, n / 8 % 256, n % 8 * 32 + 31;
            && b3 % 4 * 2048 + b4 * 8 + b5 / 32 == n % 8192 && b3 / 64 == channels % 4 && b5 % 32 == 31
  {
    ThirteenBits(n);
    var c, m := channels % 4, n / 2048 % 4;
    assert (c * 64 + m) % 4 == m && (c * 64 + m) / 64 == c;
  }

  lemma ThirteenBits(n: nat)
    ensures n / 2048 % 4 * 2048 + n / 8 % 256 * 8 + n % 8 == n % 8192
  {
    var q, r, t := n / 8, n / 2048, n / 8192;
    assert q / 256 == r && r / 4 == t;
  }

  lemma RateBits(index: nat, channels: nat)
    requires index <= 12 && channels <= 7
    ensures var b2 := 64 + index * 4 + channels / 4;
            && b2 / 64 == 1 && b2 / 4 % 16 == index && b2 % 2 * 4 + channels % 4 == channels
  {}

  lemma WalkStep(u: seq<Byte>, cfg: AdtsConfig, more: seq<Byte>)
    requires |u| < 8192 && cfg.sampleRate in RATES
    ensures var w := WalkAdts(AdtsFrame(u, cfg) + more);
            && (w.Some? <==> |u| <= 8184 && WalkAdts(more).Some?)
            && (w.Some? ==> |w.value| > 0 && w.value[1..] == WalkAdts(more).value && w.value[0].unit == u
                            && Announces(w.value[0].header, cfg, |u|))
  {
    hide HeaderOf, SampleRateIndex, AdtsFrame, IsAdts, Announces;
    HeaderFields(u, cfg, more);
  }

  /** The walk finds a frame for each unit, announced as configured, exactly when none is longer than 8184 bytes. */
  lemma {:induction false} WalkIsExact(units: seq<seq<Byte>>, cfg: AdtsConfig)
    requires Packable(units) && cfg.sampleRate in RATES
    ensures var w := WalkAdts(Frames(units, cfg));
            && (w.Some? <==> forall u :: u in units ==> |u| <= 8184)
            && (w.Some? ==> FramesOf(w.value, units, cfg))
  {
    hide WalkAdts, FramesOf;
    if units == [] {
      NothingToWalk(cfg);
    } else {
      var u, rest := units[0], units[1..];
      assert forall v :: v in units <==> v == u || v in rest;
      WalkIsExact(rest, cfg);
      WalkStep(u, cfg, Frames(rest, cfg));
      var w := WalkAdts(Frames(units, cfg));
      if w.Some? { OneMoreFrame(w.value, units, cfg); }
    }
  }

  lemma NothingToWalk(cfg: AdtsConfig)
    ensures WalkAdts([]) == Some([]) && FramesOf([], [], cfg)
  {}

  lemma OneMoreFrame(frames: seq<Frame>, units: seq<seq<Byte>>, cfg: AdtsConfig)
    requires frames != [] && units != [] && FramesOf(frames[1..], units[1..], cfg)
    requires frames[0].unit == units[0] && Announces(frames[0].header, cfg, |units[0]|)
    ensures FramesOf(frames, units, cfg)
  {
    hide Announces;
    forall i | 0 < i < |frames|
      ensures frames[i].unit == units[i] && Announces(frames[i].header, cfg, |units[i]|)
    {
      assert frames[1..][i - 1] == frames[i] && units[1..][i - 1] == units[i];
    }
  }

  lemma {:induction false} WalkLength(out: seq<Byte>, units: seq<seq<Byte>>)
    requires WalkAdts(out).Some? && |WalkAdts(out).value| == |units|
    requires forall i :: 0 <= i < |units| ==> WalkAdts(out).value[i].unit == units[i]
    ensures |out| == 7 * |units| + |Concat(units)|
    decreases |out|
  {
    hide IsAdts, HeaderOf;
    if out != [] {
      var n := HeaderOf(out).frameLength;
      assert WalkAdts(out).value[0].unit == units[0] && WalkAdts(out).value[1..] == WalkAdts(out[n..]).value;
      WalkLength(out[n..], units[1..]);
      ConcatCons(units[0], units[1..]);
      assert units == [units[0]] + units[1..];
    }
  }

  /** A reader of the rewritten packet finds exactly the units the sender packed, each announced as AAC LC at the
      configured rate and channel configuration, if and only if there are at most 4094 of them and none is longer
      than 8184 bytes. */
  lemma AacRoundTrip(units: seq<seq<Byte>>, cfg: AdtsConfig)
    requires Packable(units) && 1 <= |units| < 4096 && cfg.sampleRate in RATES
    ensures var out := DepacketizeAac(AacPacket(units), cfg);
            (out.Some? && WalkAdts(out.value).Some? && FramesOf(WalkAdts(out.value).value, units, cfg)) <==>
            |units| <= 4094 && forall u :: u in units ==> |u| <= 8184
  {
    hide DepacketizeAac, WalkAdts, Frames, AuHeaders, Announces;
    PacketBecomesFrames(units, cfg);
    WalkIsExact(units, cfg);
    if |units| == 4095 && WalkAdts(AacPacket(units)).Some?
       && FramesOf(WalkAdts(AacPacket(units)).value, units, cfg) {
      WalkLength(AacPacket(units), units);
      assert false;
    }
  }
}

/**
  RTP over TCP (RFC 4571 section 2) as `feed_tcp_packets` of stream/src/io/rtp_handler.rs reads it: frames
  behind a 16-bit length, taken from a buffer that grows by whatever the socket delivers.
*/
module TcpFraming {
  import opened Bytes

  const TCP_RTP_HEADER_LEN: nat := 2
  const MIN_RTP_HEADER_LEN: nat := 12
  const TCP_DATA_BASE_LEN: nat := TCP_RTP_HEADER_LEN + MIN_RTP_HEADER_LEN
  const MAX_LIMIT_RTP_PACKET_SIZE: nat := 16384

  /** How a feed ends: for want of bytes, at an oversize length, or because the callback refused a packet. */
  datatype Outcome = NeedsMore | Oversize | Refused

  datatype Fed = Fed(packets: seq<seq<Byte>>, rest: seq<Byte>, outcome: Outcome)

  function FrameLen(buffer: seq<Byte>): nat
    requires |buffer| >= 2
  {
    U16Be(buffer[0], buffer[1])
  }

  function Feed(buffer: seq<Byte>, accepts: seq<Byte> -> bool): Fed
    decreases |buffer|
  {
    if |buffer| < TCP_DATA_BASE_LEN then Fed([], buffer, NeedsMore)
    else
      var len := FrameLen(buffer);
      if len > MAX_LIMIT_RTP_PACKET_SIZE then Fed([], [], Oversize)
      else if |buffer| < len + 2 then Fed([], buffer, NeedsMore)
      else
        var packet := buffer[2..len + 2];
        if !accepts(packet) then Fed([packet], buffer[len + 2..], Refused)
        else
          var more := Feed(buffer[len + 2..], accepts);
          more.(packets := [packet] + more.packets)
  }

  /** The receive buffer of one connection, and the packets handed to the callback so far. */
  class Receiver {
    var buffer: seq<Byte>
    ghost var handed: seq<seq<Byte>>

    constructor ()
      ensures buffer == [] && handed == []
    {
      buffer, handed := [], [];
    }

    method FeedTcpPackets(accepts: seq<Byte> -> bool) returns (outcome: Outcome)
      modifies this
      ensures Fed(handed, buffer, outcome) ==
              var fed := Feed(old(buffer), accepts); fed.(packets := old(handed) + fed.packets)
    {
      ghost var before := handed;
      while true
        invariant var fed, left := Feed(old(buffer), accepts), Feed(buffer, accepts);
                  fed.rest == left.rest && fed.outcome == left.outcome && before + fed.packets == handed + left.packets
        decreases |buffer|
      {
        if |buffer| < TCP_DATA_BASE_LEN {
          return NeedsMore;
        }
        var len := U16Be(buffer[0], buffer[1]);
        if len > MAX_LIMIT_RTP_PACKET_SIZE {
          buffer := [];
          return Oversize;
        }
        var splitLen := len + TCP_RTP_HEADER_LEN;
        if |buffer| < splitLen {
          return NeedsMore;
        }
        var packet := buffer[..splitLen];
        assert packet[TCP_RTP_HEADER_LEN..] == buffer[2..len + 2];
        packet := packet[TCP_RTP_HEADER_LEN..];
        assert forall more: seq<seq<Byte>> :: handed + ([packet] + more) == (handed + [packet]) + more;
        buffer := buffer[splitLen..];
        handed := handed + [packet];
        if !accepts(packet) {
          assert handed + [] == handed;
          return Refused;
        }
      }
    }
  }

  // ---------------------------------------------------------------- where the stream is cut does not matter

  lemma FeedStep(buffer: seq<Byte>, accepts: seq<Byte> -> bool)
    requires |buffer| >= 14 && FrameLen(buffer) <= 16384 && |buffer| >= FrameLen(buffer) + 2
    ensures var packet, rest := buffer[2..FrameLen(buffer) + 2], buffer[FrameLen(buffer) + 2..];
            Feed(buffer, accepts) ==
            if accepts(packet) then Feed(rest, accepts).(packets := [packet] + Feed(rest, accepts).packets)
            else Fed([packet], rest, Refused)
  {}

  lemma FeedStops(buffer: seq<Byte>, accepts: seq<Byte> -> bool)
    ensures |buffer| < 14 ==> Feed(buffer, accepts) == Fed([], buffer, NeedsMore)
    ensures |buffer| >= 14 && FrameLen(buffer) > 16384 ==> Feed(buffer, accepts) == Fed([], [], Oversize)
    ensures |buffer| >= 14 && FrameLen(buffer) <= 16384 && |buffer| < FrameLen(buffer) + 2 ==>
              Feed(buffer, accepts) == Fed([], buffer, NeedsMore)
  {}

  lemma Prefixed(a: seq<Byte>, b: seq<Byte>)
    requires |a| >= 14
    ensures FrameLen(a + b) == FrameLen(a)
    ensures |a| >= FrameLen(a) + 2 ==>
              (a + b)[2..FrameLen(a) + 2] == a[2..FrameLen(a) + 2]
                  && (a + b)[FrameLen(a) + 2..] == a[FrameLen(a) + 2..] + b
  {}

  /** Feeding `a` and then `b` is feeding `a + b`; and an end that `a` alone brings about is the end of both. */
  lemma {:induction false} FeedSplit(a: seq<Byte>, b: seq<Byte>, accepts: seq<Byte> -> bool)
    ensures var first, both := Feed(a, accepts), Feed(a + b, accepts);
            if first.outcome.NeedsMore? then
              var second := Feed(first.rest + b, accepts);
              both == second.(packets := first.packets + second.packets)
            else both.outcome == first.outcome && both.packets == first.packets
    decreases |a|
  {
    hide Feed, FrameLen;
    FeedStops(a, accepts);
    var second := Feed(a + b, accepts);
    assert [] + second.packets == second.packets;
    if |a| >= 14 {
      Prefixed(a, b);
      FeedStops(a + b, accepts);
      var len := FrameLen(a);
      if len <= 16384 && |a| >= len + 2 {
        var packet, rest := a[2..len + 2], a[len + 2..];
        FeedStep(a, accepts);
        FeedStep(a + b, accepts);
        FeedSplit(rest, b, accepts);
        var more := Feed(Feed(rest, accepts).rest + b, accepts);
        assert [packet] + (Feed(rest, accepts).packets + more.packets)
            == ([packet] + Feed(rest, accepts).packets) + more.packets;
      }
    }
  }

  /** Feeding a list of chunks one after the other, stopping at the first error. */
  function FeedChunks(chunks: seq<seq<Byte>>, accepts: seq<Byte> -> bool): Fed {
    if chunks == [] then Fed([], [], NeedsMore)
    else
      var front := FeedChunks(chunks[..|chunks| - 1], accepts);
      if !front.outcome.NeedsMore? then front
      else
        var last := Feed(front.rest + chunks[|chunks| - 1], accepts);
        last.(packets := front.packets + last.packets)
  }

  /** Without an error, however the bytes are cut into chunks, the packets and the residue are the same; and an
      error is met in one go exactly when it is met in chunks. */
  lemma {:induction false} ChunkingDoesNotMatter(chunks: seq<seq<Byte>>, accepts: seq<Byte> -> bool)
    ensures var cut, whole := FeedChunks(chunks, accepts), Feed(Concat(chunks), accepts);
            cut.outcome == whole.outcome && cut.packets == whole.packets && (whole.outcome.NeedsMore? ==> cut == whole)
  {
    hide Feed;
    if chunks == [] {
      FeedStops([], accepts);
    } else {
      var front, last := chunks[..|chunks| - 1], chunks[|chunks| - 1];
      ChunkingDoesNotMatter(front, accepts);
      FeedSplit(Concat(front), last, accepts);
    }
  }

  // ---------------------------------------------------------------- conservation

  function Framed(packets: seq<seq<Byte>>): seq<Byte>
    requires forall p :: p in packets ==> |p| < 65536
  {
    if packets == [] then [] else BeBytes(|packets[0]|) + packets[0] + Framed(packets[1..])
  }

  predicate Fit(packets: seq<seq<Byte>>) {
    forall p :: p in packets ==> |p| <= MAX_LIMIT_RTP_PACKET_SIZE
  }

  lemma LengthBytes(hi: Byte, lo: Byte)
    ensures BeBytes(U16Be(hi, lo)) == [hi, lo]
  {}

  ghost predicate Conserves(buffer: seq<Byte>, fed: Fed) {
    && Fit(fed.packets)
    && (fed.outcome.Oversize? ==> fed.rest == [])
    && (!fed.outcome.Oversize? ==> Framed(fed.packets) + fed.rest == buffer)
    && (fed.outcome.NeedsMore? ==> |fed.rest| < 16386)
  }

  lemma ConservesCons(packet: seq<Byte>, rest: seq<Byte>, fed: Fed)
    requires |packet| <= 16384 && Conserves(rest, fed)
    ensures Conserves(BeBytes(|packet|) + packet + rest, fed.(packets := [packet] + fed.packets))
  {
    hide Framed, BeBytes;
    FramedCons(packet, fed.packets);
  }

  /** Unless an oversize length clears the buffer, the frames handed on and the residue are the bytes fed in,
      and a residue that waits for more stays below 16386 bytes. */
  lemma {:induction false} BytesAreConserved(buffer: seq<Byte>, accepts: seq<Byte> -> bool)
    ensures Conserves(buffer, Feed(buffer, accepts))
    decreases |buffer|
  {
    hide *;
    FeedStops(buffer, accepts);
    EndConserves(buffer);
    if |buffer| >= 14 && FrameLen(buffer) <= 16384 && |buffer| >= FrameLen(buffer) + 2 {
      var len := FrameLen(buffer);
      var packet, rest := buffer[2..len + 2], buffer[len + 2..];
      FeedStep(buffer, accepts);
      BytesAreConserved(rest, accepts);
      FrameCut(buffer);
      EndConserves(rest);
      ConservesCons(packet, rest, if accepts(packet) then Feed(rest, accepts) else Fed([], rest, Refused));
      assert [packet] + [] == [packet];
    }
  }

  lemma FrameCut(buffer: seq<Byte>)
    requires |buffer| >= 2 && |buffer| >= FrameLen(buffer) + 2
    ensures var len := FrameLen(buffer);
            buffer == BeBytes(len) + buffer[2..len + 2] + buffer[len + 2..]
  {
    hide BeBytes;
    LengthBytes(buffer[0], buffer[1]);
  }

  lemma EndConserves(buffer: seq<Byte>)
    ensures Conserves(buffer, Fed([], [], Oversize)) && Conserves(buffer, Fed([], buffer, Refused))
    ensures |buffer| < 16386 ==> Conserves(buffer, Fed([], buffer, NeedsMore))
  {}

  lemma FramedCons(p: seq<Byte>, rest: seq<seq<Byte>>)
    requires |p| <= 16384 && Fit(rest)
    ensures Framed([p] + rest) == BeBytes(|p|) + p + Framed(rest)
  {
    assert ([p] + rest)[1..] == rest;
  }

  // ---------------------------------------------------------------- round trip

  lemma FrameLayout(p: seq<Byte>, after: seq<Byte>)
    requires |p| <= 16384
    ensures var buffer := BeBytes(|p|) + p + after;
            |buffer| >= 2 && FrameLen(buffer) == |p| && buffer[2..|p| + 2] == p && buffer[|p| + 2..] == after
  {}

  predicate Always(p: seq<Byte>) { true }

  lemma FramedLength(packets: seq<seq<Byte>>)
    requires Fit(packets) && packets != []
    ensures |Framed(packets)| >= |packets[|packets| - 1]| + 2
    ensures |packets| == 1 ==> |Framed(packets)| == |packets[0]| + 2
    decreases |packets|
  {
    if |packets| > 1 {
      FramedLength(packets[1..]);
    }
  }

  /** Framed packets of at most 16384 bytes come back, exactly and without residue, if and only if the last of
      them has at least the 12 bytes of an RTP header; shorter ones before it do no harm. */
  lemma {:induction false} RoundTripIsExact(packets: seq<seq<Byte>>)
    requires Fit(packets)
    ensures Feed(Framed(packets), Always) == Fed(packets, [], NeedsMore) <==>
            packets == [] || |packets[|packets| - 1]| >= MIN_RTP_HEADER_LEN
    decreases |packets|
  {
    hide Feed, BeBytes, FrameLen;
    FeedStops(Framed(packets), Always);
    if packets != [] {
      var p, rest := packets[0], packets[1..];
      FramedLength(packets);
      FrameLayout(p, Framed(rest));
      assert packets == [p] + rest;
      if |Framed(packets)| >= 14 {
        FeedStep(Framed(packets), Always);
        RoundTripIsExact(rest);
        var more := Feed(Framed(rest), Always);
        assert ([p] + more.packets)[1..] == more.packets;
      }
    }
  }

  /** Every chunking of such a framed list gives back the list. */
  lemma ChunkedRoundTrip(packets: seq<seq<Byte>>, chunks: seq<seq<Byte>>)
    requires Fit(packets) && Concat(chunks) == Framed(packets)
    requires forall p :: p in packets ==> |p| >= MIN_RTP_HEADER_LEN
    ensures FeedChunks(chunks, Always) == Fed(packets, [], NeedsMore)
  {
    hide Feed, FeedChunks, Framed;
    ChunkingDoesNotMatter(chunks, Always);
    RoundTripIsExact(packets);
  }
}

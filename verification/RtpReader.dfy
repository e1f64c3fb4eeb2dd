/**
  What a reader of an `RtpPacketBuffer` gets, end to end: the histories its class keeps, read through the
  reference sorter and the assembler.
*/
module RtpReader {
  import opened Bytes
  import opened SortedKeys
  import opened ReorderRing
  import opened StreamNumbers
  import opened AccessUnits
  import opened AacPayloads
  import opened RtpPipeline
  import opened RtpBuffers

  /** The reference sorter of a buffer: the initial batch, counted from `w`, then every arrival and delivery. */
  ghost function SorterOf(w: nat, initial: seq<RtpPacket>, ops: seq<Op>): Sorter
    requires InitialMap(w, initial).Keys != {}
  {
    var m := InitialMap(w, initial);
    RunSorter(Sorter(MinKey(m.Keys), m, [], []), ops)
  }

  /** Every packet was within the ring when it arrived: the initial batch lies in one window of 1024 numbers
      from `w`, and each later arrival less than 1024 ahead of the number expected at that moment. */
  ghost predicate InWindow(b: RtpPacketBuffer, w: nat)
    reads b`initial, b`ops
  {
    && (forall p :: p in b.initial ==> Ahead(w, p.seqNo) < BUFFER_SIZE)
    && InitialMap(w, b.initial).Keys != {}
    && var m := InitialMap(w, b.initial);
       AllFit(Sorter(MinKey(m.Keys), m, [], []), b.ops)
  }

  /** The buffer has delivered what the reference delivers, and holds what the reference still holds. */
  lemma BufferSorts(b: RtpPacketBuffer, w: nat)
    requires b.Valid() && InWindow(b, w)
    ensures var s := SorterOf(w, b.initial, b.ops);
            && Sorted(s, MinKey(InitialMap(w, b.initial).Keys)) && b.out == s.out
            && Views(b.AsRing(), s.base, Pending(s))
  {
    hide MinKey, InitialMap, RunRing, RunSorter, Views, Sorted, Pending, AllFit;
    var m := InitialMap(w, b.initial);
    var s0 := Sorter(MinKey(m.Keys), m, [], []);
    InitialBatchViews(w, b.initial);
    InitialMapIsSorted(w, b.initial);
    RingSorts(InitialRing(b.initial), s0, b.ops);
    RunsStaySorted(s0, MinKey(m.Keys), b.ops);
  }

  lemma ConcatNothing<T>(parts: seq<seq<T>>)
    ensures parts + [] == parts
  {}

  lemma {:induction false} EndsDoNotMatter(kind: PayloadKind, cfg: AdtsConfig, ds: seq<Delivery>, ends: nat)
    requires ends > 0
    ensures Assembled(kind, cfg, ds, ends).log == Assembled(kind, cfg, ds, 1).log
    ensures Assembled(kind, cfg, ds, ends).buffer == []
  {
    hide Assembled;
    AssembledEnd(kind, cfg, ds, ends - 1);
    if ends > 1 {
      EndsDoNotMatter(kind, cfg, ds, ends - 1);
    }
  }

  /** Once everything has been read, the chunks together are the emitted units of the assembler run over the
      deliveries, whatever the chunk sizes were. */
  lemma ConsumedIsEmitted(b: RtpPacketBuffer)
    requires b.Valid() && b.Drained() && b.ends > 0
    ensures b.consumed == Concat(Emissions(Assembled(b.kind, b.aacAdts, b.out, 1).log))
  {
    hide Assembled, Depacketized, Emissions, Concat, RunRing, InitialRing;
    EndsDoNotMatter(b.kind, b.aacAdts, b.out, b.ends);
    ConcatNothing(b.popped);
  }

  lemma StartIsAccepted(b: RtpPacketBuffer, w: nat)
    requires InitialMap(w, b.initial).Keys != {}
    ensures MinKey(InitialMap(w, b.initial).Keys) in SorterOf(w, b.initial, b.ops).accepted
  {
    hide RunSorter, InitialMap, MinKey;
    var m := InitialMap(w, b.initial);
    AcceptedOnlyGrows(Sorter(MinKey(m.Keys), m, [], []), b.ops);
  }

  lemma NothingPending(b: RtpPacketBuffer, w: nat)
    requires b.Valid() && b.Drained() && InWindow(b, w)
    ensures Pending(SorterOf(w, b.initial, b.ops)) == map[]
  {
    hide MinKey, InitialMap, RunRing, RunSorter, Sorted, Pending, AllFit, Slot, Wrap;
    BufferSorts(b, w);
    var m := Pending(SorterOf(w, b.initial, b.ops));
    assert m.Keys == {};
  }

  /** Two readers whose packets fitted the window and of which the same packets were accepted get the same
      bytes, whatever the arrival order, the waiting times and the chunk sizes. */
  lemma ArrivalOrderDoesNotReachTheReader(b: RtpPacketBuffer, c: RtpPacketBuffer, w: nat)
    requires b.kind == c.kind && b.aacAdts == c.aacAdts
    requires b.Valid() && b.Drained() && b.ends > 0 && InWindow(b, w)
    requires c.Valid() && c.Drained() && c.ends > 0 && InWindow(c, w)
    requires SorterOf(w, b.initial, b.ops).accepted == SorterOf(w, c.initial, c.ops).accepted
    ensures b.out == c.out && b.consumed == c.consumed
  {
    hide MinKey, InitialMap, RunRing, RunSorter, Pending, AllFit, Views, DeliveredAt, Assembled, SorterOf;
    BufferSorts(b, w);
    BufferSorts(c, w);
    StartIsAccepted(b, w);
    StartIsAccepted(c, w);
    NothingPending(b, w);
    NothingPending(c, w);
    ArrivalOrderDoesNotMatter(
      SorterOf(w, b.initial, b.ops), SorterOf(w, c.initial, c.ops), MinKey(InitialMap(w, b.initial).Keys));
    ConsumedIsEmitted(b);
    ConsumedIsEmitted(c);
  }

  ghost function PayloadsFrom(m: map<nat, RtpPacket>, start: nat, n: nat): seq<seq<Byte>>
    requires forall u :: start <= u < start + n ==> u in m
  {
    seq(n, i requires 0 <= i < n => m[start + i].payload)
  }

  lemma UnflaggedIsContiguous(s: Sorter, start: nat)
    requires Sorted(s, start) && Pending(s) == map[] && NoneFlagged(s)
    ensures |s.out| == |s.keys|
    ensures forall u :: u in s.accepted <==> start <= u < start + |s.out|
    ensures PayloadsOf(s.out) == PayloadsFrom(s.accepted, start, |s.out|)
  {
    assert |s.out| == |s.keys|;
    hide *;
    forall u: nat ensures u in s.accepted <==> start <= u < start + |s.out| {
      UnflaggedKey(s, start, u);
    }
    UnflaggedPayloads(s, start);
  }

  lemma UnflaggedPayloads(s: Sorter, start: nat)
    requires Sorted(s, start) && NoneFlagged(s)
    requires |s.out| == |s.keys| && forall u :: u in s.accepted <==> start <= u < start + |s.out|
    ensures PayloadsOf(s.out) == PayloadsFrom(s.accepted, start, |s.out|)
  {
    hide Sorted;
    forall i | 0 <= i < |s.out| ensures s.out[i].pkt == s.accepted[start + i] {
      UnflaggedKeysAreConsecutive(s, start, i);
    }
  }

  /** Of a drained sorter without flagged loss, the assembler emits exactly the accepted payloads in
      sequence-number order. */
  lemma SortedPayloadsAreEmitted(kind: PayloadKind, cfg: AdtsConfig, s: Sorter, start: nat)
    requires KeepsPayloads(kind) && NoneFlagged(s)
    requires Sorted(s, start) && Pending(s) == map[]
    ensures forall u :: u in s.accepted <==> start <= u < start + |s.out|
    ensures Concat(Emissions(Assembled(kind, cfg, s.out, 1).log)) == Concat(PayloadsFrom(s.accepted, start, |s.out|))
  {
    hide Pending, Sorted, Assembled, Concat, Emissions;
    UnflaggedIsContiguous(s, start);
    forall d | d in s.out ensures !d.lostBefore {
      var i :| 0 <= i < |s.out| && s.out[i] == d;
    }
    LosslessStreamIsRestored(kind, cfg, s.out, 1);
    EndsDoNotMatter(kind, cfg, s.out, 1);
    ConcatNothing(Emissions(Assembled(kind, cfg, s.out, 1).log));
  }

  /** The unwrapped number of every packet the channel has carried, the initial batch counted from `w`. */
  ghost function NumbersOf(w: nat, initial: seq<RtpPacket>, ops: seq<Op>): seq<int>
    requires InitialMap(w, initial).Keys != {}
  {
    var m := InitialMap(w, initial);
    InitialNumbers(w, initial) + ArrivalNumbers(Sorter(MinKey(m.Keys), m, [], []), ops)
  }

  /** The fate of every packet of an input that has been read to its end: a packet is among those that reached
      the reader if and only if its number is not below the least number of the initial batch; and whatever
      reached the reader is a packet of the input. */
  ghost predicate EveryPacketAccountedFor(
    source: seq<RtpPacket>, ns: seq<int>, m: map<nat, RtpPacket>, start: nat)
  {
    && |ns| == |source|
    && (forall i :: 0 <= i < |source| ==> AccountedFor(ns[i], source[i], m, start))
    && (forall u :: u in m ==> CameAs(ns, source, u, m[u]))
  }

  lemma FirstBatchAccountedFor(w: nat, initial: seq<RtpPacket>, ops: seq<Op>, i: nat)
    requires initial != [] && i < |initial| && InitialMap(w, initial).Keys != {}
    ensures var start := MinKey(InitialMap(w, initial).Keys);
            AccountedFor(InitialNumbers(w, initial)[i], initial[i], SorterOf(w, initial, ops).accepted, start)
  {
    hide MinKey, InitialMap, RunSorter, Wrap, CameAs;
    var m := InitialMap(w, initial);
    InitialCameFromBatch(w, initial);
    AcceptedOnlyGrows(Sorter(MinKey(m.Keys), m, [], []), ops);
  }

  /** A list and its continuation share their first part. */
  lemma Parts<T>(xs: seq<T>, ys: seq<T>, i: nat)
    requires i < |xs| + |ys|
    ensures (xs + ys)[i] == if i < |xs| then xs[i] else ys[i - |xs|]
  {}

  lemma StreamAccountedFor(w: nat, initial: seq<RtpPacket>, ops: seq<Op>)
    requires initial != [] && (forall p :: p in initial ==> Ahead(w, p.seqNo) < BUFFER_SIZE)
    requires InitialMap(w, initial).Keys != {}
    requires var m := InitialMap(w, initial); AllFit(Sorter(MinKey(m.Keys), m, [], []), ops)
    requires NoneFlagged(SorterOf(w, initial, ops))
    ensures EveryPacketAccountedFor(initial + Arrived(ops), NumbersOf(w, initial, ops),
                                    SorterOf(w, initial, ops).accepted, MinKey(InitialMap(w, initial).Keys))
  {
    hide MinKey, InitialMap, RunSorter, AllFit, AccountedFor, CameAs, Sorted, NoneFlagged;
    var m := InitialMap(w, initial);
    var start, s0 := MinKey(m.Keys), Sorter(MinKey(m.Keys), m, [], []);
    var xs, ys := InitialNumbers(w, initial), ArrivalNumbers(s0, ops);
    var t := SorterOf(w, initial, ops);
    InitialMapIsSorted(w, initial);
    ArrivalsAreAccountedFor(s0, start, ops);
    forall i | 0 <= i < |initial + Arrived(ops)|
      ensures AccountedFor((xs + ys)[i], (initial + Arrived(ops))[i], t.accepted, start)
    {
      Parts(xs, ys, i);
      Parts(initial, Arrived(ops), i);
      if i < |initial| { FirstBatchAccountedFor(w, initial, ops, i); }
    }
    AcceptedCameFromArrivals(s0, ops);
    InitialCameFromBatch(w, initial);
    forall u | u in t.accepted ensures CameAs(xs + ys, initial + Arrived(ops), u, t.accepted[u]) {
      CameInParts(xs, initial, ys, Arrived(ops), u, t.accepted[u]);
    }
  }

  lemma CameInParts(xs: seq<int>, ps: seq<RtpPacket>, ys: seq<int>, qs: seq<RtpPacket>, u: nat, pkt: RtpPacket)
    requires |xs| == |ps| && |ys| == |qs|
    ensures CameAs(xs, ps, u, pkt) || CameAs(ys, qs, u, pkt) ==> CameAs(xs + ys, ps + qs, u, pkt)
  {
    if CameAs(xs, ps, u, pkt) {
      CameEarlier(xs, ps, u, pkt, xs + ys, ps + qs);
    } else if CameAs(ys, qs, u, pkt) {
      var i :| 0 <= i < |ys| && i < |qs| && ys[i] == u && qs[i] == pkt;
      assert (xs + ys)[|xs| + i] == u && (ps + qs)[|xs| + i] == pkt;
    }
  }

  /** Program streams, passthrough and G.711, end to end: when every packet fitted the window and no delivery
      was flagged lost, the reader has got the payloads of the accepted numbers in order, from the least number
      of the initial batch on without a gap; and a packet of the input is among them if and only if its number
      is not below that start. */
  lemma LosslessStreamReachesTheReader(b: RtpPacketBuffer, w: nat)
    requires b.Valid() && b.Drained() && b.ends > 0 && InWindow(b, w)
    requires KeepsPayloads(b.kind) && forall i :: 0 <= i < |b.out| ==> !b.out[i].lostBefore
    ensures var m, start := SorterOf(w, b.initial, b.ops).accepted, MinKey(InitialMap(w, b.initial).Keys);
            && (forall u :: u in m <==> start <= u < start + |b.out|)
            && b.consumed == Concat(PayloadsFrom(m, start, |b.out|))
            && EveryPacketAccountedFor(b.source, NumbersOf(w, b.initial, b.ops), m, start)
  {
    hide MinKey, InitialMap, RunRing, RunSorter, Pending, AllFit, Views, Sorted, Assembled, Concat, Emissions,
      EveryPacketAccountedFor, Throttled, FillsUp;
    BufferSorts(b, w);
    NothingPending(b, w);
    SortedPayloadsAreEmitted(b.kind, b.aacAdts, SorterOf(w, b.initial, b.ops), MinKey(InitialMap(w, b.initial).Keys));
    ConsumedIsEmitted(b);
    StreamAccountedFor(w, b.initial, b.ops);
    ConcatNothing([b.initial]);
    assert b.initial + Arrived(b.ops) + [] == b.source;
    assert b.initial + Arrived(b.ops) == b.source;
  }

  /** The packet just below the initial batch is lost without any delivery being flagged for it. */
  lemma PacketBelowTheStartIsLost(w: nat, pkts: seq<RtpPacket>, late: RtpPacket)
    requires pkts != [] && forall p :: p in pkts ==> Ahead(w, p.seqNo) < BUFFER_SIZE
    requires InitialMap(w, pkts).Keys != {} && MinKey(InitialMap(w, pkts).Keys) > 0
    requires late.seqNo == Wrap(MinKey(InitialMap(w, pkts).Keys) - 1)
    ensures RunRing(InitialRing(pkts), [Arrive(late)]) == RunRing(InitialRing(pkts), [])
  {
    hide MinKey, InitialMap, InitialRing, Views, ReorderRing.Enqueue, RunRing;
    InitialBatchViews(w, pkts);
    RefusedBelow(InitialRing(pkts), MinKey(InitialMap(w, pkts).Keys), InitialMap(w, pkts), late);
    ReorderRing.RunNothing(InitialRing(pkts));
    ReorderRing.RunSnoc(InitialRing(pkts), [], Arrive(late));
    assert [] + [Arrive(late)] == [Arrive(late)];
  }

  lemma RefusedBelow(r: Ring, base: nat, m: map<nat, RtpPacket>, late: RtpPacket)
    requires Views(r, base, m) && base > 0 && late.seqNo == Wrap(base - 1)
    ensures ReorderRing.Enqueue(r, late) == r
  {
    hide Store, HasPacket;
    assert r.first == Wrap(base);
    WrapKeepsOrder(base - 1, base);
  }

  /** A nearly ordered input fits the window whatever the timing: the hypothesis is on the input alone. */
  lemma NearlyOrderedInputFits(b: RtpPacketBuffer, ns: seq<nat>, a: nat)
    requires b.Valid() && NearlyInOrder(b.source, ns, a)
    ensures InWindow(b, a)
  {
    hide MinKey, InitialMap, RunRing, RunSorter, Pending, Views, Sorted, NearlyInOrder, Known, Throttled, FillsUp;
    var k := |b.initial|;
    assert b.source[..k] == b.initial;
    assert b.source[k..k + |Arrived(b.ops)|] == Arrived(b.ops);
    InitialBatchFits(b.source, ns, a, k, b.queueWindow);
    var m := InitialMap(a, b.initial);
    InitialBatchViews(a, b.initial);
    InitialMapIsSorted(a, b.initial);
    NearlyOrderedFits(InitialRing(b.initial), Sorter(MinKey(m.Keys), m, [], []), MinKey(m.Keys), b.ops, b.source, ns,
        k, a);
  }

  /** So for distinct numbers that arrive at most 204 places from their order, a reader that was not told of any
      loss has got the payloads in order from the start on, whatever the timing and the chunk sizes. */
  lemma NearlyOrderedStreamReachesTheReader(b: RtpPacketBuffer, ns: seq<nat>, a: nat)
    requires b.Valid() && b.Drained() && b.ends > 0 && NearlyInOrder(b.source, ns, a)
    requires KeepsPayloads(b.kind) && forall i :: 0 <= i < |b.out| ==> !b.out[i].lostBefore
    ensures InitialMap(a, b.initial).Keys != {}
    ensures var m, start := SorterOf(a, b.initial, b.ops).accepted, MinKey(InitialMap(a, b.initial).Keys);
            && (forall u :: u in m <==> start <= u < start + |b.out|)
            && b.consumed == Concat(PayloadsFrom(m, start, |b.out|))
            && EveryPacketAccountedFor(b.source, NumbersOf(a, b.initial, b.ops), m, start)
  {
    hide MinKey, InitialMap, RunRing, RunSorter, Pending, AllFit, Views, Sorted, Assembled, Concat, Emissions,
      EveryPacketAccountedFor, NearlyInOrder, Throttled, FillsUp;
    NearlyOrderedInputFits(b, ns, a);
    LosslessStreamReachesTheReader(b, a);
  }
}

/**
  The unwrapped number of every packet of a stream, and what becomes of each packet in a run of the reference
  sorter of ReorderRing.dfy.
*/
module StreamNumbers {
  import opened SortedKeys
  import opened ReorderRing

  /** The packets that arrived during a run. */
  function Arrived(ops: seq<Op>): seq<RtpPacket> {
    if ops == [] then []
    else Arrived(ops[..|ops| - 1]) + match ops[|ops| - 1] { case Arrive(p) => [p] case Take => [] }
  }

  lemma ArrivedSnoc(ops: seq<Op>, op: Op)
    ensures Arrived(ops + [op]) == Arrived(ops) + match op { case Arrive(p) => [p] case Take => [] }
  {
    assert (ops + [op])[..|ops|] == ops;
  }

  lemma InitialMapIsSorted(w: nat, pkts: seq<RtpPacket>)
    requires pkts != [] && forall p :: p in pkts ==> Ahead(w, p.seqNo) < BUFFER_SIZE
    ensures var m := InitialMap(w, pkts);
            m.Keys != {} && Sorted(Sorter(MinKey(m.Keys), m, [], []), MinKey(m.Keys))
            && Pending(Sorter(MinKey(m.Keys), m, [], [])) == m
  {
    hide MinKey, Wrap;
    InitialMapInWindow(w, pkts);
    InitialKeysWrap(w, pkts);
  }

  lemma {:induction false} InitialKeysWrap(w: nat, pkts: seq<RtpPacket>)
    ensures forall u :: u in InitialMap(w, pkts) ==> InitialMap(w, pkts)[u].seqNo == Wrap(u)
  {
    hide Wrap;
    if pkts != [] {
      InitialKeysWrap(w, pkts[..|pkts| - 1]);
    }
  }

  lemma {:induction false} AcceptedOnlyGrows(s: Sorter, ops: seq<Op>)
    ensures forall u :: u in s.accepted ==>
                          u in RunSorter(s, ops).accepted && RunSorter(s, ops).accepted[u] == s.accepted[u]
  {
    if ops != [] {
      AcceptedOnlyGrows(s, ops[..|ops| - 1]);
    }
  }

  ghost predicate NoneFlagged(s: Sorter) {
    forall i :: 0 <= i < |s.out| ==> !s.out[i].lostBefore
  }

  lemma {:induction false} UnflaggedKeysAreConsecutive(s: Sorter, start: nat, i: nat)
    requires Sorted(s, start) && i < |s.keys| && NoneFlagged(s)
    ensures s.keys[i] == start + i && start + i in s.accepted && s.out[i].pkt == s.accepted[start + i]
  {
    hide Wrap;
    assert DeliveredAt(s, start, i);
    if i > 0 {
      UnflaggedKeysAreConsecutive(s, start, i - 1);
    }
  }

  /** Once nothing is pending every accepted packet has its place among the deliveries. */
  lemma DeliveredPlace(s: Sorter, start: nat, u: nat) returns (i: nat)
    requires Sorted(s, start) && Pending(s) == map[] && u in s.accepted
    ensures i < |s.keys| && s.keys[i] == u
  {
    hide Wrap, DeliveredAt, Ascending;
    assert u !in Pending(s);
    assert u in s.keys;
    i :| 0 <= i < |s.keys| && s.keys[i] == u;
  }

  lemma UnflaggedKey(s: Sorter, start: nat, u: nat)
    requires Sorted(s, start) && Pending(s) == map[] && NoneFlagged(s)
    ensures u in s.accepted <==> start <= u < start + |s.keys|
  {
    hide Pending, Wrap, DeliveredAt, Ascending;
    if u in s.accepted {
      var i := DeliveredPlace(s, start, u);
      UnflaggedKeysAreConsecutive(s, start, i);
    } else if start <= u < start + |s.keys| {
      UnflaggedKeysAreConsecutive(s, start, u - start);
      assert false;
    }
  }

  // ---------------------------------------------------------------- every arrival is accounted for

  /** The unwrapped number of an arrival while `base` is expected: up to half a cycle ahead of it or behind. */
  function NumberOf(base: nat, s: Seq16): int {
    if Ahead(base, s) > SEQ_HALF_RANGE then base + Ahead(base, s) - SEQ_MODULUS else base + Ahead(base, s)
  }

  lemma NumberWraps(base: nat, s: Seq16)
    ensures Wrap(NumberOf(base, s)) == s
  {}

  /** The numbers of the arrivals of a run, in order. */
  ghost function ArrivalNumbers(s: Sorter, ops: seq<Op>): (ns: seq<int>)
    ensures |ns| == |Arrived(ops)|
  {
    if ops == [] then []
    else
      var front := ops[..|ops| - 1];
      ArrivalNumbers(s, front) +
      match ops[|ops| - 1]
      case Arrive(p) => [NumberOf(RunSorter(s, front).base, p.seqNo)]
      case Take => []
  }

  /** The packet has the number `n`, and a packet of that number was accepted if and only if it is not below
      the start. */
  ghost predicate AccountedFor(n: int, pkt: RtpPacket, m: map<nat, RtpPacket>, start: nat) {
    Wrap(n) == pkt.seqNo && (n >= start <==> n in m)
  }

  lemma StillAccountedFor(n: int, pkt: RtpPacket, m: map<nat, RtpPacket>, m': map<nat, RtpPacket>, start: nat)
    requires AccountedFor(n, pkt, m, start) && (forall u :: u in m ==> u in m') && forall u :: u in m' ==> u >= start
    ensures AccountedFor(n, pkt, m', start)
  {}

  lemma NewArrivalAccountedFor(s: Sorter, start: nat, pkt: RtpPacket)
    requires Sorted(s, start) && NoneFlagged(s) && Fits(s.base, pkt.seqNo)
    ensures AccountedFor(NumberOf(s.base, pkt.seqNo), pkt, SorterArrive(s, pkt).accepted, start)
  {
    hide Wrap, DeliveredAt, Ascending, Sorted;
    NumberWraps(s.base, pkt.seqNo);
    ArriveStaysSorted(s, start, pkt);
    BaseIsNext(s, start);
    var n := NumberOf(s.base, pkt.seqNo);
    if start <= n < s.base {
      UnflaggedKeysAreConsecutive(s, start, n - start);
    }
    AcceptedFromStart(SorterArrive(s, pkt), start);
  }

  lemma AcceptedFromStart(s: Sorter, start: nat)
    requires Sorted(s, start)
    ensures forall u :: u in s.accepted ==> u >= start
    ensures s.base >= start
  {}

  lemma BaseIsNext(s: Sorter, start: nat)
    requires Sorted(s, start) && NoneFlagged(s)
    ensures s.base == start + |s.keys|
  {
    hide Wrap;
    if s.keys != [] {
      UnflaggedKeysAreConsecutive(s, start, |s.keys| - 1);
    }
  }

  /** When no delivery was flagged lost, every packet that arrived after the initial batch is accounted for:
      its number was accepted exactly when it is not below the start. */
  lemma {:induction false} ArrivalsAreAccountedFor(s: Sorter, start: nat, ops: seq<Op>)
    requires Sorted(s, start) && AllFit(s, ops) && NoneFlagged(RunSorter(s, ops))
    ensures forall i :: 0 <= i < |Arrived(ops)| ==>
              AccountedFor(ArrivalNumbers(s, ops)[i], Arrived(ops)[i], RunSorter(s, ops).accepted, start)
  {
    hide AccountedFor, Sorted, NumberOf, Fits, Pending;
    if ops != [] {
      var front, op := ops[..|ops| - 1], ops[|ops| - 1];
      var t, t' := RunSorter(s, front), RunSorter(s, ops);
      EarlierFlags(s, ops);
      ArrivalsAreAccountedFor(s, start, front);
      RunsStaySorted(s, start, front);
      RunsStaySorted(s, start, ops);
      AcceptedFromStart(t', start);
      StepOnlyGrows(t, op);
      forall i | 0 <= i < |Arrived(front)|
        ensures AccountedFor(ArrivalNumbers(s, front)[i], Arrived(front)[i], t'.accepted, start)
      {
        StillAccountedFor(ArrivalNumbers(s, front)[i], Arrived(front)[i], t.accepted, t'.accepted, start);
      }
      if op.Arrive? {
        NewArrivalAccountedFor(t, start, op.pkt);
      }
    }
  }

  lemma StepOnlyGrows(s: Sorter, op: Op)
    ensures var t := match op { case Arrive(p) => SorterArrive(s, p) case Take => SorterTake(s) };
            forall u :: u in s.accepted ==> u in t.accepted && t.accepted[u] == s.accepted[u]
  {}

  lemma EarlierFlags(s: Sorter, ops: seq<Op>)
    requires ops != [] && NoneFlagged(RunSorter(s, ops))
    ensures NoneFlagged(RunSorter(s, ops[..|ops| - 1]))
  {
    var t, t' := RunSorter(s, ops[..|ops| - 1]), RunSorter(s, ops);
    forall i | 0 <= i < |t.out| ensures !t.out[i].lostBefore {
      assert t'.out[i] == t.out[i];
    }
  }

  // ---------------------------------------------------------------- nothing is invented

  /** Packet `i` of the stream is the one accepted under number `u`. */
  ghost predicate CameAs(ns: seq<int>, pkts: seq<RtpPacket>, u: nat, pkt: RtpPacket) {
    exists i :: 0 <= i < |ns| && i < |pkts| && ns[i] == u && pkts[i] == pkt
  }

  lemma {:induction false} InitialCameFromBatch(w: nat, pkts: seq<RtpPacket>)
    ensures var ns := InitialNumbers(w, pkts);
            && (forall u :: u in InitialMap(w, pkts) ==> CameAs(ns, pkts, u, InitialMap(w, pkts)[u]))
            && (forall i :: 0 <= i < |pkts| ==> ns[i] in InitialMap(w, pkts) && Wrap(ns[i]) == pkts[i].seqNo)
  {
    hide Wrap;
    if pkts != [] {
      var n := |pkts| - 1;
      var front := pkts[..n];
      InitialCameFromBatch(w, front);
      var ns := InitialNumbers(w, pkts);
      assert InitialNumbers(w, front) == ns[..n];
      forall u | u in InitialMap(w, pkts) ensures CameAs(ns, pkts, u, InitialMap(w, pkts)[u]) {
        if u in InitialMap(w, front) {
          var i :| 0 <= i < n && ns[..n][i] == u && front[i] == InitialMap(w, front)[u];
          assert ns[i] == u && pkts[i] == InitialMap(w, pkts)[u];
        } else {
          assert ns[n] == u;
        }
      }
    }
  }

  /** The numbers of the initial batch, counted from `w`. */
  ghost function InitialNumbers(w: nat, pkts: seq<RtpPacket>): seq<int> {
    seq(|pkts|, i requires 0 <= i < |pkts| => Unwrap(w, pkts[i].seqNo))
  }

  /** Every accepted packet was there from the start or is an arrival of that number. */
  lemma {:induction false} AcceptedCameFromArrivals(s: Sorter, ops: seq<Op>)
    ensures forall u :: u in RunSorter(s, ops).accepted ==>
              (u in s.accepted && s.accepted[u] == RunSorter(s, ops).accepted[u])
              || CameAs(ArrivalNumbers(s, ops), Arrived(ops), u, RunSorter(s, ops).accepted[u])
  {
    hide Wrap, CameAs, Pending;
    if ops != [] {
      var front, op := ops[..|ops| - 1], ops[|ops| - 1];
      AcceptedCameFromArrivals(s, front);
      var t, t' := RunSorter(s, front), RunSorter(s, ops);
      forall u | u in t'.accepted
        ensures (u in s.accepted && s.accepted[u] == t'.accepted[u])
                || CameAs(ArrivalNumbers(s, ops), Arrived(ops), u, t'.accepted[u])
      {
        StepAccepts(t, op, u);
        if u in t.accepted {
          CameEarlier(ArrivalNumbers(s, front), Arrived(front), u, t.accepted[u], ArrivalNumbers(s, ops), Arrived(ops));
        } else {
          CameLast(ArrivalNumbers(s, ops), Arrived(ops), u, op.pkt);
        }
      }
    }
  }

  lemma StepAccepts(s: Sorter, op: Op, u: nat)
    ensures var t := match op { case Arrive(p) => SorterArrive(s, p) case Take => SorterTake(s) };
            && (u in s.accepted ==> u in t.accepted && t.accepted[u] == s.accepted[u])
            && (u in t.accepted && u !in s.accepted ==>
                  op.Arrive? && t.accepted[u] == op.pkt && NumberOf(s.base, op.pkt.seqNo) == u)
  {}

  lemma CameEarlier(ns: seq<int>, pkts: seq<RtpPacket>, u: nat, pkt: RtpPacket, ns': seq<int>, pkts': seq<RtpPacket>)
    requires ns <= ns' && pkts <= pkts'
    ensures CameAs(ns, pkts, u, pkt) ==> CameAs(ns', pkts', u, pkt)
  {
    if CameAs(ns, pkts, u, pkt) {
      var i :| 0 <= i < |ns| && i < |pkts| && ns[i] == u && pkts[i] == pkt;
      assert ns'[i] == u && pkts'[i] == pkt;
    }
  }

  lemma CameLast(ns: seq<int>, pkts: seq<RtpPacket>, u: nat, pkt: RtpPacket)
    requires |ns| == |pkts| > 0 && ns[|ns| - 1] == u && pkts[|ns| - 1] == pkt
    ensures CameAs(ns, pkts, u, pkt)
  {}

  // ---------------------------------------------------------------- inputs that always fit the window

  const MAX_DISPLACEMENT: nat := 204

  /** The stream consists of distinct numbers from `a` on, each at most 204 places from its position. */
  ghost predicate NearlyInOrder(pkts: seq<RtpPacket>, ns: seq<nat>, a: nat)
    ensures NearlyInOrder(pkts, ns, a) ==> |ns| == |pkts|
  {
    && |ns| == |pkts|
    && (forall i :: 0 <= i < |ns| ==> NearPlace(pkts[i], ns[i], a, i))
    && Distinct(ns)
  }

  ghost predicate NearPlace(pkt: RtpPacket, n: nat, a: nat, i: nat) {
    pkt.seqNo == Wrap(n) && a <= n <= a + i + MAX_DISPLACEMENT && a + i <= n + MAX_DISPLACEMENT
  }

  /** Packets are received only while the ring is below its watermark. */
  ghost predicate Throttled(r: Ring, ops: seq<Op>)
    requires |r.slots| == BUFFER_SIZE
  {
    ops != [] ==>
      var front := ops[..|ops| - 1];
      Throttled(r, front) && (ops[|ops| - 1].Arrive? ==> RunRing(r, front).ring.count < REORDER_BUFFER_HIGH_WATERMARK)
  }

  /** After the first `n` packets: those numbered from the base on are held, and nothing else was accepted. */
  ghost predicate Known(s: Sorter, ns: seq<nat>, n: nat)
    requires n <= |ns|
  {
    && (forall j :: 0 <= j < n && ns[j] >= s.base ==> ns[j] in s.accepted)
    && (forall u :: u in s.accepted ==> u in ns[..n])
  }

  function Interval(a: nat, b: nat): (r: set<nat>)
    requires a <= b
    ensures |r| == b - a && forall u :: u in r <==> a <= u < b
    decreases b - a
  {
    if a == b then {} else Interval(a, b - 1) + {b - 1}
  }

  ghost predicate Distinct(ns: seq<nat>) {
    forall i, j :: 0 <= i < j < |ns| ==> ns[i] != ns[j]
  }

  /** The set of the first `n` numbers. */
  function Seen(ns: seq<nat>, n: nat): set<nat>
    requires n <= |ns|
  {
    if n == 0 then {} else Seen(ns, n - 1) + {ns[n - 1]}
  }

  lemma {:induction false} SeenAre(ns: seq<nat>, n: nat, u: nat)
    requires n <= |ns|
    ensures u in Seen(ns, n) <==> u in ns[..n]
  {
    if n > 0 {
      SeenAre(ns, n - 1, u);
      assert ns[..n] == ns[..n - 1] + [ns[n - 1]];
    }
  }

  lemma {:induction false} SeenCount(ns: seq<nat>, n: nat)
    requires n <= |ns| && Distinct(ns)
    ensures |Seen(ns, n)| == n
  {
    if n > 0 {
      SeenCount(ns, n - 1);
      SeenAre(ns, n - 1, ns[n - 1]);
      assert ns[n - 1] !in Seen(ns, n - 1);
    }
  }

  lemma SubsetCount(x: set<nat>, y: set<nat>)
    requires x <= y
    ensures |x| <= |y|
  {
    assert y == x + (y - x);
  }

  lemma UnionCount(x: set<nat>, y: set<nat>)
    ensures |x + y| <= |x| + |y|
  {
    assert |x + y| + |x * y| == |x| + |y|;
  }

  lemma KeysCount(m: map<nat, RtpPacket>)
    ensures |m.Keys| == |m|
  {}

  lemma SeenIsHeld(s: Sorter, ns: seq<nat>, n: nat, a: nat, u: nat)
    requires n <= |ns| && Known(s, ns, n) && a <= s.base && u in Seen(ns, n)
    requires forall j :: 0 <= j < n ==> a <= ns[j]
    ensures a <= u < s.base || u in Pending(s)
  {
    SeenAre(ns, n, u);
    var j :| 0 <= j < n && ns[..n][j] == u;
    assert ns[j] == u;
  }

  /** A ring below its watermark cannot have fallen far behind the input. */
  lemma BaseKeepsUp(s: Sorter, ns: seq<nat>, n: nat, a: nat)
    requires n <= |ns| && Known(s, ns, n) && a <= s.base && Distinct(ns)
    requires forall j :: 0 <= j < n ==> a <= ns[j]
    ensures n <= s.base - a + |Pending(s)|
  {
    hide Known, Pending, Seen, Distinct, Interval;
    SeenCount(ns, n);
    var below, held := Interval(a, s.base), Pending(s).Keys;
    forall u | u in Seen(ns, n) ensures u in below + held {
      SeenIsHeld(s, ns, n, a, u);
    }
    SubsetCount(Seen(ns, n), below + held);
    UnionCount(below, held);
    KeysCount(Pending(s));
  }

  lemma FitsByPlace(base: nat, n: nat)
    requires n < base + BUFFER_SIZE && base <= n + 2 * MAX_DISPLACEMENT
    ensures Fits(base, Wrap(n)) && (n >= base ==> Unwrap(base, Wrap(n)) == n && Ahead(base, Wrap(n)) < BUFFER_SIZE)
    ensures n < base ==> Ahead(base, Wrap(n)) > SEQ_HALF_RANGE
  {
    assert Wrap(n) == n - 65536 * (n / 65536) && Wrap(base) == base - 65536 * (base / 65536);
    if n >= base {
      assert Ahead(base, Wrap(n)) == n - base;
    } else {
      assert Ahead(base, Wrap(n)) == n - base + 65536;
    }
  }

  lemma NextArrivalFits(s: Sorter, start: nat, pkt: RtpPacket, ns: seq<nat>, n: nat, a: nat)
    requires Sorted(s, start) && a <= start && n < |ns| && Known(s, ns, n) && NearPlace(pkt, ns[n], a, n)
    requires |Pending(s)| < REORDER_BUFFER_HIGH_WATERMARK
    requires Distinct(ns)
    requires forall j :: 0 <= j < n ==> a <= ns[j] <= a + j + MAX_DISPLACEMENT
    requires s.keys == [] ==> s.base == start <= a + n + MAX_DISPLACEMENT
    ensures Fits(s.base, pkt.seqNo) && Known(SorterArrive(s, pkt), ns, n + 1)
  {
    hide Wrap, Fits, DeliveredAt, Ascending, Pending, Sorted;
    AcceptedFromStart(s, start);
    BaseKeepsUp(s, ns, n, a);
    BaseIsSeen(s, start, ns, n, a);
    FitsByPlace(s.base, ns[n]);
    assert ns[..n + 1] == ns[..n] + [ns[n]];
    var t := SorterArrive(s, pkt);
    forall j | 0 <= j < n + 1 && ns[j] >= t.base ensures ns[j] in t.accepted {}
  }

  lemma BaseIsSeen(s: Sorter, start: nat, ns: seq<nat>, n: nat, a: nat)
    requires Sorted(s, start) && n <= |ns| && Known(s, ns, n)
    requires forall j :: 0 <= j < n ==> ns[j] <= a + j + MAX_DISPLACEMENT
    requires s.keys == [] ==> s.base <= a + n + MAX_DISPLACEMENT
    ensures s.base <= a + n + MAX_DISPLACEMENT
  {
    hide Wrap, DeliveredAt, Ascending, Pending;
    if s.keys != [] {
      var k := s.keys[|s.keys| - 1];
      assert k in s.accepted;
      var j :| 0 <= j < n && ns[..n][j] == k;
    }
  }

  lemma TakeStaysKnown(s: Sorter, ns: seq<nat>, n: nat)
    requires n <= |ns| && Known(s, ns, n)
    ensures Known(SorterTake(s), ns, n)
  {
    hide MinKey;
  }

  lemma StepFits(
    r: Ring, s: Sorter, start: nat, front: seq<Op>, op: Op, pkts: seq<RtpPacket>, ns: seq<nat>, m: nat, a: nat)
    requires Views(r, s.base, Pending(s)) && s.out == [] && Sorted(s, start) && AllFit(s, front)
    requires NearlyInOrder(pkts, ns, a) && m <= |pkts| && Known(RunSorter(s, front), ns, m)
    requires a <= start <= a + m + MAX_DISPLACEMENT
    requires op.Arrive? ==>
               m < |pkts| && op.pkt == pkts[m] && RunRing(r, front).ring.count < REORDER_BUFFER_HIGH_WATERMARK
    ensures var t := RunSorter(s, front);
            match op
            case Arrive(p) => Fits(t.base, p.seqNo) && Known(SorterArrive(t, p), ns, m + 1)
            case Take => Known(SorterTake(t), ns, m)
  {
    assert |r.slots| == BUFFER_SIZE;
    hide Views, Pending, Sorted, Known, NearPlace, Distinct, Fits, Wrap, RunRing, RunSorter, AllFit, SorterArrive,
      SorterTake;
    var t := RunSorter(s, front);
    if op.Arrive? {
      RingSorts(r, s, front);
      RunsStaySorted(s, start, front);
      PlacesBound(pkts, ns, a);
      HeldIsCount(RunRing(r, front).ring, t.base, Pending(t));
      StartIsBase(t, start);
      NextArrivalFits(t, start, op.pkt, ns, m, a);
    } else {
      TakeStaysKnown(t, ns, m);
    }
  }

  /** Over any run that respects the watermark, a nearly ordered input always fits the window. */
  lemma {:induction false} NearlyOrderedFits(
    r: Ring, s: Sorter, start: nat, ops: seq<Op>, pkts: seq<RtpPacket>, ns: seq<nat>, n: nat, a: nat)
    requires Views(r, s.base, Pending(s)) && s.out == [] && Sorted(s, start) && Throttled(r, ops)
    requires NearlyInOrder(pkts, ns, a) && n + |Arrived(ops)| <= |pkts| && Arrived(ops) == pkts[n..n + |Arrived(ops)|]
    requires Known(s, ns, n) && a <= start <= a + n + MAX_DISPLACEMENT
    ensures AllFit(s, ops) && Known(RunSorter(s, ops), ns, n + |Arrived(ops)|)
  {
    hide Views, Pending, Sorted, Known, NearlyInOrder, Fits, RunRing, SorterArrive, SorterTake;
    if ops != [] {
      var front, op := ops[..|ops| - 1], ops[|ops| - 1];
      var m := n + |Arrived(front)|;
      assert Arrived(front) == Arrived(ops)[..|Arrived(front)|];
      assert Arrived(front) == pkts[n..m];
      NearlyOrderedFits(r, s, start, front, pkts, ns, n, a);
      assert op.Arrive? ==> op.pkt == Arrived(ops)[|Arrived(front)|];
      StepFits(r, s, start, front, op, pkts, ns, m, a);
    }
  }

  lemma PlacesBound(pkts: seq<RtpPacket>, ns: seq<nat>, a: nat)
    requires NearlyInOrder(pkts, ns, a)
    ensures forall j :: 0 <= j < |ns| ==> a <= ns[j] <= a + j + MAX_DISPLACEMENT
  {
    forall j | 0 <= j < |ns| ensures a <= ns[j] <= a + j + MAX_DISPLACEMENT {
      assert NearPlace(pkts[j], ns[j], a, j);
    }
  }

  lemma HeldIsCount(r: Ring, base: nat, m: map<nat, RtpPacket>)
    requires Views(r, base, m)
    ensures r.count == |m|
  {}

  lemma StartIsBase(s: Sorter, start: nat)
    requires Sorted(s, start)
    ensures s.keys == [] ==> s.base == start
  {}

  /** The initial batch grows only while the ring holds fewer than `window` packets. */
  ghost predicate FillsUp(pkts: seq<RtpPacket>, window: nat) {
    forall j {:trigger pkts[..j]} :: 0 <= j < |pkts| ==> InitialRing(pkts[..j]).count < window
  }

  lemma FillsFurther(pkts: seq<RtpPacket>, pkt: RtpPacket, window: nat)
    requires FillsUp(pkts, window) && InitialRing(pkts).count < window
    ensures FillsUp(pkts + [pkt], window)
  {
    hide InitialRing;
    var all := pkts + [pkt];
    forall j {:trigger all[..j]} | 0 <= j < |all| ensures InitialRing(all[..j]).count < window {
      assert all[..j] == if j == |pkts| then pkts else pkts[..j];
    }
  }

  lemma EarlyUnwraps(pkts: seq<RtpPacket>, ns: seq<nat>, a: nat, i: nat)
    requires NearlyInOrder(pkts, ns, a) && i < |pkts| && i <= 32
    ensures Unwrap(a, pkts[i].seqNo) == ns[i] && Ahead(a, pkts[i].seqNo) < BUFFER_SIZE
  {
    hide Wrap, Distinct;
    assert NearPlace(pkts[i], ns[i], a, i);
    FitsByPlace(a, ns[i]);
  }

  lemma {:induction false} InitialKeysAreSeen(pkts: seq<RtpPacket>, ns: seq<nat>, a: nat, k: nat)
    requires NearlyInOrder(pkts, ns, a) && k <= |pkts| && k <= 33
    ensures InitialMap(a, pkts[..k]).Keys == Seen(ns, k)
    ensures forall p :: p in pkts[..k] ==> Ahead(a, p.seqNo) < BUFFER_SIZE
  {
    hide Wrap, Unwrap, Ahead, NearlyInOrder;
    if k > 0 {
      InitialKeysAreSeen(pkts, ns, a, k - 1);
      EarlyUnwraps(pkts, ns, a, k - 1);
      assert pkts[..k] == pkts[..k - 1] + [pkts[k - 1]];
      assert pkts[..k][..k - 1] == pkts[..k - 1];
    }
  }

  lemma BatchCount(pkts: seq<RtpPacket>, ns: seq<nat>, a: nat, k: nat)
    requires NearlyInOrder(pkts, ns, a) && 0 < k <= |pkts| && k <= 32
    ensures InitialRing(pkts[..k]).count == k
  {
    hide InitialMap, InitialRing, Views, MinKey, Ahead;
    InitialKeysAreSeen(pkts, ns, a, k);
    SeenCount(ns, k);
    InitialBatchViews(a, pkts[..k]);
    HeldIsCount(InitialRing(pkts[..k]), MinKey(InitialMap(a, pkts[..k]).Keys), InitialMap(a, pkts[..k]));
    KeysCount(InitialMap(a, pkts[..k]));
  }

  lemma BatchIsShort(pkts: seq<RtpPacket>, ns: seq<nat>, a: nat, k: nat, window: nat)
    requires NearlyInOrder(pkts, ns, a) && k <= |pkts| && 0 < window <= 32 && FillsUp(pkts[..k], window)
    ensures k <= window
  {
    hide InitialRing, NearlyInOrder;
    if window < k {
      assert pkts[..k][..window] == pkts[..window];
      BatchCount(pkts, ns, a, window);
    }
  }

  /** The initial batch of a nearly ordered input has at most `window` packets, all within the window. */
  lemma InitialBatchFits(pkts: seq<RtpPacket>, ns: seq<nat>, a: nat, k: nat, window: nat)
    requires NearlyInOrder(pkts, ns, a) && 0 < k <= |pkts| && 0 < window <= 32 && FillsUp(pkts[..k], window)
    ensures var m := InitialMap(a, pkts[..k]);
            && k <= window && (forall p :: p in pkts[..k] ==> Ahead(a, p.seqNo) < BUFFER_SIZE)
            && m.Keys != {} && a <= MinKey(m.Keys) <= a + MAX_DISPLACEMENT
            && Known(Sorter(MinKey(m.Keys), m, [], []), ns, k)
  {
    hide Wrap, Ahead, InitialMap, InitialRing, FillsUp, NearlyInOrder, MinKey;
    BatchIsShort(pkts, ns, a, k, window);
    InitialKeysAreSeen(pkts, ns, a, k);
    SeenFromFirst(ns, k);
    PlacesBound(pkts, ns, a);
    InitialIsKnown(ns, k, InitialMap(a, pkts[..k]));
  }

  lemma SeenFromFirst(ns: seq<nat>, k: nat)
    requires 0 < k <= |ns|
    ensures ns[0] in Seen(ns, k) && forall u :: u in Seen(ns, k) ==> u in ns[..k]
  {
    hide Seen;
    SeenAre(ns, k, ns[0]);
    forall u | u in Seen(ns, k) ensures u in ns[..k] { SeenAre(ns, k, u); }
  }

  lemma InitialIsKnown(ns: seq<nat>, k: nat, m: map<nat, RtpPacket>)
    requires k <= |ns| && m.Keys == Seen(ns, k) && m.Keys != {}
    ensures Known(Sorter(MinKey(m.Keys), m, [], []), ns, k)
  {
    hide Seen, MinKey;
    forall j | 0 <= j < k ensures ns[j] in m { SeenAre(ns, k, ns[j]); }
    forall u | u in m ensures u in ns[..k] { SeenAre(ns, k, u); }
  }
}

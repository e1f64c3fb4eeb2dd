/**
  The 1024-slot reorder ring of stream/src/media/rtp.rs as values: what one arrival and one delivery do
  to the slots, the slot count and the next expected 16-bit sequence number.

  Its meaning is a sorted map from unwrapped sequence numbers to packets (`Views`), and a whole run of the
  ring is a run of the much simpler `Sorter` below it (`RingSorts`).
*/
module ReorderRing {
  import opened Wrappers
  import opened Bytes
  import opened SortedKeys

  const BUFFER_SIZE: nat := 1024
  const REORDER_BUFFER_HIGH_WATERMARK: nat := BUFFER_SIZE * 4 / 5
  const SEQ_MODULUS: nat := 65536
  const SEQ_HALF_RANGE: nat := 32768

  type Seq16 = s: int | 0 <= s < 65536

  datatype RtpPacket = RtpPacket(
    ssrc: nat, timestamp: nat, marker: bool, seqNo: Seq16, payload: seq<Byte>)

  /** The slot of the sequence number `ahead` places after `s`. */
  function Slot(s: int, ahead: int := 0): (i: nat)
    ensures i < BUFFER_SIZE
  {
    (s + ahead) % 1024
  }

  /** How many places after `s` slot `i` comes. */
  function SlotAhead(s: int, i: nat): (ahead: nat)
    requires i < BUFFER_SIZE
    ensures ahead < BUFFER_SIZE && Slot(s, ahead) == i
  {
    (i - s) % 1024
  }

  /** Wrapping arithmetic on 16-bit sequence numbers. */
  function Wrap(s: int): (w: Seq16) {
    s % 65536
  }

  /** `to.wrapping_sub(from)`: how far `to` lies ahead of `from`. */
  function Ahead(from: int, to: int): (d: nat)
    ensures d < SEQ_MODULUS
  {
    Wrap(to - from)
  }

  predicate SeqBefore(s: Seq16, base: Seq16) {
    s != base && Ahead(s, base) < SEQ_HALF_RANGE
  }

  /** Of two different numbers exactly one comes before the other, unless they lie half a cycle apart: then neither
      does. An arrival is old when it comes before the expected number. */
  lemma SerialOrder(s: Seq16, t: Seq16)
    ensures s == t ==> !SeqBefore(s, t)
    ensures s != t && Ahead(s, t) != 32768 ==> (SeqBefore(s, t) <==> !SeqBefore(t, s))
    ensures Ahead(s, t) == 32768 ==> !SeqBefore(s, t) && !SeqBefore(t, s)
    ensures 0 < Ahead(s, t) < 32768 ==> SeqBefore(s, t)
    ensures IsOldPacket(t, s) <==> SeqBefore(s, t)
  {}

  datatype Ring = Ring(slots: seq<Option<RtpPacket>>, count: nat, first: Seq16)

  /** How many slots hold a packet. */
  function Filled(slots: seq<Option<RtpPacket>>): nat {
    if slots == [] then 0
    else Filled(slots[..|slots| - 1]) + if slots[|slots| - 1].Some? then 1 else 0
  }

  ghost predicate WellCounted(r: Ring) {
    |r.slots| == BUFFER_SIZE && r.count == Filled(r.slots)
  }

  /** The slot of number `s` holds that very number. */
  predicate HasPacket(slots: seq<Option<RtpPacket>>, s: Seq16)
    requires |slots| == BUFFER_SIZE
  {
    var slot := slots[Slot(s)];
    slot.Some? && slot.value.seqNo == s
  }

  predicate IsOldPacket(first: Seq16, s: Seq16) {
    s != first && Ahead(s, first) < SEQ_HALF_RANGE
  }

  /** Puts a packet into its slot, whatever the slot holds. */
  function Store(r: Ring, pkt: RtpPacket): Ring
    requires |r.slots| == BUFFER_SIZE
  {
    var i := Slot(pkt.seqNo);
    r.(slots := r.slots[i := Some(pkt)], count := r.count + if r.slots[i].None? then 1 else 0)
  }

  function EnqueueInitial(r: Ring, pkt: RtpPacket): Ring
    requires |r.slots| == BUFFER_SIZE
  {
    if HasPacket(r.slots, pkt.seqNo) then r
    else if r.count == 0 || SeqBefore(pkt.seqNo, r.first) then Store(r.(first := pkt.seqNo), pkt)
    else Store(r, pkt)
  }

  function Enqueue(r: Ring, pkt: RtpPacket): Ring
    requires |r.slots| == BUFFER_SIZE
  {
    if IsOldPacket(r.first, pkt.seqNo) || HasPacket(r.slots, pkt.seqNo) then r else Store(r, pkt)
  }

  /** The distance from slot `start` to the first filled slot at or after it, going round; 1024 if none is filled. */
  function FirstOffset(slots: seq<Option<RtpPacket>>, start: nat, from: nat): (o: nat)
    requires |slots| == BUFFER_SIZE && from <= BUFFER_SIZE
    ensures from <= o <= BUFFER_SIZE
    ensures forall k :: from <= k < o ==> slots[Slot(start, k)].None?
    ensures o < BUFFER_SIZE ==> slots[Slot(start, o)].Some?
    decreases BUFFER_SIZE - from
  {
    if from == BUFFER_SIZE || slots[Slot(start, from)].Some? then from
    else FirstOffset(slots, start, from + 1)
  }

  datatype Delivery = Delivery(pkt: RtpPacket, lostBefore: bool)

  /** One delivery: the first filled slot from the expected one on, flagged lost when slots were skipped. */
  function TakeNext(r: Ring): (out: (Ring, Option<Delivery>))
    requires |r.slots| == BUFFER_SIZE
    ensures |out.0.slots| == BUFFER_SIZE
  {
    var o := FirstOffset(r.slots, r.first, 0);
    var i := Slot(r.first, o);
    if o == BUFFER_SIZE then (r, None)
    else
      var pkt := r.slots[i].value;
      (Ring(r.slots[i := None], if r.count == 0 then 0 else r.count - 1, Wrap(pkt.seqNo + 1)),
       Some(Delivery(pkt, o > 0)))
  }

  // ---------------------------------------------------------------- the slot count

  lemma {:induction false} FilledUpdate(slots: seq<Option<RtpPacket>>, i: nat, v: Option<RtpPacket>)
    requires i < |slots|
    ensures Filled(slots[i := v]) ==
            Filled(slots) - (if slots[i].Some? then 1 else 0) + (if v.Some? then 1 else 0)
  {
    var n := |slots| - 1;
    if i < n {
      FilledUpdate(slots[..n], i, v);
      assert slots[i := v][..n] == slots[..n][i := v];
    } else {
      assert slots[i := v][..n] == slots[..n];
    }
  }

  lemma {:induction false} FilledZero(slots: seq<Option<RtpPacket>>)
    ensures Filled(slots) == 0 <==> forall i :: 0 <= i < |slots| ==> slots[i].None?
  {
    if slots != [] {
      var n := |slots| - 1;
      FilledZero(slots[..n]);
      assert forall i :: 0 <= i < n ==> slots[..n][i] == slots[i];
    }
  }

  /** A delivery finds a packet exactly when the count is positive. */
  lemma TakeFindsPacket(r: Ring)
    requires WellCounted(r)
    ensures TakeNext(r).1.Some? <==> r.count > 0
  {
    FilledZero(r.slots);
    var o := FirstOffset(r.slots, r.first, 0);
    if o == BUFFER_SIZE {
      forall j | 0 <= j < BUFFER_SIZE ensures r.slots[j].None? {
        assert r.slots[Slot(r.first, SlotAhead(r.first, j))].None?;
      }
    }
  }

  /** On every run, with no assumption on the input, the count field is the number of filled slots. */
  lemma CountIsFilledSlots(r: Ring, pkt: RtpPacket)
    requires WellCounted(r)
    ensures WellCounted(Enqueue(r, pkt)) && WellCounted(EnqueueInitial(r, pkt)) && WellCounted(TakeNext(r).0)
  {
    FilledUpdate(r.slots, Slot(pkt.seqNo), Some(pkt));
    TakeFindsPacket(r);
    FilledUpdate(r.slots, Slot(r.first, FirstOffset(r.slots, r.first, 0)), None);
  }

  // ---------------------------------------------------------------- what the slots mean

  /** The unwrapped number held by slot `i` when the window starts at `base`. */
  ghost function KeyOfSlot(base: nat, i: nat): (u: nat)
    requires i < BUFFER_SIZE
    ensures base <= u < base + BUFFER_SIZE && Slot(u) == i
  {
    base + SlotAhead(base, i)
  }

  lemma OneKeyPerSlot(base: nat, u: nat)
    requires base <= u < base + BUFFER_SIZE
    ensures KeyOfSlot(base, Slot(u)) == u
  {}

  lemma SlotOfWrapped(u: int, ahead: int)
    ensures Slot(Wrap(u), ahead) == Slot(u, ahead) == Slot(u + ahead)
  {
    assert Wrap(u) == u - 65536 * (u / 65536);
  }

  /** The unwrapped number of a sequence number that lies ahead of `base`. */
  ghost function Unwrap(base: nat, s: Seq16): (u: nat)
    ensures u >= base && Wrap(u) == s && Slot(u) == Slot(s)
  {
    SlotOfWrapped(base + Ahead(base, s), 0);
    base + Ahead(base, s)
  }

  /** The ring stands for the map `m` from unwrapped numbers in [base, base + 1024) to packets. */
  ghost predicate Views(r: Ring, base: nat, m: map<nat, RtpPacket>) {
    && |r.slots| == BUFFER_SIZE
    && Wrap(base) == r.first
    && r.count == |m|
    && (forall u {:trigger u in m} {:trigger m[u]} :: u in m ==>
          base <= u < base + BUFFER_SIZE && m[u].seqNo == Wrap(u) && r.slots[Slot(u)] == Some(m[u]))
    && (forall i {:trigger KeyOfSlot(base, i)} :: 0 <= i < BUFFER_SIZE && r.slots[i].Some? ==> KeyOfSlot(base, i) in m)
  }

  /** Accepted packets must lie less than one ring length ahead of the next expected number. */
  predicate Fits(base: nat, s: Seq16) {
    Ahead(base, s) < BUFFER_SIZE || Ahead(base, s) > SEQ_HALF_RANGE
  }

  lemma OldMeansFarAhead(base: nat, s: Seq16)
    ensures Ahead(base, s) == Ahead(Wrap(base), s)
    ensures IsOldPacket(Wrap(base), s) <==> Ahead(base, s) > SEQ_HALF_RANGE
  {}

  lemma HoldsIffKeyed(r: Ring, base: nat, m: map<nat, RtpPacket>, u: nat)
    requires Views(r, base, m) && base <= u < base + BUFFER_SIZE
    ensures HasPacket(r.slots, Wrap(u)) <==> u in m
    ensures u !in m ==> r.slots[Slot(u)].None?
  {
    OneKeyPerSlot(base, u);
    SlotOfWrapped(u, 0);
  }

  lemma StoreViews(r: Ring, base: nat, m: map<nat, RtpPacket>, pkt: RtpPacket, u: nat)
    requires Views(r, base, m) && u !in m
    requires base <= u < base + BUFFER_SIZE && Wrap(u) == pkt.seqNo
    ensures Views(Store(r, pkt), base, m[u := pkt])
  {
    hide Slot, Wrap;
    HoldsIffKeyed(r, base, m, u);
    SlotOfWrapped(u, 0);
    OneKeyPerSlot(base, u);
    var m' := m[u := pkt];
    assert m'.Keys == m.Keys + {u};
    forall v | v in m ensures Slot(v) != Slot(u) { OneKeyPerSlot(base, v); }
  }

  // ---------------------------------------------------------------- the sorted map it refines

  /** The reference: packets accepted so far by unwrapped number, first arrival kept, and what was delivered. */
  datatype Sorter = Sorter(
    base: nat, accepted: map<nat, RtpPacket>, keys: seq<nat>, out: seq<Delivery>)

  ghost function Pending(s: Sorter): map<nat, RtpPacket> {
    map u | u in s.accepted && u >= s.base :: s.accepted[u]
  }

  ghost function SorterArrive(s: Sorter, pkt: RtpPacket): Sorter {
    var u := Unwrap(s.base, pkt.seqNo);
    if Ahead(s.base, pkt.seqNo) > SEQ_HALF_RANGE || u in s.accepted then s
    else s.(accepted := s.accepted[u := pkt])
  }

  ghost function SorterTake(s: Sorter): Sorter {
    var m := Pending(s);
    if m == map[] then s
    else
      assert m.Keys != {};
      var u := MinKey(m.Keys);
      Sorter(u + 1, s.accepted, s.keys + [u], s.out + [Delivery(m[u], u > s.base)])
  }

  lemma ArriveRefines(r: Ring, s: Sorter, pkt: RtpPacket)
    requires Views(r, s.base, Pending(s)) && Fits(s.base, pkt.seqNo)
    ensures Views(Enqueue(r, pkt), s.base, Pending(SorterArrive(s, pkt)))
  {
    hide Slot, Wrap, Store, SeqBefore;
    OldMeansFarAhead(s.base, pkt.seqNo);
    var u := Unwrap(s.base, pkt.seqNo);
    if !IsOldPacket(r.first, pkt.seqNo) {
      HoldsIffKeyed(r, s.base, Pending(s), u);
      if u !in s.accepted {
        StoreViews(r, s.base, Pending(s), pkt, u);
        assert Pending(SorterArrive(s, pkt)) == Pending(s)[u := pkt];
      }
    }
  }

  /** The slot scan finds the least unwrapped number. */
  lemma FirstFilledIsLeast(r: Ring, base: nat, m: map<nat, RtpPacket>)
    requires Views(r, base, m)
    ensures var o := FirstOffset(r.slots, r.first, 0);
            if m == map[] then o == BUFFER_SIZE
            else o < BUFFER_SIZE && base + o in m && MinKey(m.Keys) == base + o && Slot(r.first, o) == Slot(base + o)
  {
    hide Slot, Wrap, FirstOffset, MinKey, KeyOfSlot;
    var o := FirstOffset(r.slots, r.first, 0);
    SlotOfWrapped(base, o);
    forall u | u in m ensures u >= base + o {
      SlotOfWrapped(base, u - base);
      assert r.slots[Slot(r.first, u - base)].Some?;
    }
    if o < BUFFER_SIZE {
      OneKeyPerSlot(base, base + o);
    } else if u :| u in m {
      assert false;
    }
  }

  lemma OtherKeysSurvive(r: Ring, base: nat, m: map<nat, RtpPacket>, u: nat, i: nat)
    requires Views(r, base, m) && u in m && forall v :: v in m ==> u <= v
    requires i < BUFFER_SIZE && i != Slot(u) && r.slots[i].Some?
    ensures KeyOfSlot(u + 1, i) in m && KeyOfSlot(u + 1, i) != u
  {
    var v := KeyOfSlot(base, i);
    assert u < v < u + 1 + BUFFER_SIZE;
    OneKeyPerSlot(u + 1, v);
  }

  lemma RemoveViews(r: Ring, base: nat, m: map<nat, RtpPacket>, u: nat)
    requires Views(r, base, m) && u in m && forall v :: v in m ==> u <= v
    ensures Views(Ring(r.slots[Slot(u) := None], r.count - 1, Wrap(u + 1)), u + 1, m - {u})
  {
    var m' := m - {u};
    assert m'.Keys == m.Keys - {u};
    var slots := r.slots[Slot(u) := None];
    forall v | v in m'
      ensures u + 1 <= v < u + 1 + BUFFER_SIZE && slots[Slot(v)] == Some(m'[v])
    {
      assert v in m;
      OneKeyPerSlot(base, u);
      OneKeyPerSlot(base, v);
    }
    forall i {:trigger KeyOfSlot(u + 1, i)} | 0 <= i < BUFFER_SIZE && slots[i].Some?
      ensures KeyOfSlot(u + 1, i) in m'
    {
      OtherKeysSurvive(r, base, m, u, i);
    }
  }

  lemma SuccessorOfWrapped(u: int)
    ensures Wrap(Wrap(u) + 1) == Wrap(u + 1)
  {}

  lemma TakeNextRemovesLeast(r: Ring, base: nat, m: map<nat, RtpPacket>)
    requires Views(r, base, m)
    ensures TakeNext(r) ==
            if m == map[] then (r, None)
            else
              assert m.Keys != {};
              var u := MinKey(m.Keys);
              (Ring(r.slots[Slot(u) := None], |m| - 1, Wrap(u + 1)), Some(Delivery(m[u], u > base)))
  {
    hide Slot, FirstOffset, MinKey, KeyOfSlot, Wrap;
    FirstFilledIsLeast(r, base, m);
    if m != map[] {
      var u := MinKey(m.Keys);
      assert r.slots[Slot(u)] == Some(m[u]) && m[u].seqNo == Wrap(u);
      SuccessorOfWrapped(u);
    }
  }

  lemma PendingAfterTake(s: Sorter)
    requires Pending(s) != map[]
    ensures Pending(SorterTake(s)) == Pending(s) - {MinKey(Pending(s).Keys)}
  {}

  lemma TakeRefines(r: Ring, s: Sorter)
    requires Views(r, s.base, Pending(s))
    ensures var (r', d) := TakeNext(r);
            var s' := SorterTake(s);
            Views(r', s'.base, Pending(s')) && s'.out == s.out + if d.None? then [] else [d.value]
  {
    hide Slot, Wrap, TakeNext, MinKey, Pending;
    var m := Pending(s);
    TakeNextRemovesLeast(r, s.base, m);
    if m != map[] {
      RemoveViews(r, s.base, m, MinKey(m.Keys));
      PendingAfterTake(s);
    }
  }

  // ---------------------------------------------------------------- whole runs

  datatype Op = Arrive(pkt: RtpPacket) | Take

  datatype RingRun = RingRun(ring: Ring, out: seq<Delivery>)

  ghost function RunRing(r: Ring, ops: seq<Op>): (run: RingRun)
    requires |r.slots| == BUFFER_SIZE
    ensures |run.ring.slots| == BUFFER_SIZE
  {
    if ops == [] then RingRun(r, [])
    else
      var run := RunRing(r, ops[..|ops| - 1]);
      match ops[|ops| - 1]
      case Arrive(pkt) => RingRun(Enqueue(run.ring, pkt), run.out)
      case Take =>
        var (r', d) := TakeNext(run.ring);
        RingRun(r', run.out + if d.None? then [] else [d.value])
  }

  ghost function RunSorter(s: Sorter, ops: seq<Op>): Sorter {
    if ops == [] then s
    else
      var s' := RunSorter(s, ops[..|ops| - 1]);
      match ops[|ops| - 1]
      case Arrive(pkt) => SorterArrive(s', pkt)
      case Take => SorterTake(s')
  }

  /** Every arrival of the run lies in the window open at that moment. */
  ghost predicate AllFit(s: Sorter, ops: seq<Op>) {
    ops != [] ==>
      var front := ops[..|ops| - 1];
      AllFit(s, front) &&
      (ops[|ops| - 1].Arrive? ==> Fits(RunSorter(s, front).base, ops[|ops| - 1].pkt.seqNo))
  }

  /** The ring is a sorted map: on every run whose arrivals fit the window it delivers exactly what the
      reference delivers, with the same loss flags, and holds exactly what the reference still holds. */
  lemma {:induction false} RingSorts(r: Ring, s: Sorter, ops: seq<Op>)
    requires Views(r, s.base, Pending(s)) && s.out == [] && AllFit(s, ops)
    ensures var run := RunRing(r, ops);
            var s' := RunSorter(s, ops);
            run.out == s'.out && Views(run.ring, s'.base, Pending(s'))
  {
    if ops != [] {
      var front := ops[..|ops| - 1];
      RingSorts(r, s, front);
      match ops[|ops| - 1]
      case Arrive(pkt) => ArriveRefines(RunRing(r, front).ring, RunSorter(s, front), pkt);
      case Take => TakeRefines(RunRing(r, front).ring, RunSorter(s, front));
    }
  }

  /** What a run of the reference that began at `start` has delivered: exactly the accepted packets below
      `base`, once each, in ascending order, flagged lost exactly where a number was skipped. */
  ghost predicate Sorted(s: Sorter, start: nat) {
    && start <= s.base
    && |s.out| == |s.keys|
    && Ascending(s.keys)
    && (forall u :: u in s.accepted ==>
          start <= u < s.base + BUFFER_SIZE && s.accepted[u].seqNo == Wrap(u) && (u < s.base <==> u in s.keys))
    && (forall i :: 0 <= i < |s.keys| ==> s.keys[i] in s.accepted && start <= s.keys[i] < s.base)
    && (forall i :: 0 <= i < |s.keys| ==> DeliveredAt(s, start, i))
    && s.base == ExpectedKey(s.keys, start, |s.keys|)
  }

  /** The i-th delivery: its packet, its loss flag, and a gap of less than one ring length. */
  ghost predicate DeliveredAt(s: Sorter, start: nat, i: nat)
    requires i < |s.keys|
  {
    var k, expected := s.keys[i], ExpectedKey(s.keys, start, i);
    && k in s.accepted && i < |s.out|
    && s.out[i] == Delivery(s.accepted[k], k > expected)
    && k < expected + BUFFER_SIZE
  }

  /** The number that would follow the first `i` deliveries without a gap. */
  ghost function ExpectedKey(keys: seq<nat>, start: nat, i: nat): nat
    requires i <= |keys|
  {
    if i == 0 then start else keys[i - 1] + 1
  }

  lemma ArriveStaysSorted(s: Sorter, start: nat, pkt: RtpPacket)
    requires Sorted(s, start) && Fits(s.base, pkt.seqNo)
    ensures Sorted(SorterArrive(s, pkt), start)
  {
    hide Slot, Wrap;
    forall i | 0 <= i < |s.keys| ensures DeliveredAt(SorterArrive(s, pkt), start, i) {
      assert DeliveredAt(s, start, i);
    }
  }

  lemma TakenKeys(s: Sorter, start: nat, v: nat)
    requires Sorted(s, start) && v in s.accepted
    ensures v < SorterTake(s).base <==> v in SorterTake(s).keys
  {
    hide Slot, Wrap, MinKey;
    if Pending(s) != map[] {
      assert v in SorterTake(s).keys <==> v in s.keys || v == MinKey(Pending(s).Keys);
      if s.base <= v { assert v in Pending(s); }
    }
  }

  lemma TakeStaysSorted(s: Sorter, start: nat)
    requires Sorted(s, start)
    ensures Sorted(SorterTake(s), start)
  {
    hide Slot, Wrap, MinKey, DeliveredAt;
    var m := Pending(s);
    if m != map[] {
      var u := MinKey(m.Keys);
      var s' := SorterTake(s);
      assert u in s.accepted;
      forall v | v in s.accepted ensures v < s'.base <==> v in s'.keys { TakenKeys(s, start, v); }
      forall i | 0 <= i < |s'.keys| ensures DeliveredAt(s', start, i) { TakenAt(s, start, i); }
    }
  }

  lemma TakenAt(s: Sorter, start: nat, i: nat)
    requires Sorted(s, start) && Pending(s) != map[] && i <= |s.keys|
    ensures DeliveredAt(SorterTake(s), start, i)
  {
    hide Slot, Wrap, MinKey;
    assert MinKey(Pending(s).Keys) in s.accepted;
    if i < |s.keys| { assert DeliveredAt(s, start, i); }
  }

  lemma {:induction false} RunsStaySorted(s: Sorter, start: nat, ops: seq<Op>)
    requires Sorted(s, start) && AllFit(s, ops)
    ensures Sorted(RunSorter(s, ops), start)
  {
    if ops != [] {
      var front := ops[..|ops| - 1];
      RunsStaySorted(s, start, front);
      match ops[|ops| - 1]
      case Arrive(pkt) => ArriveStaysSorted(RunSorter(s, front), start, pkt);
      case Take => TakeStaysSorted(RunSorter(s, front), start);
    }
  }

  lemma WrapKeepsOrder(k: nat, k': nat)
    requires k < k' <= k + BUFFER_SIZE
    ensures SeqBefore(Wrap(k), Wrap(k')) && (Wrap(k') == Wrap(Wrap(k) + 1) <==> k' == k + 1)
  {
    assert Wrap(k) == k - 65536 * (k / 65536) && Wrap(k') == k' - 65536 * (k' / 65536);
  }

  /** Consecutive deliveries are in serial order across the 16-bit wrap, and a delivery is flagged exactly
      when its predecessor is not the previous sequence number. */
  lemma DeliveriesInSerialOrder(s: Sorter, start: nat, i: nat)
    requires Sorted(s, start) && i + 1 < |s.out|
    ensures SeqBefore(s.out[i].pkt.seqNo, s.out[i + 1].pkt.seqNo)
    ensures s.out[i + 1].lostBefore <==> s.out[i + 1].pkt.seqNo != Wrap(s.out[i].pkt.seqNo + 1)
  {
    var j := i + 1;
    assert DeliveredAt(s, start, i) && DeliveredAt(s, start, j);
    WrapKeepsOrder(s.keys[i], s.keys[j]);
  }

  /** Once nothing is pending, the deliveries depend only on which packets were accepted, not on the order
      of arrival or on when deliveries happened. */
  lemma ArrivalOrderDoesNotMatter(s: Sorter, t: Sorter, start: nat)
    requires Sorted(s, start) && Sorted(t, start) && s.accepted == t.accepted
    requires Pending(s) == map[] && Pending(t) == map[]
    ensures s.out == t.out
  {
    forall u | u in s.accepted ensures u in s.keys && u in t.keys {
      assert u !in Pending(s) && u !in Pending(t);
    }
    EnumerationUnique(s.keys, t.keys, s.accepted.Keys);
    forall i | 0 <= i < |s.out| ensures s.out[i] == t.out[i] {
      assert DeliveredAt(s, start, i) && DeliveredAt(t, start, i);
    }
  }

  // ---------------------------------------------------------------- the initial batch

  /** A ring without packets, expecting number `first`. */
  function EmptyRing(first: Seq16): (r: Ring)
    ensures |r.slots| == BUFFER_SIZE
  {
    Ring(seq(BUFFER_SIZE, _ => None), 0, first)
  }

  lemma {:induction false} EmptyRingIsCounted(first: Seq16)
    ensures WellCounted(EmptyRing(first))
  {
    FilledZero(EmptyRing(first).slots);
  }

  /** The ring after the packets received before the first delivery. */
  ghost function InitialRing(pkts: seq<RtpPacket>): (r: Ring)
    ensures |r.slots| == BUFFER_SIZE
  {
    if pkts == [] then EmptyRing(65535)
    else EnqueueInitial(InitialRing(pkts[..|pkts| - 1]), pkts[|pkts| - 1])
  }

  /** The same packets by unwrapped number, counted from `w`; the first arrival of a number is kept. */
  ghost function InitialMap(w: nat, pkts: seq<RtpPacket>): map<nat, RtpPacket> {
    if pkts == [] then map[]
    else
      var m := InitialMap(w, pkts[..|pkts| - 1]);
      var pkt := pkts[|pkts| - 1];
      var u := Unwrap(w, pkt.seqNo);
      if u in m then m else m[u := pkt]
  }

  lemma {:induction false} InitialMapInWindow(w: nat, pkts: seq<RtpPacket>)
    requires forall p :: p in pkts ==> Ahead(w, p.seqNo) < BUFFER_SIZE
    ensures forall u :: u in InitialMap(w, pkts) ==> w <= u < w + BUFFER_SIZE
    ensures pkts != [] ==> InitialMap(w, pkts).Keys != {}
  {
    if pkts != [] {
      InitialMapInWindow(w, pkts[..|pkts| - 1]);
    }
  }

  /** A lower starting number within the same window only renames the view. */
  lemma LowerBase(r: Ring, base: nat, m: map<nat, RtpPacket>, base': nat)
    requires Views(r, base, m) && base' <= base
    requires forall u :: u in m ==> u < base' + BUFFER_SIZE
    ensures Views(r.(first := Wrap(base')), base', m)
  {
    hide Slot, Wrap;
    forall i {:trigger KeyOfSlot(base', i)} | 0 <= i < BUFFER_SIZE && r.slots[i].Some?
      ensures KeyOfSlot(base', i) in m
    {
      OneKeyPerSlot(base', KeyOfSlot(base, i));
    }
  }

  lemma SeqBeforeUnwraps(u: nat, base: nat)
    requires u < base + BUFFER_SIZE && base < u + BUFFER_SIZE
    ensures SeqBefore(Wrap(u), Wrap(base)) <==> u < base
  {
    assert Wrap(u) == u - 65536 * (u / 65536) && Wrap(base) == base - 65536 * (base / 65536);
  }

  lemma InitialStep(r: Ring, base: nat, m: map<nat, RtpPacket>, pkt: RtpPacket, u: nat)
    requires Views(r, base, m) && Wrap(u) == pkt.seqNo && m != map[]
    requires u < base + BUFFER_SIZE && forall v :: v in m ==> v < u + BUFFER_SIZE
    requires base in m
    ensures var base' := if u < base then u else base;
            Views(EnqueueInitial(r, pkt), base', if u in m then m else m[u := pkt])
  {
    hide Slot, Wrap, SeqBefore;
    SeqBeforeUnwraps(u, base);
    var base' := if u < base then u else base;
    LowerBase(r, base, m, base');
    HoldsIffKeyed(r.(first := Wrap(base')), base', m, u);
    assert m.Keys != {};
    if u !in m {
      StoreViews(r.(first := Wrap(base')), base', m, pkt, u);
    }
  }

  /** When the initial batch lies in one window of 1024 numbers, whatever its order, the ring starts as a
      view of the batch, positioned at its least number in serial order. */
  lemma {:induction false} InitialBatchViews(w: nat, pkts: seq<RtpPacket>)
    requires pkts != [] && forall p :: p in pkts ==> Ahead(w, p.seqNo) < BUFFER_SIZE
    ensures var m := InitialMap(w, pkts);
            m.Keys != {} && Views(InitialRing(pkts), MinKey(m.Keys), m)
  {
    hide Slot, Wrap, MinKey, SeqBefore, Views, EnqueueInitial;
    InitialMapInWindow(w, pkts);
    var front, pkt := pkts[..|pkts| - 1], pkts[|pkts| - 1];
    var u := Unwrap(w, pkt.seqNo);
    if front == [] {
      FirstPacketViews(pkt, u);
      assert InitialMap(w, pkts) == map[u := pkt];
    } else {
      InitialMapInWindow(w, front);
      InitialBatchViews(w, front);
      var m := InitialMap(w, front);
      InitialStep(InitialRing(front), MinKey(m.Keys), m, pkt, u);
      MinKeyOfMore(m.Keys, u);
      assert m[u := pkt].Keys == m.Keys + {u};
      assert u in m ==> m.Keys + {u} == m.Keys;
    }
  }

  lemma FirstPacketViews(pkt: RtpPacket, u: nat)
    requires Wrap(u) == pkt.seqNo
    ensures Views(EnqueueInitial(EmptyRing(65535), pkt), u, map[u := pkt])
  {
    var r := EmptyRing(pkt.seqNo);
    assert Views(r, u, map[]);
    StoreViews(r, u, map[], pkt, u);
    assert map[][u := pkt] == map[u := pkt];
  }

  // ---------------------------------------------------------------- the window is exactly what ordering needs

  /** An accepted arrival leaves the ring a sorted map if and only if it lies less than 1024 ahead. */
  lemma WindowIsExact(r: Ring, base: nat, m: map<nat, RtpPacket>, pkt: RtpPacket)
    requires Views(r, base, m)
    ensures (exists m' :: Views(Enqueue(r, pkt), base, m')) <==> Fits(base, pkt.seqNo)
  {
    var s := Sorter(base, m, [], []);
    assert Pending(s) == m;
    if Fits(base, pkt.seqNo) {
      ArriveRefines(r, s, pkt);
    } else if m' :| Views(Enqueue(r, pkt), base, m') {
      FarPacketBreaksView(r, base, m, pkt, m');
      assert false;
    }
  }

  lemma AheadInWindow(base: nat, u: nat)
    requires base <= u < base + BUFFER_SIZE
    ensures Ahead(base, Wrap(u)) == u - base
  {}

  lemma FarPacketBreaksView(
    r: Ring, base: nat, m: map<nat, RtpPacket>, pkt: RtpPacket, m': map<nat, RtpPacket>)
    requires Views(r, base, m) && !Fits(base, pkt.seqNo)
    ensures !Views(Enqueue(r, pkt), base, m')
  {
    hide Slot, Wrap, IsOldPacket, Ahead;
    OldMeansFarAhead(base, pkt.seqNo);
    var i := Slot(pkt.seqNo);
    var u := KeyOfSlot(base, i);
    AheadInWindow(base, u);
    assert Wrap(u) != pkt.seqNo;
    assert Enqueue(r, pkt).slots[i] == Some(pkt);
  }

  // ---------------------------------------------------------------- the window is exactly what safety needs

  /** The arrival pushes another packet out of its slot. */
  predicate Overwrites(r: Ring, pkt: RtpPacket)
    requires |r.slots| == BUFFER_SIZE
  {
    r.slots[Slot(pkt.seqNo)].Some? && Enqueue(r, pkt).slots[Slot(pkt.seqNo)] != r.slots[Slot(pkt.seqNo)]
  }

  ghost predicate InSerialOrder(out: seq<Delivery>) {
    forall i :: 0 < i < |out| ==> SeqBefore(out[i - 1].pkt.seqNo, out[i].pkt.seqNo)
  }

  /** Every arrival of the run lies in the window of the ring at that moment. */
  ghost predicate FitsRing(r: Ring, ops: seq<Op>)
    requires |r.slots| == BUFFER_SIZE
  {
    ops != [] ==>
      var front := ops[..|ops| - 1];
      FitsRing(r, front) && (ops[|ops| - 1].Arrive? ==> Fits(RunRing(r, front).ring.first, ops[|ops| - 1].pkt.seqNo))
  }

  /** Nothing is overwritten during the run, and what it delivers is in serial order. */
  ghost predicate Orderly(r: Ring, ops: seq<Op>)
    requires |r.slots| == BUFFER_SIZE
  {
    InSerialOrder(RunRing(r, ops).out) &&
    (ops != [] ==>
       var front := ops[..|ops| - 1];
       Orderly(r, front) && (ops[|ops| - 1].Arrive? ==> !Overwrites(RunRing(r, front).ring, ops[|ops| - 1].pkt)))
  }

  lemma FittingDoesNotOverwrite(r: Ring, base: nat, m: map<nat, RtpPacket>, pkt: RtpPacket)
    requires Views(r, base, m) && Fits(r.first, pkt.seqNo)
    ensures Fits(base, pkt.seqNo) && !Overwrites(r, pkt)
  {
    hide Slot, Wrap;
    OldMeansFarAhead(base, pkt.seqNo);
    if !IsOldPacket(r.first, pkt.seqNo) {
      HoldsIffKeyed(r, base, m, Unwrap(base, pkt.seqNo));
    }
  }

  lemma SortedIsInSerialOrder(s: Sorter, start: nat)
    requires Sorted(s, start)
    ensures InSerialOrder(s.out)
  {
    hide Sorted;
    forall i | 0 < i < |s.out| ensures SeqBefore(s.out[i - 1].pkt.seqNo, s.out[i].pkt.seqNo) {
      DeliveriesInSerialOrder(s, start, i - 1);
    }
  }

  lemma ViewIsSorted(r: Ring, base: nat, m: map<nat, RtpPacket>)
    requires Views(r, base, m)
    ensures var s := Sorter(base, m, [], []); Sorted(s, base) && Pending(s) == m
  {
    hide Wrap, Slot;
  }

  lemma {:induction false} FittingRunsAreOrderly(r: Ring, base: nat, m: map<nat, RtpPacket>, ops: seq<Op>)
    requires Views(r, base, m) && FitsRing(r, ops)
    ensures AllFit(Sorter(base, m, [], []), ops) && Orderly(r, ops)
  {
    assert |r.slots| == BUFFER_SIZE;
    hide Views, Sorted, Pending, Fits, Overwrites, InSerialOrder;
    var s := Sorter(base, m, [], []);
    ViewIsSorted(r, base, m);
    if ops != [] {
      var front, op := ops[..|ops| - 1], ops[|ops| - 1];
      FittingRunsAreOrderly(r, base, m, front);
      RingSorts(r, s, front);
      if op.Arrive? {
        var t := RunSorter(s, front);
        FittingDoesNotOverwrite(RunRing(r, front).ring, t.base, Pending(t), op.pkt);
      }
    }
    RingSorts(r, s, ops);
    RunsStaySorted(s, base, ops);
    SortedIsInSerialOrder(RunSorter(s, ops), base);
  }

  /** Every continuation whose arrivals fit is orderly. */
  ghost predicate SafeFrom(r: Ring)
    requires |r.slots| == BUFFER_SIZE
  {
    forall ops {:trigger Orderly(r, ops)} :: FitsRing(r, ops) ==> Orderly(r, ops)
  }

  /** An arrival is safe, overwriting nothing itself and leaving every fitting continuation in serial order and
      without overwriting, if and only if it lies less than 1024 ahead (or is old). */
  lemma FittingIsExactlySafe(r: Ring, base: nat, m: map<nat, RtpPacket>, pkt: RtpPacket)
    requires Views(r, base, m)
    ensures !Overwrites(r, pkt) && SafeFrom(Enqueue(r, pkt)) <==> Fits(base, pkt.seqNo)
  {
    hide Slot, Wrap, Orderly, FitsRing, Fits, Overwrites, Views, Pending;
    FitsFromFirst(r, base, m, pkt);
    if Fits(base, pkt.seqNo) {
      ViewIsSorted(r, base, m);
      var s := Sorter(base, m, [], []);
      ArriveRefines(r, s, pkt);
      FittingDoesNotOverwrite(r, base, m, pkt);
      var r' := Enqueue(r, pkt);
      forall ops | FitsRing(r', ops) ensures Orderly(r', ops) {
        FittingRunsAreOrderly(r', base, Pending(SorterArrive(s, pkt)), ops);
      }
    } else if !Overwrites(r, pkt) {
      FarPacketGetsOverwritten(r, base, m, pkt);
    }
  }

  lemma FitsFromFirst(r: Ring, base: nat, m: map<nat, RtpPacket>, pkt: RtpPacket)
    requires Views(r, base, m)
    ensures |r.slots| == BUFFER_SIZE && (Fits(base, pkt.seqNo) <==> Fits(r.first, pkt.seqNo))
  {
    OldMeansFarAhead(base, pkt.seqNo);
  }

  /** The slot a far packet takes belongs to a number of the window, whose arrival pushes it out. */
  lemma FarPacketGetsOverwritten(r: Ring, base: nat, m: map<nat, RtpPacket>, pkt: RtpPacket)
    requires Views(r, base, m) && !Fits(base, pkt.seqNo)
    ensures !SafeFrom(Enqueue(r, pkt))
  {
    hide Slot, Wrap, IsOldPacket, Ahead;
    OldMeansFarAhead(base, pkt.seqNo);
    var i := Slot(pkt.seqNo);
    var u := KeyOfSlot(base, i);
    AheadInWindow(base, u);
    SlotOfWrapped(u, 0);
    var r' := Enqueue(r, pkt);
    var near := pkt.(seqNo := Wrap(u));
    OldMeansFarAhead(base, near.seqNo);
    assert r'.slots[i] == Some(pkt) && near.seqNo != pkt.seqNo;
    assert Overwrites(r', near);
    OneArrivalSpoils(r', near);
  }

  lemma OneArrivalSpoils(r: Ring, pkt: RtpPacket)
    requires |r.slots| == BUFFER_SIZE && Fits(r.first, pkt.seqNo) && Overwrites(r, pkt)
    ensures !SafeFrom(r)
  {
    hide Fits, Overwrites, RunRing, InSerialOrder;
    var ops := [Arrive(pkt)];
    assert ops[..0] == [];
    RunNothing(r);
    assert FitsRing(r, []);
    assert FitsRing(r, ops);
    assert !Orderly(r, ops);
  }

  lemma FirstOffsetIs(slots: seq<Option<RtpPacket>>, start: nat, o: nat)
    requires |slots| == BUFFER_SIZE && o < BUFFER_SIZE && slots[Slot(start, o)].Some?
    requires forall k :: 0 <= k < o ==> slots[Slot(start, k)].None?
    ensures FirstOffset(slots, start, 0) == o
  {
    hide Slot, FirstOffset;
    var p := FirstOffset(slots, start, 0);
  }

  lemma RunSnoc(r: Ring, ops: seq<Op>, op: Op)
    requires |r.slots| == BUFFER_SIZE
    ensures var run := RunRing(r, ops);
            RunRing(r, ops + [op]) ==
            match op
            case Arrive(pkt) => RingRun(Enqueue(run.ring, pkt), run.out)
            case Take =>
              RingRun(TakeNext(run.ring).0,
                      run.out + if TakeNext(run.ring).1.None? then [] else [TakeNext(run.ring).1.value])
  {
    assert (ops + [op])[..|ops|] == ops;
  }

  /** Outside the window order is lost: a packet 1024 ahead is delivered before one 5 ahead. */
  lemma WideWindowMisorders(far: RtpPacket, near: RtpPacket)
    requires far.seqNo == 1024 && near.seqNo == 5
    ensures RunRing(EmptyRing(0), [Arrive(far)] + [Arrive(near)] + [Take] + [Take]).out ==
            [Delivery(far, false), Delivery(near, true)]
    ensures SeqBefore(near.seqNo, far.seqNo)
  {
    hide Filled, FirstOffset, RunRing;
    var r := EmptyRing(0);
    RunSnoc(r, [], Arrive(far));
    RunSnoc(r, [Arrive(far)], Arrive(near));
    RunSnoc(r, [Arrive(far)] + [Arrive(near)], Take);
    RunSnoc(r, [Arrive(far)] + [Arrive(near)] + [Take], Take);
    assert RunRing(r, []) == RingRun(r, []) by { RunNothing(r); }
    assert [] + [Arrive(far)] == [Arrive(far)];
    var two := Store(Store(r, far), near);
    FirstOffsetIs(two.slots, 0, 0);
    FirstOffsetIs(two.slots[0 := None], 1025, 4);
  }

  lemma RunNothing(r: Ring)
    requires |r.slots| == BUFFER_SIZE
    ensures RunRing(r, []) == RingRun(r, [])
  {}
}

/**
  What becomes of a flagged packet loss in raw video (`mark_packet_loss` and `finish_access_unit` of
  stream/src/media/rtp.rs): when it closes the keyframe gate, when it leaves no trace, and what is then handed on.
*/
module PacketLosses {
  import opened Wrappers
  import opened Bytes
  import opened AccessUnits

  /** The assembler after the first `n` inputs. */
  function At(kind: PayloadKind, inputs: seq<Input>, n: nat): Assembler
    requires n <= |inputs|
  {
    Run(kind, NewAssembler(kind), inputs[..n])
  }

  lemma AtNext(kind: PayloadKind, inputs: seq<Input>, n: nat)
    requires n < |inputs|
    ensures At(kind, inputs, n + 1) == Step(kind, At(kind, inputs, n), inputs[n])
  {
    assert inputs[..n + 1] == inputs[..n] + [inputs[n]];
    RunSnoc(kind, NewAssembler(kind), inputs[..n], inputs[n]);
  }

  // ---------------------------------------------------------------- the condition, on the inputs alone

  /** The unit of timestamp `t` ends here. */
  predicate Closes(input: Input, t: nat) {
    EndsUnit(input) || (input.item.data.Some? && input.item.timestamp != t)
  }

  predicate Carries(input: Input, t: nat) {
    HasData(input) && input.item.timestamp == t && input.item.data.value != []
  }

  /** From input `i` on, data of timestamp `t` has come before input `k`, and no loss after it. */
  ghost predicate Holds(inputs: seq<Input>, i: nat, k: nat, t: nat)
    requires i <= k <= |inputs|
  {
    exists d :: i <= d < k && Carries(inputs[d], t) && NoLoss(inputs, d + 1, k)
  }

  ghost predicate NoLoss(inputs: seq<Input>, from: nat, to: nat)
    requires from <= to <= |inputs|
  {
    forall m :: from <= m < to ==> !IsLost(inputs[m])
  }

  /** If input `m` is flagged again, it belongs to the same timestamp and new data had come before it. */
  ghost predicate LossFindsData(inputs: seq<Input>, i: nat, m: nat, t: nat)
    requires i <= m < |inputs|
  {
    m > i && IsLost(inputs[m]) ==> inputs[m].item.timestamp == t && Holds(inputs, i, m, t)
  }

  /** Input `m` leaves the damage of the loss at `i` undecided. */
  ghost predicate Undecided(inputs: seq<Input>, i: nat, m: nat, t: nat)
    requires i <= m < |inputs|
  {
    !Closes(inputs[m], t) && LossFindsData(inputs, i, m, t)
  }

  /** At input `k` the damage is noticed: the unit ends there with new data in it, or a further loss finds nothing
      but an unfinished fragment. */
  ghost predicate NoticedAt(inputs: seq<Input>, i: nat, k: nat, t: nat)
    requires i <= k < |inputs|
  {
    || (Closes(inputs[k], t) && LossFindsData(inputs, i, k, t) && Holds(inputs, i, k + 1, t))
    || (k > i && IsLost(inputs[k]) && !Holds(inputs, i, k, t) && inputs[k].item.hadFragment)
  }

  ghost predicate NoticedLater(inputs: seq<Input>, i: nat, t: nat) {
    exists k :: i <= k < |inputs| && NoticedAt(inputs, i, k, t) && AllUndecided(inputs, i, k, t)
  }

  ghost predicate AllUndecided(inputs: seq<Input>, i: nat, k: nat, t: nat)
    requires i <= k <= |inputs|
  {
    forall m :: i <= m < k ==> Undecided(inputs, i, m, t)
  }

  // ---------------------------------------------------------------- what the assembler does about it

  /** The assembler is inside a unit of timestamp `t` and holds data of it. */
  predicate HoldsUnit(a: Assembler, t: nat) {
    a.buffer != [] && a.timestamp == Some(t)
  }

  /** One step logs an event that closes the gate. */
  ghost predicate ArmsBetween(a: Assembler, b: Assembler) {
    exists j :: |a.log| <= j < |b.log| && Arms(b.log[j])
  }

  /** The loss at input `i` closes the gate, at once or as long as the damage is remembered without a break. */
  ghost predicate ClosesTheGate(kind: PayloadKind, inputs: seq<Input>, i: nat) {
    exists k :: i <= k < |inputs| && ArmsBetween(At(kind, inputs, k), At(kind, inputs, k + 1))
                && DamagedUntil(kind, inputs, i, k)
  }

  ghost predicate DamagedUntil(kind: PayloadKind, inputs: seq<Input>, i: nat, k: nat)
    requires k <= |inputs|
  {
    forall m :: i < m <= k ==> At(kind, inputs, m).damaged
  }

  // ---------------------------------------------------------------- single steps

  lemma FinishDamaged(kind: PayloadKind, a: Assembler)
    requires IsRawVideo(kind) && a.damaged
    ensures !Finish(kind, a).damaged && a.log <= Finish(kind, a).log
    ensures ArmsBetween(a, Finish(kind, a)) <==> a.buffer != []
  {
    if a.buffer != [] {
      assert Finish(kind, a).log[|a.log|].DroppedDamaged?;
    }
  }

  lemma FinishUndamaged(kind: PayloadKind, a: Assembler)
    requires !a.damaged
    ensures !Finish(kind, a).damaged && a.log <= Finish(kind, a).log && !ArmsBetween(a, Finish(kind, a))
  {
    hide HasKeyframe;
  }

  lemma ArmsEither(a: Assembler, b: Assembler, c: Assembler)
    requires a.log <= b.log <= c.log
    ensures ArmsBetween(a, c) <==> ArmsBetween(a, b) || ArmsBetween(b, c)
  {
    assert forall j :: 0 <= j < |b.log| ==> c.log[j] == b.log[j];
  }

  /** Data of another timestamp arrives while a unit is known to be damaged. */
  lemma NewUnitAfterDamage(kind: PayloadKind, a: Assembler, input: Input, t: nat)
    requires IsRawVideo(kind) && a.damaged && a.timestamp == Some(t) && !IsLost(input)
    requires HasData(input) && input.item.timestamp != t
    ensures !Step(kind, a, input).damaged
    ensures ArmsBetween(a, Step(kind, a, input)) <==> a.buffer != []
  {
    hide Finish, ArmsBetween;
    var f := Finish(kind, a);
    FinishDamaged(kind, a);
    FinishClears(kind, a);
    var c := f.(timestamp := Some(input.item.timestamp), buffer := f.buffer + input.item.data.value);
    NothingLogged(f, c);
    ArmsEither(a, f, c);
    FinishUndamaged(kind, c);
    ArmsEither(a, c, Finish(kind, c));
  }

  lemma NothingLogged(a: Assembler, b: Assembler)
    requires a.log == b.log
    ensures !ArmsBetween(a, b)
  {}

  /** One step of a unit known to be damaged. */
  lemma DamagedStep(kind: PayloadKind, a: Assembler, input: Input, t: nat)
    requires IsRawVideo(kind) && a.damaged && a.timestamp == Some(t) && !IsLost(input)
    ensures var b := Step(kind, a, input);
            && (b.damaged <==> !Closes(input, t))
            && (b.damaged ==> b.timestamp == Some(t) && (b.buffer != [] <==> Carries(input, t) || a.buffer != []))
            && (ArmsBetween(a, b) <==> Closes(input, t) && (Carries(input, t) || a.buffer != []))
  {
    hide Finish, ArmsBetween;
    if HasData(input) && input.item.timestamp != t {
      NewUnitAfterDamage(kind, a, input, t);
    } else {
      var c := if HasData(input) then a.(buffer := a.buffer + input.item.data.value) else a;
      assert c.buffer != [] <==> Carries(input, t) || a.buffer != [];
      NothingLogged(a, c);
      ArmsEither(a, c, c);
      if EndsUnit(input) {
        FinishDamaged(kind, c);
        ArmsEither(a, c, Finish(kind, c));
        assert Step(kind, a, input) == Finish(kind, c);
      }
    }
  }

  /** A flagged packet finds data of its own timestamp: the unit is marked as damaged. */
  lemma FirstStep(kind: PayloadKind, a: Assembler, input: Input, t: nat)
    requires IsRawVideo(kind) && IsLost(input) && input.item.timestamp == t && HoldsUnit(a, t)
    ensures var b := Step(kind, a, input);
            && (b.damaged <==> !Closes(input, t))
            && (b.damaged ==> b.timestamp == Some(t) && (b.buffer != [] <==> Carries(input, t)))
            && (ArmsBetween(a, b) <==> Closes(input, t) && Carries(input, t))
  {
    hide HasKeyframe;
    var m := MarkLoss(kind, a, t, input.item.hadFragment);
    assert m == Assembler([], Some(t), true, a.waitKeyframe, a.log + [ClearedByLoss(a.buffer)]);
    DamagedStep(kind, m, Packet(input.item.(lost := false)), t);
    assert Step(kind, m, Packet(input.item.(lost := false))) == Step(kind, a, input);
  }

  /** Otherwise nothing is remembered; the gate closes only over an unfinished fragment. */
  lemma OtherFirstStep(kind: PayloadKind, a: Assembler, input: Input)
    requires IsRawVideo(kind) && IsLost(input) && (a.timestamp.None? ==> a.buffer == [])
    requires !HoldsUnit(a, input.item.timestamp)
    ensures !Step(kind, a, input).damaged
    ensures ArmsBetween(a, Step(kind, a, input)) <==> a.buffer == [] && input.item.hadFragment
  {
    hide HasKeyframe;
    var m := MarkLoss(kind, a, input.item.timestamp, input.item.hadFragment);
    var b := Step(kind, a, input);
    assert a.log + [] == a.log;
    if a.buffer == [] && input.item.hadFragment {
      assert m.log[|a.log|] == FragmentLost && m.log <= b.log;
      assert Arms(b.log[|a.log|]);
    }
  }

  /** The same when the packet is flagged. */
  lemma DamagedStepLost(kind: PayloadKind, a: Assembler, input: Input, t: nat)
    requires IsRawVideo(kind) && a.damaged && a.timestamp == Some(t) && IsLost(input)
    ensures var b, found := Step(kind, a, input), input.item.timestamp == t && a.buffer != [];
            && (b.damaged <==> !Closes(input, t) && found)
            && (b.damaged ==> b.timestamp == Some(t) && (b.buffer != [] <==> Carries(input, t)))
            && (ArmsBetween(a, b) <==>
                (Closes(input, t) && found && Carries(input, t)) || (a.buffer == [] && input.item.hadFragment))
  {
    hide Step, Closes, Carries;
    if HoldsUnit(a, input.item.timestamp) {
      FirstStep(kind, a, input, t);
    } else {
      OtherFirstStep(kind, a, input);
    }
  }

  // ---------------------------------------------------------------- over whole runs

  lemma HoldsNext(inputs: seq<Input>, i: nat, k: nat, t: nat)
    requires i <= k < |inputs|
    ensures Holds(inputs, i, k + 1, t) <==> Carries(inputs[k], t) || (Holds(inputs, i, k, t) && !IsLost(inputs[k]))
  {
    hide Carries, IsLost;
    if Carries(inputs[k], t) {
      assert NoLoss(inputs, k + 1, k + 1);
    } else if Holds(inputs, i, k, t) && !IsLost(inputs[k]) {
      var d :| i <= d < k && Carries(inputs[d], t) && NoLoss(inputs, d + 1, k);
      assert NoLoss(inputs, d + 1, k + 1);
    }
    if Holds(inputs, i, k + 1, t) && !Carries(inputs[k], t) {
      var d :| i <= d < k + 1 && Carries(inputs[d], t) && NoLoss(inputs, d + 1, k + 1);
      assert NoLoss(inputs, d + 1, k);
    }
  }

  lemma HoldsNothing(inputs: seq<Input>, i: nat, t: nat)
    requires i <= |inputs|
    ensures !Holds(inputs, i, i, t)
  {}

  /** The assembler at input `k`, as the inputs since the loss at `i` say. */
  ghost predicate IsPending(a: Assembler, inputs: seq<Input>, i: nat, k: nat, t: nat)
    requires i <= k <= |inputs|
  {
    a.damaged && a.timestamp == Some(t) && (a.buffer != [] <==> Holds(inputs, i, k, t))
  }

  /** The step at an input `k` before which the damage is pending. */
  lemma PendingStep(kind: PayloadKind, a: Assembler, inputs: seq<Input>, i: nat, k: nat, t: nat)
    requires IsRawVideo(kind) && i < k < |inputs| && IsPending(a, inputs, i, k, t)
    ensures var b := Step(kind, a, inputs[k]);
            && (b.damaged <==> Undecided(inputs, i, k, t))
            && (b.damaged ==> IsPending(b, inputs, i, k + 1, t))
            && (ArmsBetween(a, b) <==> NoticedAt(inputs, i, k, t))
  {
    hide Step, Closes, Carries, Holds, ArmsBetween;
    HoldsNext(inputs, i, k, t);
    if IsLost(inputs[k]) {
      DamagedStepLost(kind, a, inputs[k], t);
    } else {
      DamagedStep(kind, a, inputs[k], t);
    }
  }

  lemma {:induction false} PendingIff(kind: PayloadKind, inputs: seq<Input>, i: nat, k: nat, t: nat)
    requires IsRawVideo(kind) && i < k <= |inputs| && IsLost(inputs[i]) && inputs[i].item.timestamp == t
    requires HoldsUnit(At(kind, inputs, i), t)
    ensures DamagedUntil(kind, inputs, i, k) <==> AllUndecided(inputs, i, k, t)
    ensures AllUndecided(inputs, i, k, t) ==> IsPending(At(kind, inputs, k), inputs, i, k, t)
    decreases k
  {
    hide At, Step, Closes, Carries, Holds;
    var j := k - 1;
    AtNext(kind, inputs, j);
    if j == i {
      FirstStep(kind, At(kind, inputs, i), inputs[i], t);
      HoldsNext(inputs, i, i, t);
      HoldsNothing(inputs, i, t);
      assert AllUndecided(inputs, i, k, t) <==> Undecided(inputs, i, i, t);
    } else {
      PendingIff(kind, inputs, i, j, t);
      assert AllUndecided(inputs, i, k, t) <==> AllUndecided(inputs, i, j, t) && Undecided(inputs, i, j, t);
      assert DamagedUntil(kind, inputs, i, k) <==> DamagedUntil(kind, inputs, i, j) && At(kind, inputs, k).damaged;
      if AllUndecided(inputs, i, j, t) {
        PendingStep(kind, At(kind, inputs, j), inputs, i, j, t);
      }
    }
  }

  /** While the damage is pending, the gate is closed exactly where it is noticed. */
  lemma NoticedWhenPending(kind: PayloadKind, inputs: seq<Input>, i: nat, k: nat, t: nat)
    requires IsRawVideo(kind) && i <= k < |inputs| && IsLost(inputs[i]) && inputs[i].item.timestamp == t
    requires HoldsUnit(At(kind, inputs, i), t) && AllUndecided(inputs, i, k, t)
    ensures ArmsBetween(At(kind, inputs, k), At(kind, inputs, k + 1)) <==> NoticedAt(inputs, i, k, t)
  {
    hide At, Step, Closes, Carries, Holds, ArmsBetween;
    AtNext(kind, inputs, k);
    if k == i {
      FirstStep(kind, At(kind, inputs, i), inputs[i], t);
      HoldsNext(inputs, i, i, t);
      HoldsNothing(inputs, i, t);
    } else {
      PendingIff(kind, inputs, i, k, t);
      PendingStep(kind, At(kind, inputs, k), inputs, i, k, t);
    }
  }

  lemma ClosesTheGateIff(kind: PayloadKind, inputs: seq<Input>, i: nat, t: nat)
    requires IsRawVideo(kind) && i < |inputs| && IsLost(inputs[i]) && inputs[i].item.timestamp == t
    requires HoldsUnit(At(kind, inputs, i), t)
    ensures ClosesTheGate(kind, inputs, i) <==> NoticedLater(inputs, i, t)
  {
    hide At, ArmsBetween, NoticedAt, AllUndecided, DamagedUntil;
    forall k | i <= k < |inputs|
      ensures DamagedUntil(kind, inputs, i, k) <==> AllUndecided(inputs, i, k, t)
      ensures AllUndecided(inputs, i, k, t) ==>
                (ArmsBetween(At(kind, inputs, k), At(kind, inputs, k + 1)) <==> NoticedAt(inputs, i, k, t))
    {
      if k == i {
        NothingDecided(kind, inputs, i, t);
      } else {
        PendingIff(kind, inputs, i, k, t);
      }
      if AllUndecided(inputs, i, k, t) { NoticedWhenPending(kind, inputs, i, k, t); }
    }
    if ClosesTheGate(kind, inputs, i) {
      var k :| i <= k < |inputs| && ArmsBetween(At(kind, inputs, k), At(kind, inputs, k + 1))
               && DamagedUntil(kind, inputs, i, k);
      assert NoticedAt(inputs, i, k, t) && AllUndecided(inputs, i, k, t);
    }
    if NoticedLater(inputs, i, t) {
      var k :| i <= k < |inputs| && NoticedAt(inputs, i, k, t) && AllUndecided(inputs, i, k, t);
      assert ArmsBetween(At(kind, inputs, k), At(kind, inputs, k + 1)) && DamagedUntil(kind, inputs, i, k);
    }
  }

  lemma NothingDecided(kind: PayloadKind, inputs: seq<Input>, i: nat, t: nat)
    requires i <= |inputs|
    ensures DamagedUntil(kind, inputs, i, i) && AllUndecided(inputs, i, i, t)
  {}

  /** Over every run: a flagged loss closes the gate if and only if
      - the assembler holds nothing but an unfinished fragment, or
      - it holds data of the packet's own timestamp, and the damage is noticed: with new data the unit ends, every
        further loss before that being one of its own timestamp that found new data; or such a further loss finds
        nothing but an unfinished fragment.
      Any other loss leaves the gate as it is: when nothing is held (the head of a unit is missing), when the
      data held has another timestamp (a tail is missing), and when the damage is forgotten before new data. */
  lemma LossClosesTheGateIff(kind: PayloadKind, inputs: seq<Input>, i: nat)
    requires kind in {H264, H265} && i < |inputs| && IsLost(inputs[i])
    ensures var a, it := At(kind, inputs, i), inputs[i].item;
            ClosesTheGate(kind, inputs, i) <==>
            (a.buffer == [] && it.hadFragment) || (HoldsUnit(a, it.timestamp) && NoticedLater(inputs, i, it.timestamp))
  {
    hide Step, ArmsBetween, NoticedLater;
    var t := inputs[i].item.timestamp;
    if HoldsUnit(At(kind, inputs, i), t) {
      ClosesTheGateIff(kind, inputs, i, t);
    } else {
      var from, spans := UnitsAreRuns(kind, inputs, i);
      AtNext(kind, inputs, i);
      OtherFirstStep(kind, At(kind, inputs, i), inputs[i]);
      NothingDecided(kind, inputs, i, t);
      assert !At(kind, inputs, i + 1).damaged;
    }
  }

  // ---------------------------------------------------------------- what is handed on after a loss

  /** The packets of a unit from a flagged one on: all that follow are there, the last has the marker. */
  ghost predicate RestOfUnit(items: seq<Item>, t: nat) {
    items != [] && items[0].lost && IntactUnit([items[0].(lost := false)] + items[1..], t)
  }

  /** What the loss itself does to the data held, and to the gate. */
  function LossEvents(kind: PayloadKind, a: Assembler, t: nat, hadFragment: bool): seq<Event> {
    if a.buffer == [] then (if hadFragment && kind in {H264, H265} then [FragmentLost] else [])
    else if a.timestamp == Some(t) then [ClearedByLoss(a.buffer)]
    else [DroppedIncomplete(a.buffer)]
  }

  /** Exactly when the rest of a unit is handed on as if it were whole, for every payload kind that is grouped:
      after a flagged packet, everything that follows up to the marker is dropped as damaged if and only if data
      of that timestamp was held at the loss; otherwise it passes as a unit, for raw video subject to the gate. */
  lemma RestOfUnitIff(kind: PayloadKind, a: Assembler, items: seq<Item>, t: nat)
    requires kind !in {Aac, G711} && RestOfUnit(items, t) && (a.timestamp.None? ==> a.buffer == [])
    ensures var data, b := Data(Packets(items)), Run(kind, a, Packets(items));
            var loss := LossEvents(kind, a, t, items[0].hadFragment);
            && AtBoundary(b)
            && b.log == a.log + loss + (
                 if data == [] then []
                 else if HoldsUnit(a, t) then [DroppedDamaged(data)]
                 else if kind in {H264, H265} && (a.waitKeyframe || FragmentLost in loss) && !HasKeyframe(kind, data)
                     then [DroppedWaiting(data)]
                 else [Emitted(data)])
  {
    hide HasKeyframe;
    var m := MarkLoss(kind, a, t, items[0].hadFragment);
    var whole := [items[0].(lost := false)] + items[1..];
    assert m.log == a.log + LossEvents(kind, a, t, items[0].hadFragment);
    UnitIsFinished(kind, m, whole, t);
    FlagOnlyMarks(kind, a, items, t, |items|);
    assert Packets(items)[..|items|] == Packets(items) && Packets(whole)[..|items|] == Packets(whole);
  }

  lemma {:induction false} FlagOnlyMarks(kind: PayloadKind, a: Assembler, items: seq<Item>, t: nat, n: nat)
    requires GroupsPackets(kind) && RestOfUnit(items, t) && 0 < n <= |items|
    ensures var whole := [items[0].(lost := false)] + items[1..];
            && Run(kind, a, Packets(items)[..n]) ==
               Run(kind, MarkLoss(kind, a, t, items[0].hadFragment), Packets(whole)[..n])
            && Data(Packets(items)[..n]) == Data(Packets(whole)[..n])
  {
    hide HasKeyframe, Finish, Append, MarkLoss;
    var whole := [items[0].(lost := false)] + items[1..];
    var m := MarkLoss(kind, a, t, items[0].hadFragment);
    assert whole[0].timestamp == t;
    var xs, ys := Packets(items)[..n], Packets(whole)[..n];
    assert xs[..n - 1] == Packets(items)[..n - 1] && ys[..n - 1] == Packets(whole)[..n - 1];
    if n == 1 {
      assert xs[..0] == [] && ys[..0] == [];
    } else {
      FlagOnlyMarks(kind, a, items, t, n - 1);
      assert xs[n - 1] == ys[n - 1];
    }
  }

  /** Nothing ends a unit of timestamp `t` from input `d` up to input `from`. */
  ghost predicate SameUnit(inputs: seq<Input>, d: nat, from: nat, t: nat)
    requires d <= from <= |inputs|
  {
    forall k :: d <= k < from ==> !Closes(inputs[k], t)
  }

  /** Over every run: if an emitted unit lacks earlier data of its timestamp that had been delivered just before
      it, its first packet is flagged. */
  lemma TornUnitsAreFlagged(kind: PayloadKind, inputs: seq<Input>, d: nat) returns (spans: seq<Span>)
    requires kind !in {Aac, G711}
    ensures AreRuns(inputs, Emissions(At(kind, inputs, |inputs|).log), spans)
    ensures forall i :: && 0 <= i < |spans| && d < spans[i].from && HasData(inputs[d])
                        && SameUnit(inputs, d, spans[i].from, spans[i].timestamp)
                        ==> IsLost(inputs[spans[i].from])
  {
    hide Run, IsRun, Emissions, OpenHead, HeadIsKnown, TornAt;
    var from: nat;
    from, spans := UnitsAreRuns(kind, inputs, |inputs|);
    forall i | && 0 <= i < |spans| && d < spans[i].from && HasData(inputs[d])
               && SameUnit(inputs, d, spans[i].from, spans[i].timestamp)
      ensures IsLost(inputs[spans[i].from])
    {
      assert UnitIsRun(inputs, Emissions(At(kind, inputs, |inputs|).log)[i], spans[i]);
      TornHead(inputs, d, spans[i].from, spans[i].timestamp);
    }
  }

  /** Where every packet has data, as in program streams and passthrough: no emitted unit lacks earlier data of its
      timestamp that had been delivered just before it. */
  lemma NoTornUnits(kind: PayloadKind, inputs: seq<Input>, d: nat) returns (spans: seq<Span>)
    requires kind !in {Aac, G711}
    requires forall input :: input in inputs && input.Packet? ==> input.item.data.Some? && input.item.data.value != []
    ensures AreRuns(inputs, Emissions(At(kind, inputs, |inputs|).log), spans)
    ensures forall i :: 0 <= i < |spans| && d < spans[i].from ==>
              !SameUnit(inputs, d, spans[i].from, spans[i].timestamp)
  {
    hide Run, Emissions, OpenHead, HeadIsKnown;
    var from: nat;
    from, spans := UnitsAreRuns(kind, inputs, |inputs|);
    forall i | 0 <= i < |spans| && d < spans[i].from
      ensures !SameUnit(inputs, d, spans[i].from, spans[i].timestamp)
    {
      var sp := spans[i];
      assert UnitIsRun(inputs, Emissions(At(kind, inputs, |inputs|).log)[i], sp);
      if SameUnit(inputs, d, sp.from, sp.timestamp) {
        assert !Closes(inputs[sp.from - 1], sp.timestamp) && inputs[sp.from - 1] in inputs && inputs[sp.from] in inputs;
        assert !Closes(inputs[d], sp.timestamp) && inputs[d] in inputs;
        TornHead(inputs, d, sp.from, sp.timestamp);
        assert false;
      }
    }
  }

  lemma TornHead(inputs: seq<Input>, d: nat, from: nat, t: nat)
    requires d < from < |inputs| && HasData(inputs[d]) && SameUnit(inputs, d, from, t) && HeadIsKnown(inputs, from, t)
    ensures IsLost(inputs[from])
  {
    assert !Closes(inputs[from - 1], t);
    forall s | LastTimestamp(inputs, from, s) ensures s == t {
      OneTimestamp(inputs, d, from, t, s);
    }
  }

  lemma OneTimestamp(inputs: seq<Input>, d: nat, from: nat, t: nat, s: nat)
    requires d < from <= |inputs| && HasData(inputs[d]) && SameUnit(inputs, d, from, t)
    requires LastTimestamp(inputs, from, s)
    ensures s == t
  {
    var p :| 0 <= p < from && HasData(inputs[p]) && inputs[p].item.timestamp == s && NoneHasData(inputs, p + 1, from);
    assert p >= d;
    assert !Closes(inputs[p], t);
  }

  // ---------------------------------------------------------------- losses that leave the gate open

  /** A keyframe unit has been handed on: the gate is open. */
  lemma AfterKeyframe(key: seq<Byte>)
    requires HasKeyframe(H264, key) && key != []
    ensures Run(H264, NewAssembler(H264), [Packet(Item(1, true, false, false, Some(key)))]) ==
            Assembler([], None, false, false, [Emitted(key)])
  {
    hide HasKeyframe, Run;
    var a := NewAssembler(H264);
    RunNothing(H264, a);
    RunSnoc(H264, a, [], Packet(Item(1, true, false, false, Some(key))));
    assert [] + [Packet(Item(1, true, false, false, Some(key)))] == [Packet(Item(1, true, false, false, Some(key)))];
    assert [] + key == key;
  }

  /** A tail is missing: the rest of its unit is dropped, and the next unit passes without a keyframe. */
  lemma IncompleteDropDoesNotGate(key: seq<Byte>, delta: seq<Byte>, head: seq<Byte>)
    requires HasKeyframe(H264, key) && key != [] && delta != [] && head != []
    ensures var a := Run(H264, NewAssembler(H264), [Packet(Item(1, true, false, false, Some(key)))]
                     + [Packet(Item(2, false, false, false, Some(head)))]
                     + [Packet(Item(3, true, true, false, Some(delta)))]);
            a.log == [Emitted(key), DroppedIncomplete(head), Emitted(delta)]
  {
    hide HasKeyframe, Run;
    var one := [Packet(Item(1, true, false, false, Some(key)))];
    var two, three := Packet(Item(2, false, false, false, Some(head))), Packet(Item(3, true, true, false, Some(delta)));
    AfterKeyframe(key);
    RunSnoc(H264, NewAssembler(H264), one, two);
    RunSnoc(H264, NewAssembler(H264), one + [two], three);
    assert [] + head == head && [] + delta == delta;
  }

  /** A head is missing: what is left of the unit passes as a whole one, and the loss leaves no trace. */
  lemma HeadLossPasses(key: seq<Byte>, rest: seq<Byte>)
    requires HasKeyframe(H264, key) && key != [] && rest != []
    ensures var a := Run(H264, NewAssembler(H264), [Packet(Item(1, true, false, false, Some(key)))]
                     + [Packet(Item(2, true, true, false, Some(rest)))]);
            a.log == [Emitted(key), Emitted(rest)] && !a.waitKeyframe
  {
    hide HasKeyframe, Run;
    var one := [Packet(Item(1, true, false, false, Some(key)))];
    AfterKeyframe(key);
    RunSnoc(H264, NewAssembler(H264), one, Packet(Item(2, true, true, false, Some(rest))));
    assert [] + rest == rest && [Emitted(key)] + [] == [Emitted(key)];
  }

  /** Damage is forgotten: a second loss before any new data, and the end of a unit whose head was thrown away
      passes as a whole one. */
  lemma ForgottenDamagePasses(key: seq<Byte>, head: seq<Byte>, tail: seq<Byte>)
    requires HasKeyframe(H264, key) && key != [] && head != [] && tail != []
    ensures var a := Run(H264, NewAssembler(H264), [Packet(Item(1, true, false, false, Some(key)))]
                     + [Packet(Item(2, false, false, false, Some(head)))]
                     + [Packet(Item(2, false, true, false, None))]
                     + [Packet(Item(2, true, true, false, Some(tail)))]);
            a.log == [Emitted(key), ClearedByLoss(head), Emitted(tail)] && !a.waitKeyframe
  {
    hide HasKeyframe, Run;
    var one := [Packet(Item(1, true, false, false, Some(key)))];
    var two, three := Packet(Item(2, false, false, false, Some(head))), Packet(Item(2, false, true, false, None));
    AfterKeyframe(key);
    RunSnoc(H264, NewAssembler(H264), one, two);
    RunSnoc(H264, NewAssembler(H264), one + [two], three);
    RunSnoc(H264, NewAssembler(H264), one + [two] + [three], Packet(Item(2, true, true, false, Some(tail))));
    assert [] + head == head && [] + tail == tail;
  }

  /** Damage is forgotten: the marker comes before any new data, and the next unit passes without a keyframe. */
  lemma MarkerForgetsDamage(key: seq<Byte>, head: seq<Byte>, delta: seq<Byte>)
    requires HasKeyframe(H264, key) && key != [] && head != [] && delta != []
    ensures var a := Run(H264, NewAssembler(H264), [Packet(Item(1, true, false, false, Some(key)))]
                     + [Packet(Item(2, false, false, false, Some(head)))]
                     + [Packet(Item(2, true, true, false, None))]
                     + [Packet(Item(3, true, false, false, Some(delta)))]);
            a.log == [Emitted(key), ClearedByLoss(head), Emitted(delta)] && !a.waitKeyframe
  {
    hide HasKeyframe, Run;
    var one := [Packet(Item(1, true, false, false, Some(key)))];
    var two, three := Packet(Item(2, false, false, false, Some(head))), Packet(Item(2, true, true, false, None));
    AfterKeyframe(key);
    RunSnoc(H264, NewAssembler(H264), one, two);
    RunSnoc(H264, NewAssembler(H264), one + [two], three);
    RunSnoc(H264, NewAssembler(H264), one + [two] + [three], Packet(Item(3, true, false, false, Some(delta))));
    assert [] + head == head && [] + delta == delta;
  }

  /** In a program stream only packets without payload can make damage forgotten: here the second of three packets
      of a unit is empty, the second and third are flagged, and the third passes as a whole unit. */
  lemma EmptyPayloadForgetsDamage(head: seq<Byte>, tail: seq<Byte>)
    requires head != [] && tail != []
    ensures Run(Ps, NewAssembler(Ps), [Packet(Item(2, false, false, false, Some(head)))]
                + [Packet(Item(2, false, true, false, Some([])))]
                + [Packet(Item(2, true, true, false, Some(tail)))]).log == [ClearedByLoss(head), Emitted(tail)]
  {
    hide Run;
    var a := NewAssembler(Ps);
    var one, two := Packet(Item(2, false, false, false, Some(head))), Packet(Item(2, false, true, false, Some([])));
    RunNothing(Ps, a);
    assert [] + [one] == [one];
    RunSnoc(Ps, a, [], one);
    RunSnoc(Ps, a, [one], two);
    RunSnoc(Ps, a, [one] + [two], Packet(Item(2, true, true, false, Some(tail))));
    assert [] + head == head && [] + tail == tail;
  }
}

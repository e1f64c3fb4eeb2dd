/**
  Closing a stream or a talk, as one protocol: an entry starts to close under a fresh generation, its BYEs
  are issued one at a time, and it ends by completion, by a deadline, or by the peer. Streams and talks
  (StreamClose.dfy, TalkClose.dfy) are two implementations of it.
*/
module CloseProtocol {
  import opened Wrappers

  type Id = string

  const U32_MAX: nat := 0xffff_ffff

  function SaturatingSucc(n: nat): nat {
    if n < U32_MAX then n + 1 else U32_MAX
  }

  datatype Lifecycle = Playing | Closing(generation: nat, inflight: Option<nat>, lastError: Option<string>)

  datatype Entry = Entry(
    deviceId: string, channelId: string, ssrc: nat, callId: string, seqNo: nat, restored: bool, life: Lifecycle)

  datatype Timer = Timer(id: Id, generation: nat)

  /** The live entries, the next close generation, and the pending close deadlines. */
  datatype Store = Store(entries: map<Id, Entry>, counter: nat, timers: set<Timer>)

  datatype Event =
    | Started(id: Id, generation: nat)
    | Issued(id: Id, generation: nat, seqNo: nat)
    | Failed(id: Id, generation: nat, seqNo: nat)
    | Removed(id: Id, generation: nat)

  datatype Op =
    | Insert(id: Id, entry: Entry)
    | Begin(id: Id, spend: bool)       // spend: a repeated close uses up a generation as well
    | Schedule(id: Id, generation: nat)
    | TakeBye(id: Id)
    | MarkFailed(id: Id, generation: nat, seqNo: nat, reason: string)
    | Remove(id: Id, generation: nat)  // the BYE was answered, or cleanup is forced
    | Drop(id: Id)                     // the peer hung up, or the device is reset
    | Fire(id: Id, generation: nat)    // the close deadline

  predicate IsClosing(t: Store, id: Id, generation: nat) {
    id in t.entries && t.entries[id].life.Closing? && t.entries[id].life.generation == generation
  }

  function Apply(t: Store, op: Op): (Store, seq<Event>) {
    match op
    case Insert(id, e) =>
      if id in t.entries then (t, []) else (t.(entries := t.entries[id := e.(life := Playing)]), [])
    case Begin(id, spend) =>
      if id !in t.entries then (t, [])
      else if t.entries[id].life.Closing? then (if spend then t.(counter := t.counter + 1) else t, [])
      else
        var e := t.entries[id].(life := Closing(t.counter, None, None));
        (t.(entries := t.entries[id := e], counter := t.counter + 1), [Started(id, t.counter)])
    case Schedule(id, g) => (t.(timers := t.timers + {Timer(id, g)}), [])
    case TakeBye(id) =>
      if id !in t.entries || t.entries[id].life.Playing? || t.entries[id].life.inflight.Some? then (t, [])
      else
        var e := t.entries[id];
        var n := SaturatingSucc(e.seqNo);
        (t.(entries := t.entries[id := e.(seqNo := n, life := e.life.(inflight := Some(n)))]),
         [Issued(id, e.life.generation, n)])
    case MarkFailed(id, g, n, reason) =>
      if !IsClosing(t, id, g) || t.entries[id].life.inflight != Some(n) then (t, [])
      else
        var e := t.entries[id];
        (t.(entries := t.entries[id := e.(life := Closing(g, None, Some(reason)))]), [Failed(id, g, n)])
    case Remove(id, g) => if IsClosing(t, id, g) then Dropped(t, id) else (t, [])
    case Drop(id) => Dropped(t, id)
    case Fire(id, g) =>
      var t' := t.(timers := t.timers - {Timer(id, g)});
      if IsClosing(t, id, g) then Dropped(t', id) else (t', [])
  }

  /** The entry goes, and with it the deadline of its close. */
  function Dropped(t: Store, id: Id): (Store, seq<Event>) {
    if id !in t.entries then (t, [])
    else
      match t.entries[id].life
      case Playing => (t.(entries := t.entries - {id}), [])
      case Closing(g, _, _) => (Store(t.entries - {id}, t.counter, t.timers - {Timer(id, g)}), [Removed(id, g)])
  }

  datatype History = History(store: Store, log: seq<Event>)

  const EMPTY: Store := Store(map[], 1, {})

  function Run(ops: seq<Op>): History {
    if ops == [] then History(EMPTY, [])
    else
      var h := Run(ops[..|ops| - 1]);
      var (t, events) := Apply(h.store, ops[|ops| - 1]);
      History(t, h.log + events)
  }

  lemma RunSnoc(ops: seq<Op>, op: Op)
    ensures var h := Run(ops);
            Run(ops + [op]) == History(Apply(h.store, op).0, h.log + Apply(h.store, op).1)
  {
    assert (ops + [op])[..|ops|] == ops;
  }

  // ---------------------------------------------------------------- the life of one generation

  datatype Life = Unborn | Open(id: Id, inflight: Option<nat>, last: Option<nat>) | Gone

  /** What may happen next to a close: it starts once; a BYE is issued only while none is in flight, with the
      next CSeq; only the BYE in flight fails; it ends once. */
  predicate Allowed(life: Life, e: Event) {
    match e
    case Started(_, _) => life.Unborn?
    case Issued(id, _, n) =>
      life.Open? && life.id == id && life.inflight.None? && (life.last.Some? ==> n == SaturatingSucc(life.last.value))
    case Failed(id, _, n) => life.Open? && life.id == id && life.inflight == Some(n)
    case Removed(id, _) => life.Open? && life.id == id
  }

  function After(life: Life, e: Event): Life {
    match e
    case Started(id, _) => Open(id, None, None)
    case Issued(id, _, n) => Open(id, Some(n), Some(n))
    case Failed(id, _, _) => if life.Open? then life.(inflight := None) else life
    case Removed(_, _) => Gone
  }

  /** The life of generation `g` after a log. */
  function Track(log: seq<Event>, g: nat): Life {
    if log == [] then Unborn
    else
      var before, e := Track(log[..|log| - 1], g), log[|log| - 1];
      if e.generation == g then After(before, e) else before
  }

  predicate Accepted(log: seq<Event>) {
    log != [] ==>
      var front, e := log[..|log| - 1], log[|log| - 1];
      Accepted(front) && Allowed(Track(front, e.generation), e)
  }

  lemma TrackSnoc(log: seq<Event>, e: Event, g: nat)
    ensures Track(log + [e], g) == if e.generation == g then After(Track(log, g), e) else Track(log, g)
    ensures Accepted(log + [e]) <==> Accepted(log) && Allowed(Track(log, e.generation), e)
  {
    assert (log + [e])[..|log|] == log;
  }

  /** The store and the lives agree: a closing entry is an open life, an open life is a closing entry, and
      generations not yet handed out are unborn. */
  ghost predicate Tracked(t: Store, log: seq<Event>) {
    && Accepted(log)
    && (forall g: nat {:trigger Track(log, g)} :: g >= t.counter ==> Track(log, g).Unborn?)
    && (forall id {:trigger t.entries[id]} :: id in t.entries && t.entries[id].life.Closing? ==>
          Follows(t.entries[id], id, Track(log, t.entries[id].life.generation)))
    && (forall g: nat {:trigger Track(log, g)} :: Track(log, g).Open? ==> IsClosing(t, Track(log, g).id, g))
  }

  ghost predicate Follows(e: Entry, id: Id, life: Life)
    requires e.life.Closing?
  {
    life.Open? && life.id == id && life.inflight == e.life.inflight && (life.last.Some? ==> life.last.value == e.seqNo)
  }

  ghost predicate OthersAlike(t: Store, t': Store, id: Id) {
    forall i :: i != id ==>
      (i in t.entries <==> i in t'.entries) && (i in t.entries ==> t.entries[i] == t'.entries[i])
  }

  lemma NextEventTracked(t: Store, log: seq<Event>, t': Store, e: Event)
    requires Tracked(t, log) && Allowed(Track(log, e.generation), e) && t'.counter >= t.counter
              && e.generation < t'.counter
    requires e.id in t.entries && OthersAlike(t, t', e.id)
    requires e.Removed? ==> e.id !in t'.entries
    requires !e.Removed? ==>
               IsClosing(t', e.id, e.generation) && Follows(t'.entries[e.id], e.id, After(Track(log, e.generation), e))
    requires !e.Started? ==> IsClosing(t, e.id, e.generation)
    requires e.Started? ==> t.entries[e.id].life.Playing?
    ensures Tracked(t', log + [e])
  {
    hide Allowed, After, Track, Accepted;
    TrackSnoc(log, e, e.generation);
    forall g: nat ensures Track(log + [e], g) == if e.generation == g then After(Track(log, g), e) else Track(log, g) {
      TrackSnoc(log, e, g);
    }
    forall id | id in t'.entries && t'.entries[id].life.Closing?
      ensures Follows(t'.entries[id], id, Track(log + [e], t'.entries[id].life.generation))
    {
      if id != e.id {
        assert Follows(t.entries[id], id, Track(log, t.entries[id].life.generation));
        OtherGeneration(t, log, id, e);
      }
    }
    forall g: nat | Track(log + [e], g).Open? ensures IsClosing(t', Track(log + [e], g).id, g) {
      OpenStaysClosing(t, log, t', e, g);
    }
  }

  /** An entry other than the event's closes under another generation. */
  lemma OtherGeneration(t: Store, log: seq<Event>, id: Id, e: Event)
    requires Tracked(t, log) && Allowed(Track(log, e.generation), e) && id != e.id
    requires id in t.entries && t.entries[id].life.Closing?
    ensures t.entries[id].life.generation != e.generation
  {
    hide Track, Accepted;
    assert Follows(t.entries[id], id, Track(log, t.entries[id].life.generation));
  }

  lemma OpenStaysClosing(t: Store, log: seq<Event>, t': Store, e: Event, g: nat)
    requires Tracked(t, log) && Allowed(Track(log, e.generation), e)
    requires OthersAlike(t, t', e.id)
    requires !e.Removed? ==> IsClosing(t', e.id, e.generation)
    requires !e.Started? ==> IsClosing(t, e.id, e.generation)
    requires e.Started? ==> e.id in t.entries && t.entries[e.id].life.Playing?
    requires Track(log + [e], g).Open?
    ensures IsClosing(t', Track(log + [e], g).id, g)
  {
    hide Track, Accepted, Follows;
    TrackSnoc(log, e, g);
    if e.generation != g {
      assert IsClosing(t, Track(log, g).id, g);
    }
  }

  /** At most the entry `id` changes, and it is a playing one that appears or goes. */
  ghost predicate Quiet(t: Store, t': Store, id: Id) {
    || t'.entries == t.entries
    || (id in t.entries && t.entries[id].life.Playing? && t'.entries == t.entries - {id})
    || (id !in t.entries && id in t'.entries && t'.entries[id].life.Playing? && t'.entries - {id} == t.entries)
  }

  lemma QuietTracked(t: Store, log: seq<Event>, t': Store, id: Id)
    requires Tracked(t, log) && t'.counter >= t.counter && Quiet(t, t', id)
    ensures Tracked(t', log)
  {
    hide Track, Accepted, Follows;
    forall i | i in t'.entries && t'.entries[i].life.Closing? ensures i in t.entries && t.entries[i] == t'.entries[i] {
      assert i != id || t'.entries == t.entries;
      assert i in (t'.entries - {id}) || t'.entries == t.entries;
    }
    forall g: nat | Track(log, g).Open? ensures IsClosing(t', Track(log, g).id, g) {
      assert IsClosing(t, Track(log, g).id, g);
    }
  }

  /** Each operation keeps store and lives in agreement, and only does what the protocol allows. */
  lemma StepTracked(t: Store, log: seq<Event>, op: Op)
    requires Tracked(t, log)
    ensures Tracked(Apply(t, op).0, log + Apply(t, op).1)
  {
    hide Tracked, Track;
    var (t', events) := Apply(t, op);
    assert log + [] == log;
    if events == [] {
      SilentTracked(t, log, op);
    } else {
      LoudTracked(t, log, op);
    }
  }

  lemma SilentTracked(t: Store, log: seq<Event>, op: Op)
    requires Tracked(t, log) && Apply(t, op).1 == []
    ensures Tracked(Apply(t, op).0, log)
  {
    hide Tracked, Track;
    var t' := Apply(t, op).0;
    if op.Insert? && op.id !in t.entries {
      assert t'.entries - {op.id} == t.entries;
    }
    QuietTracked(t, log, t', if op.Schedule? || op.MarkFailed? || op.Remove? || op.Fire? then "" else op.id);
  }

  lemma LoudTracked(t: Store, log: seq<Event>, op: Op)
    requires Tracked(t, log) && Apply(t, op).1 != []
    ensures Tracked(Apply(t, op).0, log + Apply(t, op).1)
  {
    var (t', events) := Apply(t, op);
    var e := events[0];
    LoudAllowed(t, log, op);
    hide Tracked, Track, Allowed;
    NextEventTracked(t, log, t', e);
    assert events == [e];
  }

  lemma LoudAllowed(t: Store, log: seq<Event>, op: Op)
    requires Tracked(t, log) && Apply(t, op).1 != []
    ensures var (t', events) := Apply(t, op);
            var e := events[0];
            && |events| == 1 && Allowed(Track(log, e.generation), e) && e.id in t.entries
            && (!e.Removed? ==> IsClosing(t', e.id, e.generation)
                                && Follows(t'.entries[e.id], e.id, After(Track(log, e.generation), e)))
            && (!e.Started? ==> IsClosing(t, e.id, e.generation)) && e.generation < t'.counter
  {
    hide Track, Accepted;
    var e := Apply(t, op).1[0];
    assert op.Begin? ==> Track(log, t.counter).Unborn?;
    assert t.entries[e.id].life.Closing? ==>
        Follows(t.entries[e.id], e.id, Track(log, t.entries[e.id].life.generation));
  }

  /** Over every sequence of operations on any entries: the events are accepted by the protocol of their
      generation, and what is closing is exactly what is open. */
  lemma {:induction false} EveryRunIsAccepted(ops: seq<Op>)
    ensures Tracked(Run(ops).store, Run(ops).log)
  {
    hide Tracked, Apply;
    if ops == [] {
      EmptyTracked();
    } else {
      EveryRunIsAccepted(ops[..|ops| - 1]);
      var h := Run(ops[..|ops| - 1]);
      StepTracked(h.store, h.log, ops[|ops| - 1]);
    }
  }

  lemma EmptyTracked()
    ensures Tracked(EMPTY, [])
  {}

  // ---------------------------------------------------------------- what acceptance means

  lemma {:induction false} AcceptedPrefix(log: seq<Event>, n: nat)
    requires Accepted(log) && n <= |log|
    ensures Accepted(log[..n]) && (n < |log| ==> Allowed(Track(log[..n], log[n].generation), log[n]))
    decreases |log|
  {
    hide Allowed, Track;
    if n == |log| {
      assert log[..n] == log;
    } else if n < |log| - 1 {
      AcceptedPrefix(log[..|log| - 1], n);
      assert log[..|log| - 1][..n] == log[..n];
    }
  }

  lemma {:induction false} BornStaysBorn(log: seq<Event>, g: nat, m: nat, n: nat)
    requires Accepted(log) && m <= n <= |log|
    ensures !Track(log[..m], g).Unborn? ==> !Track(log[..n], g).Unborn?
    ensures Track(log[..m], g).Gone? ==> Track(log[..n], g).Gone?
    decreases n - m
  {
    if m < n {
      BornStaysBorn(log, g, m, n - 1);
      AcceptedPrefix(log, n - 1);
      assert log[..n][..n - 1] == log[..n - 1];
    }
  }

  lemma TrackAt(log: seq<Event>, n: nat)
    requires n < |log|
    ensures Track(log[..n + 1], log[n].generation) == After(Track(log[..n], log[n].generation), log[n])
  {
    assert log[..n + 1][..n] == log[..n];
  }

  /** No generation starts twice. */
  lemma GenerationsAreUnique(log: seq<Event>, i: nat, j: nat)
    requires Accepted(log) && i < j < |log| && log[i].Started? && log[j].Started?
    ensures log[i].generation != log[j].generation
  {
    hide Track, Accepted;
    TrackAt(log, i);
    AcceptedPrefix(log, j);
    BornStaysBorn(log, log[i].generation, i + 1, j);
  }

  /** After BYE number `i` and before the next one of its generation: it is still in flight, or it has
      failed, or the close is over. */
  lemma {:induction false} AfterIssue(log: seq<Event>, i: nat, n: nat) returns (k: nat)
    requires Accepted(log) && i < n <= |log| && log[i].Issued?
    requires forall m :: i < m < n ==> !(log[m].Issued? && log[m].generation == log[i].generation)
    ensures var life := Track(log[..n], log[i].generation);
            || life == Open(log[i].id, Some(log[i].seqNo), Some(log[i].seqNo))
            || (life == Open(log[i].id, None, Some(log[i].seqNo)) && i < k < n
                && log[k] == Failed(log[i].id, log[i].generation, log[i].seqNo))
            || life.Gone?
    decreases n
  {
    hide Accepted;
    if n == i + 1 {
      TrackAt(log, i);
      k := i;
    } else {
      k := AfterIssue(log, i, n - 1);
      AcceptedPrefix(log, n - 1);
      assert log[..n][..n - 1] == log[..n - 1];
      if log[n - 1].generation == log[i].generation && log[n - 1].Failed? {
        k := n - 1;
      }
    }
  }

  /** Two successive BYEs of one close: the CSeq goes up by one (below the 32-bit limit), for the same entry,
      and between them the first one was reported failed. */
  lemma RetryFollowsFailure(log: seq<Event>, i: nat, j: nat) returns (k: nat)
    requires Accepted(log) && i < j < |log| && log[i].Issued? && log[j].Issued?
              && log[i].generation == log[j].generation
    requires forall m :: i < m < j ==> !(log[m].Issued? && log[m].generation == log[i].generation)
    ensures log[j].id == log[i].id && log[j].seqNo == SaturatingSucc(log[i].seqNo)
    ensures i < k < j && log[k] == Failed(log[i].id, log[i].generation, log[i].seqNo)
  {
    hide Accepted, Track;
    k := AfterIssue(log, i, j);
    AcceptedPrefix(log, j);
  }

  lemma ClosingIsOpen(t: Store, log: seq<Event>, id: Id, g: nat)
    requires Tracked(t, log)
    ensures IsClosing(t, id, g) <==> Track(log, g).Open? && Track(log, g).id == id
  {
    hide Track, Accepted;
    assert IsClosing(t, id, g) ==> Follows(t.entries[id], id, Track(log, t.entries[id].life.generation));
  }

  /** Completing or forcing with generation `g` removes an entry only if that entry is the one whose close
      started as `g`, and it is the end of that generation. */
  lemma RemoveIsPrecise(ops: seq<Op>, id: Id, g: nat)
    ensures var h := Run(ops);
            var h' := Run(ops + [Remove(id, g)]);
            && (h'.store != h.store ==> Track(h.log, g).Open? && Track(h.log, g).id == id && Track(h'.log, g).Gone?)
            && (Track(h.log, g).Open? && Track(h.log, g).id == id ==> id !in h'.store.entries)
  {
    hide Track, Accepted, Run;
    EveryRunIsAccepted(ops);
    var h := Run(ops);
    RunSnoc(ops, Remove(id, g));
    ClosingIsOpen(h.store, h.log, id, g);
    TrackSnoc(h.log, Removed(id, g), g);
  }

  /** A closing entry keeps its generation until it is gone. */
  lemma GenerationIsFixed(t: Store, op: Op, id: Id, g: nat)
    requires IsClosing(t, id, g)
    ensures IsClosing(Apply(t, op).0, id, g) || id !in Apply(t, op).0.entries
  {}

  // ---------------------------------------------------------------- deadlines

  /** The deadline of a closing entry is pending, or a caller that has begun the close has still to set it
      (`begun`), or the close was let go without one (`waived`), which happens to restored entries only; never
      two of these at once. */
  ghost predicate Covered(t: Store, begun: set<Timer>, waived: set<Timer>) {
    && (forall id {:trigger t.entries[id]} :: id in t.entries && t.entries[id].life.Closing? ==>
          Timer(id, t.entries[id].life.generation) in t.timers + begun + waived)
    && t.timers !! begun !! waived
    && (forall tm :: tm in t.timers + begun + waived ==> tm.generation < t.counter)
    && (forall tm :: tm in waived && IsClosing(t, tm.id, tm.generation) ==> t.entries[tm.id].restored)
  }

  /** So a closing entry has its deadline pending if and only if its close is neither in a caller's hand nor
      waived; a stream that was not restored lacks it only while in hand. */
  lemma DeadlineIffNotWaived(t: Store, begun: set<Timer>, waived: set<Timer>, id: Id, g: nat)
    requires Covered(t, begun, waived) && IsClosing(t, id, g)
    ensures Timer(id, g) in t.timers <==> Timer(id, g) !in begun && Timer(id, g) !in waived
    ensures !t.entries[id].restored ==> Timer(id, g) in t.timers || Timer(id, g) in begun
  {
    assert Timer(id, t.entries[id].life.generation) in t.timers + begun + waived;
  }

  /** A deadline names an entry that is closing under its generation. */
  ghost predicate TimersLive(t: Store) {
    forall tm {:trigger tm in t.timers} :: tm in t.timers ==> IsClosing(t, tm.id, tm.generation)
  }

  /** The close an operation starts. */
  function Starts(t: Store, op: Op): set<Timer> {
    if op.Begin? && op.id in t.entries && t.entries[op.id].life.Playing? then {Timer(op.id, t.counter)} else {}
  }

  /** Every closing entry keeps its deadline through any operation of anyone; only its own may fire. The one
      exception is a deadline set for a waived close, or for one that has never begun. */
  lemma CoverageIsKept(t: Store, begun: set<Timer>, waived: set<Timer>, op: Op)
    requires Covered(t, begun, waived)
    ensures !op.Schedule? ==> Covered(Apply(t, op).0, begun + Starts(t, op), waived)
    ensures op.Schedule? ==>
              var tm := Timer(op.id, op.generation);
              Covered(Apply(t, op).0, begun - {tm}, waived) <==> tm !in waived && tm.generation < t.counter
  {
    var tm := if op.Schedule? then Timer(op.id, op.generation) else Timer("", 0);
    if op.Schedule? { assert tm in Apply(t, op).0.timers; }
    forall w | w in waived && IsClosing(Apply(t, op).0, w.id, w.generation) ensures IsClosing(t, w.id, w.generation) {}
  }

  /** The caller that began a close lets go of it by setting the deadline, by removing the entry, or by waiving
      the deadline of a restored one. */
  lemma BeginMayReturn(t: Store, begun: set<Timer>, waived: set<Timer>, id: Id, g: nat)
    requires Covered(t, begun, waived) && Timer(id, g) in begun
    ensures Covered(Apply(t, Schedule(id, g)).0, begun - {Timer(id, g)}, waived)
    ensures Covered(Apply(t, Remove(id, g)).0, begun - {Timer(id, g)}, waived)
    ensures id in t.entries && t.entries[id].restored ==>
              Covered(t, begun - {Timer(id, g)}, waived + {Timer(id, g)})
  {
    CoverageIsKept(t, begun, waived, Schedule(id, g));
    CoverageIsKept(t, begun, waived, Remove(id, g));
  }

  /** Timers stay live through every operation except a deadline scheduled for a close that is over already. */
  lemma LivenessIsExact(t: Store, op: Op)
    requires TimersLive(t)
    ensures TimersLive(Apply(t, op).0) <==> (op.Schedule? ==> IsClosing(t, op.id, op.generation))
  {
    var t' := Apply(t, op).0;
    if op.Schedule? && !IsClosing(t, op.id, op.generation) {
      assert Timer(op.id, op.generation) in t'.timers;
    } else {
      forall tm | tm in t'.timers ensures IsClosing(t', tm.id, tm.generation) {
        assert tm in t.timers || op == Schedule(tm.id, tm.generation);
      }
    }
  }

  lemma {:induction false} GoneStaysGone(ops: seq<Op>, more: seq<Op>, g: nat)
    requires Track(Run(ops).log, g).Gone?
    ensures Track(Run(ops + more).log, g).Gone?
  {
    hide Apply, Accepted, Tracked;
    if more == [] {
      assert ops + more == ops;
    } else {
      var n := |more| - 1;
      GoneStaysGone(ops, more[..n], g);
      assert ops + more == (ops + more[..n]) + [more[n]];
      RunSnoc(ops + more[..n], more[n]);
      RunIsAccepted(ops + more);
      var h := Run(ops + more[..n]);
      OneMoreEvent(h.store, more[n]);
      GoneStep(h.log, Apply(h.store, more[n]).1, g);
    }
  }

  lemma RunIsAccepted(ops: seq<Op>)
    ensures Accepted(Run(ops).log)
  {
    EveryRunIsAccepted(ops);
  }

  lemma OneMoreEvent(t: Store, op: Op)
    ensures |Apply(t, op).1| <= 1
  {}

  lemma GoneStep(log: seq<Event>, events: seq<Event>, g: nat)
    requires |events| <= 1 && Track(log, g).Gone? && Accepted(log + events)
    ensures Track(log + events, g).Gone?
  {
    if events == [] {
      assert log + events == log;
    } else {
      assert events == [events[0]];
      TrackSnoc(log, events[0], g);
    }
  }

  /** A deadline whose close is over does nothing, however late it fires and whatever has happened since. */
  lemma StaleDeadlineDoesNothing(ops: seq<Op>, more: seq<Op>, id: Id, g: nat)
    requires Track(Run(ops).log, g).Gone?
    ensures var t := Run(ops + more).store;
            Apply(t, Fire(id, g)) == (t.(timers := t.timers - {Timer(id, g)}), [])
  {
    hide Track, Accepted, Run;
    GoneStaysGone(ops, more, g);
    EveryRunIsAccepted(ops + more);
    ClosingIsOpen(Run(ops + more).store, Run(ops + more).log, id, g);
  }
}

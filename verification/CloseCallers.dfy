/**
  Any number of callers that begin to close streams at the same time (`begin` in
  session/src/service/stream_close.rs), interleaved with one another and with everything else that happens to
  the entries: the deadlines they leave behind.
*/
module CloseCallers {
  import opened CloseProtocol

  /** Where a caller of `begin` stands: outside; the entry marked as closing; about to force the entry out; the
      deadline set and the first BYE still to be taken. */
  datatype Caller = Outside | Began(id: Id, generation: nat) | Forcing(id: Id, generation: nat) | Scheduled(id: Id)

  /** `waived` are the closes whose caller left without setting a deadline, finding a restored entry. */
  datatype World = World(history: History, callers: seq<Caller>, waived: set<Timer>)

  datatype Action =
    | Mark(id: Id, spend: bool)
    | CheckRestored   // the device has no session
    | TooLate         // its time is up, or the deadline cannot be set
    | SetDeadline
    | Force
    | FirstBye

  datatype Event = Call(caller: nat, action: Action) | Other(op: Op)

  function Do(h: History, op: Op): History {
    History(Apply(h.store, op).0, h.log + Apply(h.store, op).1)
  }

  /** One action of a caller; an action that does not belong where the caller stands changes nothing. */
  function CallerStep(w: World, i: nat, action: Action): (w': World)
    requires i < |w.callers|
    ensures |w'.callers| == |w.callers|
  {
    var t, c := w.history.store, w.callers[i];
    var stay := (next: Caller) => w.(callers := w.callers[i := next]);
    var move := (op: Op, next: Caller) => w.(history := Do(w.history, op), callers := w.callers[i := next]);
    match action
    case Mark(id, spend) =>
      if !c.Outside? then w
      else
        var started := id in t.entries && t.entries[id].life.Playing?;
        move(Begin(id, spend), if started then Began(id, t.counter) else Outside)
    case CheckRestored =>
      if !c.Began? then w
      else if c.id in t.entries && t.entries[c.id].restored then
        stay(Outside).(waived := w.waived + {Timer(c.id, c.generation)})
      else stay(Forcing(c.id, c.generation))
    case TooLate => if !c.Began? then w else stay(Forcing(c.id, c.generation))
    case SetDeadline => if !c.Began? then w else move(Schedule(c.id, c.generation), Scheduled(c.id))
    case Force => if !c.Forcing? then w else move(Remove(c.id, c.generation), Outside)
    case FirstBye => if !c.Scheduled? then w else move(TakeBye(c.id), Outside)
  }

  /** Only callers begin closes and set deadlines. */
  function Step(w: World, e: Event): (w': World)
    ensures |w'.callers| == |w.callers|
  {
    match e
    case Other(op) => if op.Begin? || op.Schedule? then w else w.(history := Do(w.history, op))
    case Call(i, action) => if i < |w.callers| then CallerStep(w, i, action) else w
  }

  /** `n` callers, none of them inside `begin`. */
  function Start(n: nat): World {
    World(History(EMPTY, []), seq(n, _ => Outside), {})
  }

  function Run(n: nat, es: seq<Event>): (w: World)
    ensures |w.callers| == n
  {
    if es == [] then Start(n) else Step(Run(n, es[..|es| - 1]), es[|es| - 1])
  }

  /** The caller has marked this close and neither set its deadline nor forced the entry out yet. */
  predicate InHand(c: Caller, tm: Timer) {
    (c.Began? || c.Forcing?) && c.id == tm.id && c.generation == tm.generation
  }

  /** The closes some caller has in hand. */
  function Begun(callers: seq<Caller>): set<Timer> {
    set i | 0 <= i < |callers| && (callers[i].Began? || callers[i].Forcing?) ::
      Timer(callers[i].id, callers[i].generation)
  }

  lemma BegunIs(callers: seq<Caller>, tm: Timer)
    ensures tm in Begun(callers) <==> exists i :: 0 <= i < |callers| && InHand(callers[i], tm)
  {}

  // ---------------------------------------------------------------- every close is covered

  /** No close is in the hand of two callers. */
  ghost predicate Apart(callers: seq<Caller>) {
    forall i, j, tm :: 0 <= i < j < |callers| && InHand(callers[i], tm) ==> !InHand(callers[j], tm)
  }

  /** The close a caller has in hand. */
  function Hand(c: Caller): set<Timer> {
    if c.Began? || c.Forcing? then {Timer(c.id, c.generation)} else {}
  }

  lemma HandIs(c: Caller, tm: Timer)
    ensures tm in Hand(c) <==> InHand(c, tm)
  {}

  lemma BegunAtMost(callers: seq<Caller>, i: nat, c: Caller)
    requires i < |callers|
    ensures Begun(callers[i := c]) <= Begun(callers) + Hand(c)
  {
    hide Begun;
    forall tm | tm in Begun(callers[i := c]) ensures tm in Begun(callers) + Hand(c) {
      BegunIs(callers[i := c], tm);
      var k :| 0 <= k < |callers| && InHand(callers[i := c][k], tm);
      if k == i {
        HandIs(c, tm);
      } else {
        assert InHand(callers[k], tm);
        BegunIs(callers, tm);
      }
    }
  }

  lemma BegunAtLeast(callers: seq<Caller>, i: nat, c: Caller)
    requires i < |callers|
    ensures Begun(callers) - Hand(callers[i]) + Hand(c) <= Begun(callers[i := c])
  {
    hide Begun;
    var after := callers[i := c];
    forall tm | tm in Begun(callers) - Hand(callers[i]) + Hand(c) ensures tm in Begun(after) {
      BegunIs(callers, tm);
      BegunIs(after, tm);
      if tm in Hand(c) {
        HandIs(c, tm);
        assert InHand(after[i], tm);
      } else {
        var k :| 0 <= k < |callers| && InHand(callers[k], tm);
        HandIs(callers[i], tm);
        assert InHand(after[k], tm);
      }
    }
  }

  lemma StillApart(callers: seq<Caller>, i: nat, c: Caller)
    requires i < |callers| && Apart(callers) && (Hand(c) !! Begun(callers) || Hand(c) == Hand(callers[i]))
    ensures Apart(callers[i := c])
  {
    hide Begun;
    var after := callers[i := c];
    forall j, k, tm | 0 <= j < k < |after| && InHand(after[j], tm) ensures !InHand(after[k], tm) {
      BegunIs(callers, tm);
      HandIs(c, tm);
      HandIs(callers[i], tm);
    }
  }

  /** When a caller moves on, exactly what it had in hand is let go, and what it then has is taken. */
  lemma BegunAfter(callers: seq<Caller>, i: nat, c: Caller)
    requires i < |callers| && Apart(callers) && (Hand(c) !! Begun(callers) || Hand(c) == Hand(callers[i]))
    ensures Begun(callers[i := c]) == Begun(callers) - Hand(callers[i]) + Hand(c) && Apart(callers[i := c])
  {
    hide Begun;
    var after := callers[i := c];
    StillApart(callers, i, c);
    BegunAtMost(callers, i, c);
    BegunAtLeast(callers, i, c);
    forall tm | tm in Begun(after) ensures tm in Begun(callers) - Hand(callers[i]) + Hand(c) {
      BegunIs(after, tm);
      HandIs(c, tm);
      HandIs(callers[i], tm);
      var k :| 0 <= k < |after| && InHand(after[k], tm);
      assert k != i ==> InHand(callers[k], tm) && after[k] == callers[k];
    }
  }

  lemma DoTracked(h: History, op: Op)
    requires Tracked(h.store, h.log)
    ensures Tracked(Do(h, op).store, Do(h, op).log)
  {
    hide Tracked;
    StepTracked(h.store, h.log, op);
  }

  /** What a run keeps: every closing entry has its deadline, or is still in the hand of exactly one caller, or
      is a restored one let go without. */
  ghost predicate Safe(w: World) {
    Covered(w.history.store, Begun(w.callers), w.waived) && Apart(w.callers)
  }

  lemma CallerStepIsSafe(w: World, i: nat, action: Action)
    requires Safe(w) && i < |w.callers|
    ensures Safe(CallerStep(w, i, action))
  {
    hide Covered, Begun, Apart, Apply, Starts;
    var t, c, begun := w.history.store, w.callers[i], Begun(w.callers);
    var w' := CallerStep(w, i, action);
    assert w.callers[i := c] == w.callers;
    BegunIsHeld(w.callers, i);
    match action
    case Mark(id, spend) => if c.Outside? { MarkIsSafe(w, i, id, spend); }
    case SetDeadline =>
      if c.Began? {
        BeginMayReturn(t, begun, w.waived, c.id, c.generation);
        BegunAfter(w.callers, i, Scheduled(c.id));
        assert Begun(w'.callers) == begun - {Timer(c.id, c.generation)};
      }
    case Force =>
      if c.Forcing? {
        BeginMayReturn(t, begun, w.waived, c.id, c.generation);
        BegunAfter(w.callers, i, Outside);
        assert Begun(w'.callers) == begun - {Timer(c.id, c.generation)};
      }
    case CheckRestored =>
      if c.Began? {
        BeginMayReturn(t, begun, w.waived, c.id, c.generation);
        BegunAfter(w.callers, i, w'.callers[i]);
        assert begun - Hand(c) + Hand(c) == begun && begun - Hand(c) + {} == begun - {Timer(c.id, c.generation)};
      }
    case TooLate =>
      if c.Began? {
        BegunAfter(w.callers, i, w'.callers[i]);
        assert begun - Hand(c) + Hand(c) == begun;
      }
    case FirstBye =>
      if c.Scheduled? {
        CoverageIsKept(t, begun, w.waived, TakeBye(c.id));
        BegunAfter(w.callers, i, Outside);
        NothingStarts(t, begun, TakeBye(c.id));
        assert begun - Hand(c) + {} == begun;
      }
  }

  lemma NothingStarts(t: Store, begun: set<Timer>, op: Op)
    requires !op.Begin?
    ensures begun + Starts(t, op) == begun
  {}

  /** Marking puts the new close in the caller's hand, in nobody else's, under a generation not seen before. */
  lemma MarkIsSafe(w: World, i: nat, id: Id, spend: bool)
    requires Safe(w) && i < |w.callers| && w.callers[i].Outside?
    ensures Safe(CallerStep(w, i, Mark(id, spend)))
  {
    hide Begun, Apart, Apply;
    var t, w' := w.history.store, CallerStep(w, i, Mark(id, spend));
    CoverageIsKept(t, Begun(w.callers), w.waived, Begin(id, spend));
    BegunAfter(w.callers, i, w'.callers[i]);
    assert Hand(w'.callers[i]) == Starts(t, Begin(id, spend));
  }

  lemma OtherStepIsSafe(w: World, op: Op)
    requires Safe(w)
    ensures Safe(Step(w, Other(op)))
  {
    hide Covered, Begun, Apart, Apply;
    if !op.Begin? && !op.Schedule? {
      CoverageIsKept(w.history.store, Begun(w.callers), w.waived, op);
      NothingStarts(w.history.store, Begun(w.callers), op);
    }
  }

  /** Over every interleaving of any number of callers of `begin` with one another and with every other
      operation: a closing entry has its deadline pending if and only if no caller that has marked it is still
      inside `begin` and its deadline was not waived. Only restored entries are waived, and a waived close never
      gets a deadline. */
  lemma {:induction false} EveryCloseIsCovered(n: nat, es: seq<Event>)
    ensures Safe(Run(n, es))
    ensures var w := Run(n, es);
            && (forall id, g :: IsClosing(w.history.store, id, g) ==>
                  (Timer(id, g) in w.history.store.timers <==>
                   Timer(id, g) !in Begun(w.callers) && Timer(id, g) !in w.waived))
            && (forall id, g :: IsClosing(w.history.store, id, g) && Timer(id, g) in w.waived ==>
                  w.history.store.entries[id].restored)
            && w.waived !! w.history.store.timers
  {
    hide Safe, CallerStep, Do, IsClosing;
    if es == [] {
      StartIsSafe(n);
    } else {
      var e := es[|es| - 1];
      EveryCloseIsCovered(n, es[..|es| - 1]);
      var w := Run(n, es[..|es| - 1]);
      match e
      case Other(op) => OtherStepIsSafe(w, op);
      case Call(i, action) => if i < |w.callers| { CallerStepIsSafe(w, i, action); }
    }
    SafeMeans(Run(n, es));
  }

  lemma SafeMeans(w: World)
    requires Safe(w)
    ensures forall id, g :: IsClosing(w.history.store, id, g) ==>
              (Timer(id, g) in w.history.store.timers <==>
               Timer(id, g) !in Begun(w.callers) && Timer(id, g) !in w.waived)
    ensures forall id, g :: IsClosing(w.history.store, id, g) && Timer(id, g) in w.waived ==>
              w.history.store.entries[id].restored
    ensures w.waived !! w.history.store.timers
  {
    hide Begun;
    forall id, g | IsClosing(w.history.store, id, g)
      ensures Timer(id, g) in w.history.store.timers <==>
              Timer(id, g) !in Begun(w.callers) && Timer(id, g) !in w.waived
    {
      DeadlineIffNotWaived(w.history.store, Begun(w.callers), w.waived, id, g);
    }
  }

  lemma StartIsSafe(n: nat)
    ensures Safe(Start(n))
  {
    assert Begun(Start(n).callers) == {};
  }

  lemma {:induction false} WaivedStaysWaived(n: nat, es: seq<Event>, more: seq<Event>)
    ensures Run(n, es).waived <= Run(n, es + more).waived
  {
    if more == [] {
      assert es + more == es;
    } else {
      var k := |more| - 1;
      WaivedStaysWaived(n, es, more[..k]);
      assert es + more == (es + more[..k]) + [more[k]];
      assert (es + more)[..|es + more| - 1] == es + more[..k];
    }
  }

  /** A waived close never gets a deadline, whatever happens later. */
  lemma WaivedForGood(n: nat, es: seq<Event>, more: seq<Event>, tm: Timer)
    requires tm in Run(n, es).waived
    ensures tm !in Run(n, es + more).history.store.timers
  {
    hide Run, Safe, Begun;
    WaivedStaysWaived(n, es, more);
    EveryCloseIsCovered(n, es + more);
  }

  /** When nobody is inside `begin`, a closing entry has its deadline pending if and only if it was not waived;
      so every one that was not restored has it. */
  lemma QuietMeansCovered(n: nat, es: seq<Event>)
    requires forall i :: 0 <= i < n ==> Run(n, es).callers[i].Outside?
    ensures var w := Run(n, es);
            && Covered(w.history.store, {}, w.waived)
            && (forall id, g :: IsClosing(w.history.store, id, g) ==>
                  (Timer(id, g) in w.history.store.timers <==> Timer(id, g) !in w.waived))
            && (forall id, g :: IsClosing(w.history.store, id, g) && !w.history.store.entries[id].restored ==>
                  Timer(id, g) in w.history.store.timers)
  {
    hide Run, Covered;
    EveryCloseIsCovered(n, es);
    assert Begun(Run(n, es).callers) == {};
  }

  // ---------------------------------------------------------------- what pending deadlines name

  /** The close is still under way, or over for good. */
  ghost predicate LiveOrOver(h: History, tm: Timer) {
    IsClosing(h.store, tm.id, tm.generation) || Track(h.log, tm.generation).Gone?
  }

  ghost predicate Named(w: World) {
    && Tracked(w.history.store, w.history.log)
    && (forall tm :: tm in w.history.store.timers ==> LiveOrOver(w.history, tm))
    && (forall tm :: tm in Begun(w.callers) ==> LiveOrOver(w.history, tm))
  }

  lemma StaysLiveOrOver(h: History, op: Op, tm: Timer)
    requires Tracked(h.store, h.log) && LiveOrOver(h, tm)
    ensures LiveOrOver(Do(h, op), tm)
  {
    hide Track, Accepted, Follows;
    StepTracked(h.store, h.log, op);
    OneMoreEvent(h.store, op);
    assert h.log + [] == h.log;
    if Apply(h.store, op).1 != [] {
      var e := Apply(h.store, op).1[0];
      assert Apply(h.store, op).1 == [e];
      TrackSnoc(h.log, e, tm.generation);
    }
  }

  lemma NewTimers(t: Store, op: Op, tm: Timer)
    ensures tm in Apply(t, op).0.timers ==> tm in t.timers || op == Schedule(tm.id, tm.generation)
  {}

  lemma BeginIsLive(h: History, id: Id, spend: bool)
    ensures id in h.store.entries && h.store.entries[id].life.Playing? ==>
              LiveOrOver(Do(h, Begin(id, spend)), Timer(id, h.store.counter))
  {}

  lemma DoStaysNamed(w: World, op: Op, callers: seq<Caller>)
    requires Named(w)
    requires op.Schedule? ==> LiveOrOver(w.history, Timer(op.id, op.generation))
    requires forall tm :: tm in Begun(callers) ==> tm in Begun(w.callers) || LiveOrOver(Do(w.history, op), tm)
    ensures forall waived :: Named(World(Do(w.history, op), callers, waived))
  {
    hide Track, Accepted, Tracked, LiveOrOver, Begun;
    var h := Do(w.history, op);
    DoTracked(w.history, op);
    forall tm | tm in h.store.timers ensures LiveOrOver(h, tm) {
      NewTimers(w.history.store, op, tm);
      StaysLiveOrOver(w.history, op, tm);
    }
    forall tm | tm in Begun(callers) ensures LiveOrOver(h, tm) {
      if tm in Begun(w.callers) { StaysLiveOrOver(w.history, op, tm); }
    }
  }

  lemma CallerStepStaysNamed(w: World, i: nat, action: Action)
    requires Named(w) && i < |w.callers|
    ensures Named(CallerStep(w, i, action))
  {
    hide Track, Accepted, Tracked, LiveOrOver, Begun, Apply;
    var c, w' := w.callers[i], CallerStep(w, i, action);
    BegunAtMost(w.callers, i, w'.callers[i]);
    assert forall tm :: tm in Hand(w'.callers[i]) <==> InHand(w'.callers[i], tm);
    assert w.callers[i := c] == w.callers;
    BegunIsHeld(w.callers, i);
    match action
    case Mark(id, spend) =>
      if c.Outside? {
        BeginIsLive(w.history, id, spend);
        DoStaysNamed(w, Begin(id, spend), w'.callers);
      }
    case SetDeadline => if c.Began? { DoStaysNamed(w, Schedule(c.id, c.generation), w'.callers); }
    case Force => if c.Forcing? { DoStaysNamed(w, Remove(c.id, c.generation), w'.callers); }
    case FirstBye => if c.Scheduled? { DoStaysNamed(w, TakeBye(c.id), w'.callers); }
    case _ =>
  }

  lemma StepStaysNamed(w: World, e: Event)
    requires Named(w)
    ensures Named(Step(w, e))
  {
    hide Named, CallerStep;
    match e
    case Other(op) => if !op.Begin? && !op.Schedule? { OtherStaysNamed(w, op); }
    case Call(i, action) => if i < |w.callers| { CallerStepStaysNamed(w, i, action); }
  }

  lemma OtherStaysNamed(w: World, op: Op)
    requires Named(w) && !op.Schedule?
    ensures Named(w.(history := Do(w.history, op)))
  {
    hide Track, Accepted, Tracked, LiveOrOver, Begun, Apply;
    DoStaysNamed(w, op, w.callers);
  }

  lemma BegunIsHeld(callers: seq<Caller>, i: nat)
    requires i < |callers|
    ensures callers[i].Began? || callers[i].Forcing? ==> Timer(callers[i].id, callers[i].generation) in Begun(callers)
  {}

  /** Over every such interleaving, each pending deadline names a close that is still under way or over for
      good; in the latter case it will do nothing. */
  lemma {:induction false} DeadlinesNameCloses(n: nat, es: seq<Event>)
    ensures Named(Run(n, es))
  {
    hide Step, Named;
    if es == [] {
      NothingNamed(n);
    } else {
      DeadlinesNameCloses(n, es[..|es| - 1]);
      StepStaysNamed(Run(n, es[..|es| - 1]), es[|es| - 1]);
    }
  }

  lemma NothingNamed(n: nat)
    ensures Named(Start(n))
  {
    EmptyTracked();
  }

  /** A deadline may indeed outlive its close: the peer hangs up between the marking and the scheduling. */
  lemma DeadlineMayOutliveItsClose(id: Id, e: Entry)
    ensures exists es :: Timer(id, 1) in Run(1, es).history.store.timers && id !in Run(1, es).history.store.entries
  {
    hide Run, Step;
    var es: seq<Event> := [];
    assert Run(1, es) == Start(1) by { RunNothing(1); }
    es := Extend(1, es, Other(Insert(id, e)));
    es := Extend(1, es, Call(0, Mark(id, true)));
    es := Extend(1, es, Other(Drop(id)));
    es := Extend(1, es, Call(0, SetDeadline));
    HangUpRun(id, e);
  }

  lemma HangUpRun(id: Id, e: Entry)
    ensures var w := Step(Step(Step(Step(Start(1), Other(Insert(id, e))), Call(0, Mark(id, true))), Other(Drop(id))),
              Call(0, SetDeadline));
            Timer(id, 1) in w.history.store.timers && id !in w.history.store.entries
  {}

  lemma Extend(n: nat, es: seq<Event>, e: Event) returns (es': seq<Event>)
    ensures Run(n, es') == Step(Run(n, es), e)
  {
    es' := es + [e];
    assert es'[..|es|] == es;
  }

  lemma RunNothing(n: nat)
    ensures Run(n, []) == Start(n)
  {}
}

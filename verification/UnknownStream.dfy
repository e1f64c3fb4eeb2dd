/**
  Rate limiting of unknown-stream notifications (stream/src/state/register.rs): one observation per key,
  created by the first packet and dropped when it has been idle long enough.
*/
module UnknownStreams {
  import opened Wrappers

  const CONFIRM_MS: nat := 2_000
  const MIN_PACKETS: nat := 3
  const COOLDOWN_MS: nat := 30_000
  const EXPIRE_MS: nat := 30_000

  datatype Observation = Observation(firstSeen: nat, lastSeen: nat, packets: nat, lastNotify: nat)

  function SaturatingSub(a: nat, b: nat): nat { if a < b then 0 else a - b }

  const U64_MAX: nat := 0xffff_ffff_ffff_ffff

  function Observe(o: Observation, now: nat): (Observation, bool) {
    var o1 := o.(lastSeen := now, packets := if o.packets < U64_MAX then o.packets + 1 else U64_MAX);
    var confirmed := o1.packets >= MIN_PACKETS && SaturatingSub(now, o1.firstSeen) >= CONFIRM_MS;
    var cooledDown := o1.lastNotify == 0 || SaturatingSub(now, o1.lastNotify) >= COOLDOWN_MS;
    if confirmed && cooledDown then (o1.(lastNotify := now), true) else (o1, false)
  }

  // ---------------------------------------------------------------- the register

  type Key = string

  class UnknownStreamMap {
    var observations: map<Key, Observation>
    var timers: map<Key, nat>

    constructor ()
      ensures observations == map[] && timers == map[]
    {
      observations, timers := map[], map[];
    }

    /** One packet of an unknown stream; true when a notification is sent. A new key gets an expiry timer. */
    method ObserveUnknownRtp(key: Key, now: nat) returns (notify: bool)
      modifies this
      ensures forall k :: k != key ==> (k in observations <==> k in old(observations))
      ensures forall k :: k != key && k in observations ==> observations[k] == old(observations)[k]
      ensures key in observations
      ensures (Some(observations[key]), notify) == PacketStep(Lookup(old(observations), key), now)
      ensures timers == if key in old(observations) then old(timers) else old(timers)[key := 30_000]
    {
      if key !in observations {
        observations := observations[key := Observation(now, now, 1, 0)];
        timers := timers[key := EXPIRE_MS];
        return false;
      }
      var o := observations[key];
      o := o.(lastSeen := now);
      o := o.(packets := if o.packets < U64_MAX then o.packets + 1 else U64_MAX);
      var confirmed := o.packets >= MIN_PACKETS && SaturatingSub(now, o.firstSeen) >= CONFIRM_MS;
      var cooledDown := o.lastNotify == 0 || SaturatingSub(now, o.lastNotify) >= COOLDOWN_MS;
      notify := confirmed && cooledDown;
      if notify {
        o := o.(lastNotify := now);
      }
      observations := observations[key := o];
    }

    /** The first half of the expiry timer of a key: is the observation idle? If it is not, or is gone, the
        timer is done; a live one is looked at again when it may have become idle. */
    method LookAtUnknownStream(key: Key, now: nat) returns (idle: bool)
      modifies `timers
      ensures idle == IsIdle(Lookup(observations, key), now)
      ensures key in observations && !idle ==>
                timers == old(timers)[key := 30_000 - SaturatingSub(now, observations[key].lastSeen)]
      ensures key !in observations || idle ==> timers == old(timers)
    {
      if key !in observations {
        return false;
      }
      var idleMs := SaturatingSub(now, observations[key].lastSeen);
      if idleMs >= EXPIRE_MS {
        return true;
      }
      timers := timers[key := EXPIRE_MS - idleMs];
      return false;
    }

    /** The second half, after the map has been let go of: the observation is removed, whatever it has become. */
    method RemoveUnknownStream(key: Key)
      modifies `observations
      ensures observations == old(observations) - {key}
    {
      observations := observations - {key};
    }

    /** Both halves without anything in between. */
    method ExpireUnknownStream(key: Key, now: nat)
      modifies this
      ensures forall k :: k != key ==> (k in observations <==> k in old(observations))
      ensures forall k :: k != key && k in observations ==> observations[k] == old(observations)[k]
      ensures Lookup(observations, key) ==
              if IsIdle(Lookup(old(observations), key), now) then None else Lookup(old(observations), key)
      ensures key in observations ==> key in timers && 0 < timers[key] <= 30_000
    {
      var idle := LookAtUnknownStream(key, now);
      if idle {
        RemoveUnknownStream(key);
      }
    }
  }

  function Lookup(m: map<Key, Observation>, key: Key): Option<Observation> {
    if key in m then Some(m[key]) else None
  }

  function PacketStep(o: Option<Observation>, now: nat): (Option<Observation>, bool) {
    match o
    case None => (Some(Observation(now, now, 1, 0)), false)
    case Some(obs) => (Some(Observe(obs, now).0), Observe(obs, now).1)
  }

  predicate IsIdle(o: Option<Observation>, now: nat) {
    o.Some? && SaturatingSub(now, o.value.lastSeen) >= EXPIRE_MS
  }

  // ---------------------------------------------------------------- runs on one key

  /** The timer looks first and removes later; packets may come in between. `doomed` says that a look has
      found the observation idle and its removal is still to come. */
  datatype State = State(obs: Option<Observation>, doomed: bool, clock: nat, notified: seq<nat>)

  datatype Event = Packet(now: nat) | Look(now: nat) | Remove

  function Step(s: State, e: Event): State {
    match e
    case Packet(now) =>
      var (o, notify) := PacketStep(s.obs, now);
      s.(obs := o, clock := now, notified := s.notified + if notify then [now] else [])
    case Look(now) => s.(doomed := IsIdle(s.obs, now), clock := now)
    case Remove => if s.doomed then s.(obs := None, doomed := false) else s
  }

  const START: State := State(None, false, 0, [])

  /** A look is good for one removal. */
  lemma RemovesOnce(s: State)
    ensures Step(Step(s, Remove), Remove) == Step(s, Remove)
    ensures !s.doomed ==> Step(s, Remove) == s
    ensures forall now :: Step(Step(s, Remove), Packet(now)) == Step(Step(Step(s, Remove), Packet(now)), Remove)
  {}

  function RunFrom(s: State, es: seq<Event>): State {
    if es == [] then s else Step(RunFrom(s, es[..|es| - 1]), es[|es| - 1])
  }

  function Run(es: seq<Event>): State {
    RunFrom(START, es)
  }

  /** The clock does not go back. */
  ghost predicate Timely(s: State, es: seq<Event>) {
    es != [] ==>
      Timely(s, es[..|es| - 1]) && (es[|es| - 1].Remove? || RunFrom(s, es[..|es| - 1]).clock <= es[|es| - 1].now)
  }

  /** No packet comes between a look that dooms an observation and its removal. */
  ghost predicate Uninterrupted(s: State, es: seq<Event>) {
    es != [] ==> Uninterrupted(s, es[..|es| - 1]) && (es[|es| - 1].Packet? ==> !RunFrom(s, es[..|es| - 1]).doomed)
  }

  ghost predicate Spaced(times: seq<nat>, gap: nat) {
    forall i, j :: 0 <= i < j < |times| ==> SpacedAt(times, gap, i, j)
  }

  ghost predicate SpacedAt(times: seq<nat>, gap: nat, i: nat, j: nat)
    requires i < |times| && j < |times|
  {
    times[i] + gap <= times[j]
  }

  lemma SpacedSnoc(times: seq<nat>, gap: nat, now: nat)
    requires Spaced(times, gap) && (times != [] ==> times[|times| - 1] + gap <= now)
    ensures Spaced(times + [now], gap)
  {
    var all := times + [now];
    forall i, j | 0 <= i < j < |all| ensures SpacedAt(all, gap, i, j) {
      if j < |times| {
        assert SpacedAt(times, gap, i, j);
      } else if i < |times| - 1 {
        assert SpacedAt(times, gap, i, |times| - 1);
      }
    }
  }

  /** What the state remembers about the last notification: it is in the observation, or it lies at least
      `gap - CONFIRM_MS` before the observation began (before now, when there is none). */
  ghost predicate Remembers(s: State, gap: nat) {
    && (match s.obs
        case Some(o) =>
          && o.firstSeen <= o.lastSeen <= s.clock && o.lastNotify <= o.lastSeen
          && (s.notified != [] && o.lastNotify == 0 ==> s.notified[|s.notified| - 1] + gap <= o.firstSeen + CONFIRM_MS)
          && (o.lastNotify != 0 ==> s.notified != [] && s.notified[|s.notified| - 1] == o.lastNotify)
        case None => s.notified != [] ==> s.notified[|s.notified| - 1] + gap <= s.clock + CONFIRM_MS)
    && (s.notified != [] ==> s.notified[|s.notified| - 1] <= s.clock)
    && Spaced(s.notified, gap)
  }

  lemma PacketRemembers(s: State, gap: nat, now: nat)
    requires Remembers(s, gap) && s.clock <= now && CONFIRM_MS <= gap <= COOLDOWN_MS
    ensures Remembers(Step(s, Packet(now)), gap)
  {
    hide Spaced;
    var t := Step(s, Packet(now));
    if t.notified != s.notified {
      SpacedSnoc(s.notified, gap, now);
      assert t.notified == s.notified + [now];
    }
  }

  /** A look has found the observation idle for the whole expiry time. */
  ghost predicate DoomedIsIdle(s: State) {
    s.doomed && s.obs.Some? ==> s.obs.value.lastSeen + EXPIRE_MS <= s.clock
  }

  lemma {:induction false} SpacingIsKept(s: State, es: seq<Event>)
    requires Remembers(s, COOLDOWN_MS) && DoomedIsIdle(s) && Timely(s, es) && Uninterrupted(s, es)
    ensures Remembers(RunFrom(s, es), COOLDOWN_MS) && DoomedIsIdle(RunFrom(s, es))
  {
    hide Spaced, PacketStep;
    if es != [] {
      var front, e := es[..|es| - 1], es[|es| - 1];
      SpacingIsKept(s, front);
      if e.Packet? {
        PacketRemembers(RunFrom(s, front), COOLDOWN_MS, e.now);
      }
    }
  }

  /** With an uninterrupted expiry, notifications for one key are at least 30 seconds apart, across any
      number of expiries and re-creations of the observation. */
  lemma NotificationsAreSpaced(es: seq<Event>)
    requires Timely(START, es) && Uninterrupted(START, es)
    ensures Spaced(Run(es).notified, COOLDOWN_MS)
  {
    hide Timely, Uninterrupted, RunFrom;
    NothingToSpace(COOLDOWN_MS);
    SpacingIsKept(START, es);
  }

  lemma NothingToSpace(gap: nat)
    ensures Spaced([], gap)
  {}

  /** However the expiry is interrupted, they are at least 2 seconds apart. */
  lemma {:induction false} NotificationsAreConfirmed(es: seq<Event>)
    requires Timely(START, es)
    ensures Spaced(Run(es).notified, CONFIRM_MS) && Remembers(Run(es), CONFIRM_MS)
  {
    hide Spaced, PacketStep;
    if es == [] {
      NothingToSpace(CONFIRM_MS);
    } else {
      var front, e := es[..|es| - 1], es[|es| - 1];
      NotificationsAreConfirmed(front);
      if e.Packet? {
        PacketRemembers(Run(front), CONFIRM_MS, e.now);
      }
    }
  }

  /** Each notification comes with at least three packets and two seconds of the present observation. */
  lemma NotificationIsEarned(es: seq<Event>, now: nat)
    requires Timely(START, es + [Packet(now)]) && Run(es + [Packet(now)]).notified != Run(es).notified
    ensures var o := Run(es + [Packet(now)]).obs;
            o.Some? && o.value.packets >= MIN_PACKETS && o.value.firstSeen + CONFIRM_MS <= now
  {
    assert (es + [Packet(now)])[..|es|] == es;
    assert Run(es).notified + [] == Run(es).notified;
  }

  // ---------------------------------------------------------------- exactly when a packet notifies

  /** The times of the packets of the present observation. */
  function PacketTimes(es: seq<Event>): seq<nat> {
    if es == [] then []
    else
      var front := es[..|es| - 1];
      match es[|es| - 1]
      case Packet(now) => PacketTimes(front) + [now]
      case Look(_) => PacketTimes(front)
      case Remove => if Run(front).doomed then [] else PacketTimes(front)
  }

  /** The times of the notifications since the present observation began. */
  function NotifyTimes(es: seq<Event>): seq<nat> {
    if es == [] then []
    else
      var front := es[..|es| - 1];
      match es[|es| - 1]
      case Packet(now) => NotifyTimes(front) + if |Run(es).notified| > |Run(front).notified| then [now] else []
      case Look(_) => NotifyTimes(front)
      case Remove => if Run(front).doomed then [] else NotifyTimes(front)
  }

  /** The observation, read off the history. */
  ghost predicate ObservationIs(o: Option<Observation>, packets: seq<nat>, notified: seq<nat>) {
    match o
    case None => packets == [] && notified == []
    case Some(o) =>
      && packets != [] && o.firstSeen == packets[0] && o.lastSeen == packets[|packets| - 1]
      && o.packets == (if |packets| < U64_MAX then |packets| else U64_MAX)
      && (notified == [] ==> o.lastNotify == 0)
      && (notified != [] ==> o.lastNotify == notified[|notified| - 1] > 0)
  }

  lemma {:induction false} ObservationTells(es: seq<Event>)
    requires Timely(START, es)
    ensures ObservationIs(Run(es).obs, PacketTimes(es), NotifyTimes(es))
  {
    if es != [] { ObservationTells(es[..|es| - 1]); }
  }

  /** A packet notifies if and only if it is at least the third of its observation, at least 2 seconds after the
      first, and either the first to do so or at least 30 seconds after the last that did. So a stream that keeps
      arriving is notified again, every 30 seconds. */
  lemma PacketNotifiesIff(es: seq<Event>, now: nat)
    requires Timely(START, es + [Packet(now)])
    ensures var packets, notified := PacketTimes(es), NotifyTimes(es);
            Run(es + [Packet(now)]).notified ==
            Run(es).notified +
            if |packets| >= 2 && packets[0] + 2_000 <= now
               && (notified == [] || notified[|notified| - 1] + 30_000 <= now) then [now] else []
  {
    assert (es + [Packet(now)])[..|es|] == es;
    ObservationTells(es);
    assert Run(es).notified + [] == Run(es).notified;
  }

  // ---------------------------------------------------------------- exactly when a removal is harmless

  /** Every timely, uninterrupted continuation keeps the 30 seconds. */
  ghost predicate SpacedFrom(s: State) {
    forall more {:trigger RunFrom(s, more)} :: Timely(s, more) && Uninterrupted(s, more) ==>
      Spaced(RunFrom(s, more).notified, COOLDOWN_MS)
  }

  /** The last notification lies so far back that a new observation cannot be confirmed too early. */
  predicate LongAgo(s: State) {
    s.notified != [] ==> s.notified[|s.notified| - 1] + COOLDOWN_MS <= s.clock + CONFIRM_MS
  }

  /** Wherever a timely run, however interrupted, has just removed the observation: all that follows keeps the 30
      seconds if and only if the run has kept them so far and its last notification is at least 28 seconds old.
      The expiry could check that before it removes. */
  lemma RemovalIsHarmlessIff(es: seq<Event>)
    requires Timely(START, es) && Run(es).obs.None? && !Run(es).doomed
    ensures SpacedFrom(Run(es)) <==> Spaced(Run(es).notified, COOLDOWN_MS) && LongAgo(Run(es))
  {
    hide Run, Spaced, RunFrom, Timely, Uninterrupted;
    var s := Run(es);
    NotificationsAreConfirmed(es);
    if Spaced(s.notified, COOLDOWN_MS) && LongAgo(s) {
      assert Remembers(s, COOLDOWN_MS);
      forall more | Timely(s, more) && Uninterrupted(s, more) ensures Spaced(RunFrom(s, more).notified, COOLDOWN_MS) {
        SpacingIsKept(s, more);
      }
    } else if SpacedFrom(s) {
      NothingFrom(s);
      EarlyRenotification(s);
    }
  }

  lemma NothingFrom(s: State)
    ensures RunFrom(s, []) == s && Timely(s, []) && Uninterrupted(s, [])
  {}

  lemma Extend(s: State, es: seq<Event>, e: Event)
    requires Timely(s, es) && Uninterrupted(s, es)
    requires e.Remove? || RunFrom(s, es).clock <= e.now
    requires e.Packet? ==> !RunFrom(s, es).doomed
    ensures RunFrom(s, es + [e]) == Step(RunFrom(s, es), e) && Timely(s, es + [e]) && Uninterrupted(s, es + [e])
  {
    assert (es + [e])[..|es|] == es;
  }

  /** Two packets at once and one two seconds later notify again, too early for a recent notification. */
  lemma EarlyRenotification(s: State)
    requires s.obs.None? && !s.doomed && Remembers(s, CONFIRM_MS) && !LongAgo(s)
    ensures !SpacedFrom(s)
  {
    hide RunFrom, Timely, Uninterrupted, Spaced;
    var t := s.clock;
    NothingFrom(s);
    Extend(s, [], Packet(t));
    Extend(s, [] + [Packet(t)], Packet(t));
    var two := [] + [Packet(t)] + [Packet(t)];
    assert RunFrom(s, two).obs == Some(Observation(t, t, 2, 0)) && RunFrom(s, two).notified + [] == s.notified;
    Extend(s, two, Packet(t + CONFIRM_MS));
    var three := two + [Packet(t + CONFIRM_MS)];
    var again := RunFrom(s, three).notified;
    assert again == s.notified + [t + CONFIRM_MS];
    TooClose(again, |s.notified| - 1);
  }

  lemma TooClose(times: seq<nat>, i: nat)
    requires i + 1 < |times| && times[i] + COOLDOWN_MS > times[i + 1]
    ensures !Spaced(times, COOLDOWN_MS)
  {
    assert !SpacedAt(times, COOLDOWN_MS, i, i + 1);
  }

  /** A packet between look and removal breaks the 30 seconds: the notification it causes is forgotten with
      the observation, and the next one comes two seconds later. */
  lemma InterruptedExpiryNotifiesTwice()
    ensures exists es :: Timely(START, es) && Run(es).notified == [32_000, 34_000]
  {
    hide RunFrom, Timely;
    NothingFrom(START);
    var es: seq<Event> := [];
    es := Next(es, Packet(1_000));
    es := Next(es, Packet(1_000));
    assert Run(es).obs == Some(Observation(1_000, 1_000, 2, 0));
    es := Next(es, Look(31_000));
    es := Next(es, Packet(32_000));
    assert Run(es).notified == [32_000] && Run(es).doomed;
    es := Next(es, Remove);
    es := Next(es, Packet(32_000));
    es := Next(es, Packet(32_000));
    assert Run(es).obs == Some(Observation(32_000, 32_000, 2, 0)) && Run(es).notified == [32_000];
    es := Next(es, Packet(34_000));
  }

  lemma Next(es: seq<Event>, e: Event) returns (es': seq<Event>)
    requires Timely(START, es) && (e.Remove? || Run(es).clock <= e.now)
    ensures Run(es') == Step(Run(es), e) && Timely(START, es')
  {
    es' := es + [e];
    assert es'[..|es|] == es;
  }
}

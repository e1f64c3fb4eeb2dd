/**
  What each actor of the dialog protocol does to the record when nobody comes between its steps
  (session/src/gb/sip/command.rs, service/api_serv.rs, service/dialog_recovery.rs, service/stream_close.rs,
  service/hook_serv.rs), and what it leaves alone.
*/
module DialogActors {
  import opened Wrappers
  import opened DialogSessions
  import opened DialogColumns
  import opened DialogProtocol

  const EIGHT_HOURS: int := 28_800_000

  /** The record and a clock that is not behind it. */
  ghost predicate At(w: World, now: int) {
    Validate(w.row) && w.row.updatedAt <= now && w.row.lastSeenAt <= now
  }

  ghost predicate Acts(w: World, i: nat, role: Role, phase: Phase) {
    i < |w.actors| && w.actors[i] == Actor(role, w.row.signalNodeId, phase)
  }

  lemma ValidNamesAreCallable(s: Session)
    requires Validate(s)
    ensures ValidLen(s.streamId, 64) && ValidLen(s.signalNodeId, 64)
  {}

  /** One call of an actor that is up to date and follows an edge is made. */
  lemma CallIsMade(w: World, i: nat, now: int, choice: Choice, c: Call)
    requires i < |w.actors| && CallOf(w.row.streamId, w.actors[i], now, choice) == Some(c)
    requires WellFormed(c) && UpToDate(w.row, c) && exists to :: Edge(w.row.state, c.change, to)
    ensures var w' := Step(w, Act(i, now, choice));
            w'.row == Updated(w.row, c.change) && w'.actors[i].phase == NextPhase(w.actors[i], c, true)
  {
    hide WellFormed, UpToDate, Edge, CallOf;
    WinsAlongEdges(w.row, c);
  }

  /** The call of an actor, as its transition of the state. */
  lemma TransitionIsMade(w: World, i: nat, now: int, choice: Choice, version: int, next: State)
    requires i < |w.actors| && Validate(w.row) && version == w.row.version && w.row.updatedAt <= now
    requires CallOf(w.row.streamId, w.actors[i], now, choice) ==
             Some(Call(w.row.streamId, w.row.signalNodeId, version, Transition(w.row.state, next, now)))
    requires Edge(w.row.state, Transition(w.row.state, next, now), next)
    ensures var w' := Step(w, Act(i, now, choice));
            && w'.row == w.row.(state := next, updatedAt := now, version := w.row.version + 1)
            && w'.actors[i].phase == Done(true)
  {
    hide CallOf, Validate, ValidLen;
    ValidNamesAreCallable(w.row);
    ValidVersion(w.row);
    var change := Transition(w.row.state, next, now);
    CallIsMade(w, i, now, choice, Call(w.row.streamId, w.row.signalNodeId, version, change));
  }

  lemma ValidVersion(s: Session)
    requires Validate(s)
    ensures s.version >= 0 && s.localCseq > 0
  {}

  // ---------------------------------------------------------------- the invitation

  /** An answer that fits the invitation establishes the dialog with everything the answer says, for eight hours. */
  lemma AnswerEstablishes(w: World, i: nat, now: int, answer: Answer)
    requires At(w, now) && w.row.state.Inviting? && w.row.version == 0
    requires Acts(w, i, Inviter(answer.identity), Idle)
    requires ValidateFields(EstablishingFields(answer, now)) && StorableRoutes(answer.routeSet)
    ensures var w' := Step(w, Act(i, now, Answered(answer)));
            var t := w'.row;
            && w'.actors[i].phase == Done(true) && t.state.Established? && t.version == 1
            && t.remoteTag == Some(answer.remoteTag) && t.localCseq == answer.identity.cseq
            && t.remoteCseq == answer.remoteCseq && t.contactUri == answer.contactUri && t.routeSet == answer.routeSet
            && t.localAddr == answer.localAddr && t.remoteAddr == answer.remoteAddr
            && t.establishedAt == Some(now) && t.lastSeenAt == now && t.updatedAt == now
            && t.expireAt == now + EIGHT_HOURS
  {
    hide Validate, ValidateFields, StorableRoutes, ValidLen;
    ValidNamesAreCallable(w.row);
    CreatedBefore(w.row);
    var c := Call(w.row.streamId, w.row.signalNodeId, 0, MarkEstablished(EstablishingFields(answer, now)));
    assert Edge(w.row.state, c.change, Established);
    CallIsMade(w, i, now, Answered(answer), c);
  }

  lemma CreatedBefore(s: Session)
    requires Validate(s)
    ensures s.createdAt <= s.updatedAt
  {}

  /** A refusal ends it in the state the refusal calls for; a rollback in TERMINATED when the BYE was confirmed, else
      in ORPHAN. */
  lemma InvitationEnds(w: World, i: nat, now: int, identity: Identity, next: State, choice: Choice)
    requires At(w, now) && w.row.state.Inviting? && w.row.version == 0 && (next.Terminated? || next.Orphan?)
    ensures Acts(w, i, Inviter(identity), Idle) ==>
              var t := Step(w, Act(i, now, Refused(next))).row;
              t == w.row.(state := next, updatedAt := now, version := 1)
    ensures Acts(w, i, Inviter(identity), RollingBack) ==>
              var t := Step(w, Act(i, now, choice)).row;
              t == w.row.(state := if choice == Confirmed then Terminated else Orphan, updatedAt := now, version := 1)
  {
    hide Validate;
    if Acts(w, i, Inviter(identity), Idle) {
      TransitionIsMade(w, i, now, Refused(next), 0, next);
    }
    if Acts(w, i, Inviter(identity), RollingBack) {
      TransitionIsMade(w, i, now, choice, 0, if choice == Confirmed then Terminated else Orphan);
    }
  }

  // ---------------------------------------------------------------- the actors that read first

  /** The world after actor `i` has read the record. */
  lemma AfterRead(w: World, i: nat)
    requires i < |w.actors| && !w.actors[i].role.Inviter? && (w.actors[i].phase.Idle? || w.actors[i].phase.Done?)
    ensures var w' := Step(w, Read(i));
            w'.row == w.row && w'.actors == w.actors[i := w.actors[i].(phase := HasRead(w.row))]
  {}

  /** The device hangs up; recovery gives up or finds the media gone; a beginning close forces the stream out: each
      leaves the record in its own state and nothing else changed. */
  lemma ReadersEndIt(w: World, i: nat, now: int, choice: Choice)
    requires At(w, now) && i < |w.actors| && w.actors[i].phase.Idle? && w.actors[i].me == w.row.signalNodeId
    ensures var s, t := w.row, Step(Step(w, Read(i)), Act(i, now, choice)).row;
            && (w.actors[i].role.PeerHangup? && (s.state.Established? || s.state.Terminating?) ==>
                  t == s.(state := Terminated, updatedAt := now, version := s.version + 1))
            && (w.actors[i].role.ForcedCleanup? && s.state in {Inviting, Established, Terminating} ==>
                  t == s.(state := Orphan, updatedAt := now, version := s.version + 1))
            && (w.actors[i].role.Recovery? && choice.GiveUp? && s.state in {Inviting, Established, Terminating} ==>
                  t == s.(state := Orphan, updatedAt := now, version := s.version + 1))
            && (w.actors[i].role.Recovery? && choice.MediaOffline? && s.state.Established? ==>
                  t == s.(state := Terminating, updatedAt := now, version := s.version + 1))
  {
    hide Validate, Step;
    var role := w.actors[i].role;
    if !role.Inviter? {
      AfterRead(w, i);
      var w1 := Step(w, Read(i));
      if role.PeerHangup? && Alive(w.row.state) {
        TransitionIsMade(w1, i, now, choice, w.row.version, Terminated);
      } else if role.ForcedCleanup? && !IsTerminal(w.row.state) {
        TransitionIsMade(w1, i, now, choice, w.row.version, Orphan);
      } else if role.Recovery? && choice.GiveUp? && !IsTerminal(w.row.state) {
        TransitionIsMade(w1, i, now, choice, w.row.version, Orphan);
      } else if role.Recovery? && choice.MediaOffline? && w.row.state.Established? {
        TransitionIsMade(w1, i, now, choice, w.row.version, Terminating);
      }
    }
  }

  /** Media activity keeps a live dialog for another eight hours. */
  lemma TouchProlongs(w: World, i: nat, now: int, choice: Choice)
    requires At(w, now) && Acts(w, i, Toucher, Idle) && (w.row.state.Established? || w.row.state.Terminating?)
    ensures var s, t := w.row, Step(Step(w, Read(i)), Act(i, now, choice)).row;
            t == s.(lastSeenAt := now, expireAt := now + EIGHT_HOURS, updatedAt := now, version := s.version + 1)
  {
    hide Validate, Step, ValidLen;
    AfterRead(w, i);
    ValidNamesAreCallable(w.row);
    ValidVersion(w.row);
    var c := Call(w.row.streamId, w.row.signalNodeId, w.row.version, Touch(now, now + EIGHT_HOURS));
    assert Edge(w.row.state, c.change, w.row.state);
    CallIsMade(Step(w, Read(i)), i, now, choice, c);
  }

  // ---------------------------------------------------------------- the requests

  lemma ReservationIsMade(w: World, i: nat, now: int, choice: Choice, change: Change)
    requires At(w, now) && i < |w.actors| && w.row.localCseq < I32_MAX
    requires CallOf(w.row.streamId, w.actors[i], now, choice) ==
             Some(Call(w.row.streamId, w.row.signalNodeId, w.row.version, change))
    requires change == BeginTerminating(w.row.localCseq, w.row.localCseq + 1, now)
             || change == ReserveLocalCseq(w.row.localCseq, w.row.localCseq + 1, now)
    requires exists to :: Edge(w.row.state, change, to)
    ensures var w' := Step(w, Act(i, now, choice));
            && w'.row == w.row.(localCseq := w.row.localCseq + 1, updatedAt := now, version := w.row.version + 1,
                                state := if change.BeginTerminating? then Terminating else w.row.state)
            && w'.actors[i].phase == Reserved(w.row.version + 1, w.row.localCseq + 1)
  {
    hide CallOf, Validate, ValidLen, Edge;
    ValidNamesAreCallable(w.row);
    ValidVersion(w.row);
    CallIsMade(w, i, now, choice, Call(w.row.streamId, w.row.signalNodeId, w.row.version, change));
  }

  /** A seek or speed request on an established dialog takes the next CSeq and leaves everything else. */
  lemma RequestReserves(w: World, i: nat, now: int, choice: Choice)
    requires At(w, now) && Acts(w, i, Requester, Idle) && w.row.state.Established? && w.row.localCseq < I32_MAX
    ensures var s, t := w.row, Step(Step(w, Read(i)), Act(i, now, choice)).row;
            t == s.(localCseq := s.localCseq + 1, updatedAt := now, version := s.version + 1)
  {
    hide Validate, Step;
    AfterRead(w, i);
    var change := ReserveLocalCseq(w.row.localCseq, w.row.localCseq + 1, now);
    assert Edge(w.row.state, change, w.row.state);
    ReservationIsMade(Step(w, Read(i)), i, now, choice, change);
  }

  lemma ByeGoesOut(w: World, i: nat, now: int, choice: Choice)
    requires At(w, now) && Acts(w, i, Stopper, Idle) && w.row.state in {Established, Terminating}
    requires w.row.localCseq < I32_MAX
    ensures var s := w.row;
            var sent := Step(Step(Step(w, Read(i)), Act(i, now, choice)), SendNative(i, true));
            && sent.row ==
               s.(localCseq := s.localCseq + 1, state := Terminating, updatedAt := now, version := s.version + 1)
            && Acts(sent, i, Stopper, Awaiting(s.version + 1))
  {
    hide Validate;
    AfterRead(w, i);
    var w1 := Step(w, Read(i));
    var cseq := w.row.localCseq;
    var change := if w.row.state.Established? then BeginTerminating(cseq, cseq + 1, now)
      else ReserveLocalCseq(cseq, cseq + 1, now);
    assert Edge(w.row.state, change, Terminating);
    ReservationIsMade(w1, i, now, choice, change);
    ByeIsSent(w1, i, now, choice);
  }

  lemma ByeIsSent(w: World, i: nat, now: int, choice: Choice)
    requires i < |w.actors| && Step(w, Act(i, now, choice)).actors[i].phase.Reserved?
    ensures var w' := Step(w, Act(i, now, choice));
            var sent := Step(w', SendNative(i, true));
            sent.row == w'.row
            && sent.actors[i] == w.actors[i].(phase := Awaiting(w'.actors[i].phase.version))
  {
    hide CallOf, Wins, Cas, NextPhase, QuietPhase;
  }

  /** A stop, of an established dialog or once more of a terminating one: the record is TERMINATING under the next CSeq
      when the BYE goes out, TERMINATED when the device has confirmed it, and left as it is when it has not. */
  lemma StopEnds(w: World, i: nat, t0: int, choice: Choice, t1: int, reply: Choice)
    requires At(w, t0) && Acts(w, i, Stopper, Idle) && w.row.state in {Established, Terminating}
    requires w.row.localCseq < I32_MAX && t0 <= t1
    ensures var s := w.row;
            var sent := Step(Step(Step(w, Read(i)), Act(i, t0, choice)), SendNative(i, true));
            var ended := Step(sent, Act(i, t1, reply));
            && sent.row ==
               s.(localCseq := s.localCseq + 1, state := Terminating, updatedAt := t0, version := s.version + 1)
            && ended.row == (if reply == Confirmed
                             then sent.row.(state := Terminated, updatedAt := t1, version := s.version + 2)
                             else sent.row)
            && ended.actors[i].phase == Done(reply == Confirmed)
  {
    hide Validate, Step;
    ByeGoesOut(w, i, t0, choice);
    var sent := Step(Step(Step(w, Read(i)), Act(i, t0, choice)), SendNative(i, true));
    if reply == Confirmed {
      TerminatingIsValid(w.row, t0);
      TransitionIsMade(sent, i, t1, Confirmed, w.row.version + 1, Terminated);
    } else {
      SilenceChangesNothing(sent, i, t1, reply);
    }
  }

  lemma SilenceChangesNothing(w: World, i: nat, now: int, reply: Choice)
    requires i < |w.actors| && w.actors[i].phase.Awaiting? && !w.actors[i].role.Inviter? && reply != Confirmed
    ensures var w' := Step(w, Act(i, now, reply)); w'.row == w.row && w'.actors[i].phase == Done(false)
  {}

  lemma TerminatingIsValid(s: Session, now: int)
    requires Validate(s) && s.state in {Established, Terminating} && s.updatedAt <= now
    ensures Validate(s.(localCseq := s.localCseq + 1, state := Terminating, updatedAt := now, version := s.version + 1))
  {
    hide ValidLen, ValidSipUri, ValidAddr, ValidRouteSet;
  }

  /** A request that was answered, or not, is over: only the confirmation of a stop is recorded. */
  lemma AnswersAreNotRecorded(w: World, i: nat, now: int, reply: Choice)
    requires i < |w.actors| && w.actors[i].phase.Awaiting? && w.actors[i].role.Requester?
    ensures var w' := Step(w, Act(i, now, reply)); w'.row == w.row && w'.actors[i].phase == Done(reply == Confirmed)
  {}

  // ---------------------------------------------------------------- who makes a call

  /** The states in which an actor that has read the record has something to do with it. */
  predicate Concerns(role: Role, s: State, choice: Choice) {
    || role.Toucher?
    || (role.Requester? && s == Established)
    || (role in {Stopper, PeerHangup} && s in {Established, Terminating})
    || (role.ForcedCleanup? && s in {Inviting, Established, Terminating})
    || (role.Recovery? && choice == GiveUp && s in {Inviting, Established, Terminating})
    || (role.Recovery? && choice == MediaOffline && s == Established)
  }

  /** Everything in its turn: a reader that is not at rest does not read, an actor that is over does nothing, and one
      that has reserved a number does nothing but reload and send. */
  lemma EverythingInTurn(w: World, i: nat, now: int, choice: Choice)
    requires i < |w.actors|
    ensures !(w.actors[i].phase.Idle? || w.actors[i].phase.Done?) ==> Step(w, Read(i)) == w
    ensures w.actors[i].phase.Done? ==> Step(w, Act(i, now, choice)) == w
    ensures w.actors[i].phase.Reserved? || w.actors[i].phase.Loaded? ==> Step(w, Act(i, now, choice)) == w
  {
    var a := w.actors[i];
    assert w.actors[i := a] == w.actors;
  }

  /** An actor that has read a record makes a call if and only if its state concerns it and the record is its own
      node's; media activity and a beginning close do not ask whose it is. */
  lemma ReadersCallIff(streamId: string, a: Actor, now: int, choice: Choice)
    requires !a.role.Inviter? && a.phase.HasRead?
    ensures CallOf(streamId, a, now, choice).Some? <==>
            && Concerns(a.role, a.phase.row.state, choice)
            && (a.role in {Toucher, ForcedCleanup} || a.phase.row.signalNodeId == a.me)
  {}

  /** Apart from those, calls come from an inviter that got the persisted identity or a final refusal or rolls back,
      and from a stop that was confirmed. */
  lemma OtherCallsIff(streamId: string, a: Actor, now: int, choice: Choice)
    requires a.role.Inviter? || !a.phase.HasRead?
    ensures CallOf(streamId, a, now, choice).Some? <==>
            || (a.role == Stopper && a.phase.Awaiting? && choice == Confirmed)
            || (a.role.Inviter? && a.phase == RollingBack)
            || (a.role.Inviter? && a.phase == Idle && choice.Answered? && choice.answer.identity == a.role.identity)
            || (a.role.Inviter? && a.phase == Idle && choice.Refused? && choice.next in {Terminated, Orphan})
  {}

  /** After an answer for another identity, and after one whose establishing update lost, the invitation is rolled
      back. */
  lemma InvitationRollsBackIff(w: World, i: nat, now: int, choice: Choice)
    requires i < |w.actors| && w.actors[i].role.Inviter? && w.actors[i].phase == Idle
    ensures var w' := Step(w, Act(i, now, choice));
            w'.actors[i].phase == RollingBack <==>
            || choice.RefusedEstablished?
            || (choice.Answered? && w'.row == w.row)
  {
    hide WellFormed, Guard, Validate;
  }

  /** A request of a restored dialog can be made of every valid established record, but over TCP only while the device
      is connected, and only for a CSeq of at most 32 bits. */
  lemma RestoredRequestIff(s: Session, connected: bool)
    requires Validate(s) && (s.state.Established? || s.state.Terminating?)
    ensures SnapshotCseq(s, connected) ==
            if (s.transport == Tcp ==> connected) && s.localCseq < 0x1_0000_0000 then Some(s.localCseq) else None
  {
    hide ValidLen, ValidSipUri, ValidRouteSet;
  }
}

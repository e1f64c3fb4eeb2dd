/**
  The actors that share one durable dialog record, each a read followed later by a compare-and-swap, and
  what every interleaving of their steps keeps (session/src/gb/sip/command.rs, service/api_serv.rs,
  service/dialog_recovery.rs, service/stream_close.rs, service/hook_serv.rs).
*/
module DialogProtocol {
  import opened Wrappers
  import opened DialogSessions

  const DIALOG_EXPIRE_MS: int := 8 * 3600 * 1000
  const U32_MAX: int := 0xffff_ffff

  /** What an INVITE transaction persists about itself before it is sent. */
  datatype Identity = Identity(callId: string, localTag: string, cseq: int, transport: Transport)

  /** The dialog snapshot in the answer to an INVITE. */
  datatype Answer = Answer(
    identity: Identity, remoteTag: string, remoteCseq: Option<int>, contactUri: Option<string>,
    routeSet: seq<string>, localAddr: Addr, remoteAddr: Addr)

  datatype Role =
    | Inviter(identity: Identity)
    | Requester            // INFO: seek and speed
    | Stopper              // BYE
    | PeerHangup           // a BYE received from the device
    | Recovery             // startup or unknown-stream recovery
    | ForcedCleanup        // a close that could not be set up: `begin` forced the stream out
    | Toucher              // media activity

  /** What an actor remembers between its steps. Of a reservation the code keeps only the version it made;
      `own`, the number it reserved, is here to speak about it and decides nothing. */
  datatype Phase =
    | Idle
    | HasRead(row: Session)
    | Reserved(version: int, own: int)
    | Loaded(version: int, own: int, row: Session)
    | Awaiting(version: int)
    | RollingBack
    | Done(won: bool)

  datatype Actor = Actor(role: Role, me: string, phase: Phase)

  /** What the outside world decides at a step: how the device answered, what the media node reported. */
  datatype Choice =
    | Answered(answer: Answer) | Refused(next: State) | RefusedEstablished
    | Confirmed | Unanswered | GiveUp | MediaOffline

  /** A request on its way: the number its sender had reserved and the number it carries. */
  datatype Request = Request(actor: nat, own: int, cseq: int)

  /** `reserved` are the numbers of the winning reservations, in order. */
  datatype World = World(row: Session, actors: seq<Actor>, reserved: seq<int>, sent: seq<Request>)

  datatype Event =
    | Read(actor: nat)
    | Act(actor: nat, now: int, choice: Choice)
    | Reload(actor: nat)                                    // a restored dialog is read again before sending
    | Send(actor: nat, connected: bool, accepted: bool)     // with the number of the reloaded record
    | SendNative(actor: nat, connected: bool)               // the SIP runtime numbers the request itself

  function EstablishingFields(a: Answer, now: int): EstablishedFields {
    EstablishedFields(a.remoteTag, a.identity.cseq, a.remoteCseq, a.contactUri, a.routeSet, a.localAddr, a.remoteAddr,
                      now, now, now + DIALOG_EXPIRE_MS, now)
  }

  /** The reservation an in-dialog request makes, by the state that was read; None when it is refused. */
  function ReservationOf(role: Role, row: Session, now: int): Option<Change>
    requires role.Requester? || role.Stopper?
  {
    match (role, row.state)
    case (Requester, Established) => Some(ReserveLocalCseq(row.localCseq, row.localCseq + 1, now))
    case (Stopper, Terminating) => Some(ReserveLocalCseq(row.localCseq, row.localCseq + 1, now))
    case (Stopper, Established) => Some(BeginTerminating(row.localCseq, row.localCseq + 1, now))
    case _ => None
  }

  predicate Alive(s: State) {
    s.Established? || s.Terminating?
  }

  function Reserving(streamId: string, a: Actor, row: Session, now: int): Option<Call>
    requires a.role.Requester? || a.role.Stopper?
  {
    if row.signalNodeId != a.me then None
    else
      match ReservationOf(a.role, row, now)
      case None => None
      case Some(change) => Some(Call(streamId, row.signalNodeId, row.version, change))
  }

  /** The INVITE transaction: an answer whose snapshot is not the persisted identity is rolled back, and so is
      an establishing update that lost. */
  function Inviting(streamId: string, a: Actor, now: int, choice: Choice): Option<Change>
    requires a.role.Inviter?
  {
    match a.phase
    case Idle =>
      (match choice
       case Answered(answer) =>
         if answer.identity == a.role.identity then Some(MarkEstablished(EstablishingFields(answer, now))) else None
       case Refused(next) => if IsTerminal(next) then Some(Transition(State.Inviting, next, now)) else None
       case _ => None)
    case RollingBack => Some(Transition(State.Inviting, if choice.Confirmed? then Terminated else Orphan, now))
    case _ => None
  }

  function FromRead(streamId: string, a: Actor, row: Session, now: int, choice: Choice): Option<Call>
    requires !a.role.Inviter?
  {
    var call := (change: Change) => Some(Call(streamId, row.signalNodeId, row.version, change));
    match a.role
    case Requester => Reserving(streamId, a, row, now)
    case Stopper => Reserving(streamId, a, row, now)
    case PeerHangup =>
      if row.signalNodeId == a.me && Alive(row.state) then call(Transition(row.state, Terminated, now)) else None
    case Recovery =>
      if row.signalNodeId != a.me || IsTerminal(row.state) then None
      else if choice.MediaOffline? then
        if row.state.Established? then call(Transition(Established, Terminating, now)) else None
      else if choice.GiveUp? then call(Transition(row.state, Orphan, now))
      else None
    case ForcedCleanup =>
      if IsTerminal(row.state) then None else call(Transition(row.state, Orphan, now))
    case Toucher => call(Touch(now, now + DIALOG_EXPIRE_MS))
  }

  /** The call the actor makes at an `Act`, if any. */
  function CallOf(streamId: string, a: Actor, now: int, choice: Choice): Option<Call> {
    if a.role.Inviter? then
      match Inviting(streamId, a, now, choice)
      case None => None
      case Some(change) => Some(Call(streamId, a.me, 0, change))
    else
      match a.phase
      case HasRead(row) => FromRead(streamId, a, row, now, choice)
      case Awaiting(version) =>
        if a.role.Stopper? && choice.Confirmed? then
          Some(Call(streamId, a.me, version, Transition(Terminating, Terminated, now)))
        else None
      case _ => None
  }

  /** Between reserving a number and sending. */
  predicate Pending(a: Actor) {
    a.phase.Reserved? || a.phase.Loaded?
  }

  /** After an `Act` that makes no call. */
  function QuietPhase(a: Actor, choice: Choice): Phase {
    if Pending(a) || a.phase.Done? then a.phase
    else if a.role.Inviter? && a.phase.Idle? && (choice.Answered? || choice.RefusedEstablished?) then RollingBack
    else Done(a.phase.Awaiting? && choice.Confirmed?)
  }

  /** After an `Act` that makes one. */
  function NextPhase(a: Actor, c: Call, won: bool): Phase {
    if Reserves(c.change) && won then Reserved(c.version + 1, c.change.nextCseq)
    else if c.change.MarkEstablished? && !won then RollingBack
    else Done(won)
  }

  /** The number in the snapshot of a reloaded record, when a request can be made of it. */
  function SnapshotCseq(row: Session, connected: bool): Option<int> {
    if (row.transport.Tcp? && !connected) || row.remoteTag.None? || !(0 <= row.localCseq <= U32_MAX)
       || !row.localAddr.parses || !row.remoteAddr.parses then None
    else Some(row.localCseq)
  }

  function Step(w: World, e: Event): (w': World)
    ensures |w'.actors| == |w.actors|
  {
    if e.actor >= |w.actors| then w
    else
      var a := w.actors[e.actor];
      var become := (phase: Phase) => w.(actors := w.actors[e.actor := a.(phase := phase)]);
      match e
      case Read(_) =>
        if a.role.Inviter? || !(a.phase.Idle? || a.phase.Done?) then w else become(HasRead(w.row))
      case Act(_, now, choice) =>
        (match CallOf(w.row.streamId, a, now, choice)
         case None => become(QuietPhase(a, choice))
         case Some(c) =>
           var won := Wins(w.row, c);
           become(NextPhase(a, c, won)).(
             row := Cas(w.row, c),
             reserved := w.reserved + if won && Reserves(c.change) then [c.change.nextCseq] else []))
      case Reload(_) =>
        if a.phase.Reserved? then become(Loaded(a.phase.version, a.phase.own, w.row)) else w
      case Send(i, connected, accepted) =>
        if !a.phase.Loaded? then w
        else
          (match SnapshotCseq(a.phase.row, connected)
           case Some(cseq) =>
             if accepted then become(Awaiting(a.phase.version)).(sent := w.sent + [Request(i, a.phase.own, cseq)])
             else become(Done(false))
           case None => become(Done(false)))
      case SendNative(_, connected) =>
        if !a.phase.Reserved? then w else become(if connected then Awaiting(a.phase.version) else Done(false))
  }

  function Run(w: World, es: seq<Event>): (w': World)
    ensures |w'.actors| == |w.actors|
  {
    if es == [] then w else Step(Run(w, es[..|es| - 1]), es[|es| - 1])
  }

  // ---------------------------------------------------------------- a run is a sequence of calls

  function CallAt(w: World, e: Event): seq<Call> {
    if e.actor >= |w.actors| || !e.Act? then []
    else
      match CallOf(w.row.streamId, w.actors[e.actor], e.now, e.choice)
      case None => []
      case Some(c) => [c]
  }

  /** The calls the actors make during a run. */
  function Issued(w: World, es: seq<Event>): seq<Call> {
    if es == [] then [] else Issued(w, es[..|es| - 1]) + CallAt(Run(w, es[..|es| - 1]), es[|es| - 1])
  }

  lemma CallsSnoc(s: Session, cs: seq<Call>, c: Call)
    ensures Calls(s, cs + [c]) == Cas(Calls(s, cs), c)
    ensures HandedOut(s, cs + [c]) ==
            HandedOut(s, cs) + if Reserves(c.change) && Wins(Calls(s, cs), c) then [c.change.nextCseq] else []
    ensures WinCount(s, cs + [c]) == WinCount(s, cs) + if Wins(Calls(s, cs), c) then 1 else 0
  {
    assert (cs + [c])[..|cs|] == cs;
  }

  /** The number that the call of a step reserves, if it wins one. */
  function Handed(row: Session, cs: seq<Call>): seq<int> {
    if cs != [] && Reserves(cs[0].change) && Wins(row, cs[0]) then [cs[0].change.nextCseq] else []
  }

  lemma StepIsCall(w: World, e: Event)
    ensures var cs, w' := CallAt(w, e), Step(w, e);
            && |cs| <= 1 && w'.row == (if cs == [] then w.row else Cas(w.row, cs[0]))
            && w'.reserved == w.reserved + Handed(w.row, cs)
  {
    hide CallOf, Wins, Cas, NextPhase, QuietPhase, SnapshotCseq;
    assert w.reserved + [] == w.reserved;
  }

  /** The record evolves by the calls alone. */
  lemma {:induction false} RowIsCalls(w: World, es: seq<Event>)
    ensures Run(w, es).row == Calls(w.row, Issued(w, es))
  {
    hide Wins, Cas, CallAt, Step, Handed;
    if es != [] {
      var front, e := es[..|es| - 1], es[|es| - 1];
      RowIsCalls(w, front);
      StepIsCall(Run(w, front), e);
      var issued, cs := Issued(w, front), CallAt(Run(w, front), e);
      if cs == [] {
        assert issued + cs == issued;
      } else {
        assert issued + cs == issued + [cs[0]];
        CallsSnoc(w.row, issued, cs[0]);
      }
    }
  }

  /** The reserved numbers are those the calls hand out. */
  lemma {:induction false} ReservedIsHandedOut(w: World, es: seq<Event>)
    ensures Run(w, es).reserved == w.reserved + HandedOut(w.row, Issued(w, es))
  {
    hide Wins, Cas, CallAt, Step, Calls, Handed, HandedOut;
    if es == [] {
      NothingIssued(w);
    } else {
      var front, e := es[..|es| - 1], es[|es| - 1];
      ReservedIsHandedOut(w, front);
      RowIsCalls(w, front);
      StepIsCall(Run(w, front), e);
      var issued, cs := Issued(w, front), CallAt(Run(w, front), e);
      HandedMore(w.row, issued, cs);
      var handed := HandedOut(w.row, issued);
      var more := Handed(Calls(w.row, issued), cs);
      assert w.reserved + (handed + more) == (w.reserved + handed) + more;
    }
  }

  lemma NothingIssued(w: World)
    ensures w.reserved + HandedOut(w.row, Issued(w, [])) == w.reserved
  {}

  lemma HandedMore(row: Session, issued: seq<Call>, cs: seq<Call>)
    requires |cs| <= 1
    ensures HandedOut(row, issued + cs) == HandedOut(row, issued) + Handed(Calls(row, issued), cs)
  {
    hide Wins, Calls;
    if cs == [] {
      assert issued + cs == issued && HandedOut(row, issued) + [] == HandedOut(row, issued);
    } else {
      assert cs == [cs[0]];
      CallsSnoc(row, issued, cs[0]);
    }
  }

  // ---------------------------------------------------------------- what the actors can be relied on for

  /** The transactions that invite into this dialog are those that persisted its CSeq. */
  ghost predicate InvitersPersisted(actors: seq<Actor>, cseq: int) {
    forall i :: 0 <= i < |actors| && actors[i].role.Inviter? ==> actors[i].role.identity.cseq == cseq
  }

  lemma RolesStay(w: World, e: Event, cseq: int)
    requires InvitersPersisted(w.actors, cseq)
    ensures InvitersPersisted(Step(w, e).actors, cseq)
  {
    hide CallOf, Wins, Cas, NextPhase, QuietPhase, SnapshotCseq;
  }

  /** No actor moves an invitation to ESTABLISHED by a plain transition; and whatever CSeq an answer carries,
      the inviter establishes only with the one it persisted. */
  lemma ActorsBehave(streamId: string, a: Actor, now: int, choice: Choice)
    ensures var c := CallOf(streamId, a, now, choice);
            c.Some? ==> && !EstablishesBlindly(c.value.change) && c.value.streamId == streamId
                        && (c.value.change.MarkEstablished? ==>
                              a.role.Inviter? && c.value.change.fields.localCseq == a.role.identity.cseq)
  {}

  /** An answer with a foreign snapshot changes nothing in the record and is rolled back. */
  lemma ForeignAnswerRollsBack(w: World, i: nat, now: int, answer: Answer)
    requires i < |w.actors| && w.actors[i].role.Inviter? && w.actors[i].phase.Idle?
    requires answer.identity != w.actors[i].role.identity
    ensures var w' := Step(w, Act(i, now, Answered(answer)));
            w'.row == w.row && w'.actors[i].phase.RollingBack?
  {}

  lemma {:induction false} IssuedCallsBehave(w: World, es: seq<Event>, cseq: int)
    requires InvitersPersisted(w.actors, cseq)
    ensures InvitersPersisted(Run(w, es).actors, cseq)
    ensures forall i :: 0 <= i < |Issued(w, es)| ==>
              !EstablishesBlindly(Issued(w, es)[i].change) &&
              (Issued(w, es)[i].change.MarkEstablished? ==> Issued(w, es)[i].change.fields.localCseq == cseq)
  {
    hide CallOf, EstablishesBlindly, Step;
    if es != [] {
      var front, e := es[..|es| - 1], es[|es| - 1];
      IssuedCallsBehave(w, front, cseq);
      var w1 := Run(w, front);
      RolesStay(w1, e, cseq);
      if e.Act? && e.actor < |w1.actors| {
        ActorsBehave(w1.row.streamId, w1.actors[e.actor], e.now, e.choice);
      }
    }
  }

  /** The whole protocol, over every interleaving of any number of actors, from the inserted invitation: the
      record always passes validation, its version counts the successful updates, its CSeq is the first one
      plus the reservations, the reserved numbers are exactly the next ones in order, and time and state only
      move forward. */
  lemma EveryInterleavingIsSafe(w: World, es: seq<Event>)
    requires Insertable(w.row) && w.reserved == [] && InvitersPersisted(w.actors, w.row.localCseq)
    ensures var w' := Run(w, es);
            && Validate(w'.row)
            && w'.row.version == WinCount(w.row, Issued(w, es))
            && w'.row.localCseq == w.row.localCseq + |w'.reserved|
            && (forall i :: 0 <= i < |w'.reserved| ==> w'.reserved[i] == w.row.localCseq + 1 + i)
            && Rank(w.row.state) <= Rank(w'.row.state) && w.row.updatedAt <= w'.row.updatedAt
  {
    hide Validate, Wins, Updated, EstablishesBlindly, Run, Issued, Calls, HandedOut, WinCount;
    var cs := Issued(w, es);
    RowIsCalls(w, es);
    ReservedIsHandedOut(w, es);
    assert w.reserved + HandedOut(w.row, cs) == HandedOut(w.row, cs);
    IssuedCallsBehave(w, es, w.row.localCseq);
    InsertableIsValid(w.row);
    RecordsStayValid(w.row, cs);
    VersionCountsWins(w.row, cs);
    CseqCountsReservations(w.row, cs);
    CseqsAreConsecutive(w.row, cs);
    StatesMoveUp(w.row, cs);
  }

  lemma InsertableIsValid(s: Session)
    requires Insertable(s)
    ensures Validate(s) && s.version == 0 && s.state.Inviting?
  {}

  // ---------------------------------------------------------------- which number a request carries

  ghost predicate SkipsActor(es: seq<Event>, i: nat) {
    forall k :: 0 <= k < |es| ==> es[k].actor != i
  }

  lemma OtherStep(w: World, e: Event, i: nat)
    requires i < |w.actors| && e.actor != i
    ensures Step(w, e).actors[i] == w.actors[i]
  {
    hide CallOf, Wins, Cas, NextPhase, QuietPhase, SnapshotCseq;
  }

  lemma {:induction false} OthersLeavePhaseAlone(w: World, i: nat, es: seq<Event>)
    requires i < |w.actors| && SkipsActor(es, i)
    ensures Run(w, es).actors[i] == w.actors[i]
  {
    hide Step;
    if es != [] {
      OthersLeavePhaseAlone(w, i, es[..|es| - 1]);
      OtherStep(Run(w, es[..|es| - 1]), es[|es| - 1], i);
    }
  }

  /** Right after it reserved, an actor's own number is the record's. */
  lemma ReservingMakesOwn(w: World, i: nat, now: int, choice: Choice)
    requires i < |w.actors| && w.actors[i].phase.HasRead? && Step(w, Act(i, now, choice)).actors[i].phase.Reserved?
    ensures var w' := Step(w, Act(i, now, choice));
            && w'.actors[i].phase.own == w'.row.localCseq == w.row.localCseq + 1 && Alive(w'.row.state)
            && w'.actors[i].phase.version == w'.row.version && w'.reserved == w.reserved + [w'.row.localCseq]
  {
    hide ValidLen, ValidateFields, StorableRoutes;
  }

  /** The request of a restored dialog carries the number of the record as reloaded: its sender's own number
      plus the reservations that won between its reservation and its reload. So it carries its own number if
      and only if no reservation of anyone else came in between. */
  lemma RequestCarriesReloadedNumber(
    w0: World, i: nat, now: int, choice: Choice, between: seq<Event>, later: seq<Event>, connected: bool)
    requires i < |w0.actors| && w0.actors[i].phase.HasRead?
    requires Step(w0, Act(i, now, choice)).actors[i].phase.Reserved?
    requires SkipsActor(between, i) && SkipsActor(later, i)
    ensures var w := Step(w0, Act(i, now, choice));
            var w1 := Run(w, between);
            var w2 := Run(Step(w1, Reload(i)), later);
            var w3 := Step(w2, Send(i, connected, true));
            if SnapshotCseq(w1.row, connected).None? then w3.sent == w2.sent
            else
              && |w3.sent| == |w2.sent| + 1 && w3.sent[..|w2.sent|] == w2.sent
              && var request := w3.sent[|w2.sent|];
                 && request.actor == i && w.reserved == w0.reserved + [request.own]
                 && request.cseq == request.own + |w1.reserved| - |w.reserved|
                 && (request.cseq == request.own <==> w1.reserved == w.reserved)
  {
    hide Run, Issued, HandedOut, Calls, CallOf, Wins, Cas, Alive;
    var w := Step(w0, Act(i, now, choice));
    ReservingMakesOwn(w0, i, now, choice);
    AliveIsPastInviting(w.row);
    OthersLeavePhaseAlone(w, i, between);
    var w1 := Run(w, between);
    RowIsCalls(w, between);
    ReservedIsHandedOut(w, between);
    LaterCseqCountsReservations(w.row, Issued(w, between));
    OthersLeavePhaseAlone(Step(w1, Reload(i)), i, later);
  }

  lemma AliveIsPastInviting(s: Session)
    requires Alive(s.state)
    ensures !s.state.Inviting?
  {}

  ghost predicate TwoRequesters(w: World, p: Phase, q: Phase) {
    w.actors == [Actor(Requester, w.row.signalNodeId, p), Actor(Requester, w.row.signalNodeId, q)]
  }

  lemma BothReserve(w: World, t: int)
    requires Validate(w.row) && w.row.state.Established? && w.row.updatedAt <= t && w.row.localCseq + 2 <= I32_MAX
    requires TwoRequesters(w, Idle, Idle) && w.reserved == []
    ensures var n, v := w.row.localCseq, w.row.version;
            var w' := Step(Step(Step(Step(w, Read(0)), Act(0, t, Unanswered)), Read(1)), Act(1, t, Unanswered));
            && Validate(w'.row) && w'.row.localCseq == n + 2 && w'.reserved == [n + 1, n + 2] && w'.sent == w.sent
            && TwoRequesters(w', Reserved(v + 1, n + 1), Reserved(v + 2, n + 2)) && w'.row.state.Established?
  {
    hide Validate, CallOf, Wins, Cas, NextPhase, QuietPhase;
    var w1 := Step(w, Read(0));
    ReservationWins(w1, 0, t);
    var w3 := Step(Step(w1, Act(0, t, Unanswered)), Read(1));
    ReservationWins(w3, 1, t);
  }

  lemma BothSend(w: World, v: int, n: int)
    requires Validate(w.row) && w.row.state.Established? && w.row.localCseq == n + 2 <= I32_MAX && w.sent == []
    requires TwoRequesters(w, Reserved(v + 1, n + 1), Reserved(v + 2, n + 2))
    ensures var w' := Step(Step(Step(Step(w, Reload(0)), Reload(1)), Send(0, true, true)), Send(1, true, true));
            w'.reserved == w.reserved && w'.sent == [Request(0, n + 1, n + 2), Request(1, n + 2, n + 2)]
  {
    hide ValidSipUri, ValidRouteSet, ValidLen, CallOf;
  }

  /** Two requests on a restored dialog whose reservations both come before the first reload carry the same
      number, and the number the first one reserved is never used. */
  lemma ConcurrentRequestsCollide(w: World, t: int)
    requires Validate(w.row) && w.row.state.Established? && w.row.updatedAt <= t && w.row.localCseq + 2 <= I32_MAX
    requires TwoRequesters(w, Idle, Idle) && w.sent == [] && w.reserved == []
    ensures var n := w.row.localCseq;
            var both := [Read(0)] + [Act(0, t, Unanswered)] + [Read(1)] + [Act(1, t, Unanswered)];
            var w' := Run(w, both + [Reload(0)] + [Reload(1)] + [Send(0, true, true)] + [Send(1, true, true)]);
            w'.reserved == [n + 1, n + 2] && w'.sent == [Request(0, n + 1, n + 2), Request(1, n + 2, n + 2)]
  {
    hide Run, Step, Validate;
    var es := [Read(0)] + [Act(0, t, Unanswered)] + [Read(1)] + [Act(1, t, Unanswered)];
    RunFour(w, [], Read(0), Act(0, t, Unanswered), Read(1), Act(1, t, Unanswered));
    assert [] + [Read(0)] == [Read(0)];
    RunNothing(w);
    BothReserve(w, t);
    RunFour(w, es, Reload(0), Reload(1), Send(0, true, true), Send(1, true, true));
    BothSend(Run(w, es), w.row.version, w.row.localCseq);
  }

  lemma RunFour(w: World, es: seq<Event>, a: Event, b: Event, c: Event, d: Event)
    ensures Run(w, es + [a] + [b] + [c] + [d]) == Step(Step(Step(Step(Run(w, es), a), b), c), d)
  {
    hide Run, Step;
    RunSnoc(w, es, a);
    RunSnoc(w, es + [a], b);
    RunSnoc(w, es + [a] + [b], c);
    RunSnoc(w, es + [a] + [b] + [c], d);
  }

  /** A request on an established record that has not changed since it was read gets its number. */
  lemma ReservationWins(w: World, i: nat, t: int)
    requires i < |w.actors| && w.actors[i] == Actor(Requester, w.row.signalNodeId, HasRead(w.row))
    requires Validate(w.row) && w.row.state.Established? && w.row.updatedAt <= t && w.row.localCseq + 1 <= I32_MAX
    ensures var n, w' := w.row.localCseq + 1, Step(w, Act(i, t, Unanswered));
            && w' == World(w.row.(version := w.row.version + 1, localCseq := n, updatedAt := t),
                           w.actors[i := w.actors[i].(phase := Reserved(w.row.version + 1, n))], w.reserved + [n],
                               w.sent)
            && Validate(w'.row)
  {
    hide ValidSipUri, ValidRouteSet, ValidAddr, ValidLen;
  }

  lemma RunSnoc(w: World, es: seq<Event>, e: Event)
    ensures Run(w, es + [e]) == Step(Run(w, es), e)
  {
    assert (es + [e])[..|es|] == es;
  }

  lemma RunNothing(w: World)
    ensures Run(w, []) == w
  {}

  // ---------------------------------------------------------------- serialised requests

  /** Nobody reserves while somebody else is between reserving and sending. */
  ghost predicate Serial(w: World, es: seq<Event>) {
    es != [] ==>
      var front := es[..|es| - 1];
      && Serial(w, front)
      && (Run(w, es).reserved != Run(w, front).reserved ==> NobodyPending(Run(w, front)))
  }

  ghost predicate NobodyPending(w: World) {
    forall i :: 0 <= i < |w.actors| ==> !Pending(w.actors[i])
  }

  /** At most one actor is about to send, its number is the record's, and every number sent is smaller; the
      numbers sent ascend and are their senders' own. */
  ghost predicate InTurn(w: World) {
    && (forall i :: 0 <= i < |w.actors| && Pending(w.actors[i]) ==> IsNext(w, i))
    && (forall i, j :: 0 <= i < |w.actors| && 0 <= j < |w.actors| && Pending(w.actors[i]) && Pending(w.actors[j]) ==>
        i == j)
    && (forall k :: 0 <= k < |w.sent| ==> w.sent[k].cseq == w.sent[k].own && w.sent[k].cseq <= w.row.localCseq)
    && (!NobodyPending(w) ==> forall k :: 0 <= k < |w.sent| ==> w.sent[k].cseq < w.row.localCseq)
    && (forall k, m :: 0 <= k < m < |w.sent| ==> w.sent[k].cseq < w.sent[m].cseq)
    && (w.row.state.Inviting? ==> w.sent == [] && NobodyPending(w))
  }

  ghost predicate IsNext(w: World, i: nat)
    requires i < |w.actors| && Pending(w.actors[i])
  {
    w.actors[i].phase.own == w.row.localCseq
    && (w.actors[i].phase.Loaded? ==> w.actors[i].phase.row.localCseq == w.row.localCseq)
  }

  lemma CallStaysInTurn(w: World, e: Event)
    requires InTurn(w) && e.Act? && e.actor < |w.actors|
    requires Step(w, e).reserved != w.reserved ==> NobodyPending(w)
    ensures InTurn(Step(w, e))
  {
    hide CallOf, ValidLen, ValidateFields, StorableRoutes;
    var w' := Step(w, e);
    assert w.reserved + [] == w.reserved;
    CallKeepsNumbers(w, e);
    forall i | 0 <= i < |w'.actors| && Pending(w'.actors[i]) ensures IsNext(w', i) {
      if i != e.actor || w'.actors[i] == w.actors[i] { assert Pending(w.actors[i]); }
    }
  }

  /** An `Act` moves the record's CSeq only by a reservation, unless the record is still an invitation. */
  lemma CallKeepsNumbers(w: World, e: Event)
    requires e.Act? && e.actor < |w.actors|
    ensures var w', a, a' := Step(w, e), w.actors[e.actor], Step(w, e).actors[e.actor];
            && w'.sent == w.sent && (w'.row.state.Inviting? ==> w.row.state.Inviting? && w'.reserved == w.reserved)
            && (w'.reserved == w.reserved && !w.row.state.Inviting? ==> w'.row.localCseq == w.row.localCseq)
            && (w'.reserved != w.reserved ==>
                  w'.row.localCseq == w.row.localCseq + 1 && a'.phase.Reserved? && a'.phase.own == w'.row.localCseq)
            && (w'.reserved == w.reserved && Pending(a') ==> a' == a)
            && forall i :: 0 <= i < |w.actors| && i != e.actor ==> w'.actors[i] == w.actors[i]
  {
    hide CallOf, ValidLen, ValidateFields, StorableRoutes;
    assert w.reserved + [] == w.reserved;
    var c := CallOf(w.row.streamId, w.actors[e.actor], e.now, e.choice);
    PendingMakesNoCall(w.row.streamId, w.actors[e.actor], e.now, e.choice);
  }

  lemma PendingMakesNoCall(streamId: string, a: Actor, now: int, choice: Choice)
    ensures Pending(a) ==> CallOf(streamId, a, now, choice).None?
  {}

  lemma StepStaysInTurn(w: World, e: Event)
    requires InTurn(w) && (Step(w, e).reserved != w.reserved ==> NobodyPending(w))
    ensures InTurn(Step(w, e))
  {
    hide CallOf, Wins, Cas;
    if e.Act? && e.actor < |w.actors| {
      CallStaysInTurn(w, e);
    } else {
      var w' := Step(w, e);
      forall i | 0 <= i < |w'.actors| && Pending(w'.actors[i]) ensures Pending(w.actors[i]) && IsNext(w', i) {
        assert Pending(w.actors[i]);
        assert IsNext(w, i);
      }
      if w'.sent != w.sent {
        assert Pending(w.actors[e.actor]) && IsNext(w, e.actor);
      }
    }
  }

  /** Serialised requests are safe: the numbers sent strictly ascend, each the one its sender reserved. */
  lemma {:induction false} SerialRequestsAscend(w: World, es: seq<Event>)
    requires w.row.state.Inviting? && w.sent == [] && NobodyPending(w) && Serial(w, es)
    ensures InTurn(Run(w, es))
    ensures var sent := Run(w, es).sent;
            && (forall k :: 0 <= k < |sent| ==> sent[k].cseq == sent[k].own)
            && (forall k, m :: 0 <= k < m < |sent| ==> sent[k].cseq < sent[m].cseq)
  {
    hide Step;
    if es != [] {
      SerialRequestsAscend(w, es[..|es| - 1]);
      StepStaysInTurn(Run(w, es[..|es| - 1]), es[|es| - 1]);
    }
  }

  // ---------------------------------------------------------------- when a BYE is recorded

  /** Since its reservation the actor has at most reloaded and sent. */
  ghost predicate OnlySends(es: seq<Event>, i: nat) {
    forall k :: 0 <= k < |es| && es[k].actor == i ==> es[k].Reload? || es[k].Send? || es[k].SendNative?
  }

  predicate Underway(a: Actor, version: int) {
    (Pending(a) || a.phase.Awaiting?) && a.phase.version == version
  }

  lemma {:induction false} VersionIsKept(w: World, i: nat, es: seq<Event>)
    requires i < |w.actors| && OnlySends(es, i) && Underway(w.actors[i], w.row.version)
    ensures var a := Run(w, es).actors[i];
            && a.role == w.actors[i].role && a.me == w.actors[i].me
            && (Underway(a, w.row.version) || a.phase == Done(false))
  {
    hide CallOf, Wins, Cas;
    if es != [] {
      var front, e := es[..|es| - 1], es[|es| - 1];
      VersionIsKept(w, i, front);
      if e.actor != i { OtherStep(Run(w, front), e, i); }
    }
  }

  /** After a BYE has reserved its CSeq and was sent, the device's confirmation is recorded as TERMINATED if and
      only if no other actor's update succeeded since the reservation (and the clock has not gone back);
      otherwise the stop is reported as failed. */
  lemma ByeIsRecordedIffUndisturbed(w: World, i: nat, es: seq<Event>, now: int)
    requires i < |w.actors| && w.actors[i].role.Stopper? && w.actors[i].me == w.row.signalNodeId
    requires Underway(w.actors[i], w.row.version) && OnlySends(es, i) && Run(w, es).actors[i].phase.Awaiting?
    requires Validate(w.row) && w.row.state.Terminating?
    ensures var w' := Step(Run(w, es), Act(i, now, Confirmed));
            && (w'.actors[i].phase == Done(true) <==> WinCount(w.row, Issued(w, es)) == 0 && w.row.updatedAt <= now)
            && (w'.actors[i].phase == Done(true) ==> w'.row.state.Terminated?)
            && (w'.actors[i].phase != Done(true) ==> w'.row == Run(w, es).row && w'.actors[i].phase == Done(false))
  {
    hide Run, Issued, Calls, WinCount, ValidSipUri, ValidAddr, ValidRouteSet;
    VersionIsKept(w, i, es);
    RowIsCalls(w, es);
    VersionCountsWins(w.row, Issued(w, es));
    ReadThenCasIsAtomic(w.row, Issued(w, es),
      Call(w.row.streamId, w.row.signalNodeId, w.row.version, Transition(Terminating, Terminated, now)));
  }

  /** So media activity between a BYE and its answer makes a confirmed stop look failed: the record stays
      TERMINATING. */
  lemma TouchSpoilsTheBye(w: World, i: nat, j: nat, t: int, now: int)
    requires i < |w.actors| && w.actors[i] == Actor(Stopper, w.row.signalNodeId, Awaiting(w.row.version))
    requires Validate(w.row) && w.row.state.Terminating?
    requires j < |w.actors| && j != i && w.actors[j].role.Toucher? && w.actors[j].phase.Idle?
    requires w.row.lastSeenAt <= t && w.row.updatedAt <= t <= now
    ensures var w' := Step(Run(w, [Read(j)] + [Act(j, t, Unanswered)]), Act(i, now, Confirmed));
            w'.actors[i].phase == Done(false) && w'.row.state.Terminating?
  {
    hide Step, Run, Validate;
    var es := [Read(j)] + [Act(j, t, Unanswered)];
    TouchWins(w, j, t);
    OthersLeavePhaseAlone(w, i, es);
    ByeIsRecordedIffUndisturbed(w, i, es, now);
    RowIsCalls(w, es);
    SameVersionSameRow(w.row, Issued(w, es));
  }

  lemma TouchWins(w: World, j: nat, t: int)
    requires Validate(w.row) && w.row.state.Terminating?
    requires j < |w.actors| && w.actors[j].role.Toucher? && w.actors[j].phase.Idle?
    requires w.row.lastSeenAt <= t && w.row.updatedAt <= t
    ensures var row := Run(w, [Read(j)] + [Act(j, t, Unanswered)]).row;
            row.version == w.row.version + 1 && row.state.Terminating?
  {
    hide Run, Step, Validate;
    RunNothing(w);
    assert [] + [Read(j)] == [Read(j)];
    RunSnoc(w, [], Read(j));
    RunSnoc(w, [Read(j)], Act(j, t, Unanswered));
    TouchStep(w, j, t);
  }

  lemma TouchStep(w: World, j: nat, t: int)
    requires Validate(w.row) && w.row.state.Terminating?
    requires j < |w.actors| && w.actors[j].role.Toucher? && w.actors[j].phase.Idle?
    requires w.row.lastSeenAt <= t && w.row.updatedAt <= t
    ensures var row := Step(Step(w, Read(j)), Act(j, t, Unanswered)).row;
            row.version == w.row.version + 1 && row.state.Terminating?
  {
    hide ValidSipUri, ValidAddr, ValidRouteSet, ValidLen, NextPhase, QuietPhase;
  }
}

/**
  Where each column of a durable dialog record comes from, over any sequence of statements on the table of
  session/src/storage/dialog_session.rs: what the insertion fixed for good, and which update wrote the rest.
*/
module DialogColumns {
  import opened Wrappers
  import opened DialogSessions

  // ---------------------------------------------------------------- the table as a whole

  datatype Statement = Inserting(row: Session) | Calling(call: Call)

  function Execute(t: Table, st: Statement): Table {
    match st
    case Inserting(row) => Insert(t, row).0
    case Calling(call) => Apply(t, call).0
  }

  function ExecuteAll(t: Table, sts: seq<Statement>): Table {
    if sts == [] then t else Execute(ExecuteAll(t, sts[..|sts| - 1]), sts[|sts| - 1])
  }

  function CallsIn(sts: seq<Statement>): seq<Call> {
    if sts == [] then []
    else CallsIn(sts[..|sts| - 1]) + match sts[|sts| - 1] case Calling(c) => [c] case Inserting(_) => []
  }

  /** Whatever is inserted and called on any ids, a row that is there stays, and evolves by the calls on it alone. */
  lemma {:induction false} RowsStay(t: Table, id: string, sts: seq<Statement>)
    requires Keyed(t)
    ensures var t' := ExecuteAll(t, sts);
            Keyed(t') && t.Keys <= t'.Keys && (id in t ==> t'[id] == Calls(t[id], CallsIn(sts)))
  {
    hide Execute, Cas, Calls, CallsIn, Keyed;
    if sts == [] {
      NothingExecuted(t, id);
    } else {
      var front := sts[..|sts| - 1];
      RowsStay(t, id, front);
      OneStatement(ExecuteAll(t, front), id, sts[|sts| - 1]);
      if id in t { MoreCalls(t[id], sts); }
    }
  }

  lemma NothingExecuted(t: Table, id: string)
    ensures ExecuteAll(t, []) == t && (id in t ==> t[id] == Calls(t[id], CallsIn([])))
  {}

  /** The row came in with statement `k` and has evolved by the calls since. */
  ghost predicate CameWith(row: Session, id: string, sts: seq<Statement>, k: nat)
    requires k < |sts|
  {
    && sts[k].Inserting? && sts[k].row.streamId == id && Admitted(sts[k].row)
    && row == Calls(sts[k].row, CallsIn(sts[k + 1..]))
  }

  /** A new row comes in only as a valid invitation of version 0 without remote tag. */
  lemma {:induction false} NewRowsAreAdmitted(t: Table, id: string, sts: seq<Statement>)
    requires Keyed(t) && id !in t && id in ExecuteAll(t, sts)
    ensures exists k :: 0 <= k < |sts| && CameWith(ExecuteAll(t, sts)[id], id, sts, k)
  {
    hide Execute, Cas, Calls, CallsIn, Keyed, Admitted;
    var n := |sts| - 1;
    var front, st := sts[..n], sts[n];
    var t1 := ExecuteAll(t, front);
    RowsStay(t, id, front);
    OneStatement(t1, id, st);
    if id in t1 {
      NewRowsAreAdmitted(t, id, front);
      var k :| 0 <= k < |front| && CameWith(t1[id], id, front, k);
      MoreCalls(front[k].row, sts[k + 1..]);
      assert sts[k + 1..][..|sts[k + 1..]| - 1] == front[k + 1..] && sts[k] == front[k];
      assert CameWith(ExecuteAll(t, sts)[id], id, sts, k);
    } else {
      NothingSince(st.row);
      assert sts[n + 1..] == [];
      assert CameWith(ExecuteAll(t, sts)[id], id, sts, n);
    }
  }

  lemma NothingSince(row: Session)
    ensures Calls(row, CallsIn([])) == row
  {}

  lemma MoreCalls(row: Session, sts: seq<Statement>)
    requires sts != []
    ensures var before := Calls(row, CallsIn(sts[..|sts| - 1]));
            Calls(row, CallsIn(sts)) ==
            match sts[|sts| - 1] case Calling(c) => Cas(before, c) case Inserting(_) => before
  {
    hide Cas;
    var cs := CallsIn(sts[..|sts| - 1]);
    match sts[|sts| - 1]
    case Calling(c) => assert (cs + [c])[..|cs|] == cs;
    case Inserting(_) => assert cs + [] == cs;
  }

  /** A record as `insert_inviting` admits it. */
  ghost predicate Admitted(row: Session) {
    Validate(row) && row.state.Inviting? && row.version == 0 && row.remoteTag.None? && row.establishedAt.None?
  }

  lemma OneStatement(t: Table, id: string, st: Statement)
    requires Keyed(t)
    ensures var t' := Execute(t, st);
            && Keyed(t') && t.Keys <= t'.Keys
            && (id in t ==> t'[id] == match st case Calling(c) => Cas(t[id], c) case Inserting(_) => t[id])
            && (id !in t && id in t' ==> st.Inserting? && st.row.streamId == id && t'[id] == st.row && Admitted(st.row))
  {
    hide WellFormed, Guard, ValidNames, ValidTimes, ValidCseqs, StorableRoutes;
  }

  /** What the caller is told is what happened: an error for arguments that are not admissible, true if and only if the
      row was written, and then with the version one up; every other row is as before. */
  lemma OutcomeIsTold(t: Table, c: Call)
    requires Keyed(t)
    ensures var (t', r) := Apply(t, c);
            && (r.Err? <==> !WellFormed(c))
            && (r == Ok(true) <==> t' != t)
            && (r == Ok(true) ==> c.streamId in t && t'[c.streamId].version == t[c.streamId].version + 1)
            && t'.Keys == t.Keys && forall id :: id in t && id != c.streamId ==> t'[id] == t[id]
  {
    hide WellFormed, Guard;
  }

  /** A row is inserted, and the caller told so, if and only if it is valid, its route set can be stored and its id is
      free; else there is an error and no change. */
  lemma InsertionIff(t: Table, s: Session)
    ensures var (t', r) := Insert(t, s);
            && (r.Ok? <==> Validate(s) && s.state == Inviting && s.version == 0 && s.remoteTag == None
                           && StorableRoutes(s.routeSet) && s.streamId !in t)
            && t' == if r.Ok? then t[s.streamId := s] else t
  {
    hide Validate, StorableRoutes;
  }

  // ---------------------------------------------------------------- the columns of one row

  predicate SetsDialog(change: Change) {
    change.MarkEstablished?
  }

  predicate SetsSeen(change: Change) {
    change.MarkEstablished? || change.Touch?
  }

  predicate SetsState(change: Change) {
    change.MarkEstablished? || change.BeginTerminating? || change.Transition?
  }

  predicate SetsAnything(change: Change) {
    true
  }

  /** The last call that wins and sets something. */
  function LastWin(s: Session, cs: seq<Call>, sets: Change -> bool): (r: Option<Call>)
    ensures r.Some? ==> r.value in cs && sets(r.value.change)
  {
    if cs == [] then None
    else
      var front, c := cs[..|cs| - 1], cs[|cs| - 1];
      if Wins(Calls(s, front), c) && sets(c.change) then Some(c) else LastWin(s, front, sets)
  }

  /** The time a change carries as its own. */
  function TimeOf(change: Change): int {
    match change
    case MarkEstablished(f) => f.updatedAt
    case BeginTerminating(_, _, at) => at
    case Transition(_, _, at) => at
    case ReserveLocalCseq(_, _, at) => at
    case Touch(seen, _) => seen
  }

  function StateOf(change: Change): State
    requires SetsState(change)
  {
    match change
    case MarkEstablished(_) => Established
    case BeginTerminating(_, _, _) => Terminating
    case Transition(_, next, _) => next
  }

  /** Who and what the dialog is never changes. */
  lemma {:induction false} IdentityStays(s: Session, cs: seq<Call>)
    ensures var t := Calls(s, cs);
            && t.streamId == s.streamId && t.deviceId == s.deviceId && t.channelId == s.channelId
            && t.sessionType == s.sessionType && t.signalNodeId == s.signalNodeId
            && t.mediaNodeId == s.mediaNodeId && t.ssrc == s.ssrc && t.callId == s.callId
            && t.localUri == s.localUri && t.remoteUri == s.remoteUri && t.localTag == s.localTag
            && t.transport == s.transport && t.createdAt == s.createdAt
  {
    hide Wins;
    if cs != [] { IdentityStays(s, cs[..|cs| - 1]); }
  }

  /** The far end of the dialog, column by column: as `s` has it, or as the last establishing call says. */
  ghost predicate FarEndIs(t: Session, s: Session, last: Option<Call>) {
    match last
    case None =>
      && t.remoteTag == s.remoteTag && t.remoteCseq == s.remoteCseq && t.contactUri == s.contactUri
      && t.routeSet == s.routeSet && t.localAddr == s.localAddr && t.remoteAddr == s.remoteAddr
      && t.establishedAt == s.establishedAt
    case Some(c) =>
      c.change.MarkEstablished? &&
      var f := c.change.fields;
      && t.remoteTag == Some(f.remoteTag) && t.remoteCseq == f.remoteCseq && t.contactUri == f.contactUri
      && t.routeSet == f.routeSet && t.localAddr == f.localAddr && t.remoteAddr == f.remoteAddr
      && t.establishedAt == Some(f.establishedAt)
  }

  lemma FarEndStep(t: Session, s: Session, last: Option<Call>, c: Call)
    requires FarEndIs(t, s, last)
    ensures FarEndIs(Cas(t, c), s, if Wins(t, c) && c.change.MarkEstablished? then Some(c) else last)
  {
    hide Wins;
  }

  /** The far end of the dialog is what the winning establishing call said it is. */
  lemma {:induction false} DialogComesFromAnswer(s: Session, cs: seq<Call>)
    ensures FarEndIs(Calls(s, cs), s, LastWin(s, cs, SetsDialog))
  {
    hide Wins, Cas, FarEndIs;
    if cs == [] {
      FarEndAtFirst(s);
    } else {
      var front := cs[..|cs| - 1];
      DialogComesFromAnswer(s, front);
      FarEndStep(Calls(s, front), s, LastWin(s, front, SetsDialog), cs[|cs| - 1]);
    }
  }

  lemma FarEndAtFirst(s: Session)
    ensures FarEndIs(s, s, None)
  {}

  ghost predicate SeenIs(t: Session, s: Session, last: Option<Call>) {
    match last
    case None => t.lastSeenAt == s.lastSeenAt && t.expireAt == s.expireAt
    case Some(c) =>
      match c.change
      case MarkEstablished(f) => t.lastSeenAt == f.lastSeenAt && t.expireAt == f.expireAt
      case Touch(seen, expire) => t.lastSeenAt == seen && t.expireAt == expire
      case _ => false
  }

  ghost predicate StateIs(t: Session, s: Session, last: Option<Call>) {
    match last
    case None => t.state == s.state
    case Some(c) => SetsState(c.change) && t.state == StateOf(c.change)
  }

  ghost predicate UpdateTimeIs(t: Session, s: Session, last: Option<Call>) {
    t.updatedAt == if last.Some? then TimeOf(last.value.change) else s.updatedAt
  }

  lemma TimesStep(t: Session, s: Session, seen: Option<Call>, state: Option<Call>, any: Option<Call>, c: Call)
    requires SeenIs(t, s, seen) && StateIs(t, s, state) && UpdateTimeIs(t, s, any)
    ensures SeenIs(Cas(t, c), s, if Wins(t, c) && SetsSeen(c.change) then Some(c) else seen)
    ensures StateIs(Cas(t, c), s, if Wins(t, c) && SetsState(c.change) then Some(c) else state)
    ensures UpdateTimeIs(Cas(t, c), s, if Wins(t, c) then Some(c) else any)
  {
    hide Wins;
  }

  /** When it was last seen and when it expires are those of the last establishing call or touch; the state is that
      of the last call that sets one; the time of update is that of the last call that won. */
  lemma {:induction false} TimesComeFromWinners(s: Session, cs: seq<Call>)
    ensures SeenIs(Calls(s, cs), s, LastWin(s, cs, SetsSeen))
    ensures StateIs(Calls(s, cs), s, LastWin(s, cs, SetsState))
    ensures UpdateTimeIs(Calls(s, cs), s, LastWin(s, cs, SetsAnything))
  {
    hide Wins, Cas, SeenIs, StateIs, UpdateTimeIs;
    if cs == [] {
      TimesAtFirst(s);
    } else {
      var front := cs[..|cs| - 1];
      TimesComeFromWinners(s, front);
      TimesStep(Calls(s, front), s, LastWin(s, front, SetsSeen), LastWin(s, front, SetsState),
        LastWin(s, front, SetsAnything), cs[|cs| - 1]);
    }
  }

  lemma TimesAtFirst(s: Session)
    ensures SeenIs(s, s, None) && StateIs(s, s, None) && UpdateTimeIs(s, s, None)
  {}

  predicate EstablishesAt(s: Session, cs: seq<Call>, i: nat)
    requires i < |cs|
  {
    cs[i].change.MarkEstablished? && Wins(Calls(s, cs[..i]), cs[i])
  }

  /** At most one establishing call wins. */
  lemma EstablishedOnce(s: Session, cs: seq<Call>, i: nat, j: nat)
    requires i < |cs| && j < |cs| && EstablishesAt(s, cs, i) && EstablishesAt(s, cs, j)
    ensures i == j
  {
    if i < j {
      NotEstablishedAgain(s, cs, i, j);
    } else if j < i {
      NotEstablishedAgain(s, cs, j, i);
    }
  }

  lemma NotEstablishedAgain(s: Session, cs: seq<Call>, i: nat, j: nat)
    requires i < j < |cs| && EstablishesAt(s, cs, i)
    ensures !EstablishesAt(s, cs, j)
  {
    hide ValidLen, ValidateFields, StorableRoutes;
    assert cs[..i + 1][..i] == cs[..i];
    assert cs[..j] == cs[..i + 1] + cs[i + 1..j];
    CallsSplit(s, cs[..i + 1], cs[i + 1..j]);
    StatesMoveUp(Calls(s, cs[..i + 1]), cs[i + 1..j]);
  }

  // ---------------------------------------------------------------- who may write, and when

  /** Only calls in the name of the owning node win, and after the invitation the time it was last seen never goes
      back. */
  lemma {:induction false} OwnersWriteForward(s: Session, cs: seq<Call>)
    ensures LastWin(s, cs, SetsAnything).Some? ==>
              LastWin(s, cs, SetsAnything).value.node == s.signalNodeId
              && LastWin(s, cs, SetsAnything).value.streamId == s.streamId
    ensures !s.state.Inviting? ==> s.lastSeenAt <= Calls(s, cs).lastSeenAt
  {
    hide WellFormed;
    if cs != [] {
      OwnersWriteForward(s, cs[..|cs| - 1]);
      IdentityStays(s, cs[..|cs| - 1]);
      if !s.state.Inviting? { StatesMoveUp(s, cs[..|cs| - 1]); }
    }
  }

  /** The life of a dialog as a diagram: which change leads from which state to which. */
  predicate Edge(from: State, change: Change, to: State) {
    match change
    case MarkEstablished(_) => from.Inviting? && to.Established?
    case BeginTerminating(_, _, _) => from.Established? && to.Terminating?
    case ReserveLocalCseq(_, _, _) => from == to && (from.Established? || from.Terminating?)
    case Touch(_, _) => from == to && (from.Established? || from.Terminating?)
    case Transition(expected, next, _) =>
      from == expected && to == next &&
      (match (from, to)
       case (Inviting, Established) => true
       case (Established, Terminating) => true
       case (Inviting, _) => to.Terminated? || to.Orphan?
       case (Established, _) => to.Terminated? || to.Orphan?
       case (Terminating, _) => to.Terminated? || to.Orphan?
       case _ => false)
  }

  /** The caller owns the dialog, has read its present version and CSeq, and its clock is not behind the record. */
  predicate UpToDate(s: Session, c: Call) {
    && c.streamId == s.streamId && c.node == s.signalNodeId && c.version == s.version
    && s.updatedAt <= TimeOf(c.change)
    && (Reserves(c.change) ==> c.change.currentCseq == s.localCseq)
    && (c.change.MarkEstablished? ==> s.createdAt <= c.change.fields.establishedAt)
    && (c.change.Touch? ==> s.lastSeenAt <= c.change.lastSeenAt)
  }

  /** A call with admissible arguments wins if and only if its caller is up to date and the diagram has an edge for
      it; and then the record has moved along that edge. */
  lemma WinsAlongEdges(s: Session, c: Call)
    requires WellFormed(c)
    ensures Wins(s, c) <==> UpToDate(s, c) && exists to :: Edge(s.state, c.change, to)
    ensures Wins(s, c) ==> Edge(s.state, c.change, Cas(s, c).state)
  {
    hide ValidLen, ValidateFields, StorableRoutes;
    if Wins(s, c) {
      assert Edge(s.state, c.change, Cas(s, c).state);
    }
  }
}

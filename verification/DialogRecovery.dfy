/**
  Recovery of the durable dialogs a signalling node owns (session/src/service/dialog_recovery.rs): the paging
  loop over the table and what it does to each dialog.
*/
module DialogRecovery {
  import opened Wrappers
  import opened DialogSessions

  const RECOVERY_PAGE_SIZE: nat := 200

  // ---------------------------------------------------------------- the order of stream ids

  predicate Before(a: string, b: string) {
    b != [] && (a == [] || a[0] < b[0] || (a[0] == b[0] && Before(a[1..], b[1..])))
  }

  lemma {:induction false} BeforeIsStrict(a: string)
    ensures !Before(a, a)
  {
    if a != [] { BeforeIsStrict(a[1..]); }
  }

  lemma {:induction false} BeforeIsTransitive(a: string, b: string, c: string)
    requires Before(a, b) && Before(b, c)
    ensures Before(a, c)
  {
    if a != [] && a[0] == b[0] == c[0] { BeforeIsTransitive(a[1..], b[1..], c[1..]); }
  }

  lemma {:induction false} BeforeIsTotal(a: string, b: string)
    ensures a == b || Before(a, b) || Before(b, a)
  {
    if a != [] && b != [] && a[0] == b[0] {
      BeforeIsTotal(a[1..], b[1..]);
      assert a == [a[0]] + a[1..] && b == [b[0]] + b[1..];
    }
  }

  ghost predicate IsLeast(ids: set<string>, id: string) {
    id in ids && forall o :: o in ids ==> o == id || Before(id, o)
  }

  lemma HasLeast(ids: set<string>)
    requires ids != {}
    ensures exists id :: IsLeast(ids, id)
  {
    hide Before;
    var x :| x in ids;
    var rest := ids - {x};
    assert ids == rest + {x};
    if rest == {} {
      assert IsLeast(ids, x);
    } else {
      HasLeast(rest);
      var m :| IsLeast(rest, m);
      BeforeIsTotal(x, m);
      if Before(x, m) {
        forall o | o in ids ensures o == x || Before(x, o) {
          if o != x && o != m { BeforeIsTransitive(x, m, o); }
        }
        assert IsLeast(ids, x);
      } else {
        assert IsLeast(ids, m);
      }
    }
  }

  ghost predicate AscendingIds(ids: seq<string>) {
    forall i, j :: 0 <= i < j < |ids| ==> Before(ids[i], ids[j])
  }

  // ---------------------------------------------------------------- one dialog

  /** What recovery finds out about a dialog: the time, the media node, the device and the caches. An absent
      answer is a failed query. */
  datatype Findings = Findings(
    now: int, orphanedAt: int, ssrcParses: bool, nodeConfigured: bool, deviceReady: bool,
    talkOnline: Option<bool>, mediaOnline: Option<bool>, inserted: bool)

  datatype Outcome = Orphaned | Restored(closing: bool) | Closed(listed: bool) | Failed(orphaned: bool)

  function Decide(s: Session, f: Findings): Outcome {
    if s.expireAt <= f.now || s.state.Inviting? || s.transport.Tls? then Orphaned
    else if s.ssrc.None? || !f.ssrcParses then Failed(false)
    else if s.sessionType.Talk? then
      if !f.nodeConfigured then Orphaned
      else if s.transport.Udp? && !f.deviceReady then Failed(true)
      else if f.talkOnline.None? then Failed(false)
      else if !f.talkOnline.value || !f.inserted then Orphaned
      else Restored(s.state.Terminating?)
    else if !f.nodeConfigured then Orphaned
    else if f.mediaOnline.None? then Failed(false)
    else if s.transport.Udp? && !f.deviceReady then Failed(true)
    else if f.mediaOnline.value then
      if f.inserted then Restored(s.state.Terminating?) else Orphaned
    else Closed(f.inserted)
  }

  function ChangeOf(s: Session, f: Findings): Option<Change> {
    match Decide(s, f)
    case Orphaned => Some(Transition(s.state, Orphan, f.orphanedAt))
    case Failed(true) => Some(Transition(s.state, Orphan, f.orphanedAt))
    case Closed(_) => if s.state.Established? then Some(Transition(Established, Terminating, f.now)) else None
    case _ => None
  }

  /** The record after recovery, when nobody else changed it in between. */
  function Recovered(s: Session, f: Findings): Session {
    match ChangeOf(s, f)
    case None => s
    case Some(change) => Cas(s, Call(s.streamId, s.signalNodeId, s.version, change))
  }

  // What the outcomes mean, in terms of the record and the findings.

  /** Nothing rules the dialog out from the start: it has not expired, was answered, and is not over TLS. */
  predicate Eligible(s: Session, f: Findings) {
    f.now < s.expireAt && !s.state.Inviting? && !s.transport.Tls?
  }

  /** Its stream can be named and its media node is known. */
  predicate Locatable(s: Session, f: Findings) {
    s.ssrc.Some? && f.ssrcParses && f.nodeConfigured
  }

  /** A dialog over UDP needs its device. */
  predicate Reachable(s: Session, f: Findings) {
    s.transport.Udp? ==> f.deviceReady
  }

  /** What the media node says: of a talk, whether it is on; of a stream, whether it is. */
  function OnlineAnswer(s: Session, f: Findings): Option<bool> {
    if s.sessionType.Talk? then f.talkOnline else f.mediaOnline
  }

  /** Everything up to the answer of the media node is in order. */
  predicate Askable(s: Session, f: Findings) {
    Eligible(s, f) && Locatable(s, f) && Reachable(s, f)
  }

  /** The media node was asked and the query failed; of a talk it is asked only once the device is there. */
  predicate Unanswered(s: Session, f: Findings) {
    f.nodeConfigured && OnlineAnswer(s, f).None? && (s.sessionType.Talk? ==> Reachable(s, f))
  }

  /** The outcome that record and findings call for, each by its own condition. */
  ghost predicate CalledFor(s: Session, f: Findings, o: Outcome) {
    && (o.Restored? <==> Askable(s, f) && OnlineAnswer(s, f) == Some(true) && f.inserted)
    && (o.Restored? ==> (o.closing <==> s.state.Terminating?))
    && (o.Closed? <==> Askable(s, f) && !s.sessionType.Talk? && f.mediaOnline == Some(false))
    && (o.Closed? ==> o.listed == f.inserted)
    && (o == Failed(true) <==>
        Eligible(s, f) && Locatable(s, f) && !Reachable(s, f) && (s.sessionType.Talk? || f.mediaOnline.Some?))
    && (o == Failed(false) <==>
        Eligible(s, f) && (s.ssrc.None? || !f.ssrcParses || Unanswered(s, f)))
    && (o.Orphaned? <==>
        || !Eligible(s, f)
        || (s.ssrc.Some? && f.ssrcParses && !f.nodeConfigured)
        || (Askable(s, f) && OnlineAnswer(s, f) == Some(true) && !f.inserted)
        || (Askable(s, f) && s.sessionType.Talk? && f.talkOnline == Some(false)))
  }

  /** The conditions leave one outcome and no more. */
  lemma OneOutcome(s: Session, f: Findings, o: Outcome)
    ensures CalledFor(s, f, o) <==> o == Decide(s, f)
  {
    DecisionIsCalledFor(s, f);
    hide Decide, Askable, Eligible, Locatable, Reachable, OnlineAnswer;
  }

  lemma DecisionIsCalledFor(s: Session, f: Findings)
    ensures CalledFor(s, f, Decide(s, f))
  {
    var o := Decide(s, f);
    if !Eligible(s, f) {
      assert o.Orphaned?;
    } else if s.ssrc.None? || !f.ssrcParses {
      assert o == Failed(false);
    } else if !f.nodeConfigured {
      assert o.Orphaned?;
    } else if s.sessionType.Talk? {
      assert !Reachable(s, f) ==> o == Failed(true);
      assert Reachable(s, f) && f.talkOnline.Some? && (!f.talkOnline.value || !f.inserted) ==> o.Orphaned?;
      assert Reachable(s, f) && f.talkOnline.Some? && f.talkOnline.value && f.inserted ==> o.Restored?;
    } else {
      assert f.mediaOnline.None? ==> o == Failed(false);
    }
  }

  /** The record an outcome leaves, when nobody else changed it: an orphan for one that cannot be taken up again,
      the same record for a restored one or a failed query, and a terminating one when its media is gone. */
  ghost predicate LeftAs(s: Session, f: Findings, o: Outcome, t: Session) {
    if o.Orphaned? || o == Failed(true) then
      t == s.(state := Orphan, updatedAt := f.orphanedAt, version := s.version + 1)
    else if o.Closed? && s.state.Established? then
      t == s.(state := Terminating, updatedAt := f.now, version := s.version + 1)
    else t == s
  }

  /** What becomes of a live, valid record that nobody else changes: exactly what its outcome, as called for, says;
      it stays valid, and no invitation survives. */
  lemma RecoveredRecord(s: Session, f: Findings, o: Outcome)
    requires Validate(s) && !IsTerminal(s.state) && s.updatedAt <= f.now && s.updatedAt <= f.orphanedAt
    requires CalledFor(s, f, o)
    ensures var t := Recovered(s, f);
            LeftAs(s, f, o, t) && Validate(t) && !t.state.Inviting? && (o.Closed? ==> t.state.Terminating?)
  {
    hide ValidLen, ValidSipUri, ValidAddr, ValidRouteSet, CalledFor;
    OneOutcome(s, f, o);
  }

  method MarkOrphan(repo: Repository, s: Session, at: int)
    modifies repo
    ensures repo.rows ==
            Apply(old(repo.rows), Call(s.streamId, s.signalNodeId, s.version, Transition(s.state, Orphan, at))).0
  {
    var _ := repo.CasTransition(s.streamId, s.signalNodeId, s.version, s.state, Orphan, at);
  }

  method RecoverDialog(repo: Repository, s: Session, f: Findings) returns (r: Outcome)
    modifies repo
    ensures CalledFor(s, f, r) && r == Decide(s, f)
    ensures repo.rows == match ChangeOf(s, f)
                         case None => old(repo.rows)
                         case Some(change) => Apply(old(repo.rows),
                             Call(s.streamId, s.signalNodeId, s.version, change)).0
  {
    hide Apply, CalledFor;
    OneOutcome(s, f, Decide(s, f));
    if s.expireAt <= f.now || s.state.Inviting? || s.transport.Tls? {
      MarkOrphan(repo, s, f.orphanedAt);
      return Orphaned;
    }
    if s.ssrc.None? || !f.ssrcParses {
      return Failed(false);
    }
    if s.sessionType.Talk? {
      if !f.nodeConfigured {
        MarkOrphan(repo, s, f.orphanedAt);
        return Orphaned;
      }
      if s.transport.Udp? && !f.deviceReady {
        MarkOrphan(repo, s, f.orphanedAt);
        return Failed(true);
      }
      if f.talkOnline.None? {
        return Failed(false);
      }
      if !f.talkOnline.value || !f.inserted {
        MarkOrphan(repo, s, f.orphanedAt);
        return Orphaned;
      }
      return Restored(s.state.Terminating?);
    }
    if !f.nodeConfigured {
      MarkOrphan(repo, s, f.orphanedAt);
      return Orphaned;
    }
    if f.mediaOnline.None? {
      return Failed(false);
    }
    if s.transport.Udp? && !f.deviceReady {
      MarkOrphan(repo, s, f.orphanedAt);
      return Failed(true);
    }
    if f.mediaOnline.value {
      if !f.inserted {
        MarkOrphan(repo, s, f.orphanedAt);
        return Orphaned;
      }
      return Restored(s.state.Terminating?);
    }
    if s.state.Established? {
      var _ := repo.CasTransition(s.streamId, s.signalNodeId, s.version, Established, Terminating, f.now);
    }
    return Closed(f.inserted);
  }

  // ---------------------------------------------------------------- a page

  predicate Owned(s: Session, node: string) {
    s.signalNodeId == node && !IsTerminal(s.state)
  }

  /** A dialog is live while it is being invited, established or terminated. */
  lemma OwnedIsLive(s: Session, node: string)
    ensures Owned(s, node) <==> s.signalNodeId == node && s.state in {Inviting, Established, Terminating}
  {}

  ghost function OwnedAfter(t: Table, node: string, cursor: Option<string>): set<string> {
    set id | id in t && Owned(t[id], node) && (cursor.Some? ==> Before(cursor.value, id))
  }

  function Ids(page: seq<Session>): seq<string> {
    seq(|page|, i requires 0 <= i < |page| => page[i].streamId)
  }

  /** The first `limit` owned records after the cursor, in ascending order, as they are in the table. */
  ghost predicate IsPage(t: Table, node: string, cursor: Option<string>, limit: nat, page: seq<Session>) {
    && |page| <= limit && AscendingIds(Ids(page))
    && (forall i :: 0 <= i < |page| ==> OnPage(t, node, cursor, page[i]))
    && (forall id :: id in OwnedAfter(t, node, cursor) ==>
          id in Ids(page) || (0 < |page| == limit && Before(page[|page| - 1].streamId, id)))
  }

  ghost predicate OnPage(t: Table, node: string, cursor: Option<string>, s: Session) {
    s.streamId in OwnedAfter(t, node, cursor) && t[s.streamId] == s
  }

  /** A page under way: the records picked so far, all of them before those that remain. */
  ghost predicate Partial(t: Table, node: string, cursor: Option<string>, page: seq<Session>, rest: set<string>) {
    && AscendingIds(Ids(page))
    && (forall i :: 0 <= i < |page| ==> OnPage(t, node, cursor, page[i]))
    && rest <= OwnedAfter(t, node, cursor)
    && (forall id :: id in OwnedAfter(t, node, cursor) ==> id in Ids(page) || id in rest)
    && (forall i, id :: 0 <= i < |page| && id in rest ==> Before(Ids(page)[i], id))
  }

  lemma PartialNext(t: Table, node: string, cursor: Option<string>, page: seq<Session>, rest: set<string>, id: string)
    requires Keyed(t) && Partial(t, node, cursor, page, rest) && IsLeast(rest, id) && id in t
    ensures Partial(t, node, cursor, page + [t[id]], rest - {id})
  {
    hide Before;
    assert Ids(page + [t[id]]) == Ids(page) + [id];
    assert OnPage(t, node, cursor, t[id]);
  }

  lemma PartialIsPage(t: Table, node: string, cursor: Option<string>, page: seq<Session>, rest: set<string>, limit: nat)
    requires Partial(t, node, cursor, page, rest) && 0 < limit && |page| <= limit && (|page| == limit || rest == {})
    ensures IsPage(t, node, cursor, limit, page)
  {
    hide Before;
    assert page != [] ==> Ids(page)[|page| - 1] == page[|page| - 1].streamId;
  }

  /** The page query. A stored record that does not validate fails the whole page. */
  method PageOwnedByStates(t: Table, node: string, cursor: Option<string>, limit: nat)
    returns (r: Result<seq<Session>, string>)
    requires Keyed(t) && limit > 0
    ensures r.Ok? ==> IsPage(t, node, cursor, limit, r.value)
    ensures r.Err? ==> exists id :: id in OwnedAfter(t, node, cursor) && !Validate(t[id])
  {
    hide Before, Validate, Partial, Owned, IsPage;
    var page: seq<Session> := [];
    var rest := set id | id in t && Owned(t[id], node) && (cursor.Some? ==> Before(cursor.value, id));
    NothingPicked(t, node, cursor);
    while |page| < limit && rest != {}
      invariant |page| <= limit && Partial(t, node, cursor, page, rest) && rest <= OwnedAfter(t, node, cursor)
      decreases |rest|
    {
      HasLeast(rest);
      var id :| id in rest && forall o :: o in rest ==> o == id || Before(id, o);
      if !Validate(t[id]) {
        return Err("invalid dialog record");
      }
      PartialNext(t, node, cursor, page, rest, id);
      page := page + [t[id]];
      rest := rest - {id};
    }
    PartialIsPage(t, node, cursor, page, rest, limit);
    return Ok(page);
  }

  lemma NothingPicked(t: Table, node: string, cursor: Option<string>)
    ensures Partial(t, node, cursor, [], OwnedAfter(t, node, cursor))
  {}

  // ---------------------------------------------------------------- the loop over the pages

  /** The table with the records in `done` recovered and all others as they were. */
  ghost function RecoverSome(t: Table, findings: string -> Findings, done: set<string>): Table {
    map id | id in t :: if id in done then Recovered(t[id], findings(id)) else t[id]
  }

  lemma RecoverOneMore(t: Table, findings: string -> Findings, done: set<string>, id: string)
    requires Keyed(t) && id in t && id !in done
    ensures var now := RecoverSome(t, findings, done);
            && now[id] == t[id]
            && RecoverSome(t, findings, done + {id}) ==
               match ChangeOf(t[id], findings(id))
               case None => now
               case Some(change) => Apply(now, Call(id, t[id].signalNodeId, t[id].version, change)).0
  {
    hide ChangeOf, WellFormed, Guard;
  }

  lemma RecoverNone(t: Table, findings: string -> Findings)
    ensures RecoverSome(t, findings, {}) == t
  {}

  /** Where the loop stands: everything owned up to the cursor is done, in ascending order, and nothing else
      has been touched. */
  ghost predicate Progress(t: Table, node: string, cursor: Option<string>, processed: seq<string>) {
    && AscendingIds(processed)
    && (forall id :: id in processed ==> id in OwnedAfter(t, node, None))
    && (forall id :: id in OwnedAfter(t, node, None) ==> id in processed || id in OwnedAfter(t, node, cursor))
    && (forall id :: id in processed ==> cursor.Some? && (id == cursor.value || Before(id, cursor.value)))
  }

  /** Records ahead of the cursor have not been touched, whatever was done to those behind it. */
  lemma AheadUntouched(
    t: Table, node: string, findings: string -> Findings, cursor: Option<string>, processed: seq<string>,
        done: set<string>)
    requires Progress(t, node, cursor, processed) && done == set id | id in processed
    ensures OwnedAfter(RecoverSome(t, findings, done), node, cursor) == OwnedAfter(t, node, cursor)
    ensures forall id :: id in OwnedAfter(t, node, cursor) ==>
                           id !in done && RecoverSome(t, findings, done)[id] == t[id]
  {
    hide Before, Recovered, AscendingIds;
    forall id | id in t && (cursor.Some? ==> Before(cursor.value, id)) ensures id !in done {
      if id in done {
        BeforeIsStrict(id);
        BeforeIsStrict(cursor.value);
        if id != cursor.value { BeforeIsTransitive(cursor.value, id, cursor.value); }
      }
    }
  }

  lemma PageAhead(t: Table, node: string, findings: string -> Findings, cursor: Option<string>, processed: seq<string>,
                  done: set<string>, page: seq<Session>)
    requires Progress(t, node, cursor, processed) && done == set id | id in processed
    requires IsPage(RecoverSome(t, findings, done), node, cursor, RECOVERY_PAGE_SIZE, page)
    ensures IsPage(t, node, cursor, RECOVERY_PAGE_SIZE, page)
    ensures forall i :: 0 <= i < |page| ==>
               page[i].streamId !in done && page[i].streamId in t && t[page[i].streamId] == page[i]
  {
    hide Before, Recovered, AscendingIds, Progress, RecoverSome, OwnedAfter;
    AheadUntouched(t, node, findings, cursor, processed, done);
    forall i | 0 <= i < |page|
      ensures OnPage(t, node, cursor, page[i]) && page[i].streamId !in done && page[i].streamId in t
    {
      assert OnPage(RecoverSome(t, findings, done), node, cursor, page[i]);
      OwnedIsStored(t, node, cursor, page[i].streamId);
    }
  }

  lemma OwnedIsStored(t: Table, node: string, cursor: Option<string>, id: string)
    ensures id in OwnedAfter(t, node, cursor) ==> id in t && id in OwnedAfter(t, node, None)
  {}

  lemma AscendingApart(ids: seq<string>, i: nat)
    requires AscendingIds(ids) && i < |ids|
    ensures ids[i] !in ids[..i]
  {
    hide Before;
    BeforeIsStrict(ids[i]);
  }

  lemma NextProgress(t: Table, node: string, cursor: Option<string>, processed: seq<string>, page: seq<Session>)
    requires Progress(t, node, cursor, processed) && page != []
    requires IsPage(t, node, cursor, RECOVERY_PAGE_SIZE, page)
    ensures var cursor' := Some(page[|page| - 1].streamId);
            Progress(t, node, cursor', processed + Ids(page))
    ensures |page| < RECOVERY_PAGE_SIZE ==> forall id :: id in OwnedAfter(t, node, None) ==> id in processed + Ids(page)
  {
    hide Before;
    var ids := Ids(page);
    var last := ids[|ids| - 1];
    var all := processed + ids;
    forall i, j | 0 <= i < j < |all| ensures Before(all[i], all[j]) {
      if i < |processed| && j >= |processed| {
        assert all[i] in processed && OnPage(t, node, cursor, page[j - |processed|]);
        if all[i] != cursor.value { BeforeIsTransitive(all[i], cursor.value, all[j]); }
      }
    }
    forall id | id in all ensures id in OwnedAfter(t, node, None) && (id == last || Before(id, last)) {
      if id in processed {
        assert OnPage(t, node, cursor, page[|page| - 1]);
        if id != cursor.value { BeforeIsTransitive(id, cursor.value, last); }
      } else {
        var k :| 0 <= k < |ids| && ids[k] == id;
        assert OnPage(t, node, cursor, page[k]);
      }
    }
  }

  // ---------------------------------------------------------------- what other actors may do meanwhile

  /** Others update records, among them those of closes the recovery itself has begun, and insert new ones, but
      delete none, change nobody's owner, and leave valid records valid. */
  ghost predicate RecordsKept(t: Table, t': Table) {
    && t.Keys <= t'.Keys
    && (forall id {:trigger t'[id]} :: id in t' ==> if id in t then Successor(t[id], t'[id]) else Fresh(t'[id], id))
  }

  ghost predicate Successor(s: Session, s': Session) {
    s'.streamId == s.streamId && s'.signalNodeId == s.signalNodeId && (Validate(s) ==> Validate(s'))
  }

  ghost predicate Fresh(s: Session, id: string) {
    s.streamId == id && Validate(s)
  }

  ghost predicate AllValid(t: Table) {
    forall id :: id in t ==> Validate(t[id])
  }

  /** What the other actors have made of the table by the n-th point at which they can come in; `universe` are
      all the ids that ever come up. */
  ghost predicate Harmless(others: (nat, Table) -> Table, universe: set<string>) {
    forall n, t {:trigger others(n, t)} :: Keyed(t) && t.Keys <= universe ==>
      RecordsKept(t, others(n, t)) && others(n, t).Keys <= universe
  }

  ghost predicate Absent(others: (nat, Table) -> Table) {
    forall n, t {:trigger others(n, t)} :: others(n, t) == t
  }

  lemma RecordsKeptChain(t: Table, u: Table, v: Table)
    requires RecordsKept(t, u) && RecordsKept(u, v)
    ensures RecordsKept(t, v)
  {
    hide Validate;
  }

  lemma KeptStayValid(t: Table, u: Table)
    requires Keyed(t) && RecordsKept(t, u)
    ensures Keyed(u) && (AllValid(t) ==> AllValid(u))
  {
    hide Validate;
  }

  lemma NeverBlind(s: Session, f: Findings)
    ensures ChangeOf(s, f).Some? ==> !EstablishesBlindly(ChangeOf(s, f).value)
  {}

  lemma ApplyKeepsRecords(t: Table, c: Call)
    requires Keyed(t) && !EstablishesBlindly(c.change)
    ensures RecordsKept(t, Apply(t, c).0) && Apply(t, c).0.Keys == t.Keys
  {
    hide Validate, WellFormed, Guard, EstablishesBlindly;
    if WellFormed(c) && c.streamId in t && Guard(t[c.streamId], c) {
      UpdatedKeeps(t[c.streamId], c);
    }
  }

  lemma UpdatedKeeps(s: Session, c: Call)
    requires WellFormed(c) && c.streamId == s.streamId && Guard(s, c) && !EstablishesBlindly(c.change)
    ensures var u := Updated(s, c.change);
            u.streamId == s.streamId && u.signalNodeId == s.signalNodeId && (Validate(s) ==> Validate(u))
  {
    hide Validate, WellFormed, Guard;
    if Validate(s) { ValidityIsExact(s, c); }
  }

  /** The other actors come in. */
  method LetOthersAct(repo: Repository, others: (nat, Table) -> Table, n: nat, ghost universe: set<string>)
    requires Keyed(repo.rows) && repo.rows.Keys <= universe && Harmless(others, universe)
    modifies repo
    ensures repo.rows.Keys <= universe
    ensures repo.rows == others(n, old(repo.rows)) && RecordsKept(old(repo.rows), repo.rows) && Keyed(repo.rows)
    ensures AllValid(old(repo.rows)) ==> AllValid(repo.rows)
    ensures Absent(others) ==> repo.rows == old(repo.rows)
  {
    hide RecordsKept, AllValid;
    ghost var t := repo.rows;
    repo.rows := others(n, repo.rows);
    KeptStayValid(t, repo.rows);
  }

  // ---------------------------------------------------------------- the loop

  /** One dialog is recovered, as it was read. */
  ghost function RecoverOne(t: Table, s: Session, f: Findings): Table {
    match ChangeOf(s, f)
    case None => t
    case Some(change) => Apply(t, Call(s.streamId, s.signalNodeId, s.version, change)).0
  }

  /** The dialogs of a page are recovered one after the other; others come in before each of them. */
  ghost function AfterPage(
    t: Table, findings: string -> Findings, others: (nat, Table) -> Table, first: nat, page: seq<Session>): Table
  {
    if page == [] then t
    else
      var front, s := page[..|page| - 1], page[|page| - 1];
      RecoverOne(others(first + |front|, AfterPage(t, findings, others, first, front)), s, findings(s.streamId))
  }

  /** How often others have come in during these pages. */
  ghost function PointsIn(pages: seq<seq<Session>>): nat {
    if pages == [] then 0 else PointsIn(pages[..|pages| - 1]) + 1 + |pages[|pages| - 1]|
  }

  /** The table after these pages. */
  ghost function AfterPages(
    t: Table, findings: string -> Findings, others: (nat, Table) -> Table, pages: seq<seq<Session>>): Table
  {
    if pages == [] then t
    else
      var front, n := pages[..|pages| - 1], PointsIn(pages[..|pages| - 1]);
      AfterPage(others(n, AfterPages(t, findings, others, front)), findings, others, n + 1, pages[|pages| - 1])
  }

  /** The tables these pages were read from. */
  ghost function TablesRead(
    t: Table, findings: string -> Findings, others: (nat, Table) -> Table, pages: seq<seq<Session>>): seq<Table>
  {
    if pages == [] then []
    else
      var front := pages[..|pages| - 1];
      TablesRead(t, findings, others, front) + [others(PointsIn(front), AfterPages(t, findings, others, front))]
  }

  /** The ids on these pages. */
  ghost function IdsOf(pages: seq<seq<Session>>): seq<string> {
    if pages == [] then [] else IdsOf(pages[..|pages| - 1]) + Ids(pages[|pages| - 1])
  }

  lemma NoPages(t: Table, findings: string -> Findings, others: (nat, Table) -> Table)
    ensures AfterPages(t, findings, others, []) == t && TablesRead(t, findings, others, []) == []
    ensures PointsIn([]) == 0 && IdsOf([]) == []
  {}

  lemma OneMorePage(
    t: Table, findings: string -> Findings, others: (nat, Table) -> Table, pages: seq<seq<Session>>,
    page: seq<Session>)
    ensures var read := others(PointsIn(pages), AfterPages(t, findings, others, pages));
            && TablesRead(t, findings, others, pages + [page]) == TablesRead(t, findings, others, pages) + [read]
            && AfterPages(t, findings, others, pages + [page]) ==
               AfterPage(read, findings, others, PointsIn(pages) + 1, page)
    ensures PointsIn(pages + [page]) == PointsIn(pages) + 1 + |page|
    ensures IdsOf(pages + [page]) == IdsOf(pages) + Ids(page)
  {
    hide AfterPage;
    assert (pages + [page])[..|pages|] == pages;
  }

  lemma AfterNoDialog(t: Table, findings: string -> Findings, others: (nat, Table) -> Table, first: nat)
    ensures AfterPage(t, findings, others, first, []) == t
  {}

  lemma AfterOneMore(
    t: Table, findings: string -> Findings, others: (nat, Table) -> Table, first: nat, page: seq<Session>, i: nat)
    requires i < |page|
    ensures AfterPage(t, findings, others, first, page[..i + 1]) ==
            RecoverOne(others(first + i, AfterPage(t, findings, others, first, page[..i])), page[i],
                       findings(page[i].streamId))
  {
    hide RecoverOne;
    assert page[..i + 1][..i] == page[..i];
  }

  /** Recovers the dialogs of one page, each as it was read; others may come in before each of them. */
  method RecoverPage(
    repo: Repository, findings: string -> Findings, others: (nat, Table) -> Table, first: nat, page: seq<Session>,
    ghost t: Table, ghost done: set<string>, ghost universe: set<string>)
    requires Keyed(repo.rows) && repo.rows.Keys <= universe && Harmless(others, universe) && AscendingIds(Ids(page))
    requires Absent(others) ==> Keyed(t) && repo.rows == RecoverSome(t, findings, done)
    requires Absent(others) ==> forall i :: 0 <= i < |page| ==>
               page[i].streamId !in done && page[i].streamId in t && t[page[i].streamId] == page[i]
    modifies repo
    ensures repo.rows == AfterPage(old(repo.rows), findings, others, first, page)
    ensures RecordsKept(old(repo.rows), repo.rows) && Keyed(repo.rows) && repo.rows.Keys <= universe
    ensures AllValid(old(repo.rows)) ==> AllValid(repo.rows)
    ensures Absent(others) ==> repo.rows == RecoverSome(t, findings, done + set id | id in Ids(page))
  {
    hide Before, Recovered, ChangeOf, Apply, AscendingIds, RecoverSome, RecordsKept, AllValid, Keyed, Harmless, Absent,
      AfterPage;
    ghost var all := done;
    ghost var start := repo.rows;
    SameAsIs(start);
    AfterNoDialog(start, findings, others, first);
    assert page[..0] == [];
    for i := 0 to |page|
      invariant all == done + set id | id in Ids(page)[..i]
      invariant repo.rows == AfterPage(start, findings, others, first, page[..i])
      invariant RecordsKept(start, repo.rows) && Keyed(repo.rows) && repo.rows.Keys <= universe
      invariant Absent(others) ==> repo.rows == RecoverSome(t, findings, all)
    {
      ghost var id := page[i].streamId;
      ghost var before := repo.rows;
      LetOthersAct(repo, others, first + i, universe);
      ghost var now := repo.rows;
      RecordsKeptChain(start, before, now);
      AscendingApart(Ids(page), i);
      AfterOneMore(start, findings, others, first, page, i);
      if Absent(others) { RecoverOneMore(t, findings, all, id); }
      var _ := RecoverDialog(repo, page[i], findings(page[i].streamId));
      OneRecovered(now, page[i], findings(page[i].streamId));
      RecordsKeptChain(start, now, repo.rows);
      KeptStayValid(now, repo.rows);
      assert Ids(page)[..i + 1] == Ids(page)[..i] + [id];
      all := all + {id};
    }
    assert Ids(page)[..|page|] == Ids(page) && page[..|page|] == page;
    KeptStayValid(start, repo.rows);
  }

  lemma SameAsIs(t: Table)
    ensures RecordsKept(t, t)
  {}

  lemma OneRecovered(t: Table, s: Session, f: Findings)
    requires Keyed(t)
    ensures RecordsKept(t, RecoverOne(t, s, f)) && RecoverOne(t, s, f).Keys == t.Keys
  {
    hide Validate, Apply, ChangeOf, Keyed, EstablishesBlindly;
    SameAsIs(t);
    NeverBlind(s, f);
    if ChangeOf(s, f).Some? {
      ApplyKeepsRecords(t, Call(s.streamId, s.signalNodeId, s.version, ChangeOf(s, f).value));
    }
  }

  /** Where the loop stands when others come in: `tables` are those the pages were read from; a dialog that was
      live in all of them is done or still ahead, and a dialog that is done was live in one of them. */
  ghost predicate Paged(node: string, cursor: Option<string>, processed: seq<string>, tables: seq<Table>) {
    && AscendingIds(processed)
    && (forall id :: id in processed ==> cursor.Some? && (id == cursor.value || Before(id, cursor.value)))
    && (forall id :: LiveThroughout(id, node, tables) ==> id in processed || cursor.None? || Before(cursor.value, id))
    && (forall id :: id in processed ==> LiveOnce(id, node, tables))
  }

  ghost predicate LiveThroughout(id: string, node: string, tables: seq<Table>) {
    forall k :: 0 <= k < |tables| ==> id in OwnedAfter(tables[k], node, None)
  }

  ghost predicate LiveOnce(id: string, node: string, tables: seq<Table>) {
    exists k :: 0 <= k < |tables| && id in OwnedAfter(tables[k], node, None)
  }

  lemma LiveMore(id: string, node: string, tables: seq<Table>, t: Table)
    ensures LiveThroughout(id, node, tables + [t]) ==>
              LiveThroughout(id, node, tables) && id in OwnedAfter(t, node, None)
    ensures LiveOnce(id, node, tables) || id in OwnedAfter(t, node, None) ==> LiveOnce(id, node, tables + [t])
  {
    var all := tables + [t];
    assert all[|tables|] == t;
    assert forall k :: 0 <= k < |tables| ==> all[k] == tables[k];
  }

  lemma AheadIsOwned(t: Table, node: string, cursor: Option<string>, id: string)
    ensures id in OwnedAfter(t, node, None) && (cursor.Some? ==> Before(cursor.value, id)) <==>
              id in OwnedAfter(t, node, cursor)
  {}

  lemma AscendingOn(processed: seq<string>, ids: seq<string>, cursor: Option<string>)
    requires AscendingIds(processed) && AscendingIds(ids)
    requires forall id :: id in processed ==> cursor.Some? && (id == cursor.value || Before(id, cursor.value))
    requires forall id :: id in ids && cursor.Some? ==> Before(cursor.value, id)
    ensures AscendingIds(processed + ids)
    ensures ids != [] ==> forall id :: id in processed + ids ==> id == ids[|ids| - 1] || Before(id, ids[|ids| - 1])
  {
    hide Before;
    var all := processed + ids;
    forall i, j | 0 <= i < j < |all| ensures Before(all[i], all[j]) {
      if i < |processed| <= j {
        assert all[i] in processed && all[j] in ids;
        if all[i] != cursor.value { BeforeIsTransitive(all[i], cursor.value, all[j]); }
      }
    }
    if ids != [] {
      forall id | id in all ensures id == ids[|ids| - 1] || Before(id, ids[|ids| - 1]) {
        var k :| 0 <= k < |all| && all[k] == id;
        assert all[|all| - 1] == ids[|ids| - 1];
      }
    }
  }

  lemma NextPaged(node: string, cursor: Option<string>, processed: seq<string>, tables: seq<Table>, t: Table,
      page: seq<Session>)
    requires Paged(node, cursor, processed, tables) && IsPage(t, node, cursor, RECOVERY_PAGE_SIZE, page) && page != []
    ensures Paged(node, Some(page[|page| - 1].streamId), processed + Ids(page), tables + [t])
    ensures |page| < RECOVERY_PAGE_SIZE ==>
              forall id :: LiveThroughout(id, node, tables + [t]) ==> id in processed + Ids(page)
  {
    hide Before, OwnedAfter, LiveThroughout, LiveOnce, AscendingIds;
    var ids := Ids(page);
    forall id | id in ids ensures id in OwnedAfter(t, node, None) && (cursor.Some? ==> Before(cursor.value, id)) {
      var k :| 0 <= k < |ids| && ids[k] == id;
      assert OnPage(t, node, cursor, page[k]);
      AheadIsOwned(t, node, cursor, id);
    }
    AscendingOn(processed, ids, cursor);
    assert ids[|ids| - 1] == page[|page| - 1].streamId;
    forall id ensures LiveThroughout(id, node, tables + [t]) ==>
                        id in processed + ids || (|page| == RECOVERY_PAGE_SIZE
                            && Before(page[|page| - 1].streamId, id)) {
      LiveMore(id, node, tables, t);
      AheadIsOwned(t, node, cursor, id);
    }
    forall id | id in processed + ids ensures LiveOnce(id, node, tables + [t]) {
      LiveMore(id, node, tables, t);
    }
  }

  lemma LastPaged(node: string, cursor: Option<string>, processed: seq<string>, tables: seq<Table>, t: Table)
    requires Paged(node, cursor, processed, tables) && IsPage(t, node, cursor, RECOVERY_PAGE_SIZE, [])
    ensures forall id :: LiveThroughout(id, node, tables + [t]) ==> id in processed
    ensures forall id :: id in processed ==> LiveOnce(id, node, tables + [t])
  {
    hide Before, OwnedAfter, LiveThroughout, LiveOnce, AscendingIds;
    forall id ensures LiveThroughout(id, node, tables + [t]) ==> id in processed {
      LiveMore(id, node, tables, t);
      AheadIsOwned(t, node, cursor, id);
    }
    forall id | id in processed ensures LiveOnce(id, node, tables + [t]) {
      LiveMore(id, node, tables, t);
    }
  }

  lemma NothingPaged(node: string)
    ensures Paged(node, None, [], [])
  {}

  lemma AbsentProgress(t: Table, node: string)
    ensures Progress(t, node, None, [])
  {}

  lemma PageIsNew(processed: seq<string>, cursor: Option<string>, t: Table, node: string, page: seq<Session>)
    requires IsPage(t, node, cursor, RECOVERY_PAGE_SIZE, page) && page != []
    requires forall id :: id in processed ==> cursor.Some? && (id == cursor.value || Before(id, cursor.value))
    ensures page[0].streamId !in processed && page[0].streamId in t
  {
    hide Before;
    assert OnPage(t, node, cursor, page[0]);
    AheadIsOwned(t, node, cursor, page[0].streamId);
    BeforeIsStrict(page[0].streamId);
    if page[0].streamId in processed {
      if page[0].streamId != cursor.value { BeforeIsTransitive(cursor.value, page[0].streamId, cursor.value); }
      BeforeIsStrict(cursor.value);
    }
  }

  lemma PagedAscends(node: string, cursor: Option<string>, processed: seq<string>, tables: seq<Table>)
    requires Paged(node, cursor, processed, tables)
    ensures AscendingIds(processed) && forall id :: id in processed ==> LiveOnce(id, node, tables)
  {}

  lemma PageAscends(t: Table, node: string, cursor: Option<string>, page: seq<Session>)
    requires IsPage(t, node, cursor, RECOVERY_PAGE_SIZE, page)
    ensures AscendingIds(Ids(page))
  {}

  lemma InvalidSomewhere(t: Table, node: string, cursor: Option<string>)
    ensures (exists id :: id in OwnedAfter(t, node, cursor) && !Validate(t[id])) ==> !AllValid(t)
  {
    hide Validate;
  }

  lemma NewlyDone(
    node: string, cursor: Option<string>, processed: seq<string>, tables: seq<Table>, t: Table, page: seq<Session>)
    requires Paged(node, cursor, processed, tables) && IsPage(t, node, cursor, RECOVERY_PAGE_SIZE, page) && page != []
    ensures var id := page[0].streamId; id in t && id !in processed && id in Ids(page)
  {
    hide Validate, Before, IsPage;
    PageIsNew(processed, cursor, t, node, page);
    assert Ids(page)[0] == page[0].streamId;
  }

  lemma NothingAhead(t: Table, node: string, findings: string -> Findings, cursor: Option<string>,
      processed: seq<string>)
    requires Progress(t, node, cursor, processed)
    requires IsPage(RecoverSome(t, findings, set id | id in processed), node, cursor, RECOVERY_PAGE_SIZE, [])
    ensures forall id :: id in processed <==> id in OwnedAfter(t, node, None)
  {
    hide Before, Recovered, AscendingIds;
    AheadUntouched(t, node, findings, cursor, processed, set id | id in processed);
  }

  lemma Shrinks(keys: set<string>, done: set<string>, more: set<string>, id: string)
    requires id in keys && id !in done && id in more
    ensures keys - (done + more) < keys - done
  {
    assert id in keys - done && id !in keys - (done + more);
  }

  lemma OnlyOwned(t: Table, node: string, cursor: Option<string>, processed: seq<string>)
    requires Progress(t, node, cursor, processed)
    ensures forall id :: id in processed ==> id in OwnedAfter(t, node, None)
  {}

  /** Startup recovery. When the stored records validate it completes: dialogs are processed in ascending order
      of their ids, none twice, each as it was read, and every dialog of the node that is live in all the tables
      the pages are read from is processed, whatever records others update or insert meanwhile. When nobody else
      comes in, the live dialogs of the node are processed exactly once, each in the state it had at the start, although
      processing rewrites the states the pages select by, and no other record is touched. */
  method RecoverOwnedDialogs(repo: Repository, node: string, findings: string -> Findings,
      others: (nat, Table) -> Table, ghost universe: set<string>)
    returns (r: Result<(), string>, ghost pages: seq<seq<Session>>)
    requires Keyed(repo.rows) && repo.rows.Keys <= universe && Harmless(others, universe)
    modifies repo
    ensures AllValid(old(repo.rows)) ==> r.Ok?
    ensures r.Ok? ==> repo.rows == AfterPages(old(repo.rows), findings, others, pages)
    ensures AscendingIds(IdsOf(pages)) && RecordsKept(old(repo.rows), repo.rows)
    ensures var tables := TablesRead(old(repo.rows), findings, others, pages);
            && (forall id :: id in IdsOf(pages) ==> LiveOnce(id, node, tables))
            && (r.Ok? ==> forall id :: LiveThroughout(id, node, tables) ==> id in IdsOf(pages))
    ensures Absent(others) ==> repo.rows == RecoverSome(old(repo.rows), findings, set id | id in IdsOf(pages))
    ensures Absent(others) && r.Ok? ==>
              forall id :: id in IdsOf(pages) <==> id in OwnedAfter(old(repo.rows), node, None)
  {
    hide Before, Validate, Recovered, ChangeOf, Apply, AscendingIds, RecoverSome, IsTerminal, RecordsKept, AllValid,
      Keyed, Harmless, Absent, Paged, Progress, IsPage, OwnedAfter, LiveThroughout, LiveOnce, AfterPage, AfterPages,
      TablesRead, PointsIn, IdsOf;
    ghost var t0 := repo.rows;
    var cursor: Option<string> := None;
    var n: nat := 0;
    pages := [];
    ghost var processed: seq<string>, tables: seq<Table> := [], [];
    NoPages(t0, findings, others);
    NothingPaged(node);
    AbsentProgress(t0, node);
    RecoverNone(t0, findings);
    SameAsIs(t0);
    PagedAscends(node, cursor, processed, tables);
    assert (set id | id in processed) == {};
    while true
      invariant repo.rows == AfterPages(t0, findings, others, pages) && n == PointsIn(pages)
      invariant processed == IdsOf(pages) && tables == TablesRead(t0, findings, others, pages)
      invariant Keyed(repo.rows) && repo.rows.Keys <= universe
      invariant RecordsKept(t0, repo.rows) && Paged(node, cursor, processed, tables)
      invariant AscendingIds(processed) && (forall id :: id in processed ==> LiveOnce(id, node, tables))
      invariant AllValid(t0) ==> AllValid(repo.rows)
      invariant Absent(others) ==> Progress(t0, node, cursor, processed)
                                   && repo.rows == RecoverSome(t0, findings, set id | id in processed)
      decreases universe - set id | id in processed
    {
      ghost var was := repo.rows;
      LetOthersAct(repo, others, n, universe);
      RecordsKeptChain(t0, was, repo.rows);
      ghost var t := repo.rows;
      var result := PageOwnedByStates(repo.rows, node, cursor, RECOVERY_PAGE_SIZE);
      if result.Err? {
        InvalidSomewhere(t, node, cursor);
        return Err(result.error), pages;
      }
      var page := result.value;
      OneMorePage(t0, findings, others, pages, page);
      if page == [] {
        LastPaged(node, cursor, processed, tables, t);
        AfterNoDialog(t, findings, others, n + 1);
        assert Ids(page) == [] && processed + [] == processed;
        if Absent(others) { NothingAhead(t0, node, findings, cursor, processed); }
        return Ok(()), pages + [page];
      }
      ghost var done := set id | id in processed;
      if Absent(others) { PageAhead(t0, node, findings, cursor, processed, done, page); }
      PageAscends(t, node, cursor, page);
      RecoverPage(repo, findings, others, n + 1, page, t0, done, universe);
      RecordsKeptChain(t0, t, repo.rows);
      n := n + 1 + |page|;
      NextPaged(node, cursor, processed, tables, t, page);
      if Absent(others) { NextProgress(t0, node, cursor, processed, page); }
      NewlyDone(node, cursor, processed, tables, t, page);
      cursor, pages := Some(page[|page| - 1].streamId), pages + [page];
      processed, tables := processed + Ids(page), tables + [t];
      assert (set id | id in processed) == done + set id | id in Ids(page);
      Shrinks(universe, done, (set id | id in Ids(page)), page[0].streamId);
      PagedAscends(node, cursor, processed, tables);
      if |page| < RECOVERY_PAGE_SIZE {
        if Absent(others) { OnlyOwned(t0, node, cursor, processed); }
        return Ok(()), pages;
      }
    }
  }
}

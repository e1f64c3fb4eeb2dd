/**
  The durable SIP dialog record of session/src/storage/dialog_session.rs: its validation, its
  compare-and-swap updates with their SQL guards, and what any sequence of such updates keeps.
*/
module DialogSessions {
  import opened Wrappers

  datatype SessionType = Live | Playback | Download | Talk
  datatype Transport = Udp | Tcp | Tls
  datatype State = Inviting | Established | Terminating | Terminated | Orphan

  predicate IsTerminal(s: State) {
    s.Terminated? || s.Orphan?
  }

  predicate CanTransitionTo(s: State, next: State) {
    match s
    case Inviting => next.Established? || next.Terminated? || next.Orphan?
    case Established => next.Terminating? || next.Terminated? || next.Orphan?
    case Terminating => next.Terminated? || next.Orphan?
    case _ => false
  }

  /** A socket address as text, with the answer of the address parser. */
  datatype Addr = Addr(text: string, parses: bool)

  /** One row of GMV_SIP_DIALOG_SESSION. Times are milliseconds. */
  datatype Session = Session(
    streamId: string, deviceId: string, channelId: string, sessionType: SessionType,
    signalNodeId: string, mediaNodeId: string, ssrc: Option<string>, callId: string,
    localUri: string, remoteUri: string, localTag: string, remoteTag: Option<string>,
    localCseq: int, remoteCseq: Option<int>, contactUri: Option<string>, routeSet: seq<string>,
    localAddr: Addr, remoteAddr: Addr, transport: Transport, state: State,
    establishedAt: Option<int>, lastSeenAt: int, expireAt: int, version: int,
    createdAt: int, updatedAt: int)

  // ---------------------------------------------------------------- validation

  predicate ValidLen(value: string, maxLen: nat) {
    0 < |value| <= maxLen && forall c :: c in value ==> c != '\0' && c != '\r' && c != '\n'
  }

  predicate ValidOptionalLen(value: Option<string>, maxLen: nat) {
    value.Some? ==> ValidLen(value.value, maxLen)
  }

  predicate IsSpace(c: char) {
    c == ' ' || ('\t' <= c <= '\r')
  }

  function TrimStart(s: string, drop: char -> bool): string {
    if s != [] && drop(s[0]) then TrimStart(s[1..], drop) else s
  }

  function TrimEnd(s: string, drop: char -> bool): string {
    if s != [] && drop(s[|s| - 1]) then TrimEnd(s[..|s| - 1], drop) else s
  }

  predicate ValidSipUri(value: string, maxLen: nat) {
    ValidLen(value, maxLen) &&
    var trimmed := TrimEnd(TrimStart(value, IsSpace), IsSpace);
    var uri := TrimEnd(TrimStart(trimmed, c => c == '<'), c => c == '>');
    "sip:" <= uri || "sips:" <= uri
  }

  predicate ValidOptionalSipUri(value: Option<string>, maxLen: nat) {
    value.Some? ==> ValidSipUri(value.value, maxLen)
  }

  predicate ValidAddr(a: Addr) {
    ValidLen(a.text, 64) && a.parses
  }

  predicate ValidRouteSet(routes: seq<string>) {
    forall r :: r in routes ==> ValidSipUri(r, 1024)
  }

  /** The length of a character in a JSON string; a line break or a zero cannot occur in a valid route. */
  function JsonCharLen(c: char): nat {
    if c == '"' || c == '\\' || c == '\t' || c == '\r' || c == '\n' || c as int == 8 || c as int == 12 then 2
    else if c as int < 32 then 6
    else 1
  }

  function JsonStringLen(s: string): nat {
    if s == [] then 2 else JsonStringLen(s[..|s| - 1]) + JsonCharLen(s[|s| - 1])
  }

  /** The length of a list of routes as a JSON array: brackets, commas and quoted strings. */
  function RouteSetJsonLen(routes: seq<string>): nat {
    if routes == [] then 2
    else RouteSetJsonLen(routes[..|routes| - 1]) + JsonStringLen(routes[|routes| - 1]) + if |routes| > 1 then 1 else 0
  }

  /** An empty route set is stored as NULL, any other must fit a TEXT column. */
  predicate StorableRoutes(routes: seq<string>) {
    ValidRouteSet(routes) && (routes == [] || RouteSetJsonLen(routes) <= 65535)
  }

  predicate ValidCseqs(local: int, remote: Option<int>) {
    local > 0 && (remote.Some? ==> remote.value > 0)
  }

  /** Everything about the record that no update but establishing ever touches. */
  predicate ValidNames(s: Session) {
    && ValidLen(s.streamId, 64) && ValidLen(s.deviceId, 32) && ValidLen(s.channelId, 32)
    && ValidLen(s.signalNodeId, 64) && ValidLen(s.mediaNodeId, 64)
    && ValidOptionalLen(s.ssrc, 16) && ValidLen(s.callId, 128)
    && ValidSipUri(s.localUri, 256) && ValidSipUri(s.remoteUri, 256)
    && ValidLen(s.localTag, 128) && ValidOptionalLen(s.remoteTag, 128)
    && ValidOptionalSipUri(s.contactUri, 256)
    && ValidAddr(s.localAddr) && ValidAddr(s.remoteAddr) && ValidRouteSet(s.routeSet)
  }

  predicate ValidTimes(s: Session) {
    && s.version >= 0
    && s.createdAt <= s.updatedAt && s.createdAt <= s.lastSeenAt < s.expireAt
    && (s.establishedAt.Some? ==> s.createdAt <= s.establishedAt.value <= s.updatedAt)
  }

  predicate Validate(s: Session) {
    && ValidNames(s) && ValidCseqs(s.localCseq, s.remoteCseq) && ValidTimes(s)
    && (s.state.Inviting? ==> s.establishedAt.None?)
    && (s.state.Established? || s.state.Terminating? ==> s.remoteTag.Some? && s.establishedAt.Some?)
  }

  datatype EstablishedFields = EstablishedFields(
    remoteTag: string, localCseq: int, remoteCseq: Option<int>, contactUri: Option<string>,
    routeSet: seq<string>, localAddr: Addr, remoteAddr: Addr,
    establishedAt: int, lastSeenAt: int, expireAt: int, updatedAt: int)

  predicate ValidateFields(f: EstablishedFields) {
    && ValidLen(f.remoteTag, 128) && ValidOptionalSipUri(f.contactUri, 256)
    && ValidAddr(f.localAddr) && ValidAddr(f.remoteAddr) && ValidRouteSet(f.routeSet)
    && ValidCseqs(f.localCseq, f.remoteCseq)
    && f.establishedAt <= f.lastSeenAt < f.expireAt && f.establishedAt <= f.updatedAt
  }

  // ---------------------------------------------------------------- compare and swap on one row

  const I32_MAX: int := 0x7fff_ffff

  datatype Change =
    | MarkEstablished(fields: EstablishedFields)
    | BeginTerminating(currentCseq: int, nextCseq: int, at: int)
    | Transition(expected: State, next: State, at: int)
    | ReserveLocalCseq(currentCseq: int, nextCseq: int, at: int)
    | Touch(lastSeenAt: int, expireAt: int)

  /** One call: whose row, on behalf of which signalling node, and which version the caller has read. */
  datatype Call = Call(streamId: string, node: string, version: int, change: Change)

  /** The checks a call makes on its own arguments; failing them is an error and touches nothing. */
  predicate WellFormed(c: Call) {
    && ValidLen(c.streamId, 64) && ValidLen(c.node, 64) && c.version >= 0
    && match c.change
       case MarkEstablished(f) => ValidateFields(f) && StorableRoutes(f.routeSet)
       case BeginTerminating(cur, next, _) => cur > 0 && next == cur + 1 && next <= I32_MAX
       case ReserveLocalCseq(cur, next, _) => cur > 0 && next == cur + 1 && next <= I32_MAX
       case Transition(expected, next, _) => !IsTerminal(expected) && CanTransitionTo(expected, next)
       case Touch(seen, expire) => seen < expire
  }

  /** The WHERE clause of the call's UPDATE. */
  predicate Guard(s: Session, c: Call) {
    && s.version == c.version && s.signalNodeId == c.node
    && match c.change
       case MarkEstablished(f) => s.state.Inviting? && s.createdAt <= f.establishedAt && s.updatedAt <= f.updatedAt
       case BeginTerminating(cur, _, at) => s.state.Established? && s.localCseq == cur && s.updatedAt <= at
       case ReserveLocalCseq(cur, _, at) =>
         (s.state.Established? || s.state.Terminating?) && s.localCseq == cur && s.updatedAt <= at
       case Transition(expected, _, at) => s.state == expected && s.updatedAt <= at
       case Touch(seen, _) =>
         (s.state.Established? || s.state.Terminating?) && s.lastSeenAt <= seen && s.updatedAt <= seen
  }

  /** The SET clause. */
  function Updated(s: Session, change: Change): Session {
    var t := s.(version := s.version + 1);
    match change
    case MarkEstablished(f) =>
      t.(remoteTag := Some(f.remoteTag), localCseq := f.localCseq, remoteCseq := f.remoteCseq,
         contactUri := f.contactUri, routeSet := f.routeSet, localAddr := f.localAddr,
         remoteAddr := f.remoteAddr, state := Established, establishedAt := Some(f.establishedAt),
         lastSeenAt := f.lastSeenAt, expireAt := f.expireAt, updatedAt := f.updatedAt)
    case BeginTerminating(_, next, at) => t.(localCseq := next, state := Terminating, updatedAt := at)
    case ReserveLocalCseq(_, next, at) => t.(localCseq := next, updatedAt := at)
    case Transition(_, next, at) => t.(state := next, updatedAt := at)
    case Touch(seen, expire) => t.(lastSeenAt := seen, expireAt := expire, updatedAt := seen)
  }

  /** The call succeeds: it answers true and its update is made. */
  predicate Wins(s: Session, c: Call) {
    WellFormed(c) && c.streamId == s.streamId && Guard(s, c)
  }

  function Cas(s: Session, c: Call): Session {
    if Wins(s, c) then Updated(s, c.change) else s
  }

  // ---------------------------------------------------------------- the table

  type Table = map<string, Session>

  ghost predicate Keyed(t: Table) {
    forall id :: id in t ==> t[id].streamId == id
  }

  function Apply(t: Table, c: Call): (Table, Result<bool, string>) {
    if !WellFormed(c) then (t, Err("invalid dialog request"))
    else if c.streamId in t && Guard(t[c.streamId], c) then
      (t[c.streamId := Updated(t[c.streamId], c.change)], Ok(true))
    else (t, Ok(false))
  }

  predicate Insertable(s: Session) {
    Validate(s) && s.state.Inviting? && s.version == 0 && s.remoteTag.None?
  }

  function Insert(t: Table, s: Session): (Table, Result<(), string>) {
    if !Insertable(s) || !StorableRoutes(s.routeSet) then (t, Err("invalid dialog"))
    else if s.streamId in t then (t, Err("duplicate dialog stream_id"))
    else (t[s.streamId := s], Ok(()))
  }

  /** The repository. Each method is one atomic statement of the database. */
  class Repository {
    var rows: Table

    constructor ()
      ensures rows == map[]
    {
      rows := map[];
    }

    method InsertInviting(s: Session) returns (r: Result<(), string>)
      modifies this
      ensures (rows, r) == Insert(old(rows), s)
    {
      if !Validate(s) || !s.state.Inviting? || s.version != 0 || s.remoteTag.Some? || !StorableRoutes(s.routeSet) {
        return Err("invalid dialog");
      }
      if s.streamId in rows {
        return Err("duplicate dialog stream_id");
      }
      rows := rows[s.streamId := s];
      return Ok(());
    }

    method CasMarkEstablished(streamId: string, node: string, version: int, f: EstablishedFields)
      returns (r: Result<bool, string>)
      modifies this
      ensures (rows, r) == Apply(old(rows), Call(streamId, node, version, MarkEstablished(f)))
    {
      if !ValidLen(streamId, 64) || !ValidLen(node, 64) || !ValidateFields(f) || version < 0
         || !StorableRoutes(f.routeSet) {
        return Err("invalid dialog request");
      }
      if streamId !in rows {
        return Ok(false);
      }
      var s := rows[streamId];
      if s.version != version || s.state != Inviting || s.signalNodeId != node
         || f.establishedAt < s.createdAt || f.updatedAt < s.updatedAt {
        return Ok(false);
      }
      s := s.(remoteTag := Some(f.remoteTag), localCseq := f.localCseq, remoteCseq := f.remoteCseq);
      s := s.(contactUri := f.contactUri, routeSet := f.routeSet, localAddr := f.localAddr, remoteAddr := f.remoteAddr);
      s := s.(state := Established, establishedAt := Some(f.establishedAt), lastSeenAt := f.lastSeenAt);
      s := s.(expireAt := f.expireAt, updatedAt := f.updatedAt, version := s.version + 1);
      rows := rows[streamId := s];
      return Ok(true);
    }

    method CasBeginTerminating(streamId: string, node: string, version: int, currentCseq: int, nextCseq: int, at: int)
      returns (r: Result<bool, string>)
      modifies this
      ensures (rows, r) == Apply(old(rows), Call(streamId, node, version, BeginTerminating(currentCseq, nextCseq, at)))
    {
      if !ValidLen(streamId, 64) || !ValidLen(node, 64) || version < 0 || currentCseq <= 0
         || nextCseq != currentCseq + 1 || nextCseq > I32_MAX {
        return Err("invalid dialog request");
      }
      if streamId !in rows {
        return Ok(false);
      }
      var s := rows[streamId];
      if s.version != version || s.state != Established || s.signalNodeId != node
         || s.localCseq != currentCseq || at < s.updatedAt {
        return Ok(false);
      }
      rows := rows[streamId := s.(localCseq := nextCseq, state := Terminating, updatedAt := at,
          version := s.version + 1)];
      return Ok(true);
    }

    method CasTransition(streamId: string, node: string, version: int, expected: State, next: State, at: int)
      returns (r: Result<bool, string>)
      modifies this
      ensures (rows, r) == Apply(old(rows), Call(streamId, node, version, Transition(expected, next, at)))
    {
      if !ValidLen(streamId, 64) || !ValidLen(node, 64) || version < 0 || IsTerminal(expected)
         || !CanTransitionTo(expected, next) {
        return Err("invalid dialog request");
      }
      if streamId !in rows {
        return Ok(false);
      }
      var s := rows[streamId];
      if s.version != version || s.state != expected || s.signalNodeId != node || at < s.updatedAt {
        return Ok(false);
      }
      rows := rows[streamId := s.(state := next, updatedAt := at, version := s.version + 1)];
      return Ok(true);
    }

    method CasReserveLocalCseq(streamId: string, node: string, version: int, currentCseq: int, nextCseq: int, at: int)
      returns (r: Result<bool, string>)
      modifies this
      ensures (rows, r) == Apply(old(rows), Call(streamId, node, version, ReserveLocalCseq(currentCseq, nextCseq, at)))
    {
      if !ValidLen(streamId, 64) || !ValidLen(node, 64) || version < 0 || currentCseq <= 0
         || nextCseq != currentCseq + 1 || nextCseq > I32_MAX {
        return Err("invalid dialog request");
      }
      if streamId !in rows {
        return Ok(false);
      }
      var s := rows[streamId];
      if s.version != version || s.signalNodeId != node || s.localCseq != currentCseq || at < s.updatedAt
         || (s.state != Established && s.state != Terminating) {
        return Ok(false);
      }
      rows := rows[streamId := s.(localCseq := nextCseq, updatedAt := at, version := s.version + 1)];
      return Ok(true);
    }

    method CasTouch(streamId: string, node: string, version: int, lastSeenAt: int, expireAt: int)
      returns (r: Result<bool, string>)
      modifies this
      ensures (rows, r) == Apply(old(rows), Call(streamId, node, version, Touch(lastSeenAt, expireAt)))
    {
      if !ValidLen(streamId, 64) || !ValidLen(node, 64) || version < 0 || expireAt <= lastSeenAt {
        return Err("invalid dialog request");
      }
      if streamId !in rows {
        return Ok(false);
      }
      var s := rows[streamId];
      if s.version != version || s.signalNodeId != node || lastSeenAt < s.lastSeenAt || lastSeenAt < s.updatedAt
         || (s.state != Established && s.state != Terminating) {
        return Ok(false);
      }
      rows := rows[streamId := s.(lastSeenAt := lastSeenAt, expireAt := expireAt, updatedAt := lastSeenAt,
                                  version := s.version + 1)];
      return Ok(true);
    }
  }

  // ---------------------------------------------------------------- any sequence of calls

  function Calls(s: Session, cs: seq<Call>): Session {
    if cs == [] then s else Cas(Calls(s, cs[..|cs| - 1]), cs[|cs| - 1])
  }

  function ApplyAll(t: Table, cs: seq<Call>): Table {
    if cs == [] then t else Apply(ApplyAll(t, cs[..|cs| - 1]), cs[|cs| - 1]).0
  }

  /** In the whole table a row evolves as if the calls on it were alone. */
  lemma {:induction false} RowsAreIndependent(t: Table, id: string, cs: seq<Call>)
    requires Keyed(t) && id in t
    ensures var t' := ApplyAll(t, cs); Keyed(t') && t'.Keys == t.Keys && t'[id] == Calls(t[id], cs)
  {
    hide WellFormed;
    if cs != [] {
      RowsAreIndependent(t, id, cs[..|cs| - 1]);
      var t1 := ApplyAll(t, cs[..|cs| - 1]);
      var c := cs[|cs| - 1];
      if c.streamId in t1 { assert t1[c.streamId].streamId == c.streamId; }
    }
  }

  /** How many of the calls succeed. */
  function WinCount(s: Session, cs: seq<Call>): nat {
    if cs == [] then 0
    else WinCount(s, cs[..|cs| - 1]) + if Wins(Calls(s, cs[..|cs| - 1]), cs[|cs| - 1]) then 1 else 0
  }

  predicate Reserves(change: Change) {
    change.BeginTerminating? || change.ReserveLocalCseq?
  }

  /** The CSeqs handed out by successful reservations, in order. */
  function HandedOut(s: Session, cs: seq<Call>): seq<int> {
    if cs == [] then []
    else
      var c := cs[|cs| - 1];
      HandedOut(s, cs[..|cs| - 1]) +
      if Reserves(c.change) && Wins(Calls(s, cs[..|cs| - 1]), c) then [c.change.nextCseq] else []
  }

  /** The version counts the successful calls. */
  lemma {:induction false} VersionCountsWins(s: Session, cs: seq<Call>)
    ensures Calls(s, cs).version == s.version + WinCount(s, cs)
    ensures Calls(s, cs).streamId == s.streamId && Calls(s, cs).signalNodeId == s.signalNodeId
    ensures Calls(s, cs).createdAt == s.createdAt
  {
    hide WellFormed, Guard;
    if cs != [] {
      VersionCountsWins(s, cs[..|cs| - 1]);
    }
  }

  lemma CallsSplit(s: Session, xs: seq<Call>, ys: seq<Call>)
    ensures Calls(s, xs + ys) == Calls(Calls(s, xs), ys)
  {
    hide Cas;
    if ys == [] {
      assert xs + ys == xs;
    } else {
      assert (xs + ys)[..|xs + ys| - 1] == xs + ys[..|ys| - 1];
      CallsSplit(s, xs, ys[..|ys| - 1]);
    }
  }

  lemma {:induction false} NoWinNoChange(s: Session, cs: seq<Call>)
    requires WinCount(s, cs) == 0
    ensures Calls(s, cs) == s
  {
    hide Wins;
    if cs != [] {
      NoWinNoChange(s, cs[..|cs| - 1]);
    }
  }

  /** No ABA: a row that has the version a caller read is still the very row it read. */
  lemma SameVersionSameRow(s: Session, cs: seq<Call>)
    ensures Calls(s, cs).version == s.version <==> WinCount(s, cs) == 0
    ensures Calls(s, cs).version == s.version ==> Calls(s, cs) == s
  {
    VersionCountsWins(s, cs);
    if WinCount(s, cs) == 0 {
      NoWinNoChange(s, cs);
    }
  }

  /** A call that names the version of a row read earlier wins only when nobody won in between, and then it
      is as if reading and updating had been one step. */
  lemma ReadThenCasIsAtomic(s: Session, between: seq<Call>, c: Call)
    requires c.version == s.version && c.streamId == s.streamId
    ensures Wins(Calls(s, between), c) <==> WinCount(s, between) == 0 && Wins(s, c)
    ensures Wins(Calls(s, between), c) ==> Cas(Calls(s, between), c) == Updated(s, c.change)
  {
    hide WellFormed;
    SameVersionSameRow(s, between);
  }

  // ---------------------------------------------------------------- CSeqs are handed out once

  ghost predicate ConsecutiveTo(handed: seq<int>, last: int) {
    forall i :: 0 <= i < |handed| ==> handed[i] == NumberAt(last, |handed|, i)
  }

  function NumberAt(last: int, n: int, i: int): int {
    last - n + 1 + i
  }

  lemma HandOneMore(handed: seq<int>, last: int)
    requires ConsecutiveTo(handed, last)
    ensures ConsecutiveTo(handed + [last + 1], last + 1)
  {}

  /** Over any calls whatsoever on a row that starts as an invitation: the handed-out CSeqs are consecutive
      and end at the row's own, so none is handed out twice; while inviting, none is handed out. */
  lemma {:induction false} CseqsAreConsecutive(s: Session, cs: seq<Call>)
    requires s.state.Inviting?
    ensures var t := Calls(s, cs);
            ConsecutiveTo(HandedOut(s, cs), t.localCseq) && (t.state.Inviting? ==> HandedOut(s, cs) == [])
  {
    hide ConsecutiveTo;
    if cs == [] {
      NothingHanded(s.localCseq);
    } else {
      var front, c := cs[..|cs| - 1], cs[|cs| - 1];
      CseqsAreConsecutive(s, front);
      var t, h := Calls(s, front), HandedOut(s, front);
      HandOneMore(h, t.localCseq);
      assert h + [] == h;
      if c.change.MarkEstablished? {
        NothingHanded(c.change.fields.localCseq);
      }
    }
  }

  lemma NothingHanded(last: int)
    ensures ConsecutiveTo([], last)
  {}

  lemma HandedOutOnce(s: Session, cs: seq<Call>, i: nat, j: nat)
    requires s.state.Inviting? && i < j < |HandedOut(s, cs)|
    ensures HandedOut(s, cs)[i] < HandedOut(s, cs)[j]
  {
    CseqsAreConsecutive(s, cs);
  }

  /** Every establishing call carries the CSeq already in the row. */
  ghost predicate KeepsCseq(s: Session, cs: seq<Call>) {
    forall i :: 0 <= i < |cs| && cs[i].change.MarkEstablished? ==> cs[i].change.fields.localCseq == s.localCseq
  }

  /** The row's CSeq is its first one plus the number of reservations. */
  lemma {:induction false} CseqCountsReservations(s: Session, cs: seq<Call>)
    requires s.state.Inviting? && KeepsCseq(s, cs)
    ensures Calls(s, cs).localCseq == s.localCseq + |HandedOut(s, cs)|
  {
    if cs != [] {
      var front := cs[..|cs| - 1];
      CseqCountsReservations(s, front);
      CseqsAreConsecutive(s, front);
    }
  }

  // ---------------------------------------------------------------- states only move up

  function Rank(s: State): nat {
    match s
    case Inviting => 0
    case Established => 1
    case Terminating => 2
    case Terminated => 3
    case Orphan => 3
  }

  /** The transition table: every step up, but for INVITING to TERMINATING. A state is terminal if nothing
      follows it. */
  lemma TransitionTable(s: State, next: State)
    ensures CanTransitionTo(s, next) <==> Rank(s) < Rank(next) && !(s == Inviting && next == Terminating)
    ensures IsTerminal(s) <==> forall t :: !CanTransitionTo(s, t)
  {
    if !IsTerminal(s) { assert CanTransitionTo(s, Orphan); }
  }

  /** Over any calls: the state moves up or stays, a terminal row never changes again, and `updatedAt` never
      decreases. */
  lemma {:induction false} StatesMoveUp(s: Session, cs: seq<Call>)
    ensures var t := Calls(s, cs);
            && Rank(s.state) <= Rank(t.state) && (IsTerminal(s.state) ==> t == s)
            && s.updatedAt <= t.updatedAt
  {
    hide ValidLen, ValidateFields;
    if cs != [] {
      StatesMoveUp(s, cs[..|cs| - 1]);
    }
  }

  /** Once established, the row's CSeq moves only with reservations. */
  lemma {:induction false} LaterCseqCountsReservations(s: Session, cs: seq<Call>)
    requires !s.state.Inviting?
    ensures Calls(s, cs).localCseq == s.localCseq + |HandedOut(s, cs)|
  {
    hide ValidLen, ValidateFields, StorableRoutes;
    if cs != [] {
      LaterCseqCountsReservations(s, cs[..|cs| - 1]);
      StatesMoveUp(s, cs[..|cs| - 1]);
    }
  }

  predicate EndsDialog(change: Change) {
    change.Transition? && IsTerminal(change.next)
  }

  /** A dialog ends at most once: after a winning transition to a terminal state no later call wins. */
  lemma DialogEndsOnce(s: Session, c: Call, later: seq<Call>, d: Call)
    requires Wins(s, c) && EndsDialog(c.change)
    ensures !Wins(Calls(Cas(s, c), later), d)
  {
    hide ValidLen, ValidateFields;
    StatesMoveUp(Cas(s, c), later);
  }

  // ---------------------------------------------------------------- records stay valid

  /** The one transition that `CanTransitionTo` allows and the record's validation does not. */
  predicate EstablishesBlindly(change: Change) {
    change.Transition? && change.expected.Inviting? && change.next.Established?
  }

  lemma NamesSurvive(s: Session, change: Change)
    requires ValidNames(s) && (change.MarkEstablished? ==> ValidateFields(change.fields))
    ensures ValidNames(Updated(s, change))
  {
    hide ValidLen, ValidSipUri, ValidRouteSet;
  }

  /** A winning call on a valid row leaves a valid row, if and only if it does not move an invitation to
      ESTABLISHED by a plain transition. */
  lemma ValidityIsExact(s: Session, c: Call)
    requires Validate(s) && Wins(s, c)
    ensures Validate(Cas(s, c)) <==> !EstablishesBlindly(c.change)
  {
    hide ValidNames, ValidSipUri, ValidRouteSet, ValidLen, ValidAddr;
    NamesSurvive(s, c.change);
  }

  /** Over any calls none of which does that, every reachable record passes validation. */
  lemma {:induction false} RecordsStayValid(s: Session, cs: seq<Call>)
    requires Validate(s) && forall c :: c in cs ==> !EstablishesBlindly(c.change)
    ensures Validate(Calls(s, cs))
  {
    hide Validate, Wins, Updated;
    if cs != [] {
      var front, c := cs[..|cs| - 1], cs[|cs| - 1];
      RecordsStayValid(s, front);
      if Wins(Calls(s, front), c) {
        ValidityIsExact(Calls(s, front), c);
      }
    }
  }

  /** The blind transition is accepted, and leaves a record that can no longer be read back. */
  lemma BlindTransitionBreaksTheRecord(s: Session)
    requires Insertable(s)
    ensures var c := Call(s.streamId, s.signalNodeId, 0, Transition(Inviting, Established, s.updatedAt));
            Wins(s, c) && !Validate(Cas(s, c))
  {
    hide ValidSipUri, ValidRouteSet, ValidAddr, ValidLen;
  }
}

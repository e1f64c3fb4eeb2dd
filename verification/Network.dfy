/**
  The device routing table of session/src/register/network.rs: device to session, and network association to
  device, through registration, rebinding, displacement and detachment.
*/
module Networks {
  import opened Wrappers

  type DeviceId = string

  datatype Protocol = Udp | Tcp
  datatype Association = Association(local: string, remote: string, protocol: Protocol)

  datatype DeviceSession = DeviceSession(
    contactUri: string, association: Association, connected: bool, generation: nat, expired: bool,
    heartbeatSec: nat, lastSeen: nat, registrationExpiresAt: nat)

  datatype Detached = Detached(device: DeviceId, generation: nat, timeout: nat)

  datatype Table = Table(session: map<DeviceId, DeviceSession>, routes: map<Association, DeviceId>)

  /** Three heartbeats, but not beyond the registration; in milliseconds. */
  function ReconnectTimeout(s: DeviceSession, now: nat): (t: nat)
    ensures t <= s.heartbeatSec * 3000 && (t > 0 ==> now + t <= s.registrationExpiresAt)
    ensures t < s.heartbeatSec * 3000 && now <= s.registrationExpiresAt ==> now + t == s.registrationExpiresAt
  {
    var heartbeat := s.heartbeatSec * 3000;
    var remaining := if s.registrationExpiresAt < now then 0 else s.registrationExpiresAt - now;
    if heartbeat < remaining then heartbeat else remaining
  }

  // ---------------------------------------------------------------- the operations as values

  /** The device loses its association to another one; only some callers count that as a new generation. */
  function Displaced(session: map<DeviceId, DeviceSession>, previous: Option<DeviceId>, taker: DeviceId, bump: nat)
    : map<DeviceId, DeviceSession>
  {
    if previous.None? || previous.value == taker || previous.value !in session then session
    else
      var s := session[previous.value];
      session[previous.value := s.(expired := true, connected := false, generation := s.generation + bump)]
  }

  function Owner(t: Table, a: Association): Option<DeviceId> {
    if a in t.routes then Some(t.routes[a]) else None
  }

  function Unmapped(routes: map<Association, DeviceId>, d: DeviceId, a: Association): map<Association, DeviceId> {
    if a in routes && routes[a] == d then routes - {a} else routes
  }

  function Inserted(t: Table, d: DeviceId, s: DeviceSession): Table {
    var live := s.(expired := false, connected := true);
    Table(Displaced(t.session, Owner(t, s.association), d, 0)[d := live], t.routes[s.association := d])
  }

  /** The second result is the generation of the disconnection that ends, if there was one. */
  function Rebound(t: Table, d: DeviceId, a: Association, now: nat): (Table, Option<Option<nat>>) {
    if d !in t.session then (t, None)
    else
      var s := t.session[d];
      var routes := if s.association != a then Unmapped(t.routes, d, s.association) else t.routes;
      var s' := s.(connected := true, association := a, expired := false, lastSeen := now,
                   generation := if s.connected then s.generation else s.generation + 1);
      (Table(Displaced(t.session[d := s'], Owner(t.(routes := routes), a), d, 1), routes[a := d]),
       Some(if s.connected then None else Some(s.generation)))
  }

  function ReboundRegistration(t: Table, d: DeviceId, s: DeviceSession): (Table, Result<nat, DeviceSession>) {
    if d !in t.session || t.session[d].connected then (t, Err(s))
    else
      var current := t.session[d];
      var routes := Unmapped(t.routes, d, current.association);
      var s' := s.(generation := current.generation + 1);
      (Table(Displaced(t.session[d := s'], Owner(t.(routes := routes), s.association), d, 1),
             routes[s.association := d]),
       Ok(current.generation))
  }

  function Detach(t: Table, a: Association, now: nat): (Table, Option<Detached>) {
    if a !in t.routes || t.routes[a] !in t.session then (t, None)
    else
      var d := t.routes[a];
      var s := t.session[d];
      if s.association != a || !s.connected then (t, None)
      else
        (Table(t.session[d := s.(connected := false, generation := s.generation + 1)], t.routes - {a}),
         Some(Detached(d, s.generation + 1, ReconnectTimeout(s, now))))
  }

  function WithoutDisconnected(t: Table, d: DeviceId, generation: nat): (Table, Option<DeviceSession>) {
    if d !in t.session || t.session[d].connected || t.session[d].generation != generation then (t, None)
    else
      var s := t.session[d];
      (Table(t.session - {d}, Unmapped(t.routes, d, s.association)), Some(s))
  }

  function ConnectedSession(t: Table, d: DeviceId): Option<DeviceSession> {
    if d in t.session && t.session[d].connected && !t.session[d].expired then Some(t.session[d]) else None
  }

  // ---------------------------------------------------------------- the operations in place

  class Network {
    var session: map<DeviceId, DeviceSession>
    var netDeviceMap: map<Association, DeviceId>

    constructor ()
      ensures AsTable() == Table(map[], map[])
    {
      session, netDeviceMap := map[], map[];
    }

    ghost function AsTable(): Table
      reads this
    {
      Table(session, netDeviceMap)
    }

    /** Gives the association to the device; a previous owner is marked disconnected and expired. */
    method UpdateNetDeviceMapping(a: Association, d: DeviceId) returns (displaced: Option<DeviceId>)
      modifies this
      ensures AsTable() == Table(Displaced(old(session), Owner(old(AsTable()), a), d, 0), old(netDeviceMap)[a := d])
      ensures displaced == if Owner(old(AsTable()), a) == Some(d) then None else Owner(old(AsTable()), a)
    {
      displaced := if a in netDeviceMap && netDeviceMap[a] != d then Some(netDeviceMap[a]) else None;
      netDeviceMap := netDeviceMap[a := d];
      if displaced.Some? && displaced.value in session {
        session := session[displaced.value := session[displaced.value].(expired := true, connected := false)];
      }
    }

    method RemoveDeviceMapping(d: DeviceId, a: Association)
      modifies `netDeviceMap
      ensures netDeviceMap == Unmapped(old(netDeviceMap), d, a)
    {
      if a in netDeviceMap && netDeviceMap[a] == d {
        netDeviceMap := netDeviceMap - {a};
      }
    }

    method Insert(d: DeviceId, s: DeviceSession)
      modifies this
      ensures AsTable() == Inserted(old(AsTable()), d, s)
    {
      var live := s.(expired := false, connected := true);
      var _ := UpdateNetDeviceMapping(live.association, d);
      session := session[d := live];
    }

    /** A displaced device after a rebind: its disconnection is a new generation. */
    method Expire(displaced: Option<DeviceId>, taker: DeviceId)
      modifies `session
      ensures session == Displaced(old(session), displaced, taker, 1)
    {
      if displaced.Some? && displaced.value != taker && displaced.value in session {
        var s := session[displaced.value];
        session := session[displaced.value := s.(expired := true, connected := false, generation := s.generation + 1)];
      }
    }

    method Rebind(d: DeviceId, a: Association, now: nat) returns (r: Option<Option<nat>>)
      modifies this
      ensures (AsTable(), r) == Rebound(old(AsTable()), d, a, now)
    {
      if d !in session {
        return None;
      }
      var s := session[d];
      var associationChanged := s.association != a;
      var reconnect: Option<nat> := None;
      if !s.connected {
        reconnect := Some(s.generation);
        s := s.(generation := s.generation + 1);
      }
      s := s.(connected := true);
      if associationChanged {
        RemoveDeviceMapping(d, s.association);
        s := s.(association := a);
      }
      var displaced := if a in netDeviceMap then Some(netDeviceMap[a]) else None;
      netDeviceMap := netDeviceMap[a := d];
      session := session[d := s.(expired := false, lastSeen := now)];
      Expire(displaced, d);
      return Some(reconnect);
    }

    method RebindRegistration(d: DeviceId, s: DeviceSession) returns (r: Result<nat, DeviceSession>)
      modifies this
      ensures (AsTable(), r) == ReboundRegistration(old(AsTable()), d, s)
    {
      if d !in session || session[d].connected {
        return Err(s);
      }
      var current := session[d];
      var cleanup := current.generation;
      RemoveDeviceMapping(d, current.association);
      var displaced := if s.association in netDeviceMap then Some(netDeviceMap[s.association]) else None;
      netDeviceMap := netDeviceMap[s.association := d];
      session := session[d := s.(generation := cleanup + 1)];
      Expire(displaced, d);
      return Ok(cleanup);
    }

    method DetachAssociation(a: Association, now: nat) returns (r: Option<Detached>)
      modifies this
      ensures (AsTable(), r) == Detach(old(AsTable()), a, now)
    {
      if a !in netDeviceMap {
        return None;
      }
      var d := netDeviceMap[a];
      if d !in session {
        return None;
      }
      var s := session[d];
      if s.association != a || !s.connected {
        return None;
      }
      RemoveDeviceMapping(d, a);
      s := s.(connected := false, generation := s.generation + 1);
      session := session[d := s];
      return Some(Detached(d, s.generation, ReconnectTimeout(s, now)));
    }

    method RemoveDisconnected(d: DeviceId, generation: nat) returns (r: Option<DeviceSession>)
      modifies this
      ensures (AsTable(), r) == WithoutDisconnected(old(AsTable()), d, generation)
    {
      if d !in session || session[d].connected || session[d].generation != generation {
        return None;
      }
      var s := session[d];
      session := session - {d};
      RemoveDeviceMapping(d, s.association);
      return Some(s);
    }
  }

  // ---------------------------------------------------------------- the routing invariant

  predicate Holds(t: Table, d: DeviceId, a: Association) {
    d in t.session && t.session[d].connected && t.session[d].association == a
  }

  predicate Routes(t: Table, d: DeviceId, a: Association) {
    a in t.routes && t.routes[a] == d
  }

  /** An association leads to a device exactly when that device is connected over it; and a connected device
      is never marked expired. */
  ghost predicate Routed(t: Table) {
    && (forall d, a :: Routes(t, d, a) <==> Holds(t, d, a))
    && (forall d :: d in t.session && t.session[d].connected ==> !t.session[d].expired)
  }

  /** No two connected devices share an association. */
  lemma AssociationsAreExclusive(t: Table, d: DeviceId, e: DeviceId, a: Association)
    requires Routed(t) && Holds(t, d, a) && Holds(t, e, a)
    ensures d == e
  {
    assert Routes(t, d, a) && Routes(t, e, a);
  }

  /** Whoever is addressed as connected is who the association leads back to. */
  lemma ConnectedMeansRouted(t: Table, d: DeviceId)
    requires Routed(t)
    ensures ConnectedSession(t, d).Some? <==> exists a :: Routes(t, d, a)
    ensures ConnectedSession(t, d).Some? ==> Routes(t, d, ConnectedSession(t, d).value.association)
  {
    if ConnectedSession(t, d).Some? {
      assert Holds(t, d, t.session[d].association);
    }
    if a :| Routes(t, d, a) {
      assert Holds(t, d, a);
    }
  }

  /** The cases in which registering again over an existing entry is harmless. */
  predicate MayInsert(t: Table, d: DeviceId, s: DeviceSession) {
    d !in t.session || !t.session[d].connected || t.session[d].association == s.association
  }

  lemma InsertRoutes(t: Table, d: DeviceId, s: DeviceSession)
    requires Routed(t) && MayInsert(t, d, s)
    ensures Routed(Inserted(t, d, s))
  {
    var t' := Inserted(t, d, s);
    forall e, b ensures Routes(t', e, b) <==> Holds(t', e, b) {
      assert Routes(t, e, b) <==> Holds(t, e, b);
      assert Owner(t, s.association).Some? ==> Routes(t, Owner(t, s.association).value, s.association);
    }
  }

  /** Inserting keeps the invariant if and only if the device is absent, disconnected, or comes over the same
      association: otherwise its previous association keeps leading to it. */
  lemma InsertIsExact(t: Table, d: DeviceId, s: DeviceSession)
    requires Routed(t)
    ensures Routed(Inserted(t, d, s)) <==> MayInsert(t, d, s)
  {
    if MayInsert(t, d, s) {
      InsertRoutes(t, d, s);
    } else {
      var b := t.session[d].association;
      assert Holds(t, d, b) && Routes(t, d, b);
      assert Routes(Inserted(t, d, s), d, b) && !Holds(Inserted(t, d, s), d, b);
    }
  }

  /** After this device took `a`, and whoever held it was displaced. */
  lemma TakeOver(t: Table, d: DeviceId, s: DeviceSession, t': Table)
    requires Routed(t) && d in t.session && s.connected && !s.expired
    requires var routes := Unmapped(t.routes, d, t.session[d].association);
             t' == Table(Displaced(t.session[d := s], Owner(t.(routes := routes), s.association), d, 1),
                         routes[s.association := d])
    ensures Routed(t')
  {
    forall e, b ensures Routes(t', e, b) <==> Holds(t', e, b) {
      assert Routes(t, e, b) <==> Holds(t, e, b);
      assert Routes(t, d, t.session[d].association) <==> Holds(t, d, t.session[d].association);
      if s.association in t.routes {
        assert Routes(t, t.routes[s.association], s.association);
      }
    }
  }

  lemma RebindRoutes(t: Table, d: DeviceId, a: Association, now: nat)
    requires Routed(t)
    ensures Routed(Rebound(t, d, a, now).0)
  {
    if d in t.session {
      var t' := Rebound(t, d, a, now).0;
      var s := t.session[d];
      var routes := Unmapped(t.routes, d, s.association);
      var s' := s.(connected := true, association := a, expired := false, lastSeen := now,
                   generation := if s.connected then s.generation else s.generation + 1);
      assert routes[a := d] == (if s.association != a then routes else t.routes)[a := d];
      TakeOver(t, d, s', t');
    }
  }

  lemma RebindRegistrationRoutes(t: Table, d: DeviceId, s: DeviceSession)
    requires Routed(t) && s.connected && !s.expired
    ensures Routed(ReboundRegistration(t, d, s).0)
  {
    if d in t.session && !t.session[d].connected {
      TakeOver(t, d, s.(generation := t.session[d].generation + 1), ReboundRegistration(t, d, s).0);
    }
  }

  lemma DetachRoutes(t: Table, a: Association, now: nat)
    requires Routed(t)
    ensures Routed(Detach(t, a, now).0)
    ensures Detach(t, a, now).1.Some? <==> a in t.routes
    ensures forall d :: d in t.session && !Routes(t, d, a) ==>
              d in Detach(t, a, now).0.session && Detach(t, a, now).0.session[d] == t.session[d]
  {
    var t' := Detach(t, a, now).0;
    if a in t.routes {
      assert Routes(t, t.routes[a], a);
      forall e, b ensures Routes(t', e, b) <==> Holds(t', e, b) {
        assert Routes(t, e, b) <==> Holds(t, e, b);
      }
    }
  }

  lemma RemoveRoutes(t: Table, d: DeviceId, generation: nat)
    requires Routed(t)
    ensures Routed(WithoutDisconnected(t, d, generation).0)
  {
    var t' := WithoutDisconnected(t, d, generation).0;
    forall e, b ensures Routes(t', e, b) <==> Holds(t', e, b) {
      assert Routes(t, e, b) <==> Holds(t, e, b);
    }
  }

  /** A close that arrives late for an association its owner has left does not touch that owner. */
  lemma DelayedCloseIsHarmless(t: Table, d: DeviceId, a: Association, t0: nat, t1: nat)
    requires Routed(t) && d in t.session && t.session[d].association != a
    ensures var t' := Rebound(t, d, a, t0).0;
            var left := t.session[d].association;
            && Holds(t', d, a)
            && d in Detach(t', left, t1).0.session && Detach(t', left, t1).0.session[d] == t'.session[d]
  {
    var t' := Rebound(t, d, a, t0).0;
    RebindRoutes(t, d, a, t0);
    DetachRoutes(t', t.session[d].association, t1);
  }

  // ---------------------------------------------------------------- runs

  datatype Op =
    | Register(device: DeviceId, s: DeviceSession)
    | Keepalive(device: DeviceId, association: Association, now: nat)
    | Reregister(device: DeviceId, s: DeviceSession)
    | Closed(association: Association, now: nat)
    | Cleanup(device: DeviceId, generation: nat)

  function Perform(t: Table, op: Op): Table {
    match op
    case Register(d, s) => Inserted(t, d, s)
    case Keepalive(d, a, now) => Rebound(t, d, a, now).0
    case Reregister(d, s) => ReboundRegistration(t, d, s).0
    case Closed(a, now) => Detach(t, a, now).0
    case Cleanup(d, g) => WithoutDisconnected(t, d, g).0
  }

  function Run(t: Table, ops: seq<Op>): Table {
    if ops == [] then t else Perform(Run(t, ops[..|ops| - 1]), ops[|ops| - 1])
  }

  /** New sessions come in connected and not expired, and only where `MayInsert` allows it. */
  ghost predicate Proper(t: Table, op: Op) {
    && (op.Register? ==> MayInsert(t, op.device, op.s))
    && (op.Reregister? ==> op.s.connected && !op.s.expired)
  }

  ghost predicate AllProper(t: Table, ops: seq<Op>) {
    ops != [] ==>
      AllProper(t, ops[..|ops| - 1]) && Proper(Run(t, ops[..|ops| - 1]), ops[|ops| - 1])
  }

  lemma StepRoutes(t: Table, op: Op)
    requires Routed(t) && Proper(t, op)
    ensures Routed(Perform(t, op))
  {
    hide Routed, Inserted, Rebound, ReboundRegistration, Detach, WithoutDisconnected;
    match op
    case Register(d, s) => InsertRoutes(t, d, s);
    case Keepalive(d, a, now) => RebindRoutes(t, d, a, now);
    case Reregister(d, s) => RebindRegistrationRoutes(t, d, s);
    case Closed(a, now) => DetachRoutes(t, a, now);
    case Cleanup(d, g) => RemoveRoutes(t, d, g);
  }

  /** The two maps agree after every run. */
  lemma {:induction false} RunsStayRouted(t: Table, ops: seq<Op>)
    requires Routed(t) && AllProper(t, ops)
    ensures Routed(Run(t, ops))
  {
    hide Routed, Perform, Proper;
    if ops != [] {
      RunsStayRouted(t, ops[..|ops| - 1]);
      StepRoutes(Run(t, ops[..|ops| - 1]), ops[|ops| - 1]);
    }
  }

  // ---------------------------------------------------------------- cleanup tokens

  /** Within one life of the entry: it is neither registered anew nor removed. */
  ghost predicate OneLife(t: Table, d: DeviceId, ops: seq<Op>) {
    if ops == [] then d in t.session
    else
      && OneLife(t, d, ops[..|ops| - 1]) && d in Run(t, ops).session
      && !(ops[|ops| - 1].Register? && ops[|ops| - 1].device == d)
  }

  ghost predicate StaysDisconnected(t: Table, d: DeviceId, ops: seq<Op>) {
    && d in Run(t, ops).session && !Run(t, ops).session[d].connected
    && (ops != [] ==> StaysDisconnected(t, d, ops[..|ops| - 1]))
  }

  /** One step within a life never lowers the generation, and bringing the device back raises it. */
  lemma GenerationGrows(t: Table, d: DeviceId, op: Op)
    requires Routed(t) && Proper(t, op) && d in t.session && d in Perform(t, op).session
    requires !(op.Register? && op.device == d)
    ensures var s, s' := t.session[d], Perform(t, op).session[d];
            && s.generation <= s'.generation
            && (!s.connected && s'.connected ==> s.generation < s'.generation)
            && (!s.connected && !s'.connected ==> s.generation == s'.generation)
  {
    forall a | a in t.routes && t.routes[a] == d ensures t.session[d].connected {
      assert Routes(t, d, a);
    }
  }

  /** The token that a detach returned removes the entry later, within the same life, if and only if the
      device has stayed disconnected the whole time. */
  lemma {:induction false} TokenMeansStillAway(t: Table, d: DeviceId, ops: seq<Op>)
    requires Routed(t) && AllProper(t, ops) && OneLife(t, d, ops)
    requires d in t.session && !t.session[d].connected
    ensures d in Run(t, ops).session && t.session[d].generation <= Run(t, ops).session[d].generation
    ensures StaysDisconnected(t, d, ops) <==> Run(t, ops).session[d].generation == t.session[d].generation
    ensures StaysDisconnected(t, d, ops) <==>
            WithoutDisconnected(Run(t, ops), d, t.session[d].generation).1.Some?
    ensures StaysDisconnected(t, d, ops) <==>
            d !in WithoutDisconnected(Run(t, ops), d, t.session[d].generation).0.session
  {
    hide Routed, Perform, Proper;
    if ops != [] {
      var front, op := ops[..|ops| - 1], ops[|ops| - 1];
      TokenMeansStillAway(t, d, front);
      RunsStayRouted(t, front);
      GenerationGrows(Run(t, front), d, op);
    }
  }

  /** The token is the generation of the disconnected entry. */
  lemma TokenIsGeneration(t: Table, a: Association, now: nat)
    requires Routed(t) && a in t.routes
    ensures var (t', r) := Detach(t, a, now);
            && r.Some? && r.value.device == t.routes[a] && r.value.device in t'.session
            && !t'.session[r.value.device].connected && t'.session[r.value.device].generation == r.value.generation
  {
    assert Routes(t, t.routes[a], a);
  }

  /** Across lives the token proves nothing: an entry registered anew counts from zero, so a token of the old
      life can remove a device that has been back since. */
  lemma TokenOutlivesTheEntry(d: DeviceId, s: DeviceSession)
    requires s.generation == 0
    ensures var t0 := Inserted(Table(map[], map[]), d, s);
            var (t1, token) := Detach(t0, s.association, 0);
            var t2 := Inserted(t1, d, s);
            var t3 := Detach(t2, s.association, 1).0;
            && token.Some? && Holds(t2, d, s.association)
            && WithoutDisconnected(t3, d, token.value.generation).1.Some?
  {}

  // ---------------------------------------------------------------- when a token of an earlier life is harmless

  /** Within the present life of the entry something can happen that lets the token remove it. */
  ghost predicate CanStrike(t: Table, d: DeviceId, token: nat) {
    exists ops ::
      AllProper(t, ops) && OneLife(t, d, ops) && WithoutDisconnected(Run(t, ops), d, token).1.Some?
  }

  lemma {:induction false} GenerationNeverFalls(t: Table, d: DeviceId, ops: seq<Op>)
    requires Routed(t) && AllProper(t, ops) && OneLife(t, d, ops)
    ensures d in t.session && d in Run(t, ops).session
    ensures t.session[d].generation <= Run(t, ops).session[d].generation
  {
    hide Routed, Perform, Proper;
    if ops != [] {
      var front, op := ops[..|ops| - 1], ops[|ops| - 1];
      GenerationNeverFalls(t, d, front);
      RunsStayRouted(t, front);
      GenerationGrows(Run(t, front), d, op);
    }
  }

  lemma {:induction false} LongerThanAll(ids: set<DeviceId>) returns (n: nat)
    ensures forall id :: id in ids ==> |id| < n
  {
    if ids == {} {
      n := 0;
    } else {
      var id :| id in ids;
      var m := LongerThanAll(ids - {id});
      n := if m <= |id| then |id| + 1 else m;
    }
  }

  lemma Newcomer(t: Table) returns (e: DeviceId)
    ensures e !in t.session
  {
    var n := LongerThanAll(t.session.Keys);
    e := seq(n, _ => 'x');
  }

  /** A session as a device registers it. */
  function Registration(a: Association): DeviceSession {
    DeviceSession("", a, true, 0, false, 0, 0, 0)
  }

  ghost predicate Connected(t: Table, d: DeviceId, generation: nat) {
    d in t.session && t.session[d].connected && t.session[d].generation == generation
  }

  predicate Away(t: Table, e: DeviceId) {
    e in t.session ==> !t.session[e].connected
  }

  /** Another device registers over this one's association: this one is disconnected, in the same generation. */
  lemma PushedOut(t: Table, d: DeviceId, e: DeviceId)
    requires Routed(t) && d in t.session && t.session[d].connected && Away(t, e) && e != d
    ensures var op := Register(e, Registration(t.session[d].association));
            var t' := Perform(t, op);
            && Proper(t, op) && Routed(t') && d in t'.session
            && t'.session[d] == t.session[d].(expired := true, connected := false)
            && e in t'.session && t'.session[e].association == t.session[d].association
  {
    var op := Register(e, Registration(t.session[d].association));
    assert Holds(t, d, t.session[d].association) && Routes(t, d, t.session[d].association);
    StepRoutes(t, op);
  }

  /** And a keepalive brings it back in the next one, pushing the other out. */
  lemma BackAgain(t: Table, d: DeviceId, e: DeviceId)
    requires Routed(t) && d in t.session && !t.session[d].connected && e != d
    requires e in t.session ==> !t.session[e].connected || t.session[e].association == t.session[d].association
    ensures var op := Keepalive(d, t.session[d].association, 0);
            var t' := Perform(t, op);
            Proper(t, op) && Routed(t') && Connected(t', d, t.session[d].generation + 1) && Away(t', e)
  {
    var op := Keepalive(d, t.session[d].association, 0);
    StepRoutes(t, op);
    var a := t.session[d].association;
    assert e in t.session && t.session[e].connected ==> Routes(t, e, a) by {
      if e in t.session && t.session[e].connected { assert Holds(t, e, a); }
    }
  }

  lemma OneMoreOp(t: Table, d: DeviceId, ops: seq<Op>, op: Op)
    requires AllProper(t, ops) && OneLife(t, d, ops) && Proper(Run(t, ops), op)
    requires d in Perform(Run(t, ops), op).session && !(op.Register? && op.device == d)
    ensures Run(t, ops + [op]) == Perform(Run(t, ops), op)
    ensures AllProper(t, ops + [op]) && OneLife(t, d, ops + [op])
  {
    hide Perform, Proper;
    assert (ops + [op])[..|ops|] == ops;
  }

  /** Being pushed out and coming back, over and over, the device reaches any higher generation. */
  lemma {:induction false} Climb(t: Table, d: DeviceId, e: DeviceId, generation: nat) returns (ops: seq<Op>)
    requires Routed(t) && d in t.session && Away(t, e) && e != d && t.session[d].connected
    requires t.session[d].generation <= generation
    ensures AllProper(t, ops) && OneLife(t, d, ops)
    ensures Routed(Run(t, ops)) && Connected(Run(t, ops), d, generation) && Away(Run(t, ops), e)
    decreases generation
  {
    hide Perform, Proper, Routed;
    ops := [];
    if t.session[d].generation < generation {
      ops := Climb(t, d, e, generation - 1);
      var u := Run(t, ops);
      var out := Register(e, Registration(u.session[d].association));
      PushedOut(u, d, e);
      OneMoreOp(t, d, ops, out);
      ops := ops + [out];
      var back := Keepalive(d, Run(t, ops).session[d].association, 0);
      BackAgain(Run(t, ops), d, e);
      OneMoreOp(t, d, ops, back);
      ops := ops + [back];
    }
  }

  lemma StrikesFromConnected(t: Table, d: DeviceId, e: DeviceId, token: nat) returns (ops: seq<Op>)
    requires Routed(t) && d in t.session && Away(t, e) && e != d && t.session[d].connected
    requires t.session[d].generation <= token
    ensures AllProper(t, ops) && OneLife(t, d, ops) && WithoutDisconnected(Run(t, ops), d, token).1.Some?
  {
    hide Perform, Proper, Routed;
    ops := Climb(t, d, e, token);
    var u := Run(t, ops);
    var out := Register(e, Registration(u.session[d].association));
    PushedOut(u, d, e);
    OneMoreOp(t, d, ops, out);
    ops := ops + [out];
  }

  /** A life may begin with a disconnected entry; then the first step brings it back. */
  lemma StrikesFromAway(t: Table, d: DeviceId, e: DeviceId, token: nat)
    requires Routed(t) && d in t.session && !t.session[d].connected && e !in t.session
    requires t.session[d].generation < token
    ensures CanStrike(t, d, token)
  {
    hide Perform, Proper, Routed;
    var back := Keepalive(d, t.session[d].association, 0);
    BackAgain(t, d, e);
    var t' := Perform(t, back);
    var more := StrikesFromConnected(t', d, e, token);
    RunAfter(t, d, back, more);
    assert AllProper(t, [back] + more);
  }

  lemma {:induction false} RunAfter(t: Table, d: DeviceId, op: Op, more: seq<Op>)
    requires Proper(t, op) && d in t.session && !(op.Register? && op.device == d)
    requires AllProper(Perform(t, op), more) && OneLife(Perform(t, op), d, more)
    ensures Run(t, [op] + more) == Run(Perform(t, op), more)
    ensures AllProper(t, [op] + more) && OneLife(t, d, [op] + more)
  {
    hide *;
    if more == [] {
      NothingRun(Perform(t, op), d);
      NothingDone(t, d);
      OneMoreOp(t, d, [], op);
      assert [op] + more == [] + [op];
    } else {
      var front, last := more[..|more| - 1], more[|more| - 1];
      WithoutTheLast(Perform(t, op), d, more);
      RunAfter(t, d, op, front);
      assert [op] + more == ([op] + front) + [last];
      OneMoreOp(t, d, [op] + front, last);
    }
  }

  lemma WithoutTheLast(t: Table, d: DeviceId, ops: seq<Op>)
    requires ops != [] && AllProper(t, ops) && OneLife(t, d, ops)
    ensures var front, last := ops[..|ops| - 1], ops[|ops| - 1];
            && AllProper(t, front) && OneLife(t, d, front) && Proper(Run(t, front), last)
            && !(last.Register? && last.device == d) && d in Run(t, ops).session
            && Run(t, ops) == Perform(Run(t, front), last)
  {
    hide Perform, Proper;
  }

  lemma NothingRun(t: Table, d: DeviceId)
    requires OneLife(t, d, [])
    ensures Run(t, []) == t && d in t.session
  {}

  lemma NothingDone(t: Table, d: DeviceId)
    requires d in t.session
    ensures Run(t, []) == t && AllProper(t, []) && OneLife(t, d, [])
  {}

  /** From wherever a run has got to, with no assumption on where the token comes from: it can remove the entry in
      its present life if and only if the entry's generation has not passed it. */
  lemma TokenStrikesIff(t: Table, d: DeviceId, token: nat)
    requires Routed(t) && d in t.session
    ensures CanStrike(t, d, token) <==> t.session[d].generation <= token
  {
    hide Perform, Proper, Routed, Run, AllProper, OneLife;
    if CanStrike(t, d, token) {
      var ops :| AllProper(t, ops) && OneLife(t, d, ops) && WithoutDisconnected(Run(t, ops), d, token).1.Some?;
      GenerationNeverFalls(t, d, ops);
    }
    if t.session[d].generation <= token {
      var e := Newcomer(t);
      if t.session[d].connected {
        var ops := StrikesFromConnected(t, d, e, token);
      } else if t.session[d].generation < token {
        StrikesFromAway(t, d, e, token);
      } else {
        NothingDone(t, d);
        assert WithoutDisconnected(Run(t, []), d, token).1.Some?;
      }
    }
  }

  /** So registering a device anew makes every token of its earlier lives harmless for good if and only if the new
      session begins above it, which `insert` could see to. */
  lemma TokenOfEarlierLife(t: Table, d: DeviceId, s: DeviceSession, token: nat)
    requires Routed(t) && MayInsert(t, d, s)
    ensures CanStrike(Inserted(t, d, s), d, token) <==> s.generation <= token
  {
    hide Routed, CanStrike;
    InsertRoutes(t, d, s);
    TokenStrikesIff(Inserted(t, d, s), d, token);
  }

  // ---------------------------------------------------------------- what the callers are told

  /** A detach tells for how long to keep the session: three heartbeats, or what is left of the registration when
      that is less. */
  lemma DetachTimeout(t: Table, d: DeviceId, a: Association, now: nat)
    requires Routed(t) && Holds(t, d, a)
    ensures var s, r := t.session[d], Detach(t, a, now).1;
            && r.Some? && r.value.device == d
            && (now + 3 * 1000 * s.heartbeatSec <= s.registrationExpiresAt ==>
                  r.value.timeout == 3 * 1000 * s.heartbeatSec)
            && (now <= s.registrationExpiresAt < now + 3 * 1000 * s.heartbeatSec ==>
                  now + r.value.timeout == s.registrationExpiresAt)
            && (s.registrationExpiresAt < now ==> r.value.timeout == 0)
  {
    assert Routes(t, d, a);
  }

  /** A device that comes back names the very cleanup that its disconnection had announced, as long as it has been
      away all the time; one that was not away names none. */
  lemma ReturnNamesTheCleanup(
    t: Table, d: DeviceId, a: Association, t0: nat, ops: seq<Op>, b: Association, t1: nat)
    requires Routed(t) && Holds(t, d, a)
    requires var away := Detach(t, a, t0).0;
             AllProper(away, ops) && StaysDisconnected(away, d, ops) && OneLife(away, d, ops)
    ensures var r, now := Detach(t, a, t0).1, Run(Detach(t, a, t0).0, ops);
            && r.Some? && Rebound(now, d, b, t1).1 == Some(Some(r.value.generation))
            && (forall s :: ReboundRegistration(now, d, s).1 == Ok(r.value.generation))
            && (forall c, t2 :: Rebound(Rebound(now, d, b, t1).0, d, c, t2).1 == Some(None))
  {
    hide AllProper, OneLife;
    assert Routes(t, d, a);
    DetachRoutes(t, a, t0);
    TokenIsGeneration(t, a, t0);
    TokenMeansStillAway(Detach(t, a, t0).0, d, ops);
    BackIsConnected(Run(Detach(t, a, t0).0, ops), d, b, t1);
  }

  lemma BackIsConnected(t: Table, d: DeviceId, b: Association, t1: nat)
    requires d in t.session
    ensures var t' := Rebound(t, d, b, t1).0; d in t'.session && t'.session[d].connected
  {}

  /** A registration that renews a disconnected session replaces it by the new one in the next generation, and the
      device is reached over the new association; it is handed back exactly when the device is unknown or still
      connected, and then nothing changes. */
  lemma RenewalReplaces(t: Table, d: DeviceId, s: DeviceSession)
    requires Routed(t) && s.connected && !s.expired
    ensures var (t', r) := ReboundRegistration(t, d, s);
            && (r.Err? <==> d !in t.session || t.session[d].connected)
            && (r.Err? ==> r.error == s && t' == t)
            && (r.Ok? ==> && r.value == t.session[d].generation && Routes(t', d, s.association)
                          && d in t'.session && t'.session[d] == s.(generation := r.value + 1)
                          && forall b :: Routes(t', d, b) ==> b == s.association)
  {
    RebindRegistrationRoutes(t, d, s);
    var t' := ReboundRegistration(t, d, s).0;
    if d in t.session && !t.session[d].connected {
      forall b | Routes(t', d, b) ensures b == s.association { assert Holds(t', d, b); }
    }
  }

  /** A keepalive keeps everything about the session but where it is reached, when it was last seen, and, when it was
      away, its generation. */
  lemma ReturnKeepsTheSession(t: Table, d: DeviceId, a: Association, now: nat)
    requires Routed(t) && d in t.session
    ensures var t' := Rebound(t, d, a, now).0;
            && d in t'.session && Routes(t', d, a)
            && t'.session[d] == t.session[d].(connected := true, expired := false, association := a, lastSeen := now,
                                              generation := t'.session[d].generation)
            && (t'.session[d].generation == t.session[d].generation <==> t.session[d].connected)
            && t'.session[d].generation <= t.session[d].generation + 1
            && forall e :: e in t.session && e != d && !Routes(t, e, a) ==>
                             e in t'.session && t'.session[e] == t.session[e]
  {
    RebindRoutes(t, d, a, now);
    assert Holds(Rebound(t, d, a, now).0, d, a);
  }

  /** Whoever held the association before is disconnected and expired: in the next generation when another device
      comes back over it, in the same one when another device registers over it. */
  lemma PreviousOwnerIsExpired(t: Table, d: DeviceId, e: DeviceId, a: Association, now: nat, s: DeviceSession)
    requires Routed(t) && Holds(t, e, a) && e != d && s.association == a
    ensures d in t.session ==>
              e in Rebound(t, d, a, now).0.session && Rebound(t, d, a, now).0.session[e] == Expired(t.session[e], 1)
    ensures d in t.session && !t.session[d].connected ==>
              e in ReboundRegistration(t, d, s).0.session
              && ReboundRegistration(t, d, s).0.session[e] == Expired(t.session[e], 1)
    ensures e in Inserted(t, d, s).session && Inserted(t, d, s).session[e] == Expired(t.session[e], 0)
    ensures Inserted(t, d, s).session[d] == s.(expired := false, connected := true)
  {
    assert Routes(t, e, a);
    if d in t.session { assert Routes(t, d, t.session[d].association) <==> Holds(t, d, t.session[d].association); }
  }

  function Expired(s: DeviceSession, more: nat): DeviceSession {
    DeviceSession(s.contactUri, s.association, false, s.generation + more, true, s.heartbeatSec, s.lastSeen,
                  s.registrationExpiresAt)
  }

  /** A detach keeps the session as it is but for the connection, in the next generation, which is the token; its
      association leads nowhere any more and every other one where it led. */
  lemma DetachKeepsTheSession(t: Table, d: DeviceId, a: Association, now: nat)
    requires Routed(t) && Holds(t, d, a)
    ensures var (t', r) := Detach(t, a, now);
            && r.Some? && r.value.generation == t.session[d].generation + 1
            && t' == Table(t.session[d := t.session[d].(connected := false, generation := r.value.generation)],
                           t.routes - {a})
            && ConnectedSession(t', d) == None
  {
    assert Routes(t, d, a);
  }

  /** In any table, routed or not: the close of an association detaches a device if and only if the association leads to
      it and it is connected over it; a stale route detaches nobody and changes nothing. */
  lemma OnlyTheHolderIsDetached(t: Table, a: Association, now: nat)
    ensures var (t', r) := Detach(t, a, now);
            && (r.Some? ==> Routes(t, r.value.device, a) && Holds(t, r.value.device, a))
            && (r.Some? <==> exists d :: Routes(t, d, a) && Holds(t, d, a))
            && (r.None? ==> t' == t)
  {
    var r := Detach(t, a, now).1;
    if r.Some? { assert Routes(t, r.value.device, a) && Holds(t, r.value.device, a); }
  }

  /** A removal takes out the entry and the route that leads to it, and nothing else. */
  lemma RemovalTakesEntryAndRoute(t: Table, d: DeviceId, generation: nat)
    ensures var (t', r) := WithoutDisconnected(t, d, generation);
            && (r.Some? <==> d in t.session && !t.session[d].connected && t.session[d].generation == generation)
            && (r.None? ==> t' == t)
            && (r.Some? ==> r.value == t.session[d] && d !in t'.session && !Routes(t', d, r.value.association))
            && (forall e :: e != d ==> (e in t'.session <==> e in t.session))
            && (forall e :: e != d && e in t.session ==> t'.session[e] == t.session[e])
            && (forall e, b :: Routes(t', e, b) ==> Routes(t, e, b))
            && (forall e, b :: Routes(t, e, b) && !Routes(t', e, b) ==> e == d && r.Some? && b == r.value.association)
  {}

  /** A session that is marked expired is not addressed, connected or not. */
  lemma ExpiredIsNotAddressed(t: Table, d: DeviceId)
    ensures d in t.session && t.session[d].expired ==> ConnectedSession(t, d) == None
  {}
}

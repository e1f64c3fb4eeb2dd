/**
  Streams: the stream part of the session cache (session/src/state/session.rs) and the closing service around
  it (session/src/service/stream_close.rs), with its deadlines. Every method is one or more operations of the
  close protocol, kept in the ghost history `ops`.
*/
module StreamClosing {
  import opened Wrappers
  import opened CloseProtocol

  datatype CloseStart = CloseStart(generation: nat, deviceId: string, newlyStarted: bool)

  datatype ByeCommand = ByeCommand(id: Id, generation: nat, deviceId: string, callId: string, seqNo: nat)

  /** How the closing service finds the device when a close begins. */
  datatype DeviceView = NoSession | Session(timeout: nat)

  class StreamCache {
    var streams: map<Id, Entry>
    var closeGeneration: nat
    var timers: set<Timer>
    /** Device to its streams, in the order they were added. */
    var deviceMap: map<string, seq<Id>>

    ghost var ops: seq<Op>
    /** The closes of restored streams that were let go without a deadline. */
    ghost var waived: set<Timer>

    ghost function AsStore(): Store
      reads this
    {
      Store(streams, closeGeneration, timers)
    }

    ghost predicate Traced()
      reads this
    {
      Run(ops).store == AsStore()
    }

    /** Between two calls of the service: whoever closes has its deadline unless it was waived, and no deadline
        is stale. */
    ghost predicate Valid()
      reads this
    {
      Traced() && Covered(AsStore(), {}, waived) && TimersLive(AsStore())
    }

    constructor ()
      ensures Valid() && streams == map[] && deviceMap == map[] && ops == []
    {
      streams, closeGeneration, timers, deviceMap, ops, waived := map[], 1, {}, map[], [], {};
    }

    // -------------------------------------------------------------- the cache

    method StreamMapInsert(id: Id, e: Entry) returns (added: bool)
      requires Traced()
      modifies `streams, `ops
      ensures Traced() && ops == old(ops) + [Insert(id, e)] && added == (id !in old(streams))
      ensures streams == if added then old(streams)[id := e.(life := Playing)] else old(streams)
    {
      RunSnoc(ops, Insert(id, e));
      ops := ops + [Insert(id, e)];
      if id in streams {
        return false;
      }
      streams := streams[id := e.(life := Playing)];
      return true;
    }

    method StreamCloseBegin(id: Id) returns (r: Option<CloseStart>)
      requires Traced()
      modifies `streams, `closeGeneration, `ops
      ensures Traced() && ops == old(ops) + [Begin(id, true)]
      ensures r.None? <==> id !in old(streams)
      ensures r.Some? ==>
                && IsClosing(AsStore(), id, r.value.generation) && r.value.deviceId == old(streams)[id].deviceId
                && r.value.newlyStarted == old(streams)[id].life.Playing?
                && (r.value.newlyStarted ==> r.value.generation == old(closeGeneration))
      ensures closeGeneration == old(closeGeneration) + if r.Some? then 1 else 0
      ensures streams ==
              if r.Some? && r.value.newlyStarted
              then old(streams)[id := old(streams)[id].(life := Closing(r.value.generation, None, None))]
              else old(streams)
    {
      RunSnoc(ops, Begin(id, true));
      ops := ops + [Begin(id, true)];
      if id !in streams {
        return None;
      }
      var generation := closeGeneration;
      closeGeneration := closeGeneration + 1;
      var s := streams[id];
      var newlyStarted := s.life.Playing?;
      if newlyStarted {
        s := s.(life := Closing(generation, None, None));
        streams := streams[id := s];
      }
      return Some(CloseStart(s.life.generation, s.deviceId, newlyStarted));
    }

    method StreamCloseTakeBye(id: Id) returns (r: Option<ByeCommand>)
      requires Traced()
      modifies `streams, `ops
      ensures Traced() && ops == old(ops) + [TakeBye(id)]
      ensures r.Some? <==> id in old(streams) && old(streams)[id].life.Closing? && old(streams)[id].life.inflight.None?
      ensures r.Some? ==>
                var s := old(streams)[id];
                && r.value == ByeCommand(id, s.life.generation, s.deviceId, s.callId, SaturatingSucc(s.seqNo))
                && streams == old(streams)[
                     id := s.(seqNo := r.value.seqNo, life := s.life.(inflight := Some(r.value.seqNo)))]
      ensures r.None? ==> streams == old(streams)
    {
      RunSnoc(ops, TakeBye(id));
      ops := ops + [TakeBye(id)];
      if id !in streams {
        return None;
      }
      var s := streams[id];
      if s.life.Playing? || s.life.inflight.Some? {
        return None;
      }
      var seqNo := if s.seqNo < U32_MAX then s.seqNo + 1 else U32_MAX;
      streams := streams[id := s.(seqNo := seqNo, life := s.life.(inflight := Some(seqNo)))];
      return Some(ByeCommand(id, s.life.generation, s.deviceId, s.callId, seqNo));
    }

    method StreamCloseMarkFailed(id: Id, generation: nat, seqNo: nat, reason: string) returns (marked: bool)
      requires Traced()
      modifies `streams, `ops
      ensures Traced() && ops == old(ops) + [MarkFailed(id, generation, seqNo, reason)]
      ensures marked <==> IsClosing(old(AsStore()), id, generation) && old(streams)[id].life.inflight == Some(seqNo)
      ensures var failed := Closing(generation, None, Some(reason));
              streams == if marked then old(streams)[id := old(streams)[id].(life := failed)] else old(streams)
    {
      RunSnoc(ops, MarkFailed(id, generation, seqNo, reason));
      ops := ops + [MarkFailed(id, generation, seqNo, reason)];
      if id !in streams {
        return false;
      }
      var s := streams[id];
      if s.life.Playing? || s.life.generation != generation || s.life.inflight != Some(seqNo) {
        return false;
      }
      streams := streams[id := s.(life := s.life.(inflight := None, lastError := Some(reason)))];
      return true;
    }

    /** `finish_removed_stream`: the entry leaves both maps and its deadline is cancelled. */
    method FinishRemovedStream(id: Id)
      requires id in streams
      modifies `streams, `timers, `deviceMap
      ensures AsStore() == Dropped(old(AsStore()), id).0
      ensures Unlisted(old(deviceMap), old(streams)[id].deviceId, id, deviceMap)
    {
      var s := streams[id];
      streams := streams - {id};
      DeviceMapRemoveStream(s.deviceId, id);
      if s.life.Closing? {
        timers := timers - {Timer(id, s.life.generation)};
      }
    }

    method DeviceMapRemoveStream(deviceId: string, id: Id)
      modifies `deviceMap
      ensures Unlisted(old(deviceMap), deviceId, id, deviceMap)
    {
      if deviceId !in deviceMap {
        return;
      }
      var entries := deviceMap[deviceId];
      var kept: seq<Id> := [];
      for i := 0 to |entries|
        invariant kept == Without(entries[..i], id)
      {
        assert entries[..i + 1] == entries[..i] + [entries[i]];
        if entries[i] != id {
          kept := kept + [entries[i]];
        }
      }
      assert entries[..|entries|] == entries;
      if kept == [] {
        deviceMap := deviceMap - {deviceId};
      } else {
        deviceMap := deviceMap[deviceId := kept];
      }
    }

    /** `stream_close_complete` and `stream_close_force`. */
    method StreamCloseRemove(id: Id, generation: nat) returns (r: Option<Entry>)
      requires Traced()
      modifies `streams, `timers, `deviceMap, `ops
      ensures Traced() && ops == old(ops) + [Remove(id, generation)]
      ensures r.Some? <==> IsClosing(old(AsStore()), id, generation)
      ensures r.Some? ==> r.value == old(streams)[id] && streams == old(streams) - {id}
                          && timers == old(timers) - {Timer(id, generation)}
      ensures r.None? ==> streams == old(streams) && timers == old(timers) && deviceMap == old(deviceMap)
    {
      RunSnoc(ops, Remove(id, generation));
      ops := ops + [Remove(id, generation)];
      if id !in streams || streams[id].life.Playing? || streams[id].life.generation != generation {
        return None;
      }
      var s := streams[id];
      FinishRemovedStream(id);
      return Some(s);
    }

    /** The device hung up: whichever stream has this call id goes, closing or not. */
    method StreamTerminatedByCallId(callId: string) returns (r: Option<Id>)
      requires Traced()
      modifies `streams, `timers, `deviceMap, `ops
      ensures Traced()
      ensures r.None? <==> forall id :: id in old(streams) ==> old(streams)[id].callId != callId
      ensures r.None? ==> ops == old(ops)
      ensures r.Some? ==>
                r.value in old(streams) && old(streams)[r.value].callId == callId && ops == old(ops) + [Drop(r.value)]
                && streams == old(streams) - {r.value}
    {
      if id :| id in streams && streams[id].callId == callId {
        RunSnoc(ops, Drop(id));
        ops := ops + [Drop(id)];
        FinishRemovedStream(id);
        return Some(id);
      }
      return None;
    }

    /** Removes a stream on a device reset, with its deadline; the device's own list is dropped as a whole. */
    method DropStream(id: Id)
      requires Valid()
      modifies `streams, `timers, `ops
      ensures Valid() && ops == old(ops) + [Drop(id)] && streams == old(streams) - {id}
    {
      hide Run, Apply, Covered, TimersLive;
      KeepsValid(AsStore(), waived, Drop(id));
      RunSnoc(ops, Drop(id));
      DropIs(AsStore(), id);
      ops := ops + [Drop(id)];
      if id in streams {
        var s := streams[id];
        streams := streams - {id};
        if s.life.Closing? {
          timers := timers - {Timer(id, s.life.generation)};
        }
      }
    }

    method ForgetList(deviceId: string) returns (entries: seq<Id>)
      requires Valid()
      modifies `deviceMap
      ensures Valid() && deviceMap == old(deviceMap) - {deviceId}
      ensures entries == if deviceId in old(deviceMap) then old(deviceMap)[deviceId] else []
    {
      entries := if deviceId in deviceMap then deviceMap[deviceId] else [];
      deviceMap := deviceMap - {deviceId};
    }

    method DropListed(entries: seq<Id>)
      requires Valid()
      modifies `streams, `timers, `ops
      ensures Valid() && streams == old(streams) - set id | id in entries
    {
      hide Valid, Traced, AsStore, Run, Apply;
      ghost var gone: set<Id> := {};
      for i := 0 to |entries|
        invariant Valid() && gone == (set id | id in entries[..i]) && streams == old(streams) - gone
      {
        assert entries[..i + 1] == entries[..i] + [entries[i]];
        DropStream(entries[i]);
        LessByOne(old(streams), gone, entries[i]);
        gone := gone + {entries[i]};
      }
      assert entries[..|entries|] == entries;
    }

    method DropOfDevice(deviceId: string)
      requires Valid()
      modifies `streams, `timers, `ops
      ensures Valid() && streams == old(streams) - OfDevice(old(streams), deviceId)
    {
      hide Valid, Traced, AsStore, Run, Apply;
      var remaining := OfDevice(streams, deviceId);
      ghost var gone: set<Id> := {};
      while remaining != {}
        invariant Valid() && gone + remaining == OfDevice(old(streams), deviceId) && streams == old(streams) - gone
        decreases |remaining|
      {
        var id :| id in remaining;
        DropStream(id);
        LessByOne(old(streams), gone, id);
        gone, remaining := gone + {id}, remaining - {id};
      }
      assert gone + {} == gone;
    }

    /** `reset_device_state`: the streams on the device's list, then every other stream that names the device. */
    method ResetDeviceState(deviceId: string)
      requires Valid()
      modifies `streams, `timers, `deviceMap, `ops
      ensures Valid() && deviceMap == old(deviceMap) - {deviceId}
      ensures forall id :: id in streams <==>
                id in old(streams) && old(streams)[id].deviceId != deviceId &&
                !(deviceId in old(deviceMap) && id in old(deviceMap)[deviceId])
      ensures forall id :: id in streams ==> streams[id] == old(streams)[id]
    {
      hide Valid, Traced, AsStore, Run, Apply;
      var entries := ForgetList(deviceId);
      DropListed(entries);
      DropOfDevice(deviceId);
    }

    // -------------------------------------------------------------- the closing service

    /** Marks the stream closing; a new close is in the caller's hand until its deadline is set or waived, or the
        stream is forced out. */
    method MarkClosing(id: Id) returns (r: Option<CloseStart>)
      requires Valid()
      modifies `streams, `closeGeneration, `ops
      ensures Traced() && TimersLive(AsStore())
      ensures r.None? || !r.value.newlyStarted ==>
                Valid() && streams == old(streams) && (id in old(streams) ==> old(streams)[id].life.Closing?)
      ensures r.Some? && r.value.newlyStarted ==>
                var tm := Timer(id, old(closeGeneration));
                && id in old(streams) && old(streams)[id].life.Playing? && r.value.generation == tm.generation
                && streams == old(streams)[id := old(streams)[id].(life := Closing(tm.generation, None, None))]
                && Covered(AsStore(), {tm}, waived) && tm !in timers
    {
      hide Run, Covered, TimersLive;
      CoverageIsKept(AsStore(), {}, waived, Begin(id, true));
      LivenessIsExact(AsStore(), Begin(id, true));
      RunSnoc(ops, Begin(id, true));
      ghost var starts := Starts(AsStore(), Begin(id, true));
      assert {} + starts == starts;
      r := StreamCloseBegin(id);
      if r.Some? && r.value.newlyStarted {
        DeadlineIffNotWaived(AsStore(), starts, waived, id, r.value.generation);
      }
    }

    /** `force_cleanup` of a close in the caller's hand. */
    method ForceOut(id: Id, g: nat)
      requires Traced() && TimersLive(AsStore()) && Covered(AsStore(), {Timer(id, g)}, waived)
      requires IsClosing(AsStore(), id, g)
      modifies `streams, `timers, `deviceMap, `ops
      ensures Valid() && id !in streams && timers == old(timers)
    {
      hide Run, Covered, TimersLive;
      BeginMayReturn(AsStore(), {Timer(id, g)}, waived, id, g);
      DeadlineIffNotWaived(AsStore(), {Timer(id, g)}, waived, id, g);
      LivenessIsExact(AsStore(), Remove(id, g));
      RunSnoc(ops, Remove(id, g));
      assert {Timer(id, g)} - {Timer(id, g)} == {};
      var _ := StreamCloseRemove(id, g);
    }

    /** `insert_register` for a close in the caller's hand. */
    method SetDeadline(id: Id, g: nat)
      requires Traced() && TimersLive(AsStore()) && Covered(AsStore(), {Timer(id, g)}, waived)
      requires IsClosing(AsStore(), id, g)
      modifies `timers, `ops
      ensures Valid() && timers == old(timers) + {Timer(id, g)}
    {
      hide Run, Covered, TimersLive;
      BeginMayReturn(AsStore(), {Timer(id, g)}, waived, id, g);
      LivenessIsExact(AsStore(), Schedule(id, g));
      RunSnoc(ops, Schedule(id, g));
      assert {Timer(id, g)} - {Timer(id, g)} == {};
      ops := ops + [Schedule(id, g)];
      timers := timers + {Timer(id, g)};
    }

    /** `begin`: marks the stream closing, sets its deadline and issues the first BYE. A stream whose device is
        gone, whose time is up, or whose deadline cannot be set is removed at once, except that a restored
        one waits for its device without a deadline. */
    method BeginClose(id: Id, device: DeviceView, canSchedule: bool) returns (bye: Option<ByeCommand>)
      requires Valid()
      modifies this
      ensures Valid()
      ensures id !in old(streams) ==> streams == old(streams) && timers == old(timers) && bye.None?
      ensures id in old(streams) && old(streams)[id].life.Closing? ==>
                streams == old(streams) && timers == old(timers) && bye.None?
      ensures id in old(streams) && old(streams)[id].life.Playing? ==>
                var g := old(closeGeneration);
                if device.Session? && device.timeout > 0 && canSchedule then
                  && IsClosing(AsStore(), id, g) && timers == old(timers) + {Timer(id, g)}
                  && bye == Some(ByeCommand(id, g, old(streams)[id].deviceId, old(streams)[id].callId,
                                            SaturatingSucc(old(streams)[id].seqNo)))
                else if device.NoSession? && old(streams)[id].restored then
                  && IsClosing(AsStore(), id, g) && streams[id].life.inflight.None? && bye.None?
                  && timers == old(timers) && Timer(id, g) !in timers && Timer(id, g) in waived
                else id !in streams && timers == old(timers) && bye.None?
      ensures var g := old(closeGeneration);
              waived == if id in old(streams) && old(streams)[id].life.Playing? && old(streams)[id].restored
                             && device.NoSession? then old(waived) + {Timer(id, g)} else old(waived)
    {
      hide Run, Apply, Covered, TimersLive;
      bye := None;
      var start := MarkClosing(id);
      if start.None? || !start.value.newlyStarted {
        return;
      }
      var g := start.value.generation;
      if device.NoSession? && streams[id].restored {
        BeginMayReturn(AsStore(), {Timer(id, g)}, waived, id, g);
        assert {Timer(id, g)} - {Timer(id, g)} == {};
        waived := waived + {Timer(id, g)};
      } else if device.NoSession? || device.timeout == 0 || !canSchedule {
        ForceOut(id, g);
      } else {
        SetDeadline(id, g);
        bye := RetryStream(id);
      }
    }

    method RetryStream(id: Id) returns (bye: Option<ByeCommand>)
      requires Valid()
      modifies `streams, `ops
      ensures Valid() && ops == old(ops) + [TakeBye(id)]
      ensures AsStore() == Apply(old(AsStore()), TakeBye(id)).0
      ensures if id in old(streams) && Due(old(streams)[id], old(streams)[id].deviceId) then
                bye == Some(NextBye(id, old(streams)[id])) && streams == old(streams)[id := Sent(old(streams)[id])]
              else bye.None? && streams == old(streams)
    {
      hide Run, Apply, Covered, TimersLive;
      KeepsValid(AsStore(), waived, TakeBye(id));
      TakeByeIs(AsStore(), id);
      RunSnoc(ops, TakeBye(id));
      bye := StreamCloseTakeBye(id);
    }

    /** The answer to a BYE: success ends the stream, failure makes it retryable. */
    method ByeAnswered(bye: ByeCommand, ok: bool, reason: string)
      requires Valid()
      modifies `streams, `timers, `deviceMap, `ops
      ensures Valid()
      ensures AsStore() == Apply(old(AsStore()), if ok then Remove(bye.id, bye.generation)
                                                 else MarkFailed(bye.id, bye.generation, bye.seqNo, reason)).0
    {
      hide Run, Apply, Covered, TimersLive;
      ghost var op := if ok then Remove(bye.id, bye.generation)
          else MarkFailed(bye.id, bye.generation, bye.seqNo, reason);
      KeepsValid(AsStore(), waived, op);
      RunSnoc(ops, op);
      if ok {
        var _ := StreamCloseRemove(bye.id, bye.generation);
      } else {
        var _ := StreamCloseMarkFailed(bye.id, bye.generation, bye.seqNo, reason);
      }
    }

    /** The deadline of a close: the scheduler has dropped the timer, the stream is forced out. */
    method DeadlineExpired(id: Id, generation: nat) returns (r: Option<Entry>)
      requires Valid()
      modifies `streams, `timers, `deviceMap, `ops
      ensures Valid() && timers == old(timers) - {Timer(id, generation)}
      ensures r.Some? <==> IsClosing(old(AsStore()), id, generation)
      ensures r.Some? ==> r.value == old(streams)[id] && streams == old(streams) - {id}
      ensures r.None? ==> streams == old(streams) && deviceMap == old(deviceMap)
    {
      KeepsValid(AsStore(), waived, Fire(id, generation));
      RunSnoc(ops, Fire(id, generation));
      ops := ops + [Fire(id, generation)];
      timers := timers - {Timer(id, generation)};
      if id !in streams || streams[id].life.Playing? || streams[id].life.generation != generation {
        return None;
      }
      var s := streams[id];
      FinishRemovedStream(id);
      return Some(s);
    }

    /** The device is back: every one of its closing streams without a BYE in flight gets the next one, and those
        are the BYEs to send; nothing else changes. */
    method RetryDevice(deviceId: string) returns (byes: set<ByeCommand>)
      requires Valid()
      modifies `streams, `ops
      ensures Valid()
      ensures byes == set id | id in old(streams) && Due(old(streams)[id], deviceId) :: NextBye(id, old(streams)[id])
      ensures streams == map id | id in old(streams) ::
                           if Due(old(streams)[id], deviceId) then Sent(old(streams)[id]) else old(streams)[id]
    {
      hide Valid, Traced, Run, Apply, Covered, TimersLive, Retried;
      byes := {};
      var todo := set id | id in streams && streams[id].deviceId == deviceId && streams[id].life.Closing?;
      NoneRetried(streams, deviceId);
      while todo != {}
        invariant Valid() && Retried(old(streams), streams, deviceId, todo, byes)
        decreases |todo|
      {
        var id :| id in todo;
        ghost var before, sent := streams, byes;
        TodoIsClosing(old(streams), streams, deviceId, todo, byes, id);
        var bye := RetryStream(id);
        if bye.Some? {
          byes := byes + {bye.value};
        }
        OneMoreRetried(old(streams), before, streams, deviceId, todo, sent, id);
        todo := todo - {id};
      }
      AllRetried(old(streams), streams, deviceId, byes);
    }
  }

  function OfDevice(streams: map<Id, Entry>, deviceId: string): set<Id> {
    set id | id in streams && streams[id].deviceId == deviceId
  }

  lemma LessByOne(m: map<Id, Entry>, gone: set<Id>, id: Id)
    ensures m - gone - {id} == m - (gone + {id})
  {}

  /** A closing stream of the device without a BYE in flight. */
  predicate Due(e: Entry, deviceId: string) {
    e.deviceId == deviceId && e.life.Closing? && e.life.inflight.None?
  }

  function NextSeqNo(e: Entry): nat {
    if e.seqNo >= 0xffff_ffff then 0xffff_ffff else e.seqNo + 1
  }

  /** The BYE that is due, with the next CSeq. */
  function NextBye(id: Id, e: Entry): ByeCommand
    requires e.life.Closing?
  {
    ByeCommand(id, e.life.generation, e.deviceId, e.callId, NextSeqNo(e))
  }

  /** The stream with that BYE in flight. */
  function Sent(e: Entry): Entry
    requires e.life.Closing?
  {
    e.(seqNo := NextSeqNo(e), life := e.life.(inflight := Some(NextSeqNo(e))))
  }

  /** All of the device's closing streams have been retried but those of `todo`, and `byes` are the BYEs issued. */
  ghost predicate Retried(
    before: map<Id, Entry>, now: map<Id, Entry>, deviceId: string, todo: set<Id>, byes: set<ByeCommand>)
  {
    && now.Keys == before.Keys
    && (forall id :: id in todo ==> id in before && before[id].deviceId == deviceId && before[id].life.Closing?)
    && (forall id :: id in now ==>
          now[id] == if Due(before[id], deviceId) && id !in todo then Sent(before[id]) else before[id])
    && byes == set id | id in before && Due(before[id], deviceId) && id !in todo :: NextBye(id, before[id])
  }

  lemma NoneRetried(streams: map<Id, Entry>, deviceId: string)
    ensures Retried(streams, streams, deviceId,
                    set id | id in streams && streams[id].deviceId == deviceId && streams[id].life.Closing?, {})
  {}

  lemma TodoIsClosing(
    before: map<Id, Entry>, now: map<Id, Entry>, deviceId: string, todo: set<Id>, byes: set<ByeCommand>, id: Id)
    requires Retried(before, now, deviceId, todo, byes) && id in todo
    ensures id in before && id in now && now[id] == before[id] && now[id].life.Closing? && now[id].deviceId == deviceId
  {}

  lemma OneMoreRetried(
    before: map<Id, Entry>, now: map<Id, Entry>, next: map<Id, Entry>, deviceId: string, todo: set<Id>,
    byes: set<ByeCommand>, id: Id)
    requires Retried(before, now, deviceId, todo, byes) && id in todo && id in before && before[id].life.Closing?
    requires next == if Due(before[id], deviceId) then now[id := Sent(before[id])] else now
    ensures Retried(before, next, deviceId, todo - {id},
                    byes + if Due(before[id], deviceId) then {NextBye(id, before[id])} else {})
  {
    var more := byes + if Due(before[id], deviceId) then {NextBye(id, before[id])} else {};
    forall b
      ensures b in more <==>
                exists i :: i in before && Due(before[i], deviceId) && i !in todo - {id} && b == NextBye(i, before[i])
    {
      if b in byes {
        var i :| i in before && Due(before[i], deviceId) && i !in todo && b == NextBye(i, before[i]);
      }
    }
  }

  lemma AllRetried(before: map<Id, Entry>, now: map<Id, Entry>, deviceId: string, byes: set<ByeCommand>)
    requires Retried(before, now, deviceId, {}, byes)
    ensures byes == set id | id in before && Due(before[id], deviceId) :: NextBye(id, before[id])
    ensures now == map id | id in before :: if Due(before[id], deviceId) then Sent(before[id]) else before[id]
  {}

  /** A list without one id, in order. */
  function Without(entries: seq<Id>, id: Id): seq<Id> {
    if entries == [] then []
    else
      var last := entries[|entries| - 1];
      Without(entries[..|entries| - 1], id) + if last == id then [] else [last]
  }

  /** The device's list without the stream, in its order; an empty list is removed; other lists are untouched. */
  ghost predicate Unlisted(before: map<string, seq<Id>>, deviceId: string, id: Id, after: map<string, seq<Id>>) {
    after == if deviceId !in before then before
             else if Without(before[deviceId], id) == [] then before - {deviceId}
             else before[deviceId := Without(before[deviceId], id)]
  }

  lemma DropIs(t: Store, id: Id)
    ensures Apply(t, Drop(id)).0 ==
            if id !in t.entries then t
            else if t.entries[id].life.Playing? then t.(entries := t.entries - {id})
            else Store(t.entries - {id}, t.counter, t.timers - {Timer(id, t.entries[id].life.generation)})
  {}

  lemma TakeByeIs(t: Store, id: Id)
    ensures Apply(t, TakeBye(id)).0.entries ==
            if id in t.entries && Due(t.entries[id], t.entries[id].deviceId) then t.entries[id := Sent(t.entries[id])]
            else t.entries
  {}

  lemma KeepsValid(t: Store, waived: set<Timer>, op: Op)
    requires Covered(t, {}, waived) && TimersLive(t) && !op.Begin? && !op.Schedule?
    ensures Covered(Apply(t, op).0, {}, waived) && TimersLive(Apply(t, op).0)
  {
    hide Covered, TimersLive, Apply;
    CoverageIsKept(t, {}, waived, op);
    LivenessIsExact(t, op);
    assert {} + Starts(t, op) == {};
  }
}

/**
  Talks: the talk part of the session cache (session/src/state/session.rs) and its closing service
  (session/src/service/talk_close.rs). A talk keeps its close in three separate optional fields; read as one
  lifecycle it is the very same close protocol as a stream's.
*/
module TalkClosing {
  import opened Wrappers
  import opened CloseProtocol

  datatype Talk = Talk(
    deviceId: string, channelId: string, ssrc: nat, callId: string, seqNo: nat, restored: bool,
    closingGeneration: Option<nat>, byeInflightSeq: Option<nat>, closeLastError: Option<string>)

  datatype TalkBye = TalkBye(id: Id, generation: nat, deviceId: string, callId: string, seqNo: nat)

  /** The talk as an entry of the protocol. A restored talk is closed like any other, so that flag is not
      part of what the protocol sees. */
  function EntryOf(t: Talk): Entry {
    Entry(t.deviceId, t.channelId, t.ssrc, t.callId, t.seqNo, false,
          match t.closingGeneration
          case None => Playing
          case Some(g) => Closing(g, t.byeInflightSeq, t.closeLastError))
  }

  function EntriesOf(talks: map<Id, Talk>): map<Id, Entry> {
    map id | id in talks :: EntryOf(talks[id])
  }

  class TalkCache {
    var talks: map<Id, Talk>
    var closeGeneration: nat
    var timers: set<Timer>

    ghost var ops: seq<Op>

    ghost function AsStore(): Store
      reads this
    {
      Store(EntriesOf(talks), closeGeneration, timers)
    }

    ghost predicate Traced()
      reads this
    {
      Run(ops).store == AsStore()
    }

    ghost predicate Valid()
      reads this
    {
      Traced() && Covered(AsStore(), {}, {}) && TimersLive(AsStore())
    }

    constructor ()
      ensures Valid() && talks == map[]
    {
      talks, closeGeneration, timers, ops := map[], 1, {}, [];
    }

    /** Adds a talk under a free id, in whatever state it comes. One that is not closing, as every caller
        inserts it, is an insertion of the protocol. */
    method TalkMapInsert(id: Id, t: Talk) returns (added: bool)
      requires Traced()
      modifies `talks, `ops
      ensures added == (id !in old(talks)) && talks == if added then old(talks)[id := t] else old(talks)
      ensures t.closingGeneration.None? || !added ==> Traced() && ops == old(ops) + [Insert(id, EntryOf(t))]
    {
      RunSnoc(ops, Insert(id, EntryOf(t)));
      UpdatedEntries(talks, id, t);
      ops := ops + [Insert(id, EntryOf(t))];
      if id in talks {
        return false;
      }
      talks := talks[id := t];
      return true;
    }

    /** Unlike a stream, a talk that is already closing does not use up another generation. */
    method TalkCloseBegin(id: Id) returns (r: Option<(nat, bool)>)
      requires Traced()
      modifies `talks, `closeGeneration, `ops
      ensures Traced() && ops == old(ops) + [Begin(id, false)]
      ensures r.None? <==> id !in old(talks)
      ensures r.Some? ==> IsClosing(AsStore(), id, r.value.0) && r.value.1 == old(talks)[id].closingGeneration.None?
      ensures r.None? || !r.value.1 ==> talks == old(talks) && closeGeneration == old(closeGeneration)
      ensures r.Some? && r.value.1 ==>
                && r.value.0 == old(closeGeneration) && closeGeneration == old(closeGeneration) + 1
                && talks == old(talks)[id := old(talks)[id].(
                     closingGeneration := Some(r.value.0), byeInflightSeq := None, closeLastError := None)]
    {
      RunSnoc(ops, Begin(id, false));
      ops := ops + [Begin(id, false)];
      if id !in talks {
        return None;
      }
      var t := talks[id];
      var newlyStarted := t.closingGeneration.None?;
      if newlyStarted {
        t := t.(closingGeneration := Some(closeGeneration), byeInflightSeq := None, closeLastError := None);
        UpdatedEntries(talks, id, t);
        closeGeneration := closeGeneration + 1;
        talks := talks[id := t];
      }
      return Some((t.closingGeneration.value, newlyStarted));
    }

    method TalkCloseTakeBye(id: Id) returns (r: Option<TalkBye>)
      requires Traced()
      modifies `talks, `ops
      ensures Traced() && ops == old(ops) + [TakeBye(id)]
      ensures r.Some? <==>
                id in old(talks) && old(talks)[id].closingGeneration.Some? && old(talks)[id].byeInflightSeq.None?
      ensures r.Some? ==>
                var t := old(talks)[id];
                r.value == TalkBye(id, t.closingGeneration.value, t.deviceId, t.callId, SaturatingSucc(t.seqNo))
                && talks == old(talks)[id := t.(seqNo := r.value.seqNo, byeInflightSeq := Some(r.value.seqNo))]
      ensures r.None? ==> talks == old(talks)
    {
      RunSnoc(ops, TakeBye(id));
      ops := ops + [TakeBye(id)];
      if id !in talks {
        return None;
      }
      var t := talks[id];
      if t.closingGeneration.None? || t.byeInflightSeq.Some? {
        return None;
      }
      t := t.(seqNo := if t.seqNo < U32_MAX then t.seqNo + 1 else U32_MAX);
      t := t.(byeInflightSeq := Some(t.seqNo));
      UpdatedEntries(talks, id, t);
      talks := talks[id := t];
      return Some(TalkBye(id, t.closingGeneration.value, t.deviceId, t.callId, t.seqNo));
    }

    method TalkCloseMarkFailed(id: Id, generation: nat, seqNo: nat, reason: string) returns (marked: bool)
      requires Traced()
      modifies `talks, `ops
      ensures Traced() && ops == old(ops) + [MarkFailed(id, generation, seqNo, reason)]
      ensures marked <==> IsClosing(old(AsStore()), id, generation) && old(talks)[id].byeInflightSeq == Some(seqNo)
      ensures talks == if marked then
                         old(talks)[id := old(talks)[id].(byeInflightSeq := None, closeLastError := Some(reason))]
                       else old(talks)
    {
      RunSnoc(ops, MarkFailed(id, generation, seqNo, reason));
      ops := ops + [MarkFailed(id, generation, seqNo, reason)];
      if id !in talks {
        return false;
      }
      var t := talks[id];
      if t.closingGeneration != Some(generation) || t.byeInflightSeq != Some(seqNo) {
        return false;
      }
      t := t.(byeInflightSeq := None, closeLastError := Some(reason));
      UpdatedEntries(talks, id, t);
      talks := talks[id := t];
      return true;
    }

    /** `talk_close_complete` and `talk_close_force`. */
    method TalkCloseRemove(id: Id, generation: nat) returns (r: Option<Talk>)
      requires Traced()
      modifies `talks, `timers, `ops
      ensures Traced() && ops == old(ops) + [Remove(id, generation)]
      ensures r.Some? <==> IsClosing(old(AsStore()), id, generation)
      ensures r.Some? ==> r.value == old(talks)[id] && talks == old(talks) - {id}
                          && timers == old(timers) - {Timer(id, generation)}
      ensures r.None? ==> talks == old(talks) && timers == old(timers)
    {
      hide Run;
      RunSnoc(ops, Remove(id, generation));
      RemovedEntries(talks, id);
      ops := ops + [Remove(id, generation)];
      if id !in talks || talks[id].closingGeneration != Some(generation) {
        return None;
      }
      var t := talks[id];
      talks := talks - {id};
      timers := timers - {Timer(id, generation)};
      return Some(t);
    }

    /** `talk_map_remove`, whether the talk is closing or not. */
    method TalkMapRemove(id: Id) returns (r: Option<Talk>)
      requires Traced()
      modifies `talks, `timers, `ops
      ensures Traced() && ops == old(ops) + [Drop(id)] && talks == old(talks) - {id}
      ensures r == if id in old(talks) then Some(old(talks)[id]) else None
    {
      hide Run;
      RunSnoc(ops, Drop(id));
      RemovedEntries(talks, id);
      ops := ops + [Drop(id)];
      if id !in talks {
        return None;
      }
      var t := talks[id];
      talks := talks - {id};
      if t.closingGeneration.Some? {
        timers := timers - {Timer(id, t.closingGeneration.value)};
      }
      return Some(t);
    }

    /** `reset_device_state`, as far as talks go: every talk that names the device, with its deadline. */
    method ResetDeviceState(deviceId: string)
      requires Valid()
      modifies this
      ensures Valid()
      ensures forall id :: id in talks <==> id in old(talks) && old(talks)[id].deviceId != deviceId
      ensures forall id :: id in talks ==> talks[id] == old(talks)[id]
    {
      hide Run, Apply, Covered, TimersLive, EntriesOf;
      var ids := set id | id in talks && talks[id].deviceId == deviceId;
      while ids != {}
        invariant Valid() && ids == set id | id in talks && talks[id].deviceId == deviceId
        invariant forall id :: id in talks ==> id in old(talks) && talks[id] == old(talks)[id]
        invariant forall id :: id in old(talks) && old(talks)[id].deviceId != deviceId ==> id in talks
        decreases |ids|
      {
        var id :| id in ids;
        KeepsValid(AsStore(), Drop(id));
        RunSnoc(ops, Drop(id));
        var _ := TalkMapRemove(id);
        ids := ids - {id};
      }
      assert forall id :: id in talks && talks[id].deviceId == deviceId ==> id in ids;
    }

    /** Marks the talk closing; a new close is in the caller's hand until its deadline is set or the talk is
        forced out. */
    method MarkClosing(id: Id) returns (r: Option<(nat, bool)>)
      requires Valid()
      modifies `talks, `closeGeneration, `ops
      ensures Traced() && TimersLive(AsStore()) && (r.None? <==> id !in old(talks))
      ensures r.None? || !r.value.1 ==>
                Valid() && talks == old(talks) && (r.Some? ==> old(talks)[id].closingGeneration.Some?)
      ensures r.Some? && r.value.1 ==>
                var tm := Timer(id, old(closeGeneration));
                && r.value.0 == tm.generation && old(talks)[id].closingGeneration.None?
                && IsClosing(AsStore(), id, tm.generation)
                && talks[id] == old(talks)[id].(
                     closingGeneration := Some(tm.generation), byeInflightSeq := None, closeLastError := None)
                && Covered(AsStore(), {tm}, {}) && tm !in timers
    {
      hide Run, Covered, TimersLive;
      KeepsValid(AsStore(), Begin(id, false));
      RunSnoc(ops, Begin(id, false));
      ghost var starts := Starts(AsStore(), Begin(id, false));
      r := TalkCloseBegin(id);
      if r.Some? && r.value.1 {
        DeadlineIffNotWaived(AsStore(), starts, {}, id, r.value.0);
      }
    }

    /** `force_cleanup` of a close in the caller's hand. */
    method ForceOut(id: Id, g: nat)
      requires Traced() && TimersLive(AsStore()) && Covered(AsStore(), {Timer(id, g)}, {})
      requires IsClosing(AsStore(), id, g)
      modifies `talks, `timers, `ops
      ensures Valid() && id !in talks && timers == old(timers)
    {
      hide Run, Covered, TimersLive;
      BeginMayReturn(AsStore(), {Timer(id, g)}, {}, id, g);
      DeadlineIffNotWaived(AsStore(), {Timer(id, g)}, {}, id, g);
      LivenessIsExact(AsStore(), Remove(id, g));
      RunSnoc(ops, Remove(id, g));
      assert {Timer(id, g)} - {Timer(id, g)} == {};
      var _ := TalkCloseRemove(id, g);
    }

    /** `insert_register` for a close in the caller's hand. */
    method SetDeadline(id: Id, g: nat)
      requires Traced() && TimersLive(AsStore()) && Covered(AsStore(), {Timer(id, g)}, {})
      requires IsClosing(AsStore(), id, g)
      modifies `timers, `ops
      ensures Valid() && timers == old(timers) + {Timer(id, g)}
    {
      hide Run, Covered, TimersLive;
      BeginMayReturn(AsStore(), {Timer(id, g)}, {}, id, g);
      LivenessIsExact(AsStore(), Schedule(id, g));
      RunSnoc(ops, Schedule(id, g));
      assert {Timer(id, g)} - {Timer(id, g)} == {};
      ops := ops + [Schedule(id, g)];
      timers := timers + {Timer(id, g)};
    }

    /** The first BYE of a talk. */
    method FirstBye(id: Id) returns (bye: Option<TalkBye>)
      requires Valid()
      modifies `talks, `ops
      ensures Valid() && AsStore() == Apply(old(AsStore()), TakeBye(id)).0
      ensures bye.Some? <==>
                id in old(talks) && old(talks)[id].closingGeneration.Some? && old(talks)[id].byeInflightSeq.None?
      ensures bye.Some? ==>
                var t := old(talks)[id];
                bye.value == TalkBye(id, t.closingGeneration.value, t.deviceId, t.callId, SaturatingSucc(t.seqNo))
    {
      hide Run, Covered, TimersLive;
      KeepsValid(AsStore(), TakeBye(id));
      RunSnoc(ops, TakeBye(id));
      bye := TalkCloseTakeBye(id);
    }

    /** `begin`: marks the talk closing, sets its deadline and issues the first BYE; a talk whose device is
        gone, whose time is up, or whose deadline cannot be set is removed at once, a restored one as well. */
    method BeginClose(id: Id, timeout: Option<nat>, canSchedule: bool) returns (found: bool, bye: Option<TalkBye>)
      requires Valid()
      modifies this
      ensures Valid() && found == (id in old(talks))
      ensures found && old(talks)[id].closingGeneration.None? ==>
                var g := old(closeGeneration);
                if timeout.Some? && timeout.value > 0 && canSchedule then
                  && IsClosing(AsStore(), id, g) && timers == old(timers) + {Timer(id, g)}
                  && bye == Some(TalkBye(id, g, old(talks)[id].deviceId, old(talks)[id].callId,
                                         SaturatingSucc(old(talks)[id].seqNo)))
                else id !in talks && timers == old(timers) && bye.None?
      ensures !found || old(talks)[id].closingGeneration.Some? ==>
                talks == old(talks) && timers == old(timers) && bye.None?
    {
      hide Run, Covered, TimersLive;
      bye := None;
      var start := MarkClosing(id);
      found := start.Some?;
      if start.None? || !start.value.1 {
        return;
      }
      var g := start.value.0;
      if timeout.None? || timeout.value == 0 || !canSchedule {
        ForceOut(id, g);
      } else {
        SetDeadline(id, g);
        bye := FirstBye(id);
      }
    }
  }

  lemma UpdatedEntries(talks: map<Id, Talk>, id: Id, t: Talk)
    ensures EntriesOf(talks[id := t]) == EntriesOf(talks)[id := EntryOf(t)]
  {}

  lemma RemovedEntries(talks: map<Id, Talk>, id: Id)
    ensures EntriesOf(talks - {id}) == EntriesOf(talks) - {id}
  {}

  lemma KeepsValid(t: Store, op: Op)
    requires Covered(t, {}, {}) && TimersLive(t) && !op.Schedule?
    ensures TimersLive(Apply(t, op).0) && Covered(Apply(t, op).0, Starts(t, op), {})
  {
    hide Covered, Apply, TimersLive, Starts;
    CoverageIsKept(t, {}, {}, op);
    LivenessIsExact(t, op);
    assert {} + Starts(t, op) == Starts(t, op);
  }
}

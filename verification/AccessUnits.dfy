/**
  The access-unit assembler of stream/src/media/rtp.rs as values: grouping by timestamp and marker, loss
  marking, and keyframe gating. Every decision is kept in a log, so that what the assembler does over a
  whole input can be stated.
*/
module AccessUnits {
  import opened Wrappers
  import opened Bytes
  import opened StartCodes

  datatype PayloadKind = Ps | H264 | H265 | Aac | G711 | Passthrough

  predicate IsRawVideo(kind: PayloadKind) {
    kind.H264? || kind.H265?
  }

  /** AAC and G.711 packets become access units one by one; the other kinds are grouped. */
  predicate GroupsPackets(kind: PayloadKind) {
    !kind.Aac? && !kind.G711?
  }

  function HasKeyframe(kind: PayloadKind, data: seq<Byte>): bool {
    match kind
    case H264 => AccessUnitHasNal(data, IsH264Keyframe)
    case H265 => AccessUnitHasNal(data, IsH265Keyframe)
    case _ => false
  }

  /** What became of a stretch of bytes, or (FragmentLost) a loss that hit only an unfinished fragment. */
  datatype Event =
    | Emitted(data: seq<Byte>)
    | DroppedDamaged(data: seq<Byte>)
    | DroppedIncomplete(data: seq<Byte>)
    | DroppedWaiting(data: seq<Byte>)
    | ClearedByLoss(data: seq<Byte>)
    | FragmentLost

  datatype Assembler = Assembler(
    buffer: seq<Byte>, timestamp: Option<nat>, damaged: bool, waitKeyframe: bool, log: seq<Event>)

  function NewAssembler(kind: PayloadKind): Assembler {
    Assembler([], None, false, IsRawVideo(kind), [])
  }

  function Finish(kind: PayloadKind, a: Assembler): Assembler {
    if a.buffer == [] then a.(timestamp := None, damaged := false)
    else if a.damaged then
      Assembler([], None, false, a.waitKeyframe || IsRawVideo(kind), a.log + [DroppedDamaged(a.buffer)])
    else if IsRawVideo(kind) && a.waitKeyframe && !HasKeyframe(kind, a.buffer) then
      Assembler([], None, false, true, a.log + [DroppedWaiting(a.buffer)])
    else
      Assembler([], None, false, a.waitKeyframe && !IsRawVideo(kind), a.log + [Emitted(a.buffer)])
  }

  function MarkLoss(kind: PayloadKind, a: Assembler, nextTimestamp: nat, hadFragment: bool): Assembler {
    if a.buffer == [] then
      var arm := hadFragment && IsRawVideo(kind);
      Assembler([], None, false, a.waitKeyframe || arm, a.log + if arm then [FragmentLost] else [])
    else if a.timestamp.Some? && a.timestamp.value != nextTimestamp then
      Assembler([], None, false, a.waitKeyframe, a.log + [DroppedIncomplete(a.buffer)])
    else
      Assembler([], Some(nextTimestamp), true, a.waitKeyframe, a.log + [ClearedByLoss(a.buffer)])
  }

  function Append(kind: PayloadKind, a: Assembler, timestamp: nat, marker: bool, data: seq<Byte>): Assembler {
    var b := if a.timestamp.Some? && a.timestamp.value != timestamp then Finish(kind, a) else a;
    var c := b.(timestamp := Some(if b.timestamp.Some? then b.timestamp.value else timestamp),
                buffer := b.buffer + data);
    if marker then Finish(kind, c) else c
  }

  function Push(a: Assembler, data: seq<Byte>): Assembler {
    a.(log := a.log + [Emitted(data)])
  }

  /** A delivered packet after depacketizing: no data while a fragment is unfinished or was rejected. */
  datatype Item = Item(timestamp: nat, marker: bool, lost: bool, hadFragment: bool, data: Option<seq<Byte>>)

  datatype Input = Packet(item: Item) | EndOfInput

  function Step(kind: PayloadKind, a: Assembler, input: Input): Assembler {
    match input
    case EndOfInput => Finish(kind, a)
    case Packet(it) =>
      if GroupsPackets(kind) then
        var b := if it.lost then MarkLoss(kind, a, it.timestamp, it.hadFragment) else a;
        match it.data
        case Some(data) => Append(kind, b, it.timestamp, it.marker, data)
        case None => if it.marker then Finish(kind, b) else b
      else
        match it.data
        case Some(data) => Push(a, data)
        case None => a
  }

  function Run(kind: PayloadKind, a: Assembler, inputs: seq<Input>): Assembler {
    if inputs == [] then a
    else Step(kind, Run(kind, a, inputs[..|inputs| - 1]), inputs[|inputs| - 1])
  }

  lemma RunSnoc(kind: PayloadKind, a: Assembler, inputs: seq<Input>, input: Input)
    ensures Run(kind, a, inputs + [input]) == Step(kind, Run(kind, a, inputs), input)
  {
    assert (inputs + [input])[..|inputs|] == inputs;
  }

  // ---------------------------------------------------------------- conservation of bytes

  function EventData(e: Event): seq<Byte> {
    if e.FragmentLost? then [] else e.data
  }

  function DataOf(input: Input): seq<Byte> {
    if input.Packet? && input.item.data.Some? then input.item.data.value else []
  }

  function Logged(log: seq<Event>): seq<Byte> {
    if log == [] then [] else Logged(log[..|log| - 1]) + EventData(log[|log| - 1])
  }

  function Data(inputs: seq<Input>): seq<Byte> {
    if inputs == [] then [] else Data(inputs[..|inputs| - 1]) + DataOf(inputs[|inputs| - 1])
  }

  lemma LoggedSnoc(log: seq<Event>, e: Event)
    ensures Logged(log + [e]) == Logged(log) + EventData(e)
  {
    assert (log + [e])[..|log|] == log;
  }

  /** The bytes an assembler accounts for: everything logged, then what it still holds. */
  function Accounted(a: Assembler): seq<Byte> {
    Logged(a.log) + a.buffer
  }

  lemma FinishConserves(kind: PayloadKind, a: Assembler)
    ensures Accounted(Finish(kind, a)) == Accounted(a)
  {
    hide Logged, HasKeyframe;
    LoggedSnoc(a.log, DroppedDamaged(a.buffer));
    LoggedSnoc(a.log, DroppedWaiting(a.buffer));
    LoggedSnoc(a.log, Emitted(a.buffer));
  }

  lemma MarkLossConserves(kind: PayloadKind, a: Assembler, t: nat, hadFragment: bool)
    ensures Accounted(MarkLoss(kind, a, t, hadFragment)) == Accounted(a)
  {
    hide Logged;
    LoggedSnoc(a.log, FragmentLost);
    LoggedSnoc(a.log, DroppedIncomplete(a.buffer));
    LoggedSnoc(a.log, ClearedByLoss(a.buffer));
    assert a.log + [] == a.log;
  }

  lemma AppendConserves(kind: PayloadKind, a: Assembler, t: nat, marker: bool, data: seq<Byte>)
    ensures Accounted(Append(kind, a, t, marker, data)) == Accounted(a) + data
  {
    hide Finish;
    FinishConserves(kind, a);
    var b := if a.timestamp.Some? && a.timestamp.value != t then Finish(kind, a) else a;
    var c := b.(timestamp := Some(if b.timestamp.Some? then b.timestamp.value else t), buffer := b.buffer + data);
    assert Accounted(c) == Accounted(b) + data;
    FinishConserves(kind, c);
  }

  lemma StepConserves(kind: PayloadKind, a: Assembler, input: Input)
    requires GroupsPackets(kind) || a.buffer == []
    ensures Accounted(Step(kind, a, input)) == Accounted(a) + DataOf(input)
    ensures GroupsPackets(kind) || Step(kind, a, input).buffer == []
  {
    hide Logged, Append, MarkLoss;
    if input.EndOfInput? {
      FinishConserves(kind, a);
    } else if GroupsPackets(kind) {
      GroupedStepConserves(kind, a, input.item);
    } else if input.item.data.Some? {
      LoggedSnoc(a.log, Emitted(input.item.data.value));
    }
  }

  lemma GroupedStepConserves(kind: PayloadKind, a: Assembler, it: Item)
    requires GroupsPackets(kind)
    ensures Accounted(Step(kind, a, Packet(it))) == Accounted(a) + DataOf(Packet(it))
  {
    hide Finish, MarkLoss, Append, Accounted;
    MarkLossConserves(kind, a, it.timestamp, it.hadFragment);
    var b := if it.lost then MarkLoss(kind, a, it.timestamp, it.hadFragment) else a;
    if it.data.Some? {
      AppendConserves(kind, b, it.timestamp, it.marker, it.data.value);
    } else {
      FinishConserves(kind, b);
    }
  }

  /** No byte is invented, duplicated or reordered: over any input, whatever is lost or dropped, the logged
      stretches followed by the pending buffer are exactly the depacketized bytes in order. */
  lemma {:induction false} BytesAreConserved(kind: PayloadKind, inputs: seq<Input>)
    ensures var a := Run(kind, NewAssembler(kind), inputs);
            Accounted(a) == Data(inputs) && (GroupsPackets(kind) || a.buffer == [])
  {
    if inputs != [] {
      var front := inputs[..|inputs| - 1];
      BytesAreConserved(kind, front);
      StepConserves(kind, Run(kind, NewAssembler(kind), front), inputs[|inputs| - 1]);
    }
  }

  // ---------------------------------------------------------------- access units are runs of packets

  function Emissions(log: seq<Event>): seq<seq<Byte>> {
    if log == [] then []
    else
      var e := log[|log| - 1];
      Emissions(log[..|log| - 1]) + if e.Emitted? then [e.data] else []
  }

  lemma EmissionsSnoc(log: seq<Event>, e: Event)
    ensures Emissions(log + [e]) == Emissions(log) + if e.Emitted? then [e.data] else []
  {
    assert (log + [e])[..|log|] == log;
  }

  /** Data of timestamp `t`, and the unit goes on after it. */
  predicate Unfinished(input: Input, t: nat) {
    HasData(input) && input.item.timestamp == t && input.item.data.value != [] && !input.item.marker
  }

  /** The flagged packet `from` continues a unit of which data came just before it: a torn unit. */
  ghost predicate TornAt(inputs: seq<Input>, from: nat) {
    0 < from < |inputs| && IsLost(inputs[from]) && Unfinished(inputs[from - 1], inputs[from].item.timestamp)
  }

  /** Packets `from` up to `to` form a run: no end of input among them, one timestamp on those that carry
      data, and no loss flagged after the first. */
  ghost predicate IsRun(inputs: seq<Input>, from: nat, to: nat, t: nat)
    requires from <= to <= |inputs|
  {
    && (forall k :: from <= k < to ==> BelongsTo(inputs[k], t))
    && (forall k :: from < k < to ==> !IsLost(inputs[k]))
  }

  /** A packet that has no data of another timestamp. */
  predicate BelongsTo(input: Input, t: nat) {
    input.Packet? && (input.item.data.Some? ==> input.item.timestamp == t)
  }

  /** Packets are missing before this one. */
  predicate IsLost(input: Input) {
    input.Packet? && input.item.lost
  }

  /** A unit ends with this input, whatever comes next. */
  predicate EndsUnit(input: Input) {
    input.EndOfInput? || input.item.marker
  }

  predicate HasData(input: Input) {
    input.Packet? && input.item.data.Some?
  }

  /** Of the first `n` inputs the last one with data has timestamp `t`. */
  ghost predicate LastTimestamp(inputs: seq<Input>, n: nat, t: nat)
    requires n <= |inputs|
  {
    exists p :: 0 <= p < n && HasData(inputs[p]) && inputs[p].item.timestamp == t && NoneHasData(inputs, p + 1, n)
  }

  ghost predicate NoneHasData(inputs: seq<Input>, from: nat, to: nat)
    requires from <= to <= |inputs|
  {
    forall k :: from <= k < to ==> !HasData(inputs[k])
  }

  /** Nothing of a unit of timestamp `t` is missing before input `from` without being flagged there: that packet
      is flagged, or the input begins with it, or a unit ended just before it, or the data before it has another
      timestamp. */
  ghost predicate HeadIsKnown(inputs: seq<Input>, from: nat, t: nat)
    requires from <= |inputs|
  {
    || (from < |inputs| && IsLost(inputs[from]))
    || from == 0
    || EndsUnit(inputs[from - 1])
    || exists s :: s != t && LastTimestamp(inputs, from, s)
  }

  datatype Span = Span(from: nat, to: nat, timestamp: nat)

  /** The access units are the data of disjoint runs, in order. */
  ghost predicate AreRuns(inputs: seq<Input>, units: seq<seq<Byte>>, spans: seq<Span>) {
    && |units| == |spans|
    && (forall i :: 0 <= i < |spans| ==> UnitIsRun(inputs, units[i], spans[i]))
    && (forall i, j :: 0 <= i < j < |spans| ==> spans[i].to <= spans[j].from)
  }

  ghost predicate UnitIsRun(inputs: seq<Input>, data: seq<Byte>, sp: Span) {
    && sp.from < sp.to <= |inputs|
    && IsRun(inputs, sp.from, sp.to, sp.timestamp) && HeadIsKnown(inputs, sp.from, sp.timestamp)
    && !TornAt(inputs, sp.from)
    && data == Data(inputs[sp.from..sp.to])
  }

  /** After the first `n` inputs: the emitted units are runs, and the buffer is the data of the run that
      began at `from` and is still open. */
  ghost predicate RunsUpTo(inputs: seq<Input>, n: nat, a: Assembler, from: nat, spans: seq<Span>) {
    && from <= n <= |inputs|
    && AreRuns(inputs, Emissions(a.log), spans)
    && (forall i :: 0 <= i < |spans| ==> spans[i].to <= from)
    && a.buffer == Data(inputs[from..n])
    && OpenRun(inputs, n, a.timestamp, from)
  }

  ghost predicate OpenRun(inputs: seq<Input>, n: nat, timestamp: Option<nat>, from: nat)
    requires from <= n <= |inputs|
  {
    match timestamp
    case Some(t) => IsRun(inputs, from, n, t)
    case None => forall t :: IsRun(inputs, from, n, t)
  }

  /** A torn unit is known to be damaged. */
  ghost predicate TornIsDamaged(inputs: seq<Input>, from: nat, a: Assembler) {
    TornAt(inputs, from) ==> a.damaged && a.timestamp == Some(inputs[from].item.timestamp)
  }

  ghost predicate HoldsAfter(input: Input, a: Assembler) {
    input.Packet? && Unfinished(input, input.item.timestamp) ==>
      a.buffer != [] && a.timestamp == Some(input.item.timestamp)
  }

  /** After unfinished data the assembler holds it. */
  ghost predicate HoldsLast(inputs: seq<Input>, n: nat, a: Assembler)
    requires n <= |inputs|
  {
    0 < n ==> HoldsAfter(inputs[n - 1], a)
  }

  /** What is known of the head of the open run and of the timestamp in force. */
  ghost predicate OpenHead(inputs: seq<Input>, n: nat, timestamp: Option<nat>, from: nat)
    requires from <= n <= |inputs|
  {
    match timestamp
    case Some(t) => HeadIsKnown(inputs, from, t) && LastTimestamp(inputs, n, t)
    case None => forall t :: HeadIsKnown(inputs, from, t)
  }

  lemma FinishRuns(kind: PayloadKind, inputs: seq<Input>, n: nat, a: Assembler, from: nat, spans: seq<Span>)
    returns (spans': seq<Span>)
    requires RunsUpTo(inputs, n, a, from, spans) && (a.timestamp.None? ==> a.buffer == [])
    requires from <= n <= |inputs| && OpenHead(inputs, n, a.timestamp, from) && TornIsDamaged(inputs, from, a)
    ensures RunsUpTo(inputs, n, Finish(kind, a), n, spans')
  {
    hide IsRun, HasKeyframe, Emissions, HeadIsKnown, LastTimestamp, TornAt;
    assert inputs[n..n] == [] && inputs[from..from] == [];
    EmissionsSnoc(a.log, DroppedDamaged(a.buffer));
    EmissionsSnoc(a.log, DroppedWaiting(a.buffer));
    EmissionsSnoc(a.log, Emitted(a.buffer));
    var a' := Finish(kind, a);
    spans' := spans;
    if a'.log == a.log + [Emitted(a.buffer)] && a.buffer != [] {
      spans' := spans + [Span(from, n, a.timestamp.value)];
      assert UnitIsRun(inputs, a.buffer, spans'[|spans|]);
    }
    EmptyRun(inputs, n);
  }

  lemma EmptyRun(inputs: seq<Input>, n: nat)
    requires n <= |inputs|
    ensures OpenRun(inputs, n, None, n) && forall t :: OpenRun(inputs, n, Some(t), n)
    ensures inputs[n..n] == []
  {}

  lemma MarkLossRuns(
    kind: PayloadKind, inputs: seq<Input>, n: nat, a: Assembler, from: nat, spans: seq<Span>, t: nat, hadFragment: bool)
    requires RunsUpTo(inputs, n, a, from, spans)
    ensures RunsUpTo(inputs, n, MarkLoss(kind, a, t, hadFragment), n, spans)
  {
    hide IsRun, Emissions, OpenRun;
    EmptyRun(inputs, n);
    EmissionsSnoc(a.log, FragmentLost);
    EmissionsSnoc(a.log, DroppedIncomplete(a.buffer));
    EmissionsSnoc(a.log, ClearedByLoss(a.buffer));
    assert a.log + [] == a.log;
  }

  /** One more packet joins the open run. */
  lemma ExtendRun(inputs: seq<Input>, n: nat, a: Assembler, from: nat, spans: seq<Span>, a': Assembler)
    requires RunsUpTo(inputs, n, a, from, spans) && n < |inputs| && inputs[n].Packet?
    requires inputs[n].item.lost ==> from == n
    requires a'.log == a.log && a'.buffer == a.buffer + DataOf(inputs[n])
    requires a.timestamp.None? || a'.timestamp == a.timestamp
    requires inputs[n].item.data.Some? ==> a'.timestamp == Some(inputs[n].item.timestamp)
    ensures RunsUpTo(inputs, n + 1, a', from, spans)
  {
    hide Emissions, UnitIsRun;
    var m := n + 1;
    assert inputs[from..m][..n - from] == inputs[from..n];
    forall t: nat {:trigger IsRun(inputs, from, m, t)} | a'.timestamp.None? || t == a'.timestamp.value
      ensures IsRun(inputs, from, m, t)
    {
      assert IsRun(inputs, from, n, t);
    }
  }

  /** The next packet with data of the same timestamp, or without data. */
  lemma SameHead(inputs: seq<Input>, n: nat, timestamp: Option<nat>, from: nat, timestamp': Option<nat>)
    requires from <= n < |inputs| && OpenHead(inputs, n, timestamp, from)
    requires timestamp.None? || timestamp' == timestamp
    requires if HasData(inputs[n]) then timestamp' == Some(inputs[n].item.timestamp) else timestamp' == timestamp
    ensures OpenHead(inputs, n + 1, timestamp', from)
  {
    hide HeadIsKnown;
    if timestamp'.Some? {
      LastAfter(inputs, n, timestamp'.value);
    }
  }

  lemma LastAfter(inputs: seq<Input>, n: nat, t: nat)
    requires n < |inputs|
    requires if HasData(inputs[n]) then inputs[n].item.timestamp == t else LastTimestamp(inputs, n, t)
    ensures LastTimestamp(inputs, n + 1, t)
  {
    if HasData(inputs[n]) {
      assert NoneHasData(inputs, n + 1, n + 1);
    } else {
      var p :| 0 <= p < n && HasData(inputs[p]) && inputs[p].item.timestamp == t && NoneHasData(inputs, p + 1, n);
      assert NoneHasData(inputs, p + 1, n + 1);
    }
  }

  /** Data of another timestamp begins a run of its own. */
  lemma NewTimestampHead(inputs: seq<Input>, n: nat, s: nat, from: nat)
    requires from <= n < |inputs| && HasData(inputs[n]) && inputs[n].item.timestamp != s
    requires OpenHead(inputs, n, Some(s), from)
    ensures OpenHead(inputs, n + 1, Some(inputs[n].item.timestamp), n)
  {
    LastAfter(inputs, n, inputs[n].item.timestamp);
  }

  lemma EndedHead(inputs: seq<Input>, n: nat)
    requires n < |inputs| && EndsUnit(inputs[n])
    ensures OpenHead(inputs, n + 1, None, n + 1)
  {}

  /** After a loss the run begins with the flagged packet. */
  lemma LostHead(kind: PayloadKind, inputs: seq<Input>, n: nat, a: Assembler, from: nat)
    requires from <= n < |inputs| && IsLost(inputs[n]) && OpenHead(inputs, n, a.timestamp, from)
    requires a.timestamp.None? ==> a.buffer == []
    ensures OpenHead(inputs, n, MarkLoss(kind, a, inputs[n].item.timestamp, inputs[n].item.hadFragment).timestamp, n)
  {
    hide LastTimestamp;
  }

  /** All that is known after the first `n` inputs. */
  ghost predicate Grouped(inputs: seq<Input>, n: nat, a: Assembler, from: nat, spans: seq<Span>) {
    && RunsUpTo(inputs, n, a, from, spans) && OpenHead(inputs, n, a.timestamp, from)
    && (a.timestamp.None? ==> a.buffer == []) && TornIsDamaged(inputs, from, a)
  }

  /** The assembler once the loss flagged at a packet is marked. */
  function AfterLoss(kind: PayloadKind, a: Assembler, it: Item): Assembler {
    if it.lost then MarkLoss(kind, a, it.timestamp, it.hadFragment) else a
  }

  lemma LossGrouped(kind: PayloadKind, inputs: seq<Input>, n: nat, a: Assembler, from: nat, spans: seq<Span>)
    returns (from': nat)
    requires n < |inputs| && inputs[n].Packet? && Grouped(inputs, n, a, from, spans) && HoldsLast(inputs, n, a)
    ensures Grouped(inputs, n, AfterLoss(kind, a, inputs[n].item), from', spans)
    ensures inputs[n].item.lost ==> from' == n
  {
    hide RunsUpTo, MarkLoss, OpenHead, TornIsDamaged, HoldsLast;
    var it := inputs[n].item;
    from' := from;
    if it.lost {
      UpToIsWithin(inputs, n, a, from, spans);
      MarkLossRuns(kind, inputs, n, a, from, spans, it.timestamp, it.hadFragment);
      MarkLossClears(kind, a, it.timestamp, it.hadFragment);
      LostHead(kind, inputs, n, a, from);
      TornIsMarked(kind, inputs, n, a);
      from' := n;
    }
  }

  lemma TornIsMarked(kind: PayloadKind, inputs: seq<Input>, n: nat, a: Assembler)
    requires n < |inputs| && IsLost(inputs[n]) && HoldsLast(inputs, n, a)
    ensures TornIsDamaged(inputs, n, MarkLoss(kind, a, inputs[n].item.timestamp, inputs[n].item.hadFragment))
  {}

  /** The assembler once the data of a packet is taken in, before its marker counts. */
  function AfterData(kind: PayloadKind, a: Assembler, it: Item): Assembler {
    if it.data.None? then a
    else
      var b := if a.timestamp.Some? && a.timestamp.value != it.timestamp then Finish(kind, a) else a;
      b.(timestamp := Some(it.timestamp), buffer := b.buffer + it.data.value)
  }

  lemma DataGrouped(kind: PayloadKind, inputs: seq<Input>, n: nat, a: Assembler, from: nat, spans: seq<Span>)
    returns (from': nat, spans': seq<Span>)
    requires n < |inputs| && inputs[n].Packet? && Grouped(inputs, n, a, from, spans)
    requires inputs[n].item.lost ==> from == n
    ensures Grouped(inputs, n + 1, AfterData(kind, a, inputs[n].item), from', spans')
  {
    hide RunsUpTo, Finish, OpenHead;
    var it, c := inputs[n].item, AfterData(kind, a, inputs[n].item);
    UpToIsWithin(inputs, n, a, from, spans);
    from', spans' := from, spans;
    if it.data.Some? && a.timestamp.Some? && a.timestamp.value != it.timestamp {
      FinishClears(kind, a);
      NewTimestampHead(inputs, n, a.timestamp.value, from);
      spans' := FinishRuns(kind, inputs, n, a, from, spans);
      from' := n;
      ExtendRun(inputs, n, Finish(kind, a), n, spans', c);
    } else {
      SameHead(inputs, n, a.timestamp, from, c.timestamp);
      ExtendRun(inputs, n, a, from, spans, c);
    }
  }

  /** A unit ends with input `n - 1`. */
  lemma EndGrouped(kind: PayloadKind, inputs: seq<Input>, n: nat, a: Assembler, from: nat, spans: seq<Span>)
    returns (spans': seq<Span>)
    requires 0 < n <= |inputs| && EndsUnit(inputs[n - 1]) && Grouped(inputs, n, a, from, spans)
    ensures Grouped(inputs, n, Finish(kind, a), n, spans')
  {
    hide RunsUpTo, Finish, OpenHead;
    UpToIsWithin(inputs, n, a, from, spans);
    FinishClears(kind, a);
    EndedHead(inputs, n - 1);
    spans' := FinishRuns(kind, inputs, n, a, from, spans);
  }

  lemma EndOfInputGrouped(kind: PayloadKind, inputs: seq<Input>, n: nat, a: Assembler, from: nat, spans: seq<Span>)
    returns (spans': seq<Span>)
    requires n < |inputs| && inputs[n].EndOfInput? && Grouped(inputs, n, a, from, spans)
    ensures Grouped(inputs, n + 1, Finish(kind, a), n + 1, spans')
  {
    hide RunsUpTo, Finish, OpenHead;
    UpToIsWithin(inputs, n, a, from, spans);
    FinishClears(kind, a);
    spans' := FinishRuns(kind, inputs, n, a, from, spans);
    AfterEnd(inputs, n, Finish(kind, a), spans');
    EndedHead(inputs, n);
  }

  lemma StepIsParts(kind: PayloadKind, a: Assembler, it: Item)
    requires GroupsPackets(kind)
    ensures var c := AfterData(kind, AfterLoss(kind, a, it), it);
            Step(kind, a, Packet(it)) == if it.marker then Finish(kind, c) else c
  {
    hide Finish, MarkLoss;
    FinishClears(kind, AfterLoss(kind, a, it));
  }

  lemma StepGrouped(kind: PayloadKind, inputs: seq<Input>, n: nat, a: Assembler, from: nat, spans: seq<Span>)
    returns (from': nat, spans': seq<Span>)
    requires GroupsPackets(kind) && n < |inputs| && Grouped(inputs, n, a, from, spans) && HoldsLast(inputs, n, a)
    ensures Grouped(inputs, n + 1, Step(kind, a, inputs[n]), from', spans')
    ensures HoldsLast(inputs, n + 1, Step(kind, a, inputs[n]))
  {
    hide Grouped, Finish, AfterLoss, AfterData, HoldsLast;
    StepHoldsLast(kind, inputs, n, a);
    if inputs[n].EndOfInput? {
      spans' := EndOfInputGrouped(kind, inputs, n, a, from, spans);
      return n + 1, spans';
    }
    var it := inputs[n].item;
    StepIsParts(kind, a, it);
    from' := LossGrouped(kind, inputs, n, a, from, spans);
    from', spans' := DataGrouped(kind, inputs, n, AfterLoss(kind, a, it), from', spans);
    if it.marker {
      spans' := EndGrouped(kind, inputs, n + 1, AfterData(kind, AfterLoss(kind, a, it), it), from', spans');
      from' := n + 1;
    }
  }

  lemma StepHoldsLast(kind: PayloadKind, inputs: seq<Input>, n: nat, a: Assembler)
    requires GroupsPackets(kind) && n < |inputs|
    ensures HoldsLast(inputs, n + 1, Step(kind, a, inputs[n]))
  {
    hide Step, Finish, MarkLoss;
    if inputs[n].Packet? { StepIsParts(kind, a, inputs[n].item); }
    assert HoldsAfter(inputs[n], Step(kind, a, inputs[n]));
  }

  lemma UpToIsWithin(inputs: seq<Input>, n: nat, a: Assembler, from: nat, spans: seq<Span>)
    requires RunsUpTo(inputs, n, a, from, spans)
    ensures from <= n <= |inputs|
  {}

  lemma FinishClears(kind: PayloadKind, a: Assembler)
    ensures var f := Finish(kind, a); f.buffer == [] && f.timestamp.None? && !f.damaged
  {}

  lemma MarkLossClears(kind: PayloadKind, a: Assembler, t: nat, hadFragment: bool)
    ensures MarkLoss(kind, a, t, hadFragment).buffer == []
  {}

  lemma AfterEnd(inputs: seq<Input>, n: nat, a: Assembler, spans: seq<Span>)
    requires n < |inputs| && RunsUpTo(inputs, n, a, n, spans) && a.buffer == [] && a.timestamp.None?
    ensures RunsUpTo(inputs, n + 1, a, n + 1, spans)
  {
    hide IsRun;
    EmptyRun(inputs, n + 1);
  }

  /** Over any input: every emitted access unit is the data of a run of consecutive packets with one
      timestamp and no loss inside, the runs are disjoint and in order, and what is pending is the data of
      the run still open after the last of them. A unit's first packet is flagged, or a unit boundary is seen
      just before it; and no emitted unit is torn. */
  lemma {:induction false} UnitsAreRuns(kind: PayloadKind, inputs: seq<Input>, n: nat)
    returns (from: nat, spans: seq<Span>)
    requires kind !in {Aac, G711} && n <= |inputs|
    ensures Grouped(inputs, n, Run(kind, NewAssembler(kind), inputs[..n]), from, spans)
    ensures HoldsLast(inputs, n, Run(kind, NewAssembler(kind), inputs[..n]))
  {
    hide Grouped, Step;
    if n == 0 {
      from, spans := 0, [];
      NothingYet(kind, inputs);
    } else {
      var from0, spans0 := UnitsAreRuns(kind, inputs, n - 1);
      assert inputs[..n][..n - 1] == inputs[..n - 1];
      from, spans := StepGrouped(kind, inputs, n - 1, Run(kind, NewAssembler(kind), inputs[..n - 1]), from0, spans0);
    }
  }

  lemma NothingYet(kind: PayloadKind, inputs: seq<Input>)
    ensures Grouped(inputs, 0, NewAssembler(kind), 0, [])
  {
    EmptyRun(inputs, 0);
  }

  // ---------------------------------------------------------------- without loss nothing is dropped

  ghost predicate OnlyEmits(a: Assembler) {
    !a.damaged && !a.waitKeyframe && forall e :: e in a.log ==> e.Emitted?
  }

  lemma {:induction false} LoggedIsEmitted(log: seq<Event>)
    requires forall e :: e in log ==> e.Emitted?
    ensures Logged(log) == Concat(Emissions(log))
  {
    if log != [] {
      var front, e := log[..|log| - 1], log[|log| - 1];
      LoggedIsEmitted(front);
      ConcatSnoc(Emissions(front), e.data);
    }
  }

  lemma LosslessStep(kind: PayloadKind, a: Assembler, input: Input)
    requires !IsRawVideo(kind) && OnlyEmits(a) && (input.Packet? ==> !input.item.lost)
    ensures OnlyEmits(Step(kind, a, input))
  {}

  /** For a payload kind that is not raw video (program stream, passthrough, AAC, G.711): when no loss is
      flagged, the emitted units followed by the pending buffer are all the payload bytes. */
  lemma {:induction false} LosslessInputIsWhole(kind: PayloadKind, inputs: seq<Input>)
    requires kind !in {H264, H265}
    requires forall input :: input in inputs && input.Packet? ==> !input.item.lost
    ensures var a := Run(kind, NewAssembler(kind), inputs);
            OnlyEmits(a) && Concat(Emissions(a.log)) + a.buffer == Data(inputs)
  {
    var a := Run(kind, NewAssembler(kind), inputs);
    BytesAreConserved(kind, inputs);
    if inputs != [] {
      var front := inputs[..|inputs| - 1];
      LosslessInputIsWhole(kind, front);
      LosslessStep(kind, Run(kind, NewAssembler(kind), front), inputs[|inputs| - 1]);
    }
    LoggedIsEmitted(a.log);
  }

  /** The data of every packet that has some, one by one. */
  function PacketData(inputs: seq<Input>): seq<seq<Byte>> {
    if inputs == [] then []
    else
      var input := inputs[|inputs| - 1];
      PacketData(inputs[..|inputs| - 1]) + if HasData(input) then [input.item.data.value] else []
  }

  /** AAC and G.711: every packet is a unit of its own and is handed on, whatever is flagged lost. */
  lemma {:induction false} PacketsAreUnits(kind: PayloadKind, inputs: seq<Input>)
    requires kind in {Aac, G711}
    ensures var a := Run(kind, NewAssembler(kind), inputs);
            && a == NewAssembler(kind).(log := a.log)
            && Emissions(a.log) == PacketData(inputs) && |a.log| == |PacketData(inputs)|
  {
    if inputs != [] {
      var front, input := inputs[..|inputs| - 1], inputs[|inputs| - 1];
      PacketsAreUnits(kind, front);
      if HasData(input) { EmissionsSnoc(Run(kind, NewAssembler(kind), front).log, Emitted(input.item.data.value)); }
    }
  }

  // ---------------------------------------------------------------- an intact unit gets through

  /** The packets of one access unit: one timestamp, a marker on the last packet and only there, no loss
      flagged. */
  ghost predicate IntactUnit(items: seq<Item>, t: nat) {
    && items != []
    && (forall k :: 0 <= k < |items| ==>
          items[k].timestamp == t && !items[k].lost && (items[k].marker <==> k == |items| - 1))
  }

  function Packets(items: seq<Item>): seq<Input> {
    seq(|items|, i requires 0 <= i < |items| => Packet(items[i]))
  }

  /** Between two access units. */
  predicate AtBoundary(a: Assembler) {
    a.buffer == [] && a.timestamp.None? && !a.damaged
  }

  /** Holding nothing, and either between units or inside one of timestamp `t`. */
  predicate ReadyFor(a: Assembler, t: nat) {
    a.buffer == [] && (a.timestamp.Some? ==> a.timestamp.value == t)
  }

  ghost predicate Gathering(a: Assembler, b: Assembler, t: nat, data: seq<Byte>) {
    && b == a.(buffer := data, timestamp := b.timestamp)
    && (b.timestamp.None? ==> data == []) && (b.timestamp.Some? ==> b.timestamp.value == t)
  }

  lemma GatherStep(kind: PayloadKind, a: Assembler, b: Assembler, t: nat, data: seq<Byte>, it: Item)
    requires GroupsPackets(kind) && Gathering(a, b, t, data) && it.timestamp == t && !it.lost && !it.marker
    ensures Gathering(a, Step(kind, b, Packet(it)), t, data + DataOf(Packet(it)))
  {
    hide Finish;
  }

  lemma {:induction false} UnitGathers(kind: PayloadKind, a: Assembler, items: seq<Item>, t: nat, n: nat)
    requires GroupsPackets(kind) && IntactUnit(items, t) && ReadyFor(a, t) && n < |items|
    ensures Gathering(a, Run(kind, a, Packets(items)[..n]), t, Data(Packets(items)[..n]))
  {
    if n > 0 {
      UnitGathers(kind, a, items, t, n - 1);
      var all := Packets(items);
      assert all[..n][..n - 1] == all[..n - 1];
      GatherStep(kind, a, Run(kind, a, all[..n - 1]), t, Data(all[..n - 1]), items[n - 1]);
    }
  }

  /** The packets of a unit that are all there, from a state that holds nothing: the unit is dropped if the
      assembler knows it to be damaged, else handed on whole; raw video still waiting for a keyframe hands on only
      a unit that holds one. A unit without data leaves no trace. */
  lemma UnitIsFinished(kind: PayloadKind, a: Assembler, items: seq<Item>, t: nat)
    requires kind !in {Aac, G711} && IntactUnit(items, t) && ReadyFor(a, t)
    ensures var data := Data(Packets(items));
            var b := Run(kind, a, Packets(items));
            && AtBoundary(b)
            && b.log == a.log + (
                 if data == [] then []
                 else if a.damaged then [DroppedDamaged(data)]
                 else if kind in {H264, H265} && a.waitKeyframe && !HasKeyframe(kind, data) then [DroppedWaiting(data)]
                 else [Emitted(data)])
  {
    hide HasKeyframe;
    var n := |items| - 1;
    var all := Packets(items);
    UnitGathers(kind, a, items, t, n);
    assert all[..|all| - 1] == all[..n] && all[n] == Packet(items[n]);
    var b := Run(kind, a, all[..n]);
    var c := if items[n].data.None? then b
             else b.(timestamp := Some(t), buffer := b.buffer + items[n].data.value);
    assert Step(kind, b, all[n]) == Finish(kind, c);
    assert a.log + [] == a.log && b.buffer + [] == b.buffer;
    assert c.buffer == Data(all);
  }

  /** An intact access unit that begins between two units is handed on whole as soon as its marker packet
      is processed; raw video still waiting for a keyframe hands on only a unit that holds one. A unit without
      data leaves no trace. */
  lemma IntactUnitGetsThrough(kind: PayloadKind, a: Assembler, items: seq<Item>, t: nat)
    requires kind !in {Aac, G711} && IntactUnit(items, t) && AtBoundary(a)
    ensures var data := Data(Packets(items));
            var b := Run(kind, a, Packets(items));
            && AtBoundary(b)
            && b.log == a.log + (
                 if data == [] then []
                 else if kind in {H264, H265} && a.waitKeyframe && !HasKeyframe(kind, data) then [DroppedWaiting(data)]
                 else [Emitted(data)])
  {
    hide HasKeyframe, Run, Data;
    UnitIsFinished(kind, a, items, t);
  }

  // ---------------------------------------------------------------- keyframe gating

  predicate Arms(e: Event) {
    e.DroppedDamaged? || e.FragmentLost?
  }

  /** By the log alone, the gate is closed: nothing was emitted yet, or a damaged unit was dropped or a
      fragment lost since the last emission. */
  predicate Waiting(log: seq<Event>) {
    log == [] || Arms(log[|log| - 1]) || (!log[|log| - 1].Emitted? && Waiting(log[..|log| - 1]))
  }

  ghost predicate Gated(kind: PayloadKind, a: Assembler) {
    && (a.waitKeyframe <==> Waiting(a.log))
    && (forall j {:trigger a.log[j]} :: 0 <= j < |a.log| && a.log[j].Emitted? && Waiting(a.log[..j]) ==>
          HasKeyframe(kind, a.log[j].data))
    && (forall j {:trigger a.log[j]} :: 0 <= j < |a.log| && a.log[j].DroppedWaiting? ==>
          Waiting(a.log[..j]) && !HasKeyframe(kind, a.log[j].data))
  }

  lemma GatedSnoc(kind: PayloadKind, a: Assembler, b: Assembler, e: Event)
    requires Gated(kind, a) && b.log == a.log + [e]
    requires e.Emitted? ==> (a.waitKeyframe ==> HasKeyframe(kind, e.data))
    requires e.DroppedWaiting? ==> a.waitKeyframe && !HasKeyframe(kind, e.data)
    requires b.waitKeyframe == if e.Emitted? then false else a.waitKeyframe || Arms(e)
    ensures Gated(kind, b)
  {
    assert b.log[..|a.log|] == a.log;
    forall j | 0 <= j < |a.log| ensures b.log[j] == a.log[j] && b.log[..j] == a.log[..j] {}
  }

  lemma FinishStaysGated(kind: PayloadKind, a: Assembler)
    requires IsRawVideo(kind) && Gated(kind, a)
    ensures Gated(kind, Finish(kind, a))
  {
    hide HasKeyframe, Gated;
    var b := Finish(kind, a);
    if a.buffer == [] {
      SameGate(kind, a, b);
    } else {
      GatedSnoc(kind, a, b, b.log[|a.log|]);
    }
  }

  lemma SameGate(kind: PayloadKind, a: Assembler, b: Assembler)
    requires Gated(kind, a) && b.log == a.log && b.waitKeyframe == a.waitKeyframe
    ensures Gated(kind, b)
  {}

  lemma MarkLossStaysGated(kind: PayloadKind, a: Assembler, t: nat, hadFragment: bool)
    requires IsRawVideo(kind) && Gated(kind, a)
    ensures Gated(kind, MarkLoss(kind, a, t, hadFragment))
  {
    hide HasKeyframe, Gated;
    var b := MarkLoss(kind, a, t, hadFragment);
    assert a.log + [] == a.log;
    if b.log == a.log {
      SameGate(kind, a, b);
    } else {
      GatedSnoc(kind, a, b, b.log[|a.log|]);
    }
  }

  lemma StepStaysGated(kind: PayloadKind, a: Assembler, input: Input)
    requires IsRawVideo(kind) && Gated(kind, a)
    ensures Gated(kind, Step(kind, a, input))
  {
    hide Gated, Finish, MarkLoss;
    FinishStaysGated(kind, a);
    if input.Packet? {
      var it := input.item;
      MarkLossStaysGated(kind, a, it.timestamp, it.hadFragment);
      var b := if it.lost then MarkLoss(kind, a, it.timestamp, it.hadFragment) else a;
      FinishStaysGated(kind, b);
      if it.data.Some? {
        var c := if b.timestamp.Some? && b.timestamp.value != it.timestamp then Finish(kind, b) else b;
        var d := c.(timestamp := Some(if c.timestamp.Some? then c.timestamp.value else it.timestamp),
                    buffer := c.buffer + it.data.value);
        SameGate(kind, c, d);
        FinishStaysGated(kind, d);
      }
    }
  }

  lemma {:induction false} RunsStayGated(kind: PayloadKind, inputs: seq<Input>)
    requires kind in {H264, H265}
    ensures Gated(kind, Run(kind, NewAssembler(kind), inputs))
  {
    hide Step, HasKeyframe;
    if inputs != [] {
      var front := inputs[..|inputs| - 1];
      RunsStayGated(kind, front);
      StepStaysGated(kind, Run(kind, NewAssembler(kind), front), inputs[|inputs| - 1]);
    }
  }

  lemma {:induction false} NoEmissionSince(log: seq<Event>, i: nat, j: nat)
    requires i <= j <= |log| && (i == 0 || Arms(log[i - 1]))
    requires forall k :: i <= k < j ==> !log[k].Emitted?
    ensures Waiting(log[..j])
  {
    if j > i {
      NoEmissionSince(log, i, j - 1);
      assert log[..j][..j - 1] == log[..j - 1];
    }
  }

  /** In H.264 and H.265 mode, over any input: the first access unit emitted at all, and the first one
      emitted after any damaged-unit drop or any fragment loss, contains a keyframe NAL unit. */
  lemma FirstUnitIsKeyframe(kind: PayloadKind, inputs: seq<Input>, i: nat, j: nat)
    requires kind in {H264, H265}
    requires var log := Run(kind, NewAssembler(kind), inputs).log;
             i <= j < |log| && (i == 0 || Arms(log[i - 1])) && log[j].Emitted? &&
             forall k :: i <= k < j ==> !log[k].Emitted?
    ensures HasKeyframe(kind, Run(kind, NewAssembler(kind), inputs).log[j].data)
  {
    hide HasKeyframe, Run;
    RunsStayGated(kind, inputs);
    NoEmissionSince(Run(kind, NewAssembler(kind), inputs).log, i, j);
  }

  lemma RunNothing(kind: PayloadKind, a: Assembler)
    ensures Run(kind, a, []) == a
  {}
}

/**
  The two packings H.264 and H.265 RTP payloads share: several NAL units aggregated in one packet, each
  behind a 16-bit size, and one NAL unit cut into fragments.
*/
module NalPayloads {
  import opened Wrappers
  import opened Bytes
  import opened StartCodes

  // ---------------------------------------------------------------- aggregation

  function Prepend(out: seq<Byte>, rest: Option<seq<Byte>>): Option<seq<Byte>> {
    match rest
    case None => None
    case Some(more) => Some(out + more)
  }

  lemma PrependTwice(a: seq<Byte>, b: seq<Byte>, rest: Option<seq<Byte>>)
    ensures Prepend(a, Prepend(b, rest)) == Prepend(a + b, rest)
  {
    if rest.Some? {
      assert a + (b + rest.value) == a + b + rest.value;
    }
  }

  lemma PrependNothing(rest: Option<seq<Byte>>)
    ensures Prepend([], rest) == rest
  {
    if rest.Some? {
      assert [] + rest.value == rest.value;
    }
  }

  /** The NAL units from position `pos` on, behind start codes; None for a zero or excessive size.
      A single trailing byte is ignored. */
  function Deaggregate(payload: seq<Byte>, pos: nat): Option<seq<Byte>>
    decreases |payload| - pos
  {
    if pos + 2 > |payload| then Some([])
    else
      var len := U16Be(payload[pos], payload[pos + 1]);
      if len == 0 || pos + 2 + len > |payload| then None
      else Prepend(START_CODE + payload[pos + 2..pos + 2 + len], Deaggregate(payload, pos + 2 + len))
  }

  /** The whole aggregation packet, whose payload header takes `header` bytes. */
  function AggregationPacket(payload: seq<Byte>, header: nat): Option<seq<Byte>> {
    var out := Deaggregate(payload, header);
    if |payload| <= header || out == Some([]) then None else out
  }

  method SplitAggregation(payload: seq<Byte>, header: nat) returns (r: Option<seq<Byte>>)
    ensures r == AggregationPacket(payload, header)
  {
    if |payload| <= header {
      return None;
    }
    var pos := header;
    var out: seq<Byte> := [];
    PrependNothing(Deaggregate(payload, header));
    while pos + 2 <= |payload|
      invariant pos <= |payload|
      invariant Deaggregate(payload, header) == Prepend(out, Deaggregate(payload, pos))
      decreases |payload| - pos
    {
      var len := U16Be(payload[pos], payload[pos + 1]);
      pos := pos + 2;
      if len == 0 || pos + len > |payload| {
        return None;
      }
      PrependTwice(out, START_CODE + payload[pos..pos + len], Deaggregate(payload, pos + len));
      out := out + (START_CODE + payload[pos..pos + len]);
      pos := pos + len;
    }
    assert out + [] == out;
    return if out == [] then None else Some(out);
  }

  ghost predicate AllSized(nals: seq<seq<Byte>>) {
    forall n :: n in nals ==> 0 < |n| < 65536
  }

  /** The aggregation format: each NAL unit behind its 16-bit size. */
  ghost function Aggregate(nals: seq<seq<Byte>>): seq<Byte>
    requires AllSized(nals)
  {
    if nals == [] then [] else BeBytes(|nals[0]|) + nals[0] + Aggregate(nals[1..])
  }

  lemma DeaggregateStep(payload: seq<Byte>, pos: nat, len: nat)
    requires 0 < len && pos + 2 + len <= |payload| && len == U16Be(payload[pos], payload[pos + 1])
    ensures Deaggregate(payload, pos) ==
            Prepend(START_CODE + payload[pos + 2..pos + 2 + len], Deaggregate(payload, pos + 2 + len))
  {}

  lemma DeaggregateTail(payload: seq<Byte>, pos: nat)
    requires |payload| <= pos + 1
    ensures Deaggregate(payload, pos) == Some([])
  {}

  lemma SizedLayout(before: seq<Byte>, size: seq<Byte>, n: seq<Byte>, after: seq<Byte>)
    requires |size| == 2
    ensures var payload := before + (size + n + after);
            payload[|before|] == size[0] && payload[|before| + 1] == size[1] &&
            payload[|before| + 2..|before| + 2 + |n|] == n
  {}

  /** One step of reading back: a sized unit at `pos`. */
  lemma ReadUnit(before: seq<Byte>, n: seq<Byte>, after: seq<Byte>)
    requires 0 < |n| < 65536
    ensures var payload := before + (BeBytes(|n|) + n + after);
            Deaggregate(payload, |before|) == Prepend(START_CODE + n, Deaggregate(payload, |before| + 2 + |n|))
  {
    hide *;
    SizedLayout(before, BeBytes(|n|), n, after);
    DeaggregateStep(before + (BeBytes(|n|) + n + after), |before|, |n|);
  }

  lemma {:induction false} DeaggregateInverts(before: seq<Byte>, nals: seq<seq<Byte>>, tail: seq<Byte>)
    requires AllSized(nals) && |tail| <= 1
    ensures Deaggregate(before + (Aggregate(nals) + tail), |before|) == Some(Stream(nals))
    decreases |nals|
  {
    hide Deaggregate, BeBytes;
    if nals == [] {
      DeaggregateTail(before + (Aggregate(nals) + tail), |before|);
    } else {
      var n, rest := nals[0], nals[1..];
      var after := Aggregate(rest) + tail;
      var before' := before + BeBytes(|n|) + n;
      DeaggregateInverts(before', rest, tail);
      assert Aggregate(nals) + tail == BeBytes(|n|) + n + after;
      assert before' + after == before + (BeBytes(|n|) + n + after);
      ReadUnit(before, n, after);
    }
  }

  /** Whatever is accepted was such a list of NAL units, up to one trailing byte. */
  lemma {:induction false} AcceptedIsAggregate(payload: seq<Byte>, pos: nat)
    returns (nals: seq<seq<Byte>>, tail: seq<Byte>)
    requires pos <= |payload| && Deaggregate(payload, pos).Some?
    ensures AllSized(nals) && |tail| <= 1
    ensures payload[pos..] == Aggregate(nals) + tail
    ensures Deaggregate(payload, pos) == Some(Stream(nals))
    decreases |payload| - pos
  {
    hide Deaggregate, Aggregate, Stream, BeBytes, U16Be;
    if pos + 2 > |payload| {
      DeaggregateTail(payload, pos);
      NothingAggregated();
      return [], payload[pos..];
    }
    DeaggregateSome(payload, pos);
    var len := U16Be(payload[pos], payload[pos + 1]);
    var n := payload[pos + 2..pos + 2 + len];
    var rest;
    rest, tail := AcceptedIsAggregate(payload, pos + 2 + len);
    AggregateCons(n, rest);
    SizeBytes(payload[pos], payload[pos + 1]);
    assert payload[pos..] == [payload[pos], payload[pos + 1]] + n + payload[pos + 2 + len..];
    return [n] + rest, tail;
  }

  lemma NothingAggregated()
    ensures Aggregate([]) == [] && Stream([]) == []
  {}

  lemma DeaggregateSome(payload: seq<Byte>, pos: nat)
    requires pos + 2 <= |payload| && Deaggregate(payload, pos).Some?
    ensures var len := U16Be(payload[pos], payload[pos + 1]);
            0 < len && pos + 2 + len <= |payload| && Deaggregate(payload, pos + 2 + len).Some? &&
            Deaggregate(payload, pos) ==
            Some(START_CODE + payload[pos + 2..pos + 2 + len] + Deaggregate(payload, pos + 2 + len).value)
  {}

  lemma SizeBytes(hi: Byte, lo: Byte)
    ensures BeBytes(U16Be(hi, lo)) == [hi, lo]
  {}

  lemma AggregateCons(n: seq<Byte>, rest: seq<seq<Byte>>)
    requires AllSized(rest) && 0 < |n| < 65536
    ensures AllSized([n] + rest) && Aggregate([n] + rest) == BeBytes(|n|) + n + Aggregate(rest)
    ensures Stream([n] + rest) == START_CODE + n + Stream(rest)
  {
    assert ([n] + rest)[1..] == rest;
  }

  /** The body of an aggregation packet is sized NAL units and at most one byte more. */
  ghost predicate Carries(body: seq<Byte>, nals: seq<seq<Byte>>, tail: seq<Byte>) {
    nals != [] && AllSized(nals) && |tail| <= 1 && body == Aggregate(nals) + tail
  }

  /** An aggregation packet is accepted exactly when its body is one or more sized NAL units and at most one
      byte more, and then yields exactly those units behind start codes. */
  lemma AggregationIsExact(header: seq<Byte>, body: seq<Byte>, out: seq<Byte>)
    ensures AggregationPacket(header + body, |header|) == Some(out) <==>
            exists nals, tail :: Carries(body, nals, tail) && out == Stream(nals)
  {
    hide Deaggregate, Aggregate;
    var payload := header + body;
    assert payload[|header|..] == body;
    if AggregationPacket(payload, |header|) == Some(out) {
      var nals, tail := AcceptedIsAggregate(payload, |header|);
      assert Carries(body, nals, tail);
    }
    if nals, tail :| Carries(body, nals, tail) && out == Stream(nals) {
      AggregateYields(header, nals, tail);
    }
  }

  /** The direction the sender relies on. */
  lemma AggregateYields(header: seq<Byte>, nals: seq<seq<Byte>>, tail: seq<Byte>)
    requires nals != [] && AllSized(nals) && |tail| <= 1
    ensures AggregationPacket(header + (Aggregate(nals) + tail), |header|) == Some(Stream(nals))
  {
    DeaggregateInverts(header, nals, tail);
    assert |Aggregate(nals)| > 0 && |Stream(nals)| > 0;
  }

  // ---------------------------------------------------------------- fragmentation

  /** A fragmentation unit after its headers are read; NotOne when it is short or both first and last. */
  datatype Fragment =
    | NotOne
    | Fragment(start: bool, end: bool, nalHeader: seq<Byte>, body: seq<Byte>)

  /** What a packet yields, and the unfinished NAL unit kept for the next one. */
  datatype FuStep = FuStep(out: Option<seq<Byte>>, fu: Option<seq<Byte>>)

  function Reassemble(fu: Option<seq<Byte>>, f: Fragment): FuStep {
    if f.NotOne? then FuStep(None, None)
    else if f.start then FuStep(None, Some(START_CODE + f.nalHeader + f.body))
    else if fu.None? then FuStep(None, None)
    else if f.end then FuStep(Some(fu.value + f.body), None)
    else FuStep(None, Some(fu.value + f.body))
  }

  /** A NAL unit cut into pieces, first and last marked. */
  function Fragments(nalHeader: seq<Byte>, bodies: seq<seq<Byte>>): seq<Fragment> {
    seq(|bodies|, i requires 0 <= i < |bodies| => Fragment(i == 0, i == |bodies| - 1, nalHeader, bodies[i]))
  }

  /** What the first `n` pieces of a NAL unit leave behind. */
  function ReassembleAll(fu: Option<seq<Byte>>, fs: seq<Fragment>): FuStep {
    if fs == [] then FuStep(None, fu)
    else Reassemble(ReassembleAll(fu, fs[..|fs| - 1]).fu, fs[|fs| - 1])
  }

  lemma {:induction false} UnfinishedUnit(
    fu: Option<seq<Byte>>, nalHeader: seq<Byte>, bodies: seq<seq<Byte>>, n: nat)
    requires 0 < n < |bodies|
    ensures ReassembleAll(fu, Fragments(nalHeader, bodies)[..n]) ==
            FuStep(None, Some(START_CODE + nalHeader + Concat(bodies[..n])))
  {
    var fs := Fragments(nalHeader, bodies);
    assert fs[..n][..n - 1] == fs[..n - 1];
    assert bodies[..n] == bodies[..n - 1] + [bodies[n - 1]];
    ConcatSnoc(bodies[..n - 1], bodies[n - 1]);
    if n == 1 {
      assert Concat(bodies[..0]) == [] && [] + bodies[0] == bodies[0];
    } else {
      UnfinishedUnit(fu, nalHeader, bodies, n - 1);
      var got := START_CODE + nalHeader + Concat(bodies[..n - 1]);
      assert got + bodies[n - 1] == START_CODE + nalHeader + (Concat(bodies[..n - 1]) + bodies[n - 1]);
    }
  }

  /** Cutting a NAL unit into two or more pieces and feeding them in order, whatever was unfinished before,
      yields nothing until the last piece and then the start code and the original unit. */
  lemma FragmentsRejoin(fu: Option<seq<Byte>>, nalHeader: seq<Byte>, bodies: seq<seq<Byte>>, n: nat)
    requires 2 <= |bodies| && 0 < n <= |bodies|
    ensures var r := ReassembleAll(fu, Fragments(nalHeader, bodies)[..n]);
            if n < |bodies| then r.out == None && r.fu.Some?
            else r == FuStep(Some(START_CODE + nalHeader + Concat(bodies)), None)
  {
    var fs := Fragments(nalHeader, bodies);
    if n < |bodies| {
      UnfinishedUnit(fu, nalHeader, bodies, n);
    } else {
      UnfinishedUnit(fu, nalHeader, bodies, n - 1);
      assert fs[..n][..n - 1] == fs[..n - 1];
      assert bodies == bodies[..n - 1] + [bodies[n - 1]];
      ConcatSnoc(bodies[..n - 1], bodies[n - 1]);
      var got := START_CODE + nalHeader + Concat(bodies[..n - 1]);
      assert got + bodies[n - 1] == START_CODE + nalHeader + (Concat(bodies[..n - 1]) + bodies[n - 1]);
    }
  }

  // ---------------------------------------------------------------- any sequence of fragments

  /** Fragments `j` to `n - 1` are a beginning of a NAL unit: the first and no other has the start bit, every one
      could be read, and none after the first has the end bit. */
  ghost predicate OpenUnit(fs: seq<Fragment>, j: nat, n: nat)
    requires n <= |fs|
  {
    && j < n && (forall m :: j <= m < n ==> fs[m].Fragment? && (fs[m].start <==> m == j))
    && (forall m :: j < m < n ==> !fs[m].end)
  }

  function Bodies(fs: seq<Fragment>): seq<seq<Byte>> {
    seq(|fs|, i requires 0 <= i < |fs| => if fs[i].Fragment? then fs[i].body else [])
  }

  /** The start code, the header the first fragment rebuilds, and the pieces in order. */
  function UnitOf(fs: seq<Fragment>, j: nat, n: nat): seq<Byte>
    requires j < n <= |fs| && fs[j].Fragment?
  {
    START_CODE + fs[j].nalHeader + Concat(Bodies(fs[j..n]))
  }

  lemma BodiesSnoc(fs: seq<Fragment>, j: nat, n: nat)
    requires j < n < |fs| && fs[j].Fragment? && fs[n].Fragment?
    ensures UnitOf(fs, j, n + 1) == UnitOf(fs, j, n) + fs[n].body
  {
    hide Concat;
    assert fs[j..n + 1] == fs[j..n] + [fs[n]];
    OneMoreBody(fs[j..n], fs[n]);
    ConcatSnoc(Bodies(fs[j..n]), fs[n].body);
    JoinThree(START_CODE + fs[j].nalHeader, Concat(Bodies(fs[j..n])), fs[n].body);
  }

  lemma OneMoreBody(fs: seq<Fragment>, f: Fragment)
    requires f.Fragment?
    ensures Bodies(fs + [f]) == Bodies(fs) + [f.body]
  {}

  lemma JoinThree(a: seq<Byte>, b: seq<Byte>, c: seq<Byte>)
    ensures a + (b + c) == a + b + c
  {}

  lemma FirstBody(fs: seq<Fragment>, j: nat)
    requires j < |fs| && fs[j].Fragment?
    ensures UnitOf(fs, j, j + 1) == START_CODE + fs[j].nalHeader + fs[j].body
  {
    hide Concat, Bodies;
    assert fs[j..j + 1] == [] + [fs[j]];
    OneMoreBody([], fs[j]);
    NoBody();
    ConcatSnoc([], fs[j].body);
    assert [] + fs[j].body == fs[j].body;
  }

  lemma NoBody()
    ensures Bodies([]) == [] && Concat<Byte>([]) == []
  {}

  /** Over any fragments whatsoever, in any order, with any lost: what is kept is exactly the open unit, if there is
      one, and nothing else. */
  lemma {:induction false} KeptIff(fs: seq<Fragment>, n: nat)
    requires n <= |fs|
    ensures var fu := ReassembleAll(None, fs[..n]).fu;
            && (fu.Some? <==> exists j :: OpenUnit(fs, j, n))
            && (forall j :: OpenUnit(fs, j, n) ==> fu == Some(UnitOf(fs, j, n)))
    decreases n
  {
    hide UnitOf, Reassemble;
    if n > 0 {
      KeptIff(fs, n - 1);
      assert fs[..n][..n - 1] == fs[..n - 1];
      KeptNext(fs, n - 1, n);
    }
  }

  lemma KeptNext(fs: seq<Fragment>, n: nat, m: nat)
    requires n < |fs| && m == n + 1
    requires var fu := ReassembleAll(None, fs[..n]).fu;
             && (fu.Some? <==> exists j :: OpenUnit(fs, j, n))
             && (forall j :: OpenUnit(fs, j, n) ==> fu == Some(UnitOf(fs, j, n)))
    ensures var fu := Reassemble(ReassembleAll(None, fs[..n]).fu, fs[n]).fu;
            && (fu.Some? <==> exists j :: OpenUnit(fs, j, m))
            && (forall j :: OpenUnit(fs, j, m) ==> fu == Some(UnitOf(fs, j, m)))
  {
    hide UnitOf, ReassembleAll;
    var before := ReassembleAll(None, fs[..n]).fu;
    forall j: nat | OpenUnit(fs, j, m)
      ensures Reassemble(before, fs[n]).fu == Some(UnitOf(fs, j, m))
    {
      assert fs[n].Fragment?;
      if j == n {
        FirstBody(fs, n);
      } else {
        assert OpenUnit(fs, j, n);
        BodiesSnoc(fs, j, n);
      }
    }
    if Reassemble(before, fs[n]).fu.Some? {
      if fs[n].start {
        assert OpenUnit(fs, n, m);
      } else {
        var j :| OpenUnit(fs, j, n);
        assert OpenUnit(fs, j, m);
      }
    }
  }

  /** And a NAL unit comes out with fragment `n` exactly when that is the end of the open unit: an end without its
      start, or after a fragment that could not be read, yields nothing. */
  lemma FragmentYieldsIff(fs: seq<Fragment>, n: nat, out: seq<Byte>)
    requires n < |fs|
    ensures ReassembleAll(None, fs[..n + 1]).out == Some(out) <==>
            fs[n].Fragment? && fs[n].end && !fs[n].start
            && exists j :: OpenUnit(fs, j, n) && out == UnitOf(fs, j, n + 1)
  {
    hide UnitOf, OpenUnit;
    KeptIff(fs, n);
    assert fs[..n + 1][..n] == fs[..n];
    forall j: nat | OpenUnit(fs, j, n) && fs[n].Fragment?
      ensures j < n && fs[j].Fragment? && UnitOf(fs, j, n + 1) == UnitOf(fs, j, n) + fs[n].body
    {
      OpenUnitBegins(fs, j, n);
      BodiesSnoc(fs, j, n);
    }
  }

  lemma OpenUnitBegins(fs: seq<Fragment>, j: nat, n: nat)
    requires n <= |fs| && OpenUnit(fs, j, n)
    ensures j < n && fs[j].Fragment?
  {}
}

/**
  Annex-B start codes: the scan of stream/src/media/rtp.rs that looks for a NAL unit satisfying a predicate,
  and what it finds on the byte streams the depacketizers write.
*/
module StartCodes {
  import opened Wrappers
  import opened Bytes

  const START_CODE: seq<Byte> := [0, 0, 0, 1]

  /** A start code found in a buffer. */
  datatype Found = Found(pos: nat, len: nat)

  predicate LongCodeAt(data: seq<Byte>, pos: nat) {
    pos + 4 <= |data| && data[pos] == 0 && data[pos + 1] == 0 && data[pos + 2] == 0 && data[pos + 3] == 1
  }

  predicate ShortCodeAt(data: seq<Byte>, pos: nat) {
    pos + 3 <= |data| && data[pos] == 0 && data[pos + 1] == 0 && data[pos + 2] == 1
  }

  /** The first position at or after `from` where a start code begins, the four-byte form preferred. */
  function FindStartCode(data: seq<Byte>, from: nat): (r: Option<Found>)
    ensures r.Some? ==> from <= r.value.pos && r.value.pos + r.value.len <= |data| && r.value.len > 0
    decreases |data| - from
  {
    if from + 3 > |data| then None
    else if LongCodeAt(data, from) then Some(Found(from, 4))
    else if ShortCodeAt(data, from) then Some(Found(from, 3))
    else FindStartCode(data, from + 1)
  }

  method ScanStartCode(data: seq<Byte>, from: nat) returns (r: Option<Found>)
    ensures r == FindStartCode(data, from)
  {
    var pos := from;
    while pos + 3 <= |data|
      invariant FindStartCode(data, pos) == FindStartCode(data, from)
    {
      if LongCodeAt(data, pos) {
        return Some(Found(pos, 4));
      }
      if ShortCodeAt(data, pos) {
        return Some(Found(pos, 3));
      }
      pos := pos + 1;
    }
    return None;
  }

  /** Whether some NAL unit beginning at or after `nalStart` satisfies the predicate. */
  function AnyNalFrom(data: seq<Byte>, nalStart: nat, pred: seq<Byte> -> bool): bool
    decreases |data| - nalStart
  {
    if nalStart >= |data| then false
    else
      match FindStartCode(data, nalStart)
      case Some(f) =>
        (f.pos > nalStart && pred(data[nalStart..f.pos])) || AnyNalFrom(data, f.pos + f.len, pred)
      case None => pred(data[nalStart..])
  }

  function AccessUnitHasNal(data: seq<Byte>, pred: seq<Byte> -> bool): bool {
    match FindStartCode(data, 0)
    case Some(f) => AnyNalFrom(data, f.pos + f.len, pred)
    case None => data != [] && pred(data)
  }

  method ScanAccessUnit(data: seq<Byte>, pred: seq<Byte> -> bool) returns (r: bool)
    ensures r == AccessUnitHasNal(data, pred)
  {
    var first := ScanStartCode(data, 0);
    if first.None? {
      return data != [] && pred(data);
    }
    var nalStart := first.value.pos + first.value.len;
    while nalStart < |data|
      invariant AnyNalFrom(data, nalStart, pred) == AccessUnitHasNal(data, pred)
      decreases |data| - nalStart
    {
      var next := ScanStartCode(data, nalStart);
      match next
      case Some(f) =>
        if f.pos > nalStart && pred(data[nalStart..f.pos]) {
          return true;
        }
        nalStart := f.pos + f.len;
      case None =>
        return pred(data[nalStart..]);
    }
    return false;
  }

  // ---------------------------------------------------------------- the streams the depacketizers write

  /** Each NAL unit behind a four-byte start code. */
  function Stream(nals: seq<seq<Byte>>): seq<Byte> {
    if nals == [] then [] else START_CODE + nals[0] + Stream(nals[1..])
  }

  lemma {:induction false} StreamSplit(xs: seq<seq<Byte>>, ys: seq<seq<Byte>>)
    ensures Stream(xs + ys) == Stream(xs) + Stream(ys)
  {
    if xs == [] {
      assert xs + ys == ys;
    } else {
      StreamSplit(xs[1..], ys);
      assert (xs + ys)[1..] == xs[1..] + ys;
    }
  }

  /** How many bytes the start code at `p` has: four for 00 00 00 01, three for 00 00 01, none when there is none. */
  function CodeLength(data: seq<Byte>, p: nat): nat {
    if p + 4 <= |data| && data[p..p + 4] == [0, 0, 0, 1] then 4
    else if p + 3 <= |data| && data[p..p + 3] == [0, 0, 1] then 3
    else 0
  }

  lemma CodesByLength(data: seq<Byte>, p: nat)
    ensures CodeLength(data, p) == if LongCodeAt(data, p) then 4 else if ShortCodeAt(data, p) then 3 else 0
  {
    if p + 4 <= |data| { assert data[p..p + 4] == [data[p], data[p + 1], data[p + 2], data[p + 3]]; }
    if p + 3 <= |data| { assert data[p..p + 3] == [data[p], data[p + 1], data[p + 2]]; }
  }

  /** Emulation prevention: a NAL unit contains no 00 00 01. */
  predicate EmulationFree(nal: seq<Byte>) {
    forall k :: 0 <= k < |nal| ==> CodeLength(nal, k) == 0
  }

  lemma CodeInSlice(data: seq<Byte>, from: nat, to: nat, pos: nat)
    requires from <= pos < to <= |data| && EmulationFree(data[from..to]) && (to == |data| || LongCodeAt(data, to))
    ensures !LongCodeAt(data, pos) && !ShortCodeAt(data, pos)
  {
    assert CodeLength(data[from..to], pos - from) == 0;
    CodesByLength(data[from..to], pos - from);
  }

  /** Behind an emulation-free NAL unit the scan stops exactly at the next start code. */
  lemma {:induction false} ScanPassesNal(data: seq<Byte>, nalStart: nat, nalEnd: nat, pos: nat)
    requires nalStart <= pos <= nalEnd <= |data| && EmulationFree(data[nalStart..nalEnd])
    requires nalEnd == |data| || LongCodeAt(data, nalEnd)
    ensures FindStartCode(data, pos) == if nalEnd == |data| then None else Some(Found(nalEnd, 4))
    decreases nalEnd - pos
  {
    if pos < nalEnd {
      CodeInSlice(data, nalStart, nalEnd, pos);
      ScanPassesNal(data, nalStart, nalEnd, pos + 1);
    }
  }

  lemma ScanStep(data: seq<Byte>, s: nat, e: nat, pred: seq<Byte> -> bool)
    requires s <= e <= |data| && EmulationFree(data[s..e]) && (e == |data| || LongCodeAt(data, e))
    ensures AnyNalFrom(data, s, pred) <==>
            (s < e && pred(data[s..e])) || (e < |data| && AnyNalFrom(data, e + 4, pred))
  {
    if s < |data| {
      ScanPassesNal(data, s, e, s);
      assert data[s..] == data[s..|data|];
    }
  }

  lemma StreamAfterNal(before: seq<Byte>, nal: seq<Byte>, rest: seq<seq<Byte>>)
    ensures var data := before + nal + Stream(rest);
            var e := |before| + |nal|;
            data[|before|..e] == nal && if rest == [] then e == |data| else
              LongCodeAt(data, e) && data == (before + nal + START_CODE) + rest[0] + Stream(rest[1..])
  {}

  lemma {:induction false} AnyNalOfStream(
    before: seq<Byte>, nal: seq<Byte>, rest: seq<seq<Byte>>, pred: seq<Byte> -> bool)
    requires EmulationFree(nal) && forall n :: n in rest ==> EmulationFree(n)
    ensures AnyNalFrom(before + nal + Stream(rest), |before|, pred) <==>
            (exists n :: n in [nal] + rest && n != [] && pred(n))
    decreases |rest|
  {
    hide EmulationFree, Stream, AnyNalFrom, LongCodeAt;
    var data := before + nal + Stream(rest);
    StreamAfterNal(before, nal, rest);
    ScanStep(data, |before|, |before| + |nal|, pred);
    assert forall n :: n in [nal] + rest <==> n == nal || n in rest;
    if rest != [] {
      AnyNalOfStream(before + nal + START_CODE, rest[0], rest[1..], pred);
      assert [rest[0]] + rest[1..] == rest;
    }
  }

  /** On any stream of emulation-free NAL units the scan answers exactly whether a non-empty one of them
      satisfies the predicate. */
  lemma ScanIsExact(nals: seq<seq<Byte>>, pred: seq<Byte> -> bool)
    requires forall n :: n in nals ==> EmulationFree(n)
    ensures AccessUnitHasNal(Stream(nals), pred) <==> exists n :: n in nals && n != [] && pred(n)
  {
    if nals != [] {
      var data := Stream(nals);
      assert LongCodeAt(data, 0);
      AnyNalOfStream(START_CODE, nals[0], nals[1..], pred);
      assert [nals[0]] + nals[1..] == nals;
    }
  }

  /** What the search finds is the first place where a start code begins, with four bytes when it has four. */
  lemma {:induction false} FindIsFirst(data: seq<Byte>, from: nat)
    ensures var r := FindStartCode(data, from);
            && (r.None? ==> forall p :: from <= p ==> CodeLength(data, p) == 0)
            && (r.Some? ==>
                  && (forall p :: from <= p < r.value.pos ==> CodeLength(data, p) == 0)
                  && CodeLength(data, r.value.pos) == r.value.len)
    decreases |data| - from
  {
    if from + 3 <= |data| {
      CodesByLength(data, from);
      FindIsFirst(data, from + 1);
    }
  }

  /** The bytes from `b` to `e` are a NAL unit of the buffer: a start code ends at `b`, and the next one, or the end of
      the buffer, is at `e`. */
  ghost predicate NalAt(data: seq<Byte>, b: nat, e: nat) {
    && b < e <= |data| && (exists p: nat :: CodeEndsAt(data, p, b))
    && (forall p :: b <= p < e ==> CodeLength(data, p) == 0) && (e == |data| || CodeLength(data, e) > 0)
  }

  ghost predicate CodeEndsAt(data: seq<Byte>, p: nat, b: nat) {
    CodeLength(data, p) > 0 && b == p + CodeLength(data, p)
  }

  ghost predicate SomeNal(data: seq<Byte>, from: nat, pred: seq<Byte> -> bool) {
    exists b: nat, e: nat :: from <= b && NalAt(data, b, e) && pred(data[b..e])
  }

  /** In any buffer with a start code in it, whatever mixture of long and short ones, the scan answers exactly whether
      a NAL unit between them satisfies the predicate; a buffer without any is taken as one NAL unit. */
  lemma ScanIff(data: seq<Byte>, pred: seq<Byte> -> bool)
    ensures AccessUnitHasNal(data, pred) <==>
            if exists p: nat :: CodeLength(data, p) > 0
            then exists b: nat, e: nat :: NalAt(data, b, e) && pred(data[b..e])
            else data != [] && pred(data)
  {
    hide CodeLength, NalAt, FindStartCode, AnyNalFrom;
    FindIsFirst(data, 0);
    match FindStartCode(data, 0)
    case None =>
    case Some(f) =>
      assert CodeEndsAt(data, f.pos, f.pos + f.len);
      NalsFrom(data, f.pos, f.pos + f.len, pred);
      forall b: nat, e: nat | NalAt(data, b, e) ensures f.pos + f.len <= b { NothingBefore(data, f.pos, b, e); }
  }

  /** No NAL unit begins before the end of the first start code. */
  lemma NothingBefore(data: seq<Byte>, pos: nat, b: nat, e: nat)
    requires CodeLength(data, pos) > 0 && (forall p :: 0 <= p < pos ==> CodeLength(data, p) == 0) && NalAt(data, b, e)
    ensures pos + CodeLength(data, pos) <= b
  {
    hide CodeLength;
    var p: nat :| CodeEndsAt(data, p, b);
    OneCodeAtATime(data, pos, p);
  }

  /** Two start codes do not overlap, but for the short one at the end of a long one. */
  lemma OneCodeAtATime(data: seq<Byte>, p: nat, q: nat)
    requires p <= q && CodeLength(data, p) > 0 && CodeLength(data, q) > 0
    ensures p + CodeLength(data, p) <= q + CodeLength(data, q)
    ensures q < p + CodeLength(data, p) ==> p + CodeLength(data, p) == q + CodeLength(data, q)
  {
    CodesByLength(data, p);
    CodesByLength(data, q);
  }

  /** Behind a start code the next NAL unit begins at once, or behind a later start code. */
  lemma NextNal(data: seq<Byte>, code: nat, start: nat, b: nat, e: nat)
    requires CodeEndsAt(data, code, start) && start <= b && NalAt(data, b, e)
    ensures b == start || exists p: nat :: start <= p && CodeEndsAt(data, p, b)
  {
    hide CodeLength;
    var p: nat :| CodeEndsAt(data, p, b);
    if p < start {
      if p <= code { OneCodeAtATime(data, p, code); } else { OneCodeAtATime(data, code, p); }
    }
  }

  lemma {:induction false} NalsFrom(data: seq<Byte>, code: nat, start: nat, pred: seq<Byte> -> bool)
    requires CodeEndsAt(data, code, start)
    ensures AnyNalFrom(data, start, pred) <==> SomeNal(data, start, pred)
    decreases |data| - start
  {
    hide CodeLength, FindStartCode;
    if start < |data| {
      FindIsFirst(data, start);
      match FindStartCode(data, start)
      case None =>
        LastNal(data, code, start, pred);
      case Some(f) =>
        NalsFrom(data, f.pos, f.pos + f.len, pred);
        OneNalFurther(data, code, start, f.pos, pred);
    }
  }

  lemma LastNal(data: seq<Byte>, code: nat, start: nat, pred: seq<Byte> -> bool)
    requires CodeEndsAt(data, code, start) && start < |data|
    requires forall p :: start <= p ==> CodeLength(data, p) == 0
    ensures SomeNal(data, start, pred) <==> pred(data[start..])
  {
    hide CodeLength;
    assert data[start..] == data[start..|data|] && NalAt(data, start, |data|);
    forall b: nat, e: nat | start <= b && NalAt(data, b, e) ensures b == start && e == |data| {
      NextNal(data, code, start, b, e);
    }
  }

  /** The NAL units behind one start code are the one up to the next start code and those behind that. */
  lemma OneNalFurther(data: seq<Byte>, code: nat, start: nat, pos: nat, pred: seq<Byte> -> bool)
    requires CodeEndsAt(data, code, start) && start <= pos < |data| && CodeLength(data, pos) > 0
    requires forall p :: start <= p < pos ==> CodeLength(data, p) == 0
    ensures SomeNal(data, start, pred) <==>
            (start < pos && pred(data[start..pos])) || SomeNal(data, pos + CodeLength(data, pos), pred)
  {
    hide CodeLength;
    var next := pos + CodeLength(data, pos);
    if start < pos { assert NalAt(data, start, pos); }
    forall b: nat, e: nat | start <= b && NalAt(data, b, e) ensures (b == start < pos && e == pos) || next <= b {
      NextNal(data, code, start, b, e);
      if b != start {
        var p: nat :| start <= p && CodeEndsAt(data, p, b);
        OneCodeAtATime(data, pos, p);
      }
    }
  }

  // ---------------------------------------------------------------- keyframes

  /** An H.264 IDR slice: NAL unit type 5, the low five bits of the header. */
  predicate IsH264Keyframe(nal: seq<Byte>) {
    nal != [] && nal[0] % 32 == 5
  }

  /** An H.265 IDR or CRA slice: NAL unit type 19, 20 or 21, bits 1 to 6 of the first header byte. */
  predicate IsH265Keyframe(nal: seq<Byte>) {
    |nal| >= 2 && nal[0] / 2 % 64 in {19, 20, 21}
  }

  /** By the bytes that occur: the first byte of an H.264 IDR slice, under any nal_ref_idc and forbidden bit; those
      of an H.265 IDR_W_RADL, IDR_N_LP or CRA slice, under any layer. Parameter sets and other slices are none. */
  lemma KeyframeBytes(nal: seq<Byte>)
    requires |nal| >= 2
    ensures IsH264Keyframe(nal) <==> nal[0] in {0x05, 0x25, 0x45, 0x65, 0x85, 0xa5, 0xc5, 0xe5}
    ensures IsH265Keyframe(nal) <==>
            nal[0] in {0x26, 0x27, 0x28, 0x29, 0x2a, 0x2b, 0xa6, 0xa7, 0xa8, 0xa9, 0xaa, 0xab}
    ensures IsH264Keyframe([nal[0]]) == IsH264Keyframe(nal) && !IsH265Keyframe([nal[0]])
    ensures !IsH264Keyframe([]) && !IsH265Keyframe([])
  {
    var b: int := nal[0];
    assert b % 32 == 5 <==> b == 5 || b == 37 || b == 69 || b == 101 || b == 133 || b == 165 || b == 197 || b == 229;
  }
}

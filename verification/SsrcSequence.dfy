/**
  The cyclic SSRC allocator of session/src/storage/ssrc_sequence.rs, and the decimal form of an SSRC with the
  filter that unknown streams must pass (session/src/service/hook_serv.rs).
*/
module SsrcSequences {
  import opened Wrappers

  const SSRC_SEQUENCE_MAX: nat := 9999
  const SSRC_CODE_LENGTH: int := 4

  datatype SsrcKind = Realtime | History

  function Marker(kind: SsrcKind): char {
    match kind { case Realtime => '0' case History => '1' }
  }

  // ---------------------------------------------------------------- decimal digits

  predicate IsDigit(c: char) { '0' <= c <= '9' }

  predicate AllDigits(s: string) { forall i :: 0 <= i < |s| ==> IsDigit(s[i]) }

  function DigitValue(c: char): nat
    requires IsDigit(c)
  {
    c as int - '0' as int
  }

  function DigitOf(n: nat): (c: char)
    ensures IsDigit(c)
  {
    '0' + (n % 10) as char
  }

  /** The value of a string of decimal digits. */
  function Parse(s: string): nat
    requires AllDigits(s)
  {
    if s == [] then 0 else Parse(s[..|s| - 1]) * 10 + DigitValue(s[|s| - 1])
  }

  /** The last `width` decimal digits, zero-padded. */
  function Format(n: nat, width: nat): (s: string)
    ensures |s| == width && AllDigits(s)
  {
    if width == 0 then [] else Format(n / 10, width - 1) + [DigitOf(n)]
  }

  function Pow10(k: nat): nat { if k == 0 then 1 else 10 * Pow10(k - 1) }

  lemma {:induction false} FormatParsesBack(n: nat, width: nat)
    requires n < Pow10(width)
    ensures Parse(Format(n, width)) == n
  {
    if width > 0 {
      FormatParsesBack(n / 10, width - 1);
      var s := Format(n, width);
      assert s[..width - 1] == Format(n / 10, width - 1);
    }
  }

  lemma {:induction false} ParseFormatsBack(s: string)
    requires AllDigits(s)
    ensures Parse(s) < Pow10(|s|) && Format(Parse(s), |s|) == s
  {
    if s != [] {
      var front := s[..|s| - 1];
      ParseFormatsBack(front);
      assert s == front + [s[|s| - 1]];
      DigitReadBack(s[|s| - 1], Parse(front));
    }
  }

  lemma DigitReadBack(c: char, n: nat)
    requires IsDigit(c)
    ensures var v := n * 10 + DigitValue(c); v / 10 == n && DigitOf(v) == c
  {}

  lemma {:induction false} ParseAppend(s: string, t: string)
    requires AllDigits(s) && AllDigits(t)
    ensures AllDigits(s + t) && Parse(s + t) == Parse(s) * Pow10(|t|) + Parse(t)
  {
    if t == [] {
      assert s + t == s;
    } else {
      var front, c := t[..|t| - 1], t[|t| - 1];
      ParseAppend(s, front);
      assert (s + t)[..|s + t| - 1] == s + front && (s + t)[|s + t| - 1] == c;
      ShiftLeft(Parse(s), Pow10(|front|), Parse(front), DigitValue(c));
    }
  }

  lemma ShiftLeft(a: nat, p: nat, b: nat, c: nat)
    ensures (a * p + b) * 10 + c == a * (10 * p) + (b * 10 + c)
  {}

  // ---------------------------------------------------------------- prefixes and numeric ranges

  predicate ValidDomain(domain: string) {
    |domain| == 20 && AllDigits(domain)
  }

  function Prefix(domain: string, kind: SsrcKind): Result<string, string> {
    if !ValidDomain(domain) then Err("Invalid session domain_id") else Ok([Marker(kind)] + domain[3..8])
  }

  /** A prefix is the kind's digit and digits 4 to 8 of the domain, which must have 20 digits. */
  lemma PrefixOfDomain(domain: string, kind: SsrcKind)
    ensures Prefix(domain, kind).Ok? <==> |domain| == 20 && AllDigits(domain)
    ensures Prefix(domain, kind).Ok? ==>
              var p := Prefix(domain, kind).value;
              && |p| == 6 && p[0] == (if kind.Realtime? then '0' else '1')
              && forall i :: 1 <= i < 6 ==> p[i] == domain[i + 2]
  {}

  function Ssrc(prefix: string, value: nat): string {
    prefix + Format(value, 4)
  }

  /** What an unknown stream's SSRC must look like to be taken seriously. */
  predicate PassesFilter(ssrc: nat) {
    ssrc < 2_000_000_000 && ssrc % 10_000 != 0
  }

  /** Every allocated SSRC has ten digits, fits 32 bits, is reproduced by ten-digit formatting, carries its
      kind in its range, and passes the unknown-stream filter. */
  lemma AllocatedSsrcIsWellFormed(domain: string, kind: SsrcKind, value: nat)
    requires ValidDomain(domain) && 1 <= value <= SSRC_SEQUENCE_MAX
    ensures var prefix := Prefix(domain, kind).value;
            var s := Ssrc(prefix, value);
            && AllDigits(s) && |s| == 10 && Parse(s) < 0x1_0000_0000 && Format(Parse(s), 10) == s
            && prefix <= Format(Parse(s), 10) && PassesFilter(Parse(s)) && Parse(s) % 10_000 == value
            && (kind.Realtime? <==> Parse(s) < 1_000_000_000)
  {
    hide Parse, Format;
    var prefix := Prefix(domain, kind).value;
    PartsOfSsrc(domain, kind, value);
    ParseFormatsBack(Ssrc(prefix, value));
    NumberOfSsrc(if kind.Realtime? then 0 else 1, Parse(domain[3..8]), value);
  }

  /** The number is made of the kind's digit, five digits of the domain and four of the value. */
  lemma PartsOfSsrc(domain: string, kind: SsrcKind, value: nat)
    requires ValidDomain(domain) && 1 <= value <= SSRC_SEQUENCE_MAX
    ensures var s := Ssrc(Prefix(domain, kind).value, value);
            var k := if kind.Realtime? then 0 else 1;
            && AllDigits(s) && |s| == 10 && AllDigits(domain[3..8]) && Parse(domain[3..8]) < 100_000
            && Parse(s) == (k * 100_000 + Parse(domain[3..8])) * 10_000 + value
            && Prefix(domain, kind).value <= s
  {
    hide Parse, Format, Pow10;
    var middle := domain[3..8];
    Powers();
    ParseMarker(kind);
    assert AllDigits(middle);
    ParseAppend([Marker(kind)], middle);
    ParseAppend([Marker(kind)] + middle, Format(value, 4));
    ParseFormatsBack(middle);
    FormatParsesBack(value, 4);
  }

  lemma NumberOfSsrc(k: nat, middle: nat, value: nat)
    requires k <= 1 && middle < 100_000 && 1 <= value <= SSRC_SEQUENCE_MAX
    ensures var n := (k * 100_000 + middle) * 10_000 + value;
            n < 0x1_0000_0000 && PassesFilter(n) && n % 10_000 == value && (k == 0 <==> n < 1_000_000_000)
  {}

  /** The filter, read off the ten digits: the first is 0 or 1, and the last four are not all 0. */
  lemma FilterReadsDigits(s: string)
    requires |s| == 10 && AllDigits(s)
    ensures PassesFilter(Parse(s)) <==> s[0] in {'0', '1'} && s[6..] != "0000"
  {
    hide Parse, Pow10, Format;
    var first, middle, last := s[..1], s[1..6], s[6..];
    ParseAppend(middle, last);
    ParseAppend(first, middle + last);
    assert s == first + (middle + last);
    Powers();
    ParseFormatsBack(middle);
    ParseFormatsBack(last);
    ParseDigit(s[0]);
    ParseZeros();
    assert first == [s[0]] && Pow10(9) == Pow10(|middle + last|);
    FilterParts(DigitValue(s[0]), Parse(middle), Parse(last));
    ParseFormatsBack("0000");
  }

  lemma FilterParts(first: nat, middle: nat, last: nat)
    requires first < 10 && middle < 100_000 && last < 10_000
    ensures PassesFilter(first * 1_000_000_000 + (middle * 10_000 + last)) <==> first <= 1 && last != 0
  {
    assert (first * 1_000_000_000 + (middle * 10_000 + last)) % 10_000 == last;
  }

  lemma ParseDigit(c: char)
    requires IsDigit(c)
    ensures AllDigits([c]) && Parse([c]) == DigitValue(c)
  {
    assert [c][..0] == [];
  }

  lemma ParseZeros()
    ensures AllDigits("0000") && Parse("0000") == 0
  {
    assert "0000"[..3] == "000" && "000"[..2] == "00" && "00"[..1] == "0" && "0"[..0] == "";
  }

  lemma Powers()
    ensures Pow10(4) == 10_000 && Pow10(5) == 100_000 && Pow10(9) == 1_000_000_000
  {
    assert Pow10(1) == 10 && Pow10(2) == 100 && Pow10(3) == 1000;
    assert Pow10(6) == 1_000_000 && Pow10(7) == 10_000_000 && Pow10(8) == 100_000_000;
  }

  lemma ParseMarker(kind: SsrcKind)
    ensures AllDigits([Marker(kind)]) && Parse([Marker(kind)]) == if kind.Realtime? then 0 else 1
  {
    var s := [Marker(kind)];
    assert s[..0] == [];
  }

  /** Two different allocations never look alike. */
  lemma SsrcsAreDistinct(domain: string, k1: SsrcKind, v1: nat, k2: SsrcKind, v2: nat)
    requires ValidDomain(domain) && 1 <= v1 <= SSRC_SEQUENCE_MAX && 1 <= v2 <= SSRC_SEQUENCE_MAX
    requires Ssrc(Prefix(domain, k1).value, v1) == Ssrc(Prefix(domain, k2).value, v2)
    ensures k1 == k2 && v1 == v2
  {
    hide Parse, Format;
    AllocatedSsrcIsWellFormed(domain, k1, v1);
    AllocatedSsrcIsWellFormed(domain, k2, v2);
  }

  // ---------------------------------------------------------------- the cyclic counter

  /** A row of C_SEQ_CODE. */
  datatype SequenceRow = SequenceRow(
    initValue: nat, currentValue: nat, incrementValue: int, prefixCode: Option<string>, codeLength: Option<int>)

  predicate ValidRow(row: SequenceRow, name: string) {
    && row.initValue == 1 && 1 <= row.currentValue <= SSRC_SEQUENCE_MAX && row.incrementValue == 1
    && row.prefixCode == Some(name) && row.codeLength == Some(SSRC_CODE_LENGTH)
  }

  /** The k-th value of the cycle 1..9999 from `v` on. */
  function Cyclic(v: nat, k: nat): (w: nat)
    requires 1 <= v
    ensures 1 <= w <= SSRC_SEQUENCE_MAX
  {
    (v - 1 + k) % 9999 + 1
  }

  lemma CyclicNext(v: nat, k: nat)
    requires 1 <= v
    ensures Cyclic(v, k + 1) == if Cyclic(v, k) == SSRC_SEQUENCE_MAX then 1 else Cyclic(v, k) + 1
  {}

  lemma CyclicStart(v: nat)
    requires 1 <= v <= SSRC_SEQUENCE_MAX
    ensures Cyclic(v, 0) == v && Cyclic(v, SSRC_SEQUENCE_MAX) == v
  {}

  /** 9999 probes in a row visit every value, and none of them twice. */
  lemma CycleIsComplete(v: nat, w: nat) returns (k: nat)
    requires 1 <= v <= SSRC_SEQUENCE_MAX && 1 <= w <= SSRC_SEQUENCE_MAX
    ensures k < SSRC_SEQUENCE_MAX && Cyclic(v, k) == w
    ensures forall j :: 0 <= j < SSRC_SEQUENCE_MAX && Cyclic(v, j) == w ==> j == k
  {
    k := if w >= v then w - v else w + 9999 - v;
  }

  /** The domain is valid and its counter row exists with the expected metadata. */
  predicate Usable(rows: map<string, SequenceRow>, domain: string, kind: SsrcKind) {
    ValidDomain(domain) && UsableRow(rows, Prefix(domain, kind).value)
  }

  class SequenceTable {
    var rows: map<string, SequenceRow>

    constructor (rows: map<string, SequenceRow>)
      ensures this.rows == rows
    {
      this.rows := rows;
    }

    /** One transaction: reads the counter, checks its row and advances it round the cycle. */
    method TakeNextValue(name: string) returns (r: Result<nat, string>)
      modifies this
      ensures r.Ok? <==> UsableRow(old(rows), name)
      ensures r.Err? ==> rows == old(rows)
      ensures r.Ok? ==>
                var v := old(rows)[name].currentValue;
                r.value == Cyclic(v, 0) && rows == Advanced(old(rows), name, v, 1)
    {
      hide Cyclic;
      if name !in rows {
        return Err("row is missing");
      }
      var row := rows[name];
      if row.initValue != 1 || !(1 <= row.currentValue <= SSRC_SEQUENCE_MAX) || row.incrementValue != 1
         || row.prefixCode != Some(name) || row.codeLength != Some(SSRC_CODE_LENGTH) {
        return Err("metadata is incompatible");
      }
      CyclicStart(row.currentValue);
      CyclicNext(row.currentValue, 0);
      var next := if row.currentValue == SSRC_SEQUENCE_MAX then row.initValue else row.currentValue + 1;
      rows := rows[name := row.(currentValue := next)];
      return Ok(row.currentValue);
    }

    /** The first inactive SSRC from the counter on, going round at most once. `active` is the answer of the
        stream cache and the dialog table for a formatted SSRC. */
    method Allocate(domain: string, kind: SsrcKind, active: string -> bool) returns (r: Result<string, string>)
      modifies this
      ensures Usable(old(rows), domain, kind) ==>
                var name := Prefix(domain, kind).value;
                var v := old(rows)[name].currentValue;
                && Usable(rows, domain, kind) && rows.Keys == old(rows).Keys
                && (forall n :: n in rows && n != name ==> rows[n] == old(rows)[n])
                && (match r
                    case Ok(ssrc) =>
                      exists k :: && 0 <= k < SSRC_SEQUENCE_MAX && ssrc == Ssrc(name, Cyclic(v, k)) && !active(ssrc)
                                  && (forall j :: 0 <= j < k ==> active(Ssrc(name, Cyclic(v, j))))
                                  && rows[name] == old(rows)[name].(currentValue := Cyclic(v, k + 1))
                    case Err(_) =>
                      && (forall w :: 1 <= w <= SSRC_SEQUENCE_MAX ==> active(Ssrc(name, w)))
                      && rows == old(rows))
      ensures !Usable(old(rows), domain, kind) ==> r.Err? && rows == old(rows)
    {
      hide Cyclic, Format;
      var prefix := Prefix(domain, kind);
      if prefix.Err? {
        return Err(prefix.error);
      }
      ghost var k: nat;
      r, k := ProbeAll(prefix.value, active);
    }

    /** The loop of the allocation: probes until an SSRC is inactive; `k` is the number of active ones before. */
    method ProbeAll(name: string, active: string -> bool) returns (r: Result<string, string>, ghost k: nat)
      modifies this
      ensures !UsableRow(old(rows), name) ==> r.Err? && rows == old(rows)
      ensures UsableRow(old(rows), name) ==>
                var v := old(rows)[name].currentValue;
                && AllActive(name, v, k, active)
                && (r.Ok? ==> k < SSRC_SEQUENCE_MAX && r.value == Ssrc(name, Cyclic(v, k)) && !active(r.value)
                              && rows == Advanced(old(rows), name, v, k + 1))
                && (r.Err? ==> rows == old(rows) && forall w :: 1 <= w <= SSRC_SEQUENCE_MAX ==> active(Ssrc(name, w)))
    {
      hide Cyclic, Format, Advanced, ValidRow, AllActive;
      ghost var v := if UsableRow(rows, name) then rows[name].currentValue else 1;
      if UsableRow(rows, name) { NotAdvanced(rows, name); }
      NoneActive(name, v, active);
      for i := 0 to SSRC_SEQUENCE_MAX
        invariant UsableRow(old(rows), name) ==> rows == Advanced(old(rows), name, v, i)
        invariant !UsableRow(old(rows), name) ==> rows == old(rows) && i == 0
        invariant AllActive(name, v, i, active)
      {
        if UsableRow(old(rows), name) { OneFurther(old(rows), name, i); }
        assert UsableRow(rows, name) <==> UsableRow(old(rows), name);
        var value := TakeNextValue(name);
        if value.Err? {
          return Err(value.error), 0;
        }
        var ssrc := name + Format(value.value, 4);
        if !active(ssrc) {
          return Ok(ssrc), i;
        }
        OneMoreActive(name, v, i, active);
      }
      OnceAround(old(rows), name, active);
      return Err("SSRC sequence is exhausted"), SSRC_SEQUENCE_MAX;
    }
  }

  predicate UsableRow(rows: map<string, SequenceRow>, name: string) {
    name in rows && ValidRow(rows[name], name)
  }

  /** A row is usable if and only if it is there and says: from 1 by 1, at a value of four digits but 0, for a code of
      four digits behind this very prefix. */
  lemma UsableRowIff(rows: map<string, SequenceRow>, name: string)
    ensures UsableRow(rows, name) <==>
            && name in rows && 1 <= rows[name].currentValue <= 9999
            && rows[name] == SequenceRow(1, rows[name].currentValue, 1, Some(name), Some(4))
  {}

  /** The table after `k` values were taken from the row that started at `v`. */
  ghost function Advanced(rows: map<string, SequenceRow>, name: string, v: nat, k: nat): map<string, SequenceRow>
    requires name in rows && 1 <= v
  {
    rows[name := rows[name].(currentValue := Cyclic(v, k))]
  }

  /** The first `k` values of the cycle from `v` on are in use. */
  ghost predicate AllActive(name: string, v: nat, k: nat, active: string -> bool)
    requires 1 <= v
  {
    forall j :: 0 <= j < k ==> active(Ssrc(name, Cyclic(v, j)))
  }

  lemma NotAdvanced(rows: map<string, SequenceRow>, name: string)
    requires UsableRow(rows, name)
    ensures 1 <= rows[name].currentValue && rows == Advanced(rows, name, rows[name].currentValue, 0)
  {
    CyclicStart(rows[name].currentValue);
  }

  lemma NoneActive(name: string, v: nat, active: string -> bool)
    requires 1 <= v
    ensures AllActive(name, v, 0, active)
  {}

  lemma OneMoreActive(name: string, v: nat, k: nat, active: string -> bool)
    requires 1 <= v && AllActive(name, v, k, active) && active(Ssrc(name, Cyclic(v, k)))
    ensures AllActive(name, v, k + 1, active)
  {
    hide Cyclic, Format;
  }

  /** Taking the next value of the advanced table gives the next value of the cycle. */
  lemma OneFurther(rows: map<string, SequenceRow>, name: string, k: nat)
    requires UsableRow(rows, name)
    ensures var v := rows[name].currentValue;
            && 1 <= v && UsableRow(Advanced(rows, name, v, k), name)
            && Advanced(rows, name, v, k)[name].currentValue == Cyclic(v, k) == Cyclic(Cyclic(v, k), 0)
            && Advanced(Advanced(rows, name, v, k), name, Cyclic(v, k), 1) == Advanced(rows, name, v, k + 1)
  {
    hide Cyclic;
    var v := rows[name].currentValue;
    CyclicStart(Cyclic(v, k));
    CyclicNext(v, k);
    CyclicNext(Cyclic(v, k), 0);
  }

  lemma OnceAround(rows: map<string, SequenceRow>, name: string, active: string -> bool)
    requires UsableRow(rows, name) && 1 <= rows[name].currentValue
    requires AllActive(name, rows[name].currentValue, SSRC_SEQUENCE_MAX, active)
    ensures Advanced(rows, name, rows[name].currentValue, SSRC_SEQUENCE_MAX) == rows
    ensures forall w :: 1 <= w <= SSRC_SEQUENCE_MAX ==> active(Ssrc(name, w))
  {
    hide Cyclic, Format;
    var v := rows[name].currentValue;
    CyclicStart(v);
    forall w | 1 <= w <= SSRC_SEQUENCE_MAX ensures active(Ssrc(name, w)) {
      var k := CycleIsComplete(v, w);
      assert active(Ssrc(name, Cyclic(v, k)));
    }
  }
}

/**
  What a dialog record must look like to be stored and read back (`validate` in
  session/src/storage/dialog_session.rs), column by column, and what counts as a SIP URI there.
*/
module DialogValidation {
  import opened Wrappers
  import opened DialogSessions

  // ---------------------------------------------------------------- SIP URIs

  predicate Only(s: string, drop: char -> bool) {
    forall i :: 0 <= i < |s| ==> drop(s[i])
  }

  lemma {:induction false} TrimStartCuts(s: string, drop: char -> bool) returns (cut: string)
    ensures s == cut + TrimStart(s, drop) && Only(cut, drop)
  {
    if s != [] && drop(s[0]) {
      var rest := TrimStartCuts(s[1..], drop);
      cut := [s[0]] + rest;
      FirstAndRest(s, rest, TrimStart(s[1..], drop));
    } else {
      cut := [];
    }
  }

  lemma FirstAndRest(s: string, a: string, b: string)
    requires s != [] && s[1..] == a + b
    ensures s == ([s[0]] + a) + b
  {
    assert s == [s[0]] + s[1..];
  }

  lemma {:induction false} TrimEndCuts(s: string, drop: char -> bool) returns (cut: string)
    ensures s == TrimEnd(s, drop) + cut && Only(cut, drop)
  {
    if s != [] && drop(s[|s| - 1]) {
      var rest := TrimEndCuts(s[..|s| - 1], drop);
      cut := rest + [s[|s| - 1]];
      assert s == s[..|s| - 1] + [s[|s| - 1]];
    } else {
      cut := [];
    }
  }

  /** What must go at the start goes, and nothing after it. */
  lemma {:induction false} TrimStartStops(cut: string, rest: string, drop: char -> bool)
    requires Only(cut, drop) && rest != [] && !drop(rest[0])
    ensures TrimStart(cut + rest, drop) == rest
  {
    if cut != [] {
      TrimStartStops(cut[1..], rest, drop);
      assert (cut + rest)[1..] == cut[1..] + rest;
    } else {
      assert cut + rest == rest;
    }
  }

  /** Trimming the end never goes into a beginning that ends with a character to be kept. */
  lemma {:induction false} TrimEndKeeps(head: string, s: string, drop: char -> bool)
    requires head != [] && head <= s && !drop(head[|head| - 1])
    ensures head <= TrimEnd(s, drop)
    decreases |s|
  {
    if drop(s[|s| - 1]) { TrimEndKeeps(head, s[..|s| - 1], drop); }
  }

  /** Space, tab, line feed, vertical tab, form feed, carriage return. */
  predicate IsBlank(c: char) {
    c as int in {32, 9, 10, 11, 12, 13}
  }

  predicate IsOpening(c: char) { c == '<' }

  predicate IsClosing(c: char) { c == '>' }

  /** White space, opening brackets, a text that begins with a SIP scheme. */
  ghost predicate SipUriIn(value: string, before: string, opening: string, uri: string) {
    && value == before + (opening + uri) && Only(before, IsBlank) && Only(opening, IsOpening)
    && ("sip:" <= uri || "sips:" <= uri)
  }

  /** A stored URI is one that begins, after white space and opening brackets, with sip: or sips:, within its length
      and without line breaks. */
  lemma ValidSipUriIff(value: string, maxLen: nat)
    ensures ValidSipUri(value, maxLen) <==>
            ValidLen(value, maxLen) && exists before, opening, uri :: SipUriIn(value, before, opening, uri)
  {
    if ValidSipUri(value, maxLen) {
      SchemeIsThere(value, maxLen);
    }
    if before, opening, uri :| SipUriIn(value, before, opening, uri) {
      SchemeIsFound(value, before, opening, uri);
    }
  }

  lemma SchemeIsThere(value: string, maxLen: nat)
    requires ValidSipUri(value, maxLen)
    ensures exists before, opening, uri :: SipUriIn(value, before, opening, uri)
  {
    hide TrimStart, TrimEnd, ValidLen;
    var s1 := TrimStart(value, IsSpace);
    var before := TrimStartCuts(value, IsSpace);
    var s2 := TrimEnd(s1, IsSpace);
    var after := TrimEndCuts(s1, IsSpace);
    var s3 := TrimStart(s2, c => c == '<');
    var opening := TrimStartCuts(s2, c => c == '<');
    var s4 := TrimEnd(s3, c => c == '>');
    var closing := TrimEndCuts(s3, c => c == '>');
    Rejoined(value, before, s1, s2, after, opening, s3, s4, closing);
    assert Only(opening, IsOpening) && Only(before, IsBlank);
    SchemeAtFirst(s4, closing + after);
    assert SipUriIn(value, before, opening, s4 + (closing + after));
  }

  lemma SchemeAtFirst(s: string, t: string)
    ensures "sip:" <= s ==> "sip:" <= s + t
    ensures "sips:" <= s ==> "sips:" <= s + t
  {}

  lemma Rejoined(value: string, before: string, s1: string, s2: string, after: string, opening: string, s3: string,
                 s4: string, closing: string)
    requires value == before + s1 && s1 == s2 + after && s2 == opening + s3 && s3 == s4 + closing
    ensures value == before + (opening + (s4 + (closing + after)))
  {
    assert s1 == opening + (s4 + (closing + after));
  }

  lemma SchemeIsFound(value: string, before: string, opening: string, uri: string)
    requires SipUriIn(value, before, opening, uri)
    ensures var trimmed := TrimEnd(TrimStart(value, IsSpace), IsSpace);
            var found := TrimEnd(TrimStart(trimmed, c => c == '<'), c => c == '>');
            "sip:" <= found || "sips:" <= found
  {
    hide TrimStart, TrimEnd;
    var scheme := if "sip:" <= uri then "sip:" else "sips:";
    var rest := opening + uri;
    FirstOf(opening, uri, scheme);
    TrimStartStops(before, rest, IsSpace);
    HeadOf(opening, scheme, uri);
    TrimEndKeeps(opening + scheme, rest, IsSpace);
    var trimmed := TrimEnd(rest, IsSpace);
    TailAfter(opening, scheme, trimmed);
    var tail := trimmed[|opening|..];
    assert tail[0] == scheme[0] == 's';
    TrimStartStops(opening, tail, c => c == '<');
    TrimEndKeeps(scheme, tail, c => c == '>');
  }

  lemma FirstOf(opening: string, uri: string, scheme: string)
    requires Only(opening, IsOpening) && scheme <= uri && (scheme == "sip:" || scheme == "sips:")
    ensures opening + uri != [] && !IsSpace((opening + uri)[0])
  {
    if opening == [] {
      assert (opening + uri)[0] == uri[0] == scheme[0];
    } else {
      assert (opening + uri)[0] == opening[0];
    }
  }

  lemma HeadOf(opening: string, scheme: string, uri: string)
    requires scheme <= uri && (scheme == "sip:" || scheme == "sips:")
    ensures opening + scheme <= opening + uri && opening + scheme != []
    ensures (opening + scheme)[|opening + scheme| - 1] == ':'
  {}

  lemma TailAfter(opening: string, scheme: string, text: string)
    requires opening + scheme <= text
    ensures |opening| <= |text| && text == opening + text[|opening|..] && scheme <= text[|opening|..]
  {
    assert text[..|opening + scheme|] == opening + scheme;
    assert text[..|opening|] == opening;
    assert text[|opening|..][..|scheme|] == scheme;
  }

  // ---------------------------------------------------------------- the record

  /** Not empty, not too wide, and no line break or zero in it. */
  predicate Fits(text: string, width: nat) {
    1 <= |text| <= width && forall i :: 0 <= i < |text| ==> text[i] !in {'\0', '\r', '\n'}
  }

  ghost predicate FitsColumns(s: Session) {
    && Fits(s.streamId, 64) && Fits(s.deviceId, 32) && Fits(s.channelId, 32)
    && Fits(s.signalNodeId, 64) && Fits(s.mediaNodeId, 64) && (s.ssrc.Some? ==> Fits(s.ssrc.value, 16))
    && Fits(s.callId, 128) && Fits(s.localUri, 256) && Fits(s.remoteUri, 256)
    && Fits(s.localTag, 128) && (s.remoteTag.Some? ==> Fits(s.remoteTag.value, 128))
    && (s.contactUri.Some? ==> Fits(s.contactUri.value, 256)) && (forall r :: r in s.routeSet ==> Fits(r, 1024))
    && Fits(s.localAddr.text, 64) && Fits(s.remoteAddr.text, 64)
  }

  ghost predicate IsSipUri(value: string) {
    exists before, opening, uri :: SipUriIn(value, before, opening, uri)
  }

  ghost predicate NamesPeers(s: Session) {
    && IsSipUri(s.localUri) && IsSipUri(s.remoteUri) && (s.contactUri.Some? ==> IsSipUri(s.contactUri.value))
    && (forall r :: r in s.routeSet ==> IsSipUri(r)) && s.localAddr.parses && s.remoteAddr.parses
  }

  ghost predicate CountsInOrder(s: Session) {
    && s.localCseq >= 1 && (s.remoteCseq.Some? ==> s.remoteCseq.value >= 1) && s.version >= 0
    && s.createdAt <= s.updatedAt && s.createdAt <= s.lastSeenAt && s.lastSeenAt + 1 <= s.expireAt
    && (s.establishedAt.Some? ==> s.createdAt <= s.establishedAt.value && s.establishedAt.value <= s.updatedAt)
  }

  ghost predicate FarEndAsStateDemands(s: Session) {
    && (s.state == Inviting ==> s.establishedAt == None)
    && (s.state in {Established, Terminating} ==> s.remoteTag != None && s.establishedAt != None)
  }

  lemma FitsIsValidLen(text: string, width: nat)
    ensures ValidLen(text, width) <==> Fits(text, width)
  {
    if ValidLen(text, width) {
      forall i | 0 <= i < |text| ensures text[i] !in {'\0', '\r', '\n'} { assert text[i] in text; }
    }
    if Fits(text, width) {
      forall c | c in text ensures c != '\0' && c != '\r' && c != '\n' {
        var i :| 0 <= i < |text| && text[i] == c;
      }
    }
  }

  lemma UriIff(value: string, width: nat)
    ensures ValidSipUri(value, width) <==> Fits(value, width) && IsSipUri(value)
  {
    hide ValidSipUri, SipUriIn, ValidLen, Fits;
    FitsIsValidLen(value, width);
    ValidSipUriIff(value, width);
  }

  lemma NamesIff(s: Session)
    ensures ValidNames(s) <==> FitsColumns(s) && NamesPeers(s)
  {
    hide ValidSipUri, ValidLen, Fits, IsSipUri;
    FitsIsValidLen(s.streamId, 64);
    FitsIsValidLen(s.deviceId, 32);
    FitsIsValidLen(s.channelId, 32);
    FitsIsValidLen(s.signalNodeId, 64);
    FitsIsValidLen(s.mediaNodeId, 64);
    if s.ssrc.Some? { FitsIsValidLen(s.ssrc.value, 16); }
    FitsIsValidLen(s.callId, 128);
    UriIff(s.localUri, 256);
    UriIff(s.remoteUri, 256);
    FitsIsValidLen(s.localTag, 128);
    if s.remoteTag.Some? { FitsIsValidLen(s.remoteTag.value, 128); }
    if s.contactUri.Some? { UriIff(s.contactUri.value, 256); }
    FitsIsValidLen(s.localAddr.text, 64);
    FitsIsValidLen(s.remoteAddr.text, 64);
    forall r | r in s.routeSet ensures ValidSipUri(r, 1024) <==> Fits(r, 1024) && IsSipUri(r) { UriIff(r, 1024); }
  }

  /** A record is valid if and only if it fits its columns, its URIs are SIP URIs and its addresses addresses, its
      CSeqs are positive, its times are in order, and it has the far end's data as its state demands. */
  lemma ValidIff(s: Session)
    ensures Validate(s) <==> FitsColumns(s) && NamesPeers(s) && CountsInOrder(s) && FarEndAsStateDemands(s)
  {
    hide ValidNames, FitsColumns, NamesPeers;
    NamesIff(s);
  }

  /** Exactly which answers can establish a dialog: their data fits the columns and is in order. */
  lemma AnswerFieldsIff(f: EstablishedFields)
    ensures ValidateFields(f) <==>
            && Fits(f.remoteTag, 128) && Fits(f.localAddr.text, 64) && Fits(f.remoteAddr.text, 64)
            && (f.contactUri.Some? ==> Fits(f.contactUri.value, 256) && IsSipUri(f.contactUri.value))
            && (forall r :: r in f.routeSet ==> Fits(r, 1024) && IsSipUri(r))
            && f.localAddr.parses && f.remoteAddr.parses && f.localCseq >= 1
            && (f.remoteCseq.Some? ==> f.remoteCseq.value >= 1)
            && f.establishedAt <= f.lastSeenAt && f.lastSeenAt + 1 <= f.expireAt && f.establishedAt <= f.updatedAt
  {
    hide ValidSipUri, ValidLen, Fits, IsSipUri;
    FitsIsValidLen(f.remoteTag, 128);
    FitsIsValidLen(f.localAddr.text, 64);
    FitsIsValidLen(f.remoteAddr.text, 64);
    if f.contactUri.Some? { UriIff(f.contactUri.value, 256); }
    forall r | r in f.routeSet ensures ValidSipUri(r, 1024) <==> Fits(r, 1024) && IsSipUri(r) { UriIff(r, 1024); }
  }

  // ---------------------------------------------------------------- the stored route set

  /** A character in a JSON string as it is written: the short escapes, \u00XX for other control characters. */
  function JsonChar(c: char): string {
    if c == '\"' then ['\\', '\"']
    else if c == '\\' then ['\\', '\\']
    else if c == '\n' then ['\\', 'n']
    else if c == '\r' then ['\\', 'r']
    else if c == '\t' then ['\\', 't']
    else if c as int == 8 then ['\\', 'b']
    else if c as int == 12 then ['\\', 'f']
    else if c as int < 32 then ['\\', 'u', '0', '0', HexDigit(c as int / 16), HexDigit(c as int % 16)]
    else [c]
  }

  function HexDigit(n: nat): char
    requires n < 16
  {
    if n < 10 then '0' + n as char else 'a' + (n - 10) as char
  }

  function JsonBody(s: string): string {
    if s == [] then [] else JsonBody(s[..|s| - 1]) + JsonChar(s[|s| - 1])
  }

  function JsonString(s: string): string {
    ['\"'] + JsonBody(s) + ['\"']
  }

  /** The routes, quoted, with commas between them. */
  function JsonItems(routes: seq<string>): string {
    if routes == [] then []
    else if |routes| == 1 then JsonString(routes[0])
    else JsonItems(routes[..|routes| - 1]) + [','] + JsonString(routes[|routes| - 1])
  }

  function JsonArray(routes: seq<string>): string {
    ['['] + JsonItems(routes) + [']']
  }

  lemma {:induction false} JsonBodyLength(s: string)
    ensures JsonStringLen(s) == |JsonString(s)|
  {
    if s != [] { JsonBodyLength(s[..|s| - 1]); }
  }

  lemma {:induction false} JsonItemsLength(routes: seq<string>)
    ensures RouteSetJsonLen(routes) == |JsonItems(routes)| + 2
  {
    hide JsonString, JsonStringLen;
    if routes != [] {
      JsonItemsLength(routes[..|routes| - 1]);
      JsonBodyLength(routes[|routes| - 1]);
      if |routes| == 1 { assert JsonItems(routes[..0]) == []; }
    }
  }

  /** The routes can be stored if and only if each is a SIP URI and their JSON text fits 65535 bytes; no route at all
      is stored as NULL. */
  lemma StorableRoutesIff(routes: seq<string>)
    ensures StorableRoutes(routes) <==>
            && (forall r :: r in routes ==> Fits(r, 1024) && IsSipUri(r))
            && (routes != [] ==> |JsonArray(routes)| <= 65535)
  {
    hide ValidSipUri, Fits, IsSipUri;
    JsonItemsLength(routes);
    forall r | r in routes ensures ValidSipUri(r, 1024) <==> Fits(r, 1024) && IsSipUri(r) { UriIff(r, 1024); }
  }

  // ---------------------------------------------------------------- the arguments of a call

  /** Which calls are made at all; any other is an error and changes nothing. */
  lemma AdmissibleIff(c: Call)
    ensures WellFormed(c) <==>
            && Fits(c.streamId, 64) && Fits(c.node, 64) && 0 <= c.version
            && match c.change
               case MarkEstablished(f) => ValidateFields(f) && StorableRoutes(f.routeSet)
               case BeginTerminating(cur, next, _) => 1 <= cur && next - cur == 1 && next < 0x8000_0000
               case ReserveLocalCseq(cur, next, _) => 1 <= cur && next - cur == 1 && next < 0x8000_0000
               case Transition(expected, next, _) =>
                 expected in {Inviting, Established, Terminating} && next != expected && next != Inviting
                 && (next == Established ==> expected == Inviting) && (next == Terminating ==> expected == Established)
               case Touch(seen, expire) => seen + 1 <= expire
  {
    hide ValidLen, Fits, ValidateFields, StorableRoutes;
    FitsIsValidLen(c.streamId, 64);
    FitsIsValidLen(c.node, 64);
  }

  /** So no CSeq above 31 bits is ever reserved. */
  lemma {:induction false} ReservedCseqsFit(s: Session, cs: seq<Call>)
    ensures forall n :: n in HandedOut(s, cs) ==> 2 <= n < 0x8000_0000
  {
    hide ValidLen, ValidateFields, StorableRoutes, Guard;
    if cs != [] { ReservedCseqsFit(s, cs[..|cs| - 1]); }
  }
}

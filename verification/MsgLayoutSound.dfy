/**
 What an accepted message guarantees about its packed layout.
 */
module MsgLayoutSound {
  import opened Options
  import opened MsgText
  import opened MsgLayout

  /** The offsets are the true distances of the parts, with nothing lost to narrowing. */
  ghost predicate Placed(l: Layout, kind: Kind, ps: seq<Span>, len: int) {
    match kind
    case Unknown => false
    case Request =>
      && 2 <= |ps| <= 3
      && l.uriPos == ps[1].start
      && l.prtRpos == (if |ps| == 3 then len - ps[2].start else 0)
      && l.stsRpos == 0
    case Reply =>
      && 2 <= |ps|
      && l.uriPos == 0
      && l.prtRpos == len
      && l.stsRpos == len - ps[1].start
      && StatusFits(l.stsRpos, |ps| > 2)
    case Report =>
      && l.uriPos == 0
      && l.prtRpos == (if |ps| >= 2 then len - ps[1].start else 0)
      && l.stsRpos == (if |ps| >= 3 then len - ps[2].start else 0)
      && StatusFits(l.stsRpos, |ps| > 3)
  }

  function StartLineOf(msg: string): string {
    msg[..LineEnd(msg, 0)]
  }

  /** The newline after an accepted start line is LF or CR LF, never a lone CR. */
  lemma StartLineNewline(msg: string, withEol: string)
    requires withEol == msg[..NextLine(msg, 0)] && |withEol| >= 2 && withEol[|withEol| - 1] == '\n'
    ensures IsNewline(msg[LineEnd(msg, 0)..NextLine(msg, 0)])
    ensures LineEnd(msg, 0) == |withEol| - if withEol[|withEol| - 2] == '\r' then 2 else 1
  {
    var eol, next := LineEnd(msg, 0), NextLine(msg, 0);
    assert withEol[next - 1] == msg[next - 1] && withEol[next - 2] == msg[next - 2];
    assert eol < |msg|;
    assert next == eol + 1 ==> msg[eol..next] == "\n";
    assert next == eol + 2 ==> msg[eol..next] == "\r\n";
  }

  lemma PackRequestPlaces(base: Layout, ps: seq<Span>, len: int)
    requires PackRequest(base, ps, len).Parsed? && base.Packed() && base.stsRpos == 0
    requires forall k :: 0 <= k < |ps| ==> ps[k].start <= len
    ensures PackRequest(base, ps, len).layout.Packed() && Placed(PackRequest(base, ps, len).layout, Request, ps, len)
  {
  }

  lemma PackReplyPlaces(base: Layout, ps: seq<Span>, len: int)
    requires PackReply(base, ps, len).Parsed? && base.Packed() && base.uriPos == 0
    requires forall k :: 0 <= k < |ps| ==> ps[k].start <= len
    ensures PackReply(base, ps, len).layout.Packed() && Placed(PackReply(base, ps, len).layout, Reply, ps, len)
  {
  }

  lemma PackReportPlaces(base: Layout, ps: seq<Span>, len: int)
    requires PackReport(base, ps, len).Parsed? && base.Packed()
    requires base.uriPos == 0 && base.prtRpos == 0 && base.stsRpos == 0
    requires forall k :: 0 <= k < |ps| ==> ps[k].start <= len
    ensures PackReport(base, ps, len).layout.Packed() && Placed(PackReport(base, ps, len).layout, Report, ps, len)
  {
  }

  /** An accepted start line is stored at its true offsets. */
  lemma SetStartLinePlaces(withEol: string, kind: Kind, ps: seq<Span>, pBody: int, nl: int)
    requires SetStartLine(withEol, kind, ps, pBody).Parsed?
    requires |withEol| >= 2 && nl == if withEol[|withEol| - 2] == '\r' then 2 else 1
    requires forall k :: 0 <= k < |ps| ==> ps[k].start <= |withEol| - nl
    requires 0 <= pBody < 0x1_0000
    ensures var l := SetStartLine(withEol, kind, ps, pBody).layout;
      && withEol[|withEol| - 1] == '\n'
      && l.pBody == pBody && l.slNl == nl && l.slLen == |withEol| - nl
      && l.Packed() && Placed(l, kind, ps, l.slLen)
  {
    var len := |withEol| - nl;
    var base := Layout(pBody, U16(len), 0, 0, 0, U8(nl));
    match kind
    case Unknown =>
    case Request => PackRequestPlaces(base, ps, len);
    case Reply => PackReplyPlaces(base, ps, len);
    case Report => PackReportPlaces(base, ps, len);
  }

  lemma PartsStarts(line: string)
    ensures forall k :: 0 <= k < |Parts(line)| ==> Parts(line)[k].start <= |line|
  {
    if line != "" {
      PartsIff(line, Parts(line));
      CutsPlaces(line, Parts(line), 0, 0);
    }
  }

  /** The layout of a message stored without loss: sections and parts at their true offsets. */
  ghost predicate TruePlaces(msg: string, l: Layout, kind: Kind) {
    && l.Packed()
    && l.slLen == LineEnd(msg, 0)
    && l.HeadersPos() == NextLine(msg, 0) < |msg|
    && HeadersEnd(msg, NextLine(msg, 0)) == Some(l.pBody)
    && IsNewline(msg[l.slLen..l.HeadersPos()])
    && Placed(l, kind, Parts(StartLineOf(msg)), l.slLen)
  }

  lemma ParsedPlaces(msg: string, kind: Kind)
    requires Parse(msg, kind).Parsed?
    ensures TruePlaces(msg, Parse(msg, kind).layout, EffectiveKind(StartLineOf(msg), kind))
  {
    var next, line := NextLine(msg, 0), StartLineOf(msg);
    var body := HeadersEnd(msg, next);
    var k := EffectiveKind(line, kind);
    assert Parse(msg, kind) == SetStartLine(msg[..next], k, Parts(line), U16(body.value));
    StoredPlaces(msg, next, k, body.value);
  }

  lemma StoredPlaces(msg: string, next: nat, k: Kind, body: nat)
    requires next == NextLine(msg, 0) < |msg| && HeadersEnd(msg, next) == Some(body) && body <= 0xFFFF
    requires SetStartLine(msg[..next], k, Parts(StartLineOf(msg)), U16(body)).Parsed?
    ensures TruePlaces(msg, SetStartLine(msg[..next], k, Parts(StartLineOf(msg)), U16(body)).layout, k)
  {
    var line := StartLineOf(msg);
    var l := SetStartLine(msg[..next], k, Parts(line), U16(body)).layout;
    PartsStarts(line);
    StartLineNewline(msg, msg[..next]);
    SetStartLinePlaces(msg[..next], k, Parts(line), U16(body), next - |line|);
  }

  /** Ranges read from true offsets are sound, ordered and tell the kind. */
  lemma PlacedSound(l: Layout, kind: Kind, line: string, ps: seq<Span>)
    requires l.slLen == |line| > 0
    requires |ps| <= 4 && Cuts(line, ps, 0, 0) && Placed(l, kind, ps, l.slLen)
    ensures l.Type() == kind
    ensures l.Method().Sound(l.slLen) && l.Uri().Sound(l.slLen) && l.Protocol().Sound(l.slLen)
    ensures l.Status().Sound(l.slLen) && l.Reason().Sound(l.slLen)
    ensures l.Method().Before(l.Uri()) && l.Method().Before(l.Protocol())
    ensures l.Uri().Before(l.Protocol()) && l.Uri().Before(l.Status()) && l.Uri().Before(l.Reason())
    ensures l.Protocol().Before(l.Status()) && l.Protocol().Before(l.Reason()) && l.Status().Before(l.Reason())
  {
    CutsPlaces(line, ps, 0, 0);
  }

  /**
   A sound layout: the fields fit their integers, no range underflows, the
   non-empty fields lie in order and apart inside the start line, the four
   sections tile the message, and the offsets tell the kind.
   */
  ghost predicate SoundLayout(msg: string, l: Layout, kind: Kind) {
    && l.Packed()
    && l.Type() == kind
    && l.Method().Sound(l.slLen) && l.Uri().Sound(l.slLen) && l.Protocol().Sound(l.slLen)
    && l.Status().Sound(l.slLen) && l.Reason().Sound(l.slLen)
    && l.Method().Before(l.Uri()) && l.Method().Before(l.Protocol())
    && l.Uri().Before(l.Protocol()) && l.Uri().Before(l.Status()) && l.Uri().Before(l.Reason())
    && l.Protocol().Before(l.Status()) && l.Protocol().Before(l.Reason()) && l.Status().Before(l.Reason())
    && l.Headers().Within(|msg|) && l.Headers().length > 0 && l.pBody <= |msg|
    && msg == StartLineOf(msg) + msg[l.slLen..l.HeadersPos()] + l.Headers().Of(msg) + msg[l.pBody..]
    && StartLineOf(msg) == l.StartLine().Of(msg)
    && NoEol(StartLineOf(msg)) && IsNewline(msg[l.slLen..l.HeadersPos()])
    && HeadersEnd(msg, l.HeadersPos()) == Some(l.pBody)
  }

  lemma TruePlacesSound(msg: string, l: Layout, kind: Kind)
    requires TruePlaces(msg, l, kind) && l.slLen > 0
    ensures SoundLayout(msg, l, kind)
  {
    var line := StartLineOf(msg);
    PartsIff(line, Parts(line));
    PlacedSound(l, kind, line, Parts(line));
    Tile(msg, l);
  }

  /** Every accepted message with a non-empty start line has a sound layout, of the kind it was parsed as. */
  lemma LayoutSound(msg: string, kind: Kind)
    requires Parse(msg, kind).Parsed?
    requires StartLineOf(msg) != ""
    ensures SoundLayout(msg, Parse(msg, kind).layout, EffectiveKind(StartLineOf(msg), kind))
  {
    ParsedPlaces(msg, kind);
    TruePlacesSound(msg, Parse(msg, kind).layout, EffectiveKind(StartLineOf(msg), kind));
  }

  lemma Tile(msg: string, l: Layout)
    requires 0 <= l.slLen <= l.HeadersPos() <= l.pBody <= |msg|
    ensures msg == msg[..l.slLen] + msg[l.slLen..l.HeadersPos()] + l.Headers().Of(msg) + msg[l.pBody..]
  {
    var a, b, c := l.slLen, l.HeadersPos(), l.pBody;
    assert l.Headers().Of(msg) == msg[b..c];
    assert msg[..a] + msg[a..b] == msg[..b];
    assert msg[..b] + msg[b..c] == msg[..c];
  }

  // ---------------------------------------------------------------------------
  // When the fields are the words of the start line
  // ---------------------------------------------------------------------------

  /** The text after the first `k` spaces of the line, empty if there are fewer parts. */
  function Tail(line: string, ps: seq<Span>, k: nat): string {
    if k < |ps| && ps[k].start <= |line| then line[ps[k].start..] else ""
  }

  /** The fields of the layout read the words of the start line, for a message of this kind. */
  ghost predicate FieldsAreWords(msg: string, l: Layout, kind: Kind, line: string, ps: seq<Span>) {
    match kind
    case Unknown => false
    case Request =>
      && l.Method().Of(msg) == PartText(line, ps, 0)
      && l.Uri().Of(msg) == PartText(line, ps, 1)
      && l.Protocol().Of(msg) == PartText(line, ps, 2)
    case Reply =>
      && l.Protocol().Of(msg) == PartText(line, ps, 0)
      && l.Status().Of(msg) == PartText(line, ps, 1)
      && l.Reason().Of(msg) == Tail(line, ps, 2)
    case Report =>
      && l.Uri().Of(msg) == PartText(line, ps, 0)
      && l.Protocol().Of(msg) == PartText(line, ps, 1)
      && l.Status().Of(msg) == PartText(line, ps, 2)
      && l.Reason().Of(msg) == Tail(line, ps, 3)
  }

  /**
   What a caller can check on the line: it does not stop right after the space
   that announces a further field, and a status word has three characters.
   */
  predicate WellSpaced(line: string, kind: Kind, ps: seq<Span>) {
    match kind
    case Unknown => false
    case Request => |ps| == 3 ==> PartText(line, ps, 2) != ""
    case Reply => |PartText(line, ps, 1)| == 3
    case Report =>
      && (|ps| == 2 ==> PartText(line, ps, 1) != "")
      && (|ps| > 2 ==> |PartText(line, ps, 2)| == 3)
  }

  /** The fields of an accepted message are the words of its start line exactly when it is well spaced. */
  lemma FieldsExact(msg: string, kind: Kind)
    requires Parse(msg, kind).Parsed?
    requires StartLineOf(msg) != ""
    ensures var line := StartLineOf(msg);
      var k := EffectiveKind(line, kind);
      FieldsAreWords(msg, Parse(msg, kind).layout, k, line, Parts(line)) <==> WellSpaced(line, k, Parts(line))
  {
    ParsedPlaces(msg, kind);
    var line := StartLineOf(msg);
    var l := Parse(msg, kind).layout;
    var ps := Parts(line);
    PartsIff(line, ps);
    match EffectiveKind(line, kind)
    case Unknown =>
    case Request => FieldsExactRequest(msg, l, line, ps);
    case Reply => FieldsExactReply(msg, l, line, ps);
    case Report => FieldsExactReport(msg, l, line, ps);
  }

  /** A range read from the message has the length it says. */
  lemma RangeLength(msg: string, r: HeadRange)
    requires r.Sound(|msg|)
    ensures |r.Of(msg)| == r.length
  {
  }

  /** A range that covers a span of the line, at its start if not empty, reads that span. */
  lemma RangeText(msg: string, line: string, r: HeadRange, a: nat, b: nat)
    requires line <= msg && a <= b <= |line|
    requires r.length == b - a && (r.length > 0 ==> r.start == a)
    ensures r.Of(msg) == line[a..b]
  {
  }

  lemma PartLength(line: string, ps: seq<Span>, k: nat)
    requires |ps| <= 4 && Cuts(line, ps, 0, 0)
    ensures k < |ps| ==> ps[k].start <= ps[k].end <= |line|
    ensures k < |ps| ==> PartText(line, ps, k) == line[ps[k].start..ps[k].end]
    ensures k < |ps| ==> Tail(line, ps, k) == line[ps[k].start..|line|]
    ensures k >= |ps| ==> PartText(line, ps, k) == "" && Tail(line, ps, k) == ""
  {
    CutsPlaces(line, ps, 0, 0);
  }

  lemma FieldsExactRequest(msg: string, l: Layout, line: string, ps: seq<Span>)
    requires line != "" && line <= msg && |line| == l.slLen && Cuts(line, ps, 0, 0) && |ps| <= 4
    requires Placed(l, Request, ps, l.slLen)
    ensures FieldsAreWords(msg, l, Request, line, ps) <==> WellSpaced(line, Request, ps)
  {
    CutsPlaces(line, ps, 0, 0);
    PartLength(line, ps, 0);
    PartLength(line, ps, 1);
    PartLength(line, ps, 2);
    RangeText(msg, line, l.Method(), ps[0].start, ps[0].end);
    if |ps| == 2 {
      RangeText(msg, line, l.Uri(), ps[1].start, ps[1].end);
    } else if ps[2].start < |line| {
      RangeText(msg, line, l.Uri(), ps[1].start, ps[1].end);
      RangeText(msg, line, l.Protocol(), ps[2].start, ps[2].end);
    } else {
      RangeLength(msg, l.Uri());
    }
  }

  lemma FieldsExactReply(msg: string, l: Layout, line: string, ps: seq<Span>)
    requires line != "" && line <= msg && |line| == l.slLen && Cuts(line, ps, 0, 0) && |ps| <= 4
    requires Placed(l, Reply, ps, l.slLen)
    ensures FieldsAreWords(msg, l, Reply, line, ps) <==> WellSpaced(line, Reply, ps)
  {
    CutsPlaces(line, ps, 0, 0);
    PartLength(line, ps, 0);
    PartLength(line, ps, 1);
    PartLength(line, ps, 2);
    if ps[1].end - ps[1].start == 3 {
      RangeText(msg, line, l.Protocol(), ps[0].start, ps[0].end);
      RangeText(msg, line, l.Status(), ps[1].start, ps[1].end);
      if |ps| > 2 {
        RangeText(msg, line, l.Reason(), ps[2].start, |line|);
      }
    } else if l.stsRpos == 0 {
      RangeLength(msg, l.Protocol());
    } else {
      RangeLength(msg, l.Status());
    }
  }

  lemma FieldsExactReport(msg: string, l: Layout, line: string, ps: seq<Span>)
    requires line != "" && line <= msg && |line| == l.slLen && Cuts(line, ps, 0, 0) && |ps| <= 4
    requires Placed(l, Report, ps, l.slLen)
    ensures FieldsAreWords(msg, l, Report, line, ps) <==> WellSpaced(line, Report, ps)
  {
    CutsPlaces(line, ps, 0, 0);
    PartLength(line, ps, 0);
    PartLength(line, ps, 1);
    PartLength(line, ps, 2);
    PartLength(line, ps, 3);
    if WellSpaced(line, Report, ps) {
      RangeText(msg, line, l.Uri(), ps[0].start, ps[0].end);
      if |ps| > 1 {
        RangeText(msg, line, l.Protocol(), ps[1].start, ps[1].end);
      }
      if |ps| > 2 {
        RangeText(msg, line, l.Status(), ps[2].start, ps[2].end);
      }
      if |ps| > 3 {
        RangeText(msg, line, l.Reason(), ps[3].start, |line|);
      }
    } else if l.prtRpos == 0 {
      RangeLength(msg, l.Uri());
    } else if l.stsRpos == 0 {
      RangeLength(msg, l.Protocol());
    } else {
      RangeLength(msg, l.Status());
    }
  }

  /** The recomputed kind is the one parsed as exactly when the start line is not empty; an empty one passes only as a report. */
  lemma KindRecomputed(msg: string, kind: Kind)
    requires Parse(msg, kind).Parsed?
    ensures Parse(msg, kind).layout.Type() == EffectiveKind(StartLineOf(msg), kind) <==> StartLineOf(msg) != ""
    ensures StartLineOf(msg) == "" ==> kind == Report && Parse(msg, kind).layout.Type() == Unknown
  {
    if StartLineOf(msg) != "" {
      LayoutSound(msg, kind);
    }
  }

  /** A request line that stops after the space of its missing protocol: the space becomes part of the URI. */
  lemma BadlySpacedExample()
    ensures var msg := "GET x \n\n";
      && Parse(msg, Unknown).Parsed? && StartLineOf(msg) == "GET x "
      && !WellSpaced("GET x ", EffectiveKind("GET x ", Unknown), Parts("GET x "))
      && Parse(msg, Unknown).layout.Uri().Of(msg) == "x "
  {
    var msg, line := "GET x \n\n", "GET x ";
    assert LineEnd(msg, 4) == 6 && LineEnd(msg, 2) == 6 && LineEnd(msg, 0) == 6;
    assert msg[..6] == line && msg[..7] == "GET x \n";
    assert WordEnd(line, 2) == 3 && WordEnd(line, 0) == 3 && WordEnd(line, 4) == 5 && WordEnd(line, 6) == 6;
    assert PartsFrom(line, 6, 2) == [Span(6, 6)];
    assert PartsFrom(line, 4, 1) == [Span(4, 5), Span(6, 6)];
    assert Parts(line) == [Span(0, 3), Span(4, 5), Span(6, 6)];
    assert line[0..3] == "GET" && line[4..5] == "x" && line[6..6] == "";
    assert GuessKind(line, Parts(line)) == Request;
    assert msg[4..6] == "x ";
  }

  /** An empty start line parses as a report and is then of no kind. */
  lemma EmptyLineExample()
    ensures var msg := "\r\n\r\n";
      && StartLineOf(msg) == "" && Parse(msg, Report).Parsed? && Parse(msg, Report).layout.Type() == Unknown
      && !Parse(msg, Unknown).Parsed?
  {
    var msg := "\r\n\r\n";
    assert LineEnd(msg, 0) == 0 && LineEnd(msg, 2) == 2;
    assert msg[..0] == "" && msg[..2] == "\r\n";
  }
}

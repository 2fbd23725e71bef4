/**
 Parsing what the writer releases gives back what was written, and exactly
 when it does.
 */
module MsgRoundTrip {
  import opened Slices
  import opened MsgText
  import opened MsgTables
  import opened MsgLayout
  import opened MsgLayoutSound
  import opened MsgHeaders
  import opened MsgWriter
  import opened MsgSections

  // ---------------------------------------------------------------------------
  // What is released
  // ---------------------------------------------------------------------------

  /** A header line as released, once the length of the body is known. */
  function FinalLine(f: Field, size: nat): string {
    match f
    case Plain(name, value) => name + ":" + value
    case Length(maxLength) =>
      var pad := NumDigits(maxLength) - NumDigits(size);
      "Content-Length:" + DecimalText(size) + Blanks(if pad < 0 then 0 else pad)
  }

  /** The header a field is read back as. */
  function FinalHeader(f: Field, size: nat): Header {
    match f
    case Plain(name, value) => Header(name, Trim(value))
    case Length(_) => Header("Content-Length", DecimalText(size))
  }

  function FinalLines(fs: seq<Field>, size: nat): (lines: seq<string>)
    ensures |lines| == |fs|
    ensures forall i :: 0 <= i < |fs| ==> lines[i] == FinalLine(fs[i], size)
  {
    if fs == [] then [] else FinalLines(fs[..|fs| - 1], size) + [FinalLine(fs[|fs| - 1], size)]
  }

  /** The released message: the reserved blanks filled in, the body at the end. */
  function Message(p: Protocol, o: Opening, fs: seq<Field>, body: string): string {
    Laid(o.Text(p), p.Newline(), FinalLines(fs, |body|), body)
  }

  predicate AllAccepted(fs: seq<Field>) {
    forall i :: 0 <= i < |fs| ==> fs[i].Accepted()
  }

  // ---------------------------------------------------------------------------
  // Header lines
  // ---------------------------------------------------------------------------

  lemma NamedLine(name: string, rest: string)
    requires NoEol(name) && ':' !in name
    ensures HeaderOf(name + ":" + rest) == Header(name, Trim(rest))
  {
    var line := name + ":" + rest;
    var e := NameEnd(line, 0);
    assert line[|name|] == ':';
    assert forall i :: 0 <= i < |name| ==> line[i] == name[i] && line[i] in name;
    assert e == |name|;
    assert line[..e] == name && line[e + 1..] == rest;
  }

  lemma TrimDigits(n: nat, k: nat)
    ensures Trim(DecimalText(n) + Blanks(k)) == DecimalText(n)
  {
    var d := DecimalText(n);
    TrimIs(d + Blanks(k), 0, |d|);
  }

  /** Each released header line is a solid line that reads back as its header. */
  lemma FinalLineReads(f: Field, size: nat)
    requires f.Accepted()
    ensures FinalLine(f, size) != "" && NoEol(FinalLine(f, size))
    ensures HeaderOf(FinalLine(f, size)) == FinalHeader(f, size)
  {
    match f
    case Plain(name, value) =>
      NamedLine(name, value);
      NoEolConcat(name + ":", value);
      NoEolConcat(name, ":");
    case Length(maxLength) =>
      var pad := NumDigits(maxLength) - NumDigits(size);
      LengthLineReads(size, if pad < 0 then 0 else pad);
  }

  lemma LengthLineReads(size: nat, pad: nat)
    ensures var line := "Content-Length:" + DecimalText(size) + Blanks(pad);
      NoEol(line) && HeaderOf(line) == Header("Content-Length", DecimalText(size))
  {
    var line := "Content-Length:" + DecimalText(size) + Blanks(pad);
    var rest := DecimalText(size) + Blanks(pad);
    assert line == "Content-Length:" + rest == "Content-Length" + ":" + rest;
    NamedLine("Content-Length", rest);
    TrimDigits(size, pad);
    NoEolConcat("Content-Length:", rest);
    NoEolConcat(DecimalText(size), Blanks(pad));
  }

  /** The digits written for a number read back as that number. */
  lemma {:induction false} DecimalTextReads(n: nat)
    ensures Decimal(DecimalText(n)) == n
  {
    if n >= 10 {
      DecimalTextReads(n / 10);
      var s := DecimalText(n);
      assert s[..|s| - 1] == DecimalText(n / 10);
    } else {
      var s := DecimalText(n);
      assert s[..|s| - 1] == "";
    }
  }

  lemma LengthValueReads(n: nat)
    requires n <= INT64_MAX
    ensures ValueDec(DecimalText(n), 0) == n
  {
    var s := DecimalText(n);
    assert IsDigit(s[0]);
    assert DigitsEnd(s, 0) == |s|;
    assert s[0..|s|] == s;
    DecimalTextReads(n);
  }

  // ---------------------------------------------------------------------------
  // Start lines
  // ---------------------------------------------------------------------------

  lemma MethodWord(m: Method)
    requires m.Valid()
    ensures NoSpace(m.ToString()) && NoEol(m.ToString()) && 1 <= |m.ToString()| <= 7
  {
  }

  lemma ProtocolWord(p: Protocol)
    requires p.Valid()
    ensures NoSpace(p.ToString()) && NoEol(p.ToString()) && 6 <= |p.ToString()| <= 8
    ensures '/' in p.ToString() && ParseProtocol(p.ToString()) == p
  {
    assert p.ToString()[4] == '/';
  }

  lemma StatusWord(code: int)
    ensures NoSpace(StatusText(code)) && NoEol(StatusText(code)) && !IsProtocolName(StatusText(code))
  {
  }

  lemma JoinedNoEol(a: string, b: string)
    requires NoEol(a) && NoEol(b)
    ensures NoEol(a + " " + b)
  {
    NoEolConcat(a, " ");
    NoEolConcat(a + " ", b);
  }

  lemma OpeningSolid(o: Opening, p: Protocol)
    requires o.Accepted() && p.Valid()
    ensures o.Text(p) != "" && NoEol(o.Text(p))
  {
    ProtocolWord(p);
    match o
    case OpenRequest(uri, verb) =>
      MethodWord(verb);
      JoinedNoEol(verb.ToString(), uri);
      JoinedNoEol(verb.ToString() + " " + uri, p.ToString());
    case OpenReply(status, reason) =>
      StatusWord(status);
      JoinedNoEol(p.ToString(), StatusText(status));
      JoinedNoEol(p.ToString() + " " + StatusText(status), reason);
    case OpenReport(uri, status, reason) =>
      StatusWord(status);
      JoinedNoEol(uri, p.ToString());
      JoinedNoEol(uri + " " + p.ToString(), StatusText(status));
      JoinedNoEol(uri + " " + p.ToString() + " " + StatusText(status), reason);
  }

  /** A space-free word followed by a space is the next part. */
  lemma NextPart(line: string, i: nat, n: nat, word: string, e: nat)
    requires n < 3 && NoSpace(word) && e == i + |word| && OccursAt(line, i, word) && OccursAt(line, e, " ")
    ensures PartsFrom(line, i, n) == [Span(i, e)] + PartsFrom(line, e + 1, n + 1)
  {
    OccursAtIndex(line, i, word);
    assert forall k :: i <= k < e ==> line[k] == word[k - i];
    OccursAtIndex(line, e, " ");
    assert line[e + 0] == " "[0];
    assert WordEnd(line, i) == e;
  }

  /** A space-free word that ends the line is the last part. */
  lemma LastPart(line: string, i: nat, n: nat, word: string)
    requires n < 3 && NoSpace(word) && OccursAt(line, i, word) && i + |word| == |line|
    ensures PartsFrom(line, i, n) == [Span(i, |line|)]
  {
    OccursAtIndex(line, i, word);
    assert forall k :: i <= k < i + |word| ==> line[k] == word[k - i];
    assert WordEnd(line, i) == |line|;
  }

  /** Two words and the rest of the line, one space apart. */
  ghost predicate Spaced(line: string, a: string, b: string, c: string) {
    && OccursAt(line, 0, a) && OccursAt(line, |a|, " ") && OccursAt(line, |a| + 1, b)
    && OccursAt(line, |a| + |b| + 1, " ") && OccursAt(line, |a| + |b| + 2, c) && |line| == |a| + |b| + |c| + 2
  }

  lemma SpacedOccurs(a: string, b: string, c: string)
    ensures Spaced(a + " " + b + " " + c, a, b, c)
  {
    var line := a + " " + b + " " + c;
    assert OccursAt(line, 0, line);
    OccursAtThree(line, 0, a + " " + b, " ", c);
    OccursAtThree(line, 0, a, " ", b);
  }

  /** The first two parts of a line that starts with two words, ending at `e` and `f`. */
  lemma TwoParts(line: string, a: string, b: string, c: string, e: nat, f: nat)
    requires NoSpace(a) && NoSpace(b) && Spaced(line, a, b, c) && e == |a| && f == |a| + |b| + 1
    ensures Parts(line) == [Span(0, e), Span(e + 1, f)] + PartsFrom(line, f + 1, 2)
  {
    NextPart(line, 0, 0, a, e);
    NextPart(line, e + 1, 1, b, f);
    Cons2(Span(0, e), Span(e + 1, f), PartsFrom(line, f + 1, 2));
  }

  lemma Cons2<T>(x: T, y: T, s: seq<T>)
    ensures [x] + ([y] + s) == [x, y] + s
  {
  }

  /** The first space-delimited word. */
  function FirstWord(s: string): string {
    s[..WordEnd(s, 0)]
  }

  /** Packing a start line whose newline is known. */
  lemma PackedOf(line: string, nl: string, kind: Kind, ps: seq<Span>, h: int)
    requires line != "" && NoEol(line) && IsNewline(nl) && |line| <= 0xFFFF
    ensures var base := Layout(h, |line|, 0, 0, 0, |nl|);
      SetStartLine(line + nl, kind, ps, h) ==
      match kind
      case Unknown => Failed(StartLineMalformed, h)
      case Request => PackRequest(base, ps, |line|)
      case Reply => PackReply(base, ps, |line|)
      case Report => PackReport(base, ps, |line|)
  {
    var w := line + nl;
    assert w[|w| - 1] == '\n';
    assert nl == "\n" ==> w[|w| - 2] == line[|line| - 1];
    assert nl == "\r\n" ==> w[|w| - 2] == '\r';
  }

  // Each kind of start line: its parts, the kind guessed for it, and when it packs.

  lemma RequestLine(uri: string, verb: Method, p: Protocol)
    requires OpenRequest(uri, verb).Accepted() && p.Valid()
    ensures var line := OpenRequest(uri, verb).Text(p);
      var ps := Parts(line);
      && GuessKind(line, ps) == Request
      && |ps| == 3 && ps[1].start <= MAX_URI_POS && |line| - ps[2].start <= MAX_PRT_RPOS
      && PartText(line, ps, 0) == verb.ToString() && PartText(line, ps, 1) == uri
      && PartText(line, ps, 2) == p.ToString()
  {
    var line := OpenRequest(uri, verb).Text(p);
    var a, c := verb.ToString(), p.ToString();
    MethodWord(verb);
    ProtocolWord(p);
    SpacedOccurs(a, uri, c);
    RequestParts(line, a, uri, c, |a|, |a| + |uri| + 1);
  }

  lemma RequestParts(line: string, a: string, b: string, c: string, e: nat, f: nat)
    requires NoSpace(a) && NoSpace(b) && NoSpace(c) && Spaced(line, a, b, c) && e == |a| && f == |a| + |b| + 1
    ensures Parts(line) == [Span(0, e), Span(e + 1, f), Span(f + 1, |line|)]
    ensures PartText(line, Parts(line), 0) == a && PartText(line, Parts(line), 1) == b
    ensures PartText(line, Parts(line), 2) == c
  {
    TwoParts(line, a, b, c, e, f);
    LastPart(line, f + 1, 2, c);
  }

  lemma ReplyLine(status: int, reason: string, p: Protocol)
    requires OpenReply(status, reason).Accepted() && p.Valid()
    ensures var line := OpenReply(status, reason).Text(p);
      var ps := Parts(line);
      && GuessKind(line, ps) == (if IsProtocolName(FirstWord(reason)) then Request else Reply)
      && |ps| >= 3 && ps[1].start == |line| - (4 + |reason|) && |line| <= 13 + |reason|
      && PartText(line, ps, 0) == p.ToString() && PartText(line, ps, 1) == StatusText(status)
      && Tail(line, ps, 2) == reason
  {
    var line := OpenReply(status, reason).Text(p);
    var a, b := p.ToString(), StatusText(status);
    ProtocolWord(p);
    StatusWord(status);
    SpacedOccurs(a, b, reason);
    ReplyParts(line, a, b, reason, |a|, |a| + |b| + 1);
  }

  /** The part that starts where the rest `c` of the line does. */
  lemma PartOfRest(line: string, i: nat, c: string)
    requires OccursAt(line, i, c) && i + |c| == |line|
    ensures PartsFrom(line, i, 2)[0] == Span(i, i + |FirstWord(c)|)
    ensures line[i..i + |FirstWord(c)|] == FirstWord(c) && line[i..] == c
  {
    var w := WordEnd(c, 0);
    OccursAtIndex(line, i, c);
    assert forall k :: i <= k < |line| ==> line[k] == c[k - i];
    assert WordEnd(line, i) == i + w;
    assert line[i..i + w] == c[..w];
  }

  lemma ReplyParts(line: string, a: string, b: string, c: string, e: nat, f: nat)
    requires NoSpace(a) && NoSpace(b) && Spaced(line, a, b, c) && e == |a| && f == |a| + |b| + 1
    ensures var ps := Parts(line);
      && 3 <= |ps| && ps[0] == Span(0, e) && ps[1] == Span(e + 1, f) && ps[2].start == f + 1
      && PartText(line, ps, 0) == a && PartText(line, ps, 1) == b
      && PartText(line, ps, 2) == FirstWord(c) && Tail(line, ps, 2) == c
  {
    TwoParts(line, a, b, c, e, f);
    PartOfRest(line, f + 1, c);
    var ps := Parts(line);
    assert ps[0] == Span(0, e) && ps[1] == Span(e + 1, f) && ps[2] == PartsFrom(line, f + 1, 2)[0];
  }

  lemma ReportLine(uri: string, status: int, reason: string, p: Protocol)
    requires OpenReport(uri, status, reason).Accepted() && p.Valid()
    ensures var line := OpenReport(uri, status, reason).Text(p);
      var ps := Parts(line);
      && GuessKind(line, ps) == Report
      && |ps| == 4 && ps[2].start == |line| - (4 + |reason|) && |line| - ps[1].start <= 13 + |reason|
      && PartText(line, ps, 0) == uri && PartText(line, ps, 1) == p.ToString()
      && PartText(line, ps, 2) == StatusText(status) && Tail(line, ps, 3) == reason
  {
    var line := OpenReport(uri, status, reason).Text(p);
    var b, s := p.ToString(), StatusText(status);
    ProtocolWord(p);
    StatusWord(status);
    var c := s + " " + reason;
    assert line == uri + " " + b + " " + c;
    SpacedOccurs(uri, b, c);
    ReportParts(line, uri, b, s, reason, |uri|, |uri| + |b| + 1, |uri| + |b| + 2 + |s|);
  }

  /** Where the rest of a report line has its words. */
  lemma ReportRest(line: string, a: string, b: string, s: string, r: string, f: nat, g: nat)
    requires Spaced(line, a, b, s + " " + r) && f == |a| + |b| + 1 && g == f + 1 + |s|
    ensures OccursAt(line, f + 1, s) && OccursAt(line, g, " ") && OccursAt(line, g + 1, r) && g + 1 + |r| == |line|
  {
    OccursAtThree(line, f + 1, s, " ", r);
  }

  lemma ReportCut(line: string, a: string, b: string, s: string, r: string, e: nat, f: nat, g: nat)
    requires NoSpace(a) && NoSpace(b) && NoSpace(s) && Spaced(line, a, b, s + " " + r)
    requires e == |a| && f == |a| + |b| + 1 && g == f + 1 + |s|
    ensures Parts(line) == [Span(0, e), Span(e + 1, f), Span(f + 1, g), Span(g + 1, |line|)]
  {
    hide Spaced, NoSpace, Parts;
    ReportRest(line, a, b, s, r, f, g);
    TwoParts(line, a, b, s + " " + r, e, f);
    NextPart(line, f + 1, 2, s, g);
    assert PartsFrom(line, g + 1, 3) == [Span(g + 1, |line|)];
  }

  lemma ReportParts(line: string, a: string, b: string, s: string, r: string, e: nat, f: nat, g: nat)
    requires NoSpace(a) && NoSpace(b) && NoSpace(s) && Spaced(line, a, b, s + " " + r)
    requires e == |a| && f == |a| + |b| + 1 && g == f + 1 + |s|
    ensures Parts(line) == [Span(0, e), Span(e + 1, f), Span(f + 1, g), Span(g + 1, |line|)]
    ensures PartText(line, Parts(line), 0) == a && PartText(line, Parts(line), 1) == b
    ensures PartText(line, Parts(line), 2) == s && Tail(line, Parts(line), 3) == r
  {
    hide Parts, NoSpace;
    ReportRest(line, a, b, s, r, f, g);
    ReportCut(line, a, b, s, r, e, f, g);
  }

  // ---------------------------------------------------------------------------
  // The round trip
  // ---------------------------------------------------------------------------

  function JoinedHeaders(p: Protocol, fs: seq<Field>, size: nat): string {
    JoinLines(FinalLines(fs, size), p.Newline())
  }

  /** The head fits a 16-bit offset and a reason phrase its 8-bit one. */
  predicate Fits(p: Protocol, o: Opening, fs: seq<Field>, size: nat) {
    && HeadLength(o.Text(p), p.Newline(), JoinedHeaders(p, fs, size)) <= 0xFFFF
    && (!o.OpenRequest? ==> |o.reason| <= MAX_REASON_LENGTH)
  }

  /** A status code that three digits can hold. */
  predicate CodeFits(o: Opening) {
    !o.OpenRequest? ==> 0 <= o.status <= 999
  }

  /** A reply whose reason starts with the name of a protocol looks like a request. */
  predicate Unambiguous(o: Opening) {
    o.OpenReply? ==> !IsProtocolName(FirstWord(o.reason))
  }

  /** The start-line fields read back as what was opened. */
  ghost predicate OpeningRead(m: string, l: Layout, p: Protocol, o: Opening) {
    && l.Type() == o.MsgKind()
    && ParseProtocol(l.Protocol().Of(m)) == p
    && match o
       case OpenRequest(uri, verb) => ParseMethod(l.Method().Of(m)) == verb && l.Uri().Of(m) == uri
       case OpenReply(status, reason) => ParseStatus(l.Status().Of(m)) == status && l.Reason().Of(m) == reason
       case OpenReport(uri, status, reason) =>
         l.Uri().Of(m) == uri && ParseStatus(l.Status().Of(m)) == status && l.Reason().Of(m) == reason
  }

  /** Headers and body read back as what was written. */
  ghost predicate RestRead(m: string, l: Layout, fs: seq<Field>, body: string) {
    && |HeadersOf(m, l)| == |fs|
    && (forall i :: 0 <= i < |fs| ==> HeadersOf(m, l)[i] == FinalHeader(fs[i], |body|))
    && l.pBody <= |m| && 0 <= l.pBody && m[l.pBody..] == body
  }

  lemma RequestPacks(uri: string, verb: Method, p: Protocol, base: Layout)
    requires p.Valid() && OpenRequest(uri, verb).Accepted()
    ensures var line := OpenRequest(uri, verb).Text(p);
      && GuessKind(line, Parts(line)) == Request
      && PackRequest(base, Parts(line), |line|).Parsed?
      && WellSpaced(line, Request, Parts(line))
  {
    RequestLine(uri, verb, p);
    ProtocolWord(p);
  }

  lemma ReplyPacks(status: int, reason: string, p: Protocol, base: Layout)
    requires p.Valid() && OpenReply(status, reason).Accepted()
    ensures var line := OpenReply(status, reason).Text(p);
      && (GuessKind(line, Parts(line)) == Reply <==> !IsProtocolName(FirstWord(reason)))
      && (PackReply(base, Parts(line), |line|).Parsed? <==> |reason| <= MAX_REASON_LENGTH)
      && WellSpaced(line, Reply, Parts(line))
  {
    ReplyLine(status, reason, p);
  }

  lemma ReportPacks(uri: string, status: int, reason: string, p: Protocol, base: Layout)
    requires p.Valid() && OpenReport(uri, status, reason).Accepted()
    ensures var line := OpenReport(uri, status, reason).Text(p);
      && GuessKind(line, Parts(line)) == Report
      && (PackReport(base, Parts(line), |line|).Parsed? <==> |reason| <= MAX_REASON_LENGTH)
      && WellSpaced(line, Report, Parts(line))
  {
    ReportLine(uri, status, reason, p);
  }

  /** The start line packs exactly when its reason is short enough and its kind is clear. */
  lemma OpeningPacks(p: Protocol, o: Opening, h: int)
    requires p.Valid() && o.Accepted() && |o.Text(p)| <= 0xFFFF
    ensures var line := o.Text(p);
      var kind := GuessKind(line, Parts(line));
      var r := SetStartLine(line + p.Newline(), kind, Parts(line), h);
      && (kind == o.MsgKind() <==> Unambiguous(o))
      && (Unambiguous(o) ==> (r.Parsed? <==> !o.OpenRequest? ==> |o.reason| <= MAX_REASON_LENGTH))
      && (Unambiguous(o) ==> WellSpaced(line, kind, Parts(line)))
  {
    var line := o.Text(p);
    OpeningSolid(o, p);
    PackedOf(line, p.Newline(), GuessKind(line, Parts(line)), Parts(line), h);
    var base := Layout(h, |line|, 0, 0, 0, |p.Newline()|);
    match o
    case OpenRequest(uri, verb) => RequestPacks(uri, verb, p, base);
    case OpenReply(status, reason) => ReplyPacks(status, reason, p, base);
    case OpenReport(uri, status, reason) => ReportPacks(uri, status, reason, p, base);
  }

  /** When the fields are the words of the line, they read back as what was opened. */
  lemma WordsRead(m: string, l: Layout, p: Protocol, o: Opening)
    requires p.Valid() && o.Accepted() && l.Type() == o.MsgKind() && CodeFits(o)
    requires FieldsAreWords(m, l, o.MsgKind(), o.Text(p), Parts(o.Text(p)))
    ensures OpeningRead(m, l, p, o)
  {
    ParseProtocolInverts(p.ToString(), p);
    match o
    case OpenRequest(uri, verb) =>
      RequestLine(uri, verb, p);
      ParseMethodInverts(verb.ToString(), verb);
    case OpenReply(status, reason) =>
      ReplyLine(status, reason, p);
      StatusRoundTrip(status);
    case OpenReport(uri, status, reason) =>
      ReportLine(uri, status, reason, p);
      StatusRoundTrip(status);
  }

  lemma FinalLinesSolid(fs: seq<Field>, size: nat)
    requires AllAccepted(fs)
    ensures Solid(FinalLines(fs, size))
    ensures forall i :: 0 <= i < |fs| ==> HeadersIn(FinalLines(fs, size))[i] == FinalHeader(fs[i], size)
  {
    forall i | 0 <= i < |fs|
      ensures FinalLines(fs, size)[i] != "" && NoEol(FinalLines(fs, size)[i])
      ensures HeadersIn(FinalLines(fs, size))[i] == FinalHeader(fs[i], size)
    {
      FinalLineReads(fs[i], size);
    }
  }

  /** The sections of a released message. */
  lemma MessageSections(p: Protocol, o: Opening, fs: seq<Field>, body: string)
    requires p.Valid() && o.Accepted() && AllAccepted(fs)
    ensures SectionsOf(Message(p, o, fs, body), o.Text(p), p.Newline(), JoinedHeaders(p, fs, |body|), body)
  {
    OpeningSolid(o, p);
    FinalLinesSolid(fs, |body|);
    LaidOccurs(o.Text(p), p.Newline(), JoinedHeaders(p, fs, |body|), body);
    LaidSections(Message(p, o, fs, body), o.Text(p), p.Newline(), FinalLines(fs, |body|), JoinedHeaders(p, fs, |body|), body);
  }

  /** The view of any parsed message whose sections are known. */
  lemma ViewParsed(m: string, kind: Kind, start: string, nl: string, lines: seq<string>, j: string, body: string)
    requires Solid(lines) && IsNewline(nl) && j == JoinLines(lines, nl) && SectionsOf(m, start, nl, j, body)
    requires Parse(m, kind).Parsed?
    ensures var l := Parse(m, kind).layout;
      && l.pBody == HeadLength(start, nl, j) && l.Packed()
      && HeadersOf(m, l) == HeadersIn(lines)
      && m[l.pBody..] == body
  {
    hide JoinLines, HeadersIn, HeadersOf;
    ParsedPlaces(m, kind);
    ViewLaid(m, start, nl, lines, j, body, Parse(m, kind).layout);
  }

  /** A released message that parses gives back its headers and its body, whatever kind it is taken for. */
  lemma RestReadBack(p: Protocol, o: Opening, fs: seq<Field>, body: string, kind: Kind)
    requires p.Valid() && o.Accepted() && AllAccepted(fs)
    requires Parse(Message(p, o, fs, body), kind).Parsed?
    ensures RestRead(Message(p, o, fs, body), Parse(Message(p, o, fs, body), kind).layout, fs, body)
  {
    var m, lines := Message(p, o, fs, body), FinalLines(fs, |body|);
    MessageSections(p, o, fs, body);
    FinalLinesSolid(fs, |body|);
    ViewParsed(m, kind, o.Text(p), p.Newline(), lines, JoinedHeaders(p, fs, |body|), body);
  }

  /** A released message parses as its own kind exactly when it fits and its kind is clear. */
  lemma KindReadBack(p: Protocol, o: Opening, fs: seq<Field>, body: string)
    requires p.Valid() && o.Accepted() && AllAccepted(fs)
    ensures var m := Message(p, o, fs, body);
      (Parse(m, Unknown).Parsed? && EffectiveKind(StartLineOf(m), Unknown) == o.MsgKind())
      <==> Fits(p, o, fs, |body|) && Unambiguous(o)
    ensures StartLineOf(Message(p, o, fs, body)) == o.Text(p)
  {
    var m := Message(p, o, fs, body);
    var j := JoinedHeaders(p, fs, |body|);
    MessageSections(p, o, fs, body);
    ParseLaid(m, o.Text(p), p.Newline(), j, body, Unknown);
    var h := HeadLength(o.Text(p), p.Newline(), j);
    if h <= 0xFFFF {
      OpeningPacks(p, o, h);
    }
  }

  /**
   Parsing what the writer releases gives back the kind, the start-line fields,
   the headers and the body exactly when the head and the reason fit their
   offsets, the status code fits its digits and a reply's reason does not start
   with a protocol name.
   */
  lemma RoundTrip(p: Protocol, o: Opening, fs: seq<Field>, body: string)
    requires p.Valid() && o.Accepted() && AllAccepted(fs)
    ensures var m := Message(p, o, fs, body);
      var r := Parse(m, Unknown);
      (r.Parsed? && OpeningRead(m, r.layout, p, o) && RestRead(m, r.layout, fs, body))
      <==> Fits(p, o, fs, |body|) && CodeFits(o) && Unambiguous(o)
  {
    var m := Message(p, o, fs, body);
    var r := Parse(m, Unknown);
    KindReadBack(p, o, fs, body);
    if r.Parsed? {
      OpeningSolid(o, p);
      LayoutSound(m, Unknown);
      assert r.layout.Type() == EffectiveKind(o.Text(p), Unknown);
      if Fits(p, o, fs, |body|) && CodeFits(o) && Unambiguous(o) {
        RestReadBack(p, o, fs, body, Unknown);
        OpeningPacks(p, o, 0);
        FieldsExact(m, Unknown);
        WordsRead(m, r.layout, p, o);
      }
    }
  }

  /** The start line packs as its own kind exactly when its reason is short enough. */
  lemma OpeningPacksAs(p: Protocol, o: Opening, h: int)
    requires p.Valid() && o.Accepted() && |o.Text(p)| <= 0xFFFF
    ensures var line := o.Text(p);
      && (SetStartLine(line + p.Newline(), o.MsgKind(), Parts(line), h).Parsed? <==>
          (!o.OpenRequest? ==> |o.reason| <= MAX_REASON_LENGTH))
      && WellSpaced(line, o.MsgKind(), Parts(line))
  {
    hide Parts;
    var line := o.Text(p);
    OpeningSolid(o, p);
    PackedOf(line, p.Newline(), o.MsgKind(), Parts(line), h);
    var base := Layout(h, |line|, 0, 0, 0, |p.Newline()|);
    match o
    case OpenRequest(uri, verb) => RequestPacks(uri, verb, p, base);
    case OpenReply(status, reason) => ReplyPacks(status, reason, p, base);
    case OpenReport(uri, status, reason) => ReportPacks(uri, status, reason, p, base);
  }

  /**
   Parsing what the writer releases as the kind that was written gives back the
   start-line fields, the headers and the body exactly when the head and the
   reason fit their offsets and the status code fits its digits, whatever the
   reason starts with.
   */
  lemma RoundTripAs(p: Protocol, o: Opening, fs: seq<Field>, body: string)
    requires p.Valid() && o.Accepted() && AllAccepted(fs)
    ensures var m := Message(p, o, fs, body);
      var r := Parse(m, o.MsgKind());
      && (r.Parsed? <==> Fits(p, o, fs, |body|))
      && ((r.Parsed? && OpeningRead(m, r.layout, p, o) && RestRead(m, r.layout, fs, body))
          <==> Fits(p, o, fs, |body|) && CodeFits(o))
  {
    hide Parts, Message;
    var m, j := Message(p, o, fs, body), JoinedHeaders(p, fs, |body|);
    var r, kind := Parse(m, o.MsgKind()), o.MsgKind();
    MessageSections(p, o, fs, body);
    ParseLaid(m, o.Text(p), p.Newline(), j, body, kind);
    StartIs(p, o, fs, body);
    var h := HeadLength(o.Text(p), p.Newline(), j);
    if h <= 0xFFFF {
      OpeningPacksAs(p, o, h);
      if r.Parsed? {
        OpeningSolid(o, p);
        LayoutSound(m, kind);
        RestReadBack(p, o, fs, body, kind);
        FieldsExact(m, kind);
        if CodeFits(o) {
          WordsRead(m, r.layout, p, o);
        }
      }
    }
  }

  lemma StartIs(p: Protocol, o: Opening, fs: seq<Field>, body: string)
    requires p.Valid() && o.Accepted() && AllAccepted(fs)
    ensures StartLineOf(Message(p, o, fs, body)) == o.Text(p)
  {
    KindReadBack(p, o, fs, body);
  }

  /**
   The protocol of a released message that parses is the one it was written in,
   unless the message is a reply taken for a request: then it is the one its
   reason names.
   */
  lemma ProtocolRead(p: Protocol, o: Opening, fs: seq<Field>, body: string)
    requires p.Valid() && o.Accepted() && AllAccepted(fs)
    requires Parse(Message(p, o, fs, body), Unknown).Parsed?
    ensures var m := Message(p, o, fs, body);
      ParseProtocol(Parse(m, Unknown).layout.Protocol().Of(m)) == if Unambiguous(o) then p else ParseProtocol(o.reason)
  {
    hide Parse, Parts, Message, FirstWord, ParseProtocol;
    var m := Message(p, o, fs, body);
    OpeningSolid(o, p);
    KindReadBack(p, o, fs, body);
    if Unambiguous(o) {
      OpeningFits(p, o, fs, body);
      OpeningPacks(p, o, 0);
      FieldsExact(m, Unknown);
      ParseProtocolInverts(p.ToString(), p);
      ProtocolWordOf(m, Parse(m, Unknown).layout, p, o);
    } else {
      Misread(p, o, fs, body);
    }
  }

  /** A message that parses has a start line within 16 bits. */
  lemma OpeningFits(p: Protocol, o: Opening, fs: seq<Field>, body: string)
    requires p.Valid() && o.Accepted() && AllAccepted(fs) && Parse(Message(p, o, fs, body), Unknown).Parsed?
    ensures |o.Text(p)| <= 0xFFFF
  {
    hide Parse, Message;
    MessageSections(p, o, fs, body);
    ParseLaid(Message(p, o, fs, body), o.Text(p), p.Newline(), JoinedHeaders(p, fs, |body|), body, Unknown);
  }

  lemma ProtocolWordOf(m: string, l: Layout, p: Protocol, o: Opening)
    requires p.Valid() && o.Accepted() && FieldsAreWords(m, l, o.MsgKind(), o.Text(p), Parts(o.Text(p)))
    ensures l.Protocol().Of(m) == p.ToString()
  {
    match o
    case OpenRequest(uri, verb) => RequestLine(uri, verb, p);
    case OpenReply(status, reason) => ReplyLine(status, reason, p);
    case OpenReport(uri, status, reason) => ReportLine(uri, status, reason, p);
  }

  /** A reply line with a protocol name behind its status, taken for a request: only a lone name leaves it well formed. */
  lemma MisreadPacks(status: int, reason: string, p: Protocol, base: Layout)
    requires OpenReply(status, reason).Accepted() && p.Valid() && IsProtocolName(FirstWord(reason))
    ensures var line := OpenReply(status, reason).Text(p);
      var ps := Parts(line);
      && GuessKind(line, ps) == Request && WellSpaced(line, Request, ps)
      && (FirstWord(reason) == reason ==> PackRequest(base, ps, |line|).Parsed?)
      && (FirstWord(reason) != reason ==> PackRequest(base, ps, |line|) == Failed(StartLineMalformed, base.pBody))
      && PartText(line, ps, 0) == p.ToString() && PartText(line, ps, 1) == StatusText(status)
      && PartText(line, ps, 2) == FirstWord(reason)
  {
    hide Parts, FirstWord, StatusText, NoSpace;
    var line := OpenReply(status, reason).Text(p);
    var a, b := p.ToString(), StatusText(status);
    ProtocolWord(p);
    StatusWord(status);
    SpacedOccurs(a, b, reason);
    ReplyParts(line, a, b, reason, |a|, |a| + |b| + 1);
    MisreadCut(line, a, b, reason, |a|, |a| + |b| + 1);
    NameIsShort(FirstWord(reason));
  }

  lemma NameIsShort(v: string)
    requires IsProtocolName(v)
    ensures 0 < |v| <= 8
  {
  }

  lemma MisreadCut(line: string, a: string, b: string, c: string, e: nat, f: nat)
    requires NoSpace(a) && NoSpace(b) && Spaced(line, a, b, c) && e == |a| && f == |a| + |b| + 1
    ensures |Parts(line)| == if FirstWord(c) == c then 3 else 4
  {
    hide NoSpace, FirstWord, Parts;
    ThirdPart(line, f + 1, c);
    TwoParts(line, a, b, c, e, f);
  }

  /** A third part that is not the rest of the line is followed by a fourth. */
  lemma ThirdPart(line: string, i: nat, c: string)
    requires OccursAt(line, i, c) && i + |c| == |line|
    ensures |PartsFrom(line, i, 2)| == if FirstWord(c) == c then 1 else 2
  {
    PartOfRest(line, i, c);
  }

  /** Parsing such a reply, whatever follows its start line. */
  lemma MisreadLaid(m: string, p: Protocol, o: Opening, j: string, body: string)
    requires p.Valid() && o.Accepted() && o.OpenReply? && IsProtocolName(FirstWord(o.reason))
    requires SectionsOf(m, o.Text(p), p.Newline(), j, body)
    ensures var h, r := HeadLength(o.Text(p), p.Newline(), j), Parse(m, Unknown);
      && EffectiveKind(o.Text(p), Unknown) == Request && WellSpaced(o.Text(p), Request, Parts(o.Text(p)))
      && (r.Parsed? <==> h <= 0xFFFF && FirstWord(o.reason) == o.reason)
      && (h > 0xFFFF ==> r == Failed(HeaderTooBig, 0))
      && (h <= 0xFFFF && FirstWord(o.reason) != o.reason ==> r == Failed(StartLineMalformed, h))
  {
    var line, h := o.Text(p), HeadLength(o.Text(p), p.Newline(), j);
    ParseLaid(m, line, p.Newline(), j, body, Unknown);
    MisreadPacks(o.status, o.reason, p, Layout(h, |line|, 0, 0, 0, |p.Newline()|));
    if h <= 0xFFFF {
      OpeningSolid(o, p);
      PackedOf(line, p.Newline(), Request, Parts(line), h);
    }
  }

  /**
   A reply whose reason starts with a protocol name is taken for a request, with
   its protocol as method and its status as URI. It parses exactly if the head
   fits and the reason is no more than that name; with more words its start line
   is malformed.
   */
  lemma Misread(p: Protocol, o: Opening, fs: seq<Field>, body: string)
    requires p.Valid() && o.Accepted() && AllAccepted(fs) && o.OpenReply? && IsProtocolName(FirstWord(o.reason))
    ensures var m, h := Message(p, o, fs, body), HeadLength(o.Text(p), p.Newline(), JoinedHeaders(p, fs, |body|));
      var r := Parse(m, Unknown);
      && (r.Parsed? <==> h <= 0xFFFF && FirstWord(o.reason) == o.reason)
      && (r.Parsed? ==>
            && r.layout.Type() == Request && r.layout.Method().Of(m) == p.ToString()
            && r.layout.Uri().Of(m) == StatusText(o.status) && r.layout.Protocol().Of(m) == o.reason)
      && (h > 0xFFFF ==> r == Failed(HeaderTooBig, 0))
      && (h <= 0xFFFF && FirstWord(o.reason) != o.reason ==> r == Failed(StartLineMalformed, h))
  {
    hide Parse, Message, FirstWord, Parts;
    var m, j := Message(p, o, fs, body), JoinedHeaders(p, fs, |body|);
    MessageSections(p, o, fs, body);
    MisreadLaid(m, p, o, j, body);
    if Parse(m, Unknown).Parsed? {
      OpeningSolid(o, p);
      KindReadBack(p, o, fs, body);
      LayoutSound(m, Unknown);
      FieldsExact(m, Unknown);
      MisreadPacks(o.status, o.reason, p, Parse(m, Unknown).layout);
    }
  }
}

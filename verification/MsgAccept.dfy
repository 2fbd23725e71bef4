/**
 Which messages are accepted, as which kind, with which offsets, and which error
 the others meet: stated over line breaks, words and lengths alone.
 */
module MsgAccept {
  import opened Options
  import opened MsgText
  import opened MsgTables
  import opened MsgLayout
  import opened MsgLayoutSound

  // ---------------------------------------------------------------------------
  // Lines
  // ---------------------------------------------------------------------------

  /** How long the line break at this place is: CR LF counts as one. */
  function BreakSize(msg: string, p: nat): nat {
    if p >= |msg| then 0
    else if msg[p] == '\r' && p + 1 < |msg| && msg[p + 1] == '\n' then 2
    else 1
  }

  /** The start line ends here: at the first line break, or where the message ends. */
  predicate FirstBreak(msg: string, eol: nat) {
    && eol <= |msg| && (forall i :: 0 <= i < eol ==> !IsEol(msg[i]))
    && (eol < |msg| ==> IsEol(msg[eol]))
  }

  /** Where the second line begins. */
  function Behind(msg: string, eol: nat): nat {
    eol + BreakSize(msg, eol)
  }

  /** A line of the text behind `from` begins here. */
  predicate LineBegins(msg: string, from: nat, p: nat) {
    p == from || (from < p <= |msg| && IsEol(msg[p - 1]) && !(msg[p - 1] == '\r' && p < |msg| && msg[p] == '\n'))
  }

  /** An empty line of the text behind `from`: a line break where a line begins. */
  predicate EmptyLineAt(msg: string, from: nat, p: nat) {
    from <= p < |msg| && IsEol(msg[p]) && LineBegins(msg, from, p)
  }

  ghost predicate FirstEmptyLine(msg: string, from: nat, p: nat) {
    EmptyLineAt(msg, from, p) && forall q: nat :: from <= q < p ==> !EmptyLineAt(msg, from, q)
  }

  lemma FirstBreakIs(msg: string, eol: nat)
    requires FirstBreak(msg, eol)
    ensures LineEnd(msg, 0) == eol && NextLine(msg, 0) == Behind(msg, eol)
  {
    LineEndIs(msg, 0, eol);
  }

  lemma LineEndIs(msg: string, pos: nat, e: nat)
    requires pos <= e <= |msg| && (forall i :: pos <= i < e ==> !IsEol(msg[i])) && (e < |msg| ==> IsEol(msg[e]))
    ensures LineEnd(msg, pos) == e && NextLine(msg, pos) == e + BreakSize(msg, e)
  {
    var x := LineEnd(msg, pos);
    assert NoEolIn(msg, pos, x);
  }

  /** No empty line before the next line if this one is not empty. */
  lemma NotEmptyLine(msg: string, from: nat, pos: nat, q: nat)
    requires from <= pos < |msg| && LineBegins(msg, from, pos) && LineEnd(msg, pos) != pos && pos <= q < NextLine(msg, pos)
    ensures !EmptyLineAt(msg, from, q)
  {
    var e := LineEnd(msg, pos);
    if q < e {
      assert !IsEol(msg[q]);
    } else if q == e {
      assert !IsEol(msg[e - 1]);
    }
  }

  lemma NextBegins(msg: string, from: nat, pos: nat)
    requires from <= pos < |msg| && LineEnd(msg, pos) < |msg|
    ensures LineBegins(msg, from, NextLine(msg, pos))
  {
  }

  /** The head ends with the first empty line, if there is one. */
  lemma {:induction false} HeadersEndIs(msg: string, from: nat, pos: nat) returns (p: Option<nat>)
    requires from <= pos < |msg| && LineBegins(msg, from, pos) && forall q: nat :: from <= q < pos ==> !EmptyLineAt(msg, from, q)
    ensures p.None? ==> HeadersEnd(msg, pos).None? && forall q: nat :: !EmptyLineAt(msg, from, q)
    ensures p.Some? ==> FirstEmptyLine(msg, from, p.value) && HeadersEnd(msg, pos) == Some(p.value + BreakSize(msg, p.value))
    decreases |msg| - pos
  {
    hide LineBegins, EmptyLineAt, FirstEmptyLine;
    if LineEnd(msg, pos) == pos {
      p := Some(pos);
      EmptyHere(msg, from, pos);
    } else {
      var next := NextLine(msg, pos);
      forall q | from <= q < next
        ensures !EmptyLineAt(msg, from, q)
      {
        if pos <= q {
          NotEmptyLine(msg, from, pos, q);
        }
      }
      if next == |msg| {
        p := None;
        NoneBehind(msg, from, next);
      } else {
        NextBegins(msg, from, pos);
        p := HeadersEndIs(msg, from, next);
      }
    }
  }

  lemma EmptyHere(msg: string, from: nat, pos: nat)
    requires from <= pos < |msg| && LineBegins(msg, from, pos) && LineEnd(msg, pos) == pos
    requires forall q: nat :: from <= q < pos ==> !EmptyLineAt(msg, from, q)
    ensures FirstEmptyLine(msg, from, pos) && NextLine(msg, pos) == pos + BreakSize(msg, pos)
  {
    hide LineBegins;
  }

  lemma NoneBehind(msg: string, from: nat, next: nat)
    requires next == |msg| && forall q: nat :: from <= q < next ==> !EmptyLineAt(msg, from, q)
    ensures forall q: nat :: !EmptyLineAt(msg, from, q)
  {
    hide LineBegins;
  }

  // ---------------------------------------------------------------------------
  // Words
  // ---------------------------------------------------------------------------

  /** The line cut into words at its first three spaces; an empty line has none. */
  ghost predicate Words(line: string, ps: seq<Span>) {
    if line == "" then ps == [] else |ps| <= 4 && Cuts(line, ps, 0, 0)
  }

  function Size(s: Span): int {
    s.end - s.start
  }

  function Word(line: string, ps: seq<Span>, k: nat): string {
    if k < |ps| && ps[k].start <= ps[k].end <= |line| then line[ps[k].start..ps[k].end] else ""
  }

  predicate NamesProtocol(w: string) {
    w == "Tell/0" || w == "HTTP/1.0" || w == "HTTP/1.1"
  }

  /** The line has a protocol where a request has it. */
  predicate RequestProtocol(line: string, ps: seq<Span>) {
    |ps| > 2 && NamesProtocol(Word(line, ps, 2))
  }

  predicate ReportProtocol(line: string, ps: seq<Span>) {
    |ps| > 1 && NamesProtocol(Word(line, ps, 1))
  }

  /** The first word can be a protocol: it has a slash, or is missing. */
  predicate ReplyWord(line: string, ps: seq<Span>) {
    Word(line, ps, 0) == "" || '/' in Word(line, ps, 0)
  }

  /** What a line is taken for when the reader does not say. */
  predicate LooksLike(line: string, ps: seq<Span>, kind: Kind) {
    match kind
    case Unknown => |ps| == 0
    case Report => |ps| == 1 || (ReportProtocol(line, ps) && !RequestProtocol(line, ps))
    case Reply => |ps| >= 2 && !RequestProtocol(line, ps) && !ReportProtocol(line, ps) && ReplyWord(line, ps)
    case Request =>
      || RequestProtocol(line, ps)
      || (|ps| >= 2 && !ReportProtocol(line, ps) && !ReplyWord(line, ps))
  }

  /** The kind a message is read as: the one the reader gives, else the one its start line looks like. */
  predicate ReadAs(line: string, ps: seq<Span>, given: Kind, kind: Kind) {
    if given == Unknown then LooksLike(line, ps, kind) else kind == given
  }

  lemma WordsAre(line: string, ps: seq<Span>)
    requires Words(line, ps)
    ensures Parts(line) == ps
  {
    if line != "" {
      PartsIff(line, ps);
    }
  }

  /** Every line is read as exactly one kind. */
  lemma ReadAsIff(line: string, ps: seq<Span>, given: Kind, kind: Kind)
    requires Words(line, ps)
    ensures ReadAs(line, ps, given, kind) <==> EffectiveKind(line, given) == kind
  {
    WordsAre(line, ps);
    assert forall w :: IsProtocolName(w) <==> NamesProtocol(w);
    assert forall k: nat :: Word(line, ps, k) == PartText(line, ps, k);
  }

  // ---------------------------------------------------------------------------
  // What each kind allows
  // ---------------------------------------------------------------------------

  /** How many words. */
  predicate RightCount(kind: Kind, ps: seq<Span>) {
    match kind
    case Unknown => false
    case Request => 2 <= |ps| <= 3
    case Reply => |ps| >= 2
    case Report => true
  }

  /** How long the words and what follows them may be, in a line of this length. */
  predicate RightLengths(kind: Kind, ps: seq<Span>, len: int) {
    match kind
    case Unknown => true
    case Request => (|ps| > 0 ==> Size(ps[0]) <= 14) && (|ps| == 3 ==> Size(ps[2]) <= 149)
    case Reply => len <= 149 && (|ps| > 0 ==> len - Size(ps[0]) - 1 <= 132)
    case Report =>
      && (|ps| >= 2 ==> len - Size(ps[0]) - 1 <= 149)
      && (|ps| >= 3 ==> len - Size(ps[0]) - Size(ps[1]) - 2 <= 132)
  }

  /** A status at the end of the line has three characters or none; behind one that goes on there are at least four. */
  predicate RightStatus(kind: Kind, ps: seq<Span>, len: int) {
    match kind
    case Unknown => true
    case Request => true
    case Reply =>
      && (|ps| == 2 ==> Size(ps[1]) == 0 || Size(ps[1]) == 3)
      && (|ps| > 2 ==> len - Size(ps[0]) - 1 >= 4)
    case Report =>
      && (|ps| == 3 ==> Size(ps[2]) == 0 || Size(ps[2]) == 3)
      && (|ps| > 3 ==> len - Size(ps[0]) - Size(ps[1]) - 2 >= 4)
  }

  /** The start line ends in LF or CR LF, and is not just an LF. */
  predicate RightBreak(msg: string, eol: nat) {
    && eol < |msg|
    && (BreakSize(msg, eol) == 2 || (msg[eol] == '\n' && eol > 0))
  }

  /** The offsets of a line of this kind. */
  function LayoutFor(msg: string, kind: Kind, ps: seq<Span>, eol: nat, body: nat): Layout {
    var behind0 := if |ps| > 0 then eol - Size(ps[0]) - 1 else 0;
    var behind1 := if |ps| > 1 then behind0 - Size(ps[1]) - 1 else 0;
    var nl := BreakSize(msg, eol);
    match kind
    case Request => Layout(body, eol, if |ps| > 0 then Size(ps[0]) + 1 else 0, if |ps| == 3 then Size(ps[2]) else 0, 0, nl)
    case Reply => Layout(body, eol, 0, eol, behind0, nl)
    case _ => Layout(body, eol, 0, if |ps| >= 2 then behind0 else 0, if |ps| >= 3 then behind1 else 0, nl)
  }

  /** What becomes of the words of a start line once the head is there. */
  lemma LinePacks(msg: string, kind: Kind, line: string, ps: seq<Span>, eol: nat, body: nat)
    requires FirstBreak(msg, eol) && eol < |msg| && line == msg[..eol] && Words(line, ps) && eol <= 0xFFFF && body <= 0xFFFF
    ensures var r := SetStartLine(msg[..Behind(msg, eol)], kind, ps, body);
      if !RightBreak(msg, eol) || !RightCount(kind, ps) then r == Failed(StartLineMalformed, body)
      else if !RightLengths(kind, ps, eol) then r == Failed(HeaderTooBig, body)
      else if !RightStatus(kind, ps, eol) then r == Failed(StartLineMalformed, body)
      else r == Parsed(LayoutFor(msg, kind, ps, eol, body))
  {
    hide Cuts;
    BreakSeen(msg, eol);
    if RightBreak(msg, eol) {
      if line != "" {
        CutsPlaces(line, ps, 0, 0);
      }
      WordsPack(msg, kind, ps, eol, body);
    }
  }

  /** How the newline of the start line is recognised. */
  lemma BreakSeen(msg: string, eol: nat)
    requires FirstBreak(msg, eol) && eol < |msg|
    ensures var w := msg[..Behind(msg, eol)];
      && (RightBreak(msg, eol) <==> |w| >= 2 && w[|w| - 1] == '\n')
      && (RightBreak(msg, eol) ==> (w[|w| - 2] == '\r' <==> BreakSize(msg, eol) == 2))
  {
  }

  lemma WordsPack(msg: string, kind: Kind, ps: seq<Span>, eol: nat, body: nat)
    requires eol < |msg| && eol <= 0xFFFF && body <= 0xFFFF && RightBreak(msg, eol) && |ps| <= 4
    requires var w := msg[..Behind(msg, eol)];
      |w| >= 2 && w[|w| - 1] == '\n' && (w[|w| - 2] == '\r' <==> BreakSize(msg, eol) == 2)
    requires |ps| > 0 ==> ps[0].start == 0 && ps[0].end <= eol && ps[|ps| - 1].end == eol
    requires |ps| > 1 ==> ps[1].start == ps[0].end + 1 && ps[1].start <= ps[1].end <= eol
    requires |ps| > 2 ==> ps[2].start == ps[1].end + 1 && ps[2].start <= ps[2].end <= eol
    requires |ps| > 3 ==> ps[3].start == ps[2].end + 1 && ps[3].start <= eol
    ensures var r := SetStartLine(msg[..Behind(msg, eol)], kind, ps, body);
      if !RightCount(kind, ps) then r == Failed(StartLineMalformed, body)
      else if !RightLengths(kind, ps, eol) then r == Failed(HeaderTooBig, body)
      else if !RightStatus(kind, ps, eol) then r == Failed(StartLineMalformed, body)
      else r == Parsed(LayoutFor(msg, kind, ps, eol, body))
  {
  }

  // ---------------------------------------------------------------------------
  // The whole message
  // ---------------------------------------------------------------------------

  /** Parsing comes down to the start line once the first empty line is found. */
  lemma ParseAt(msg: string, given: Kind, kind: Kind, eol: nat, ps: seq<Span>) returns (p: Option<nat>)
    requires FirstBreak(msg, eol) && Words(msg[..eol], ps) && ReadAs(msg[..eol], ps, given, kind)
    ensures p.None? ==> forall q: nat :: !EmptyLineAt(msg, Behind(msg, eol), q)
    ensures p.Some? ==> eol < |msg| && FirstEmptyLine(msg, Behind(msg, eol), p.value)
    ensures var r := Parse(msg, given);
      if eol > 0xFFFF then r == Failed(HeaderTooBig, 0)
      else if p.None? then r == Failed(HeaderIncomplete, 0)
      else
        var h := p.value + BreakSize(msg, p.value);
        if h > 0xFFFF then r == Failed(HeaderTooBig, 0)
        else r == SetStartLine(msg[..Behind(msg, eol)], kind, ps, h)
  {
    hide Cuts, EmptyLineAt, SetStartLine, LooksLike;
    FirstBreakIs(msg, eol);
    WordsAre(msg[..eol], ps);
    ReadAsIff(msg[..eol], ps, given, kind);
    var next := Behind(msg, eol);
    if next < |msg| {
      NothingBefore(msg, next);
      p := HeadersEndIs(msg, next, next);
    } else {
      p := None;
      NoneBehind(msg, next, next);
    }
  }

  lemma NothingBefore(msg: string, from: nat)
    ensures LineBegins(msg, from, from)
  {
  }

  /** The body starts here: behind the first empty line. */
  ghost predicate BodyAt(msg: string, eol: nat, h: nat) {
    exists p: nat :: FirstEmptyLine(msg, Behind(msg, eol), p) && h == p + BreakSize(msg, p)
  }

  ghost predicate HasEmptyLine(msg: string, eol: nat) {
    exists q: nat :: EmptyLineAt(msg, Behind(msg, eol), q)
  }

  /**
   A message is accepted exactly if it has an empty line within 65535 bytes, its
   start line ends in LF or CR LF, and the words of that line are in number and
   length what the kind allows; its offsets are then those of the words.
   Otherwise it meets: HeaderIncomplete without an empty line, HeaderTooBig if
   the head or the words are too long, StartLineMalformed for the rest.
   */
  lemma AcceptedIff(msg: string, given: Kind, kind: Kind, eol: nat, ps: seq<Span>)
    requires FirstBreak(msg, eol) && Words(msg[..eol], ps) && ReadAs(msg[..eol], ps, given, kind)
    ensures var r := Parse(msg, given);
      && (r.Parsed? <==>
            && (exists h: nat :: BodyAt(msg, eol, h) && h <= 0xFFFF) && RightBreak(msg, eol)
            && RightCount(kind, ps) && RightLengths(kind, ps, eol) && RightStatus(kind, ps, eol))
      && (r == Failed(HeaderIncomplete, 0) <==> eol <= 0xFFFF && !HasEmptyLine(msg, eol))
      && (r == Failed(HeaderTooBig, 0) <==> eol > 0xFFFF || exists h: nat :: BodyAt(msg, eol, h) && h > 0xFFFF)
      && (forall h: nat :: BodyAt(msg, eol, h) && h <= 0xFFFF ==>
            && (r.Parsed? ==> r.layout == LayoutFor(msg, kind, ps, eol, h))
            && (r == Failed(HeaderTooBig, h) <==> RightBreak(msg, eol) && RightCount(kind, ps) && !RightLengths(kind, ps, eol))
            && (r == Failed(StartLineMalformed, h) <==>
                  || !RightBreak(msg, eol) || !RightCount(kind, ps)
                  || (RightLengths(kind, ps, eol) && !RightStatus(kind, ps, eol))))
  {
    hide Cuts, Parse, SetStartLine, LooksLike, EmptyLineAt, LayoutFor, Words;
    var p := ParseAt(msg, given, kind, eol, ps);
    if p.Some? {
      var h := p.value + BreakSize(msg, p.value);
      OneBody(msg, eol, p.value);
      assert BodyAt(msg, eol, h);
      assert HasEmptyLine(msg, eol);
      if h <= 0xFFFF {
        LinePacks(msg, kind, msg[..eol], ps, eol, h);
      }
    }
  }

  /** There is at most one place where the body starts, and it is behind the start line. */
  lemma OneBody(msg: string, eol: nat, p: nat)
    requires FirstEmptyLine(msg, Behind(msg, eol), p)
    ensures forall h: nat :: BodyAt(msg, eol, h) <==> h == p + BreakSize(msg, p)
    ensures eol < p + BreakSize(msg, p)
  {
    hide LineBegins;
    var from := Behind(msg, eol);
    forall q: nat | FirstEmptyLine(msg, from, q)
      ensures q == p
    {
      assert !(q < p) && !(p < q);
    }
  }

  // ---------------------------------------------------------------------------
  // The fields of any accepted message
  // ---------------------------------------------------------------------------

  /** The characters of the line from `a` to `b`, as far as there are any. */
  function Cut(line: string, a: int, b: int): string {
    if 0 <= a <= b <= |line| then line[a..b] else ""
  }

  /** Status and reason as they are read from what follows the word before: three characters, one skipped, the rest. */
  predicate StatusRead(msg: string, l: Layout, line: string, at: int) {
    && l.Status().Of(msg) == (if at < |line| then Cut(line, at, at + 3) else "")
    && l.Reason().Of(msg) == Cut(line, at + 4, |line|)
  }

  /** What the fields of an accepted message are, whatever the spacing of its line. */
  predicate FieldsRead(msg: string, l: Layout, kind: Kind, line: string, ps: seq<Span>) {
    match kind
    case Unknown => false
    case Request =>
      && |ps| >= 2
      && l.Method().Of(msg) == Word(line, ps, 0) && l.Protocol().Of(msg) == Word(line, ps, 2)
      && l.Uri().Of(msg) == (if Word(line, ps, 2) != "" then Word(line, ps, 1) else Cut(line, ps[1].start, |line|))
      && l.Status().Of(msg) == "" && l.Reason().Of(msg) == ""
    case Reply =>
      && |ps| >= 2
      && l.Method().Of(msg) == "" && l.Uri().Of(msg) == ""
      && l.Protocol().Of(msg) == (if ps[1].start < |line| then Word(line, ps, 0) else line)
      && StatusRead(msg, l, line, ps[1].start)
    case Report =>
      && l.Method().Of(msg) == ""
      && l.Uri().Of(msg) == (if |ps| > 1 && ps[1].start < |line| then Word(line, ps, 0) else line)
      && l.Protocol().Of(msg) == (if |ps| == 3 && ps[2].start == |line| then Cut(line, ps[1].start, |line|) else Word(line, ps, 1))
      && StatusRead(msg, l, line, if |ps| > 2 then ps[2].start else |line|)
  }

  /** A range of the message inside its start line. */
  lemma RangeIs(msg: string, line: string, r: HeadRange, a: int, b: int)
    requires line <= msg && 0 <= a <= b <= |line| && r.length == b - a && (r.length > 0 ==> r.start == a)
    ensures r.Of(msg) == Cut(line, a, b) == line[a..b]
  {
  }

  lemma NoRange(msg: string, r: HeadRange)
    requires r.length <= 0
    ensures r.Of(msg) == ""
  {
  }

  lemma RequestRead(msg: string, line: string, ps: seq<Span>, eol: nat, h: nat)
    requires eol <= |msg| && line == msg[..eol] && line != "" && |ps| <= 4 && Cuts(line, ps, 0, 0)
    requires RightCount(Request, ps)
    ensures FieldsRead(msg, LayoutFor(msg, Request, ps, eol, h), Request, line, ps)
  {
    hide Cuts, HeadRange.Of;
    CutsPlaces(line, ps, 0, 0);
    var l := LayoutFor(msg, Request, ps, eol, h);
    RangeIs(msg, line, l.Method(), 0, ps[0].end);
    NoRange(msg, l.Status());
    NoRange(msg, l.Reason());
    if |ps| == 2 || Size(ps[2]) == 0 {
      RangeIs(msg, line, l.Uri(), ps[1].start, eol);
      NoRange(msg, l.Protocol());
    } else {
      RangeIs(msg, line, l.Uri(), ps[1].start, ps[1].end);
      RangeIs(msg, line, l.Protocol(), ps[2].start, ps[2].end);
    }
  }

  /** Status and reason at a distance from the end of the line. */
  lemma StatusIs(msg: string, l: Layout, line: string, at: int)
    requires 0 <= at <= |line| <= |msg| && line <= msg && l.slLen == |line| && l.stsRpos == |line| - at
    requires l.stsRpos == 0 || l.stsRpos >= 3
    ensures StatusRead(msg, l, line, at)
  {
    hide HeadRange.Of;
    if at == |line| {
      NoRange(msg, l.Status());
      NoRange(msg, l.Reason());
    } else {
      RangeIs(msg, line, l.Status(), at, at + 3);
      if l.stsRpos >= 4 {
        RangeIs(msg, line, l.Reason(), at + 4, |line|);
      } else {
        NoRange(msg, l.Reason());
      }
    }
  }

  lemma ReplyRead(msg: string, line: string, ps: seq<Span>, eol: nat, h: nat)
    requires eol <= |msg| && line == msg[..eol] && line != "" && |ps| <= 4 && Cuts(line, ps, 0, 0)
    requires RightCount(Reply, ps) && RightStatus(Reply, ps, eol)
    ensures FieldsRead(msg, LayoutFor(msg, Reply, ps, eol, h), Reply, line, ps)
  {
    hide Cuts, HeadRange.Of, StatusRead;
    CutsPlaces(line, ps, 0, 0);
    var l := LayoutFor(msg, Reply, ps, eol, h);
    NoRange(msg, l.Method());
    NoRange(msg, l.Uri());
    StatusIs(msg, l, line, ps[1].start);
    if ps[1].start < |line| {
      RangeIs(msg, line, l.Protocol(), 0, ps[0].end);
    } else {
      RangeIs(msg, line, l.Protocol(), 0, eol);
    }
  }

  lemma ReportUri(msg: string, l: Layout, line: string, ps: seq<Span>)
    requires |line| <= |msg| && line <= msg && line != "" && |ps| <= 4 && Cuts(line, ps, 0, 0) && l.slLen == |line| && l.uriPos == 0
    requires l.prtRpos == (if |ps| > 1 then |line| - ps[1].start else 0)
    ensures l.Uri().Of(msg) == (if |ps| > 1 && ps[1].start < |line| then Word(line, ps, 0) else line)
  {
    hide Cuts, HeadRange.Of;
    CutsPlaces(line, ps, 0, 0);
    if |ps| > 1 && ps[1].start < |line| {
      RangeIs(msg, line, l.Uri(), 0, ps[0].end);
    } else {
      RangeIs(msg, line, l.Uri(), 0, |line|);
    }
  }

  lemma ReportProtocolRead(msg: string, l: Layout, line: string, ps: seq<Span>)
    requires |line| <= |msg| && line <= msg && line != "" && |ps| <= 4 && Cuts(line, ps, 0, 0) && l.slLen == |line|
    requires l.prtRpos == (if |ps| > 1 then |line| - ps[1].start else 0)
    requires l.stsRpos == (if |ps| > 2 then |line| - ps[2].start else 0)
    ensures l.Protocol().Of(msg) == (if |ps| == 3 && ps[2].start == |line| then Cut(line, ps[1].start, |line|) else Word(line, ps, 1))
  {
    hide Cuts, HeadRange.Of;
    CutsPlaces(line, ps, 0, 0);
    if |ps| <= 1 || ps[1].start == |line| {
      NoRange(msg, l.Protocol());
    } else if |ps| == 3 && ps[2].start == |line| {
      RangeIs(msg, line, l.Protocol(), ps[1].start, |line|);
    } else {
      RangeIs(msg, line, l.Protocol(), ps[1].start, ps[1].end);
    }
  }

  lemma ReportRead(msg: string, line: string, ps: seq<Span>, eol: nat, h: nat)
    requires eol <= |msg| && line == msg[..eol] && line != "" && |ps| <= 4 && Cuts(line, ps, 0, 0)
    requires RightStatus(Report, ps, eol)
    ensures FieldsRead(msg, LayoutFor(msg, Report, ps, eol, h), Report, line, ps)
  {
    hide Cuts, HeadRange.Of, StatusRead;
    CutsPlaces(line, ps, 0, 0);
    var l := LayoutFor(msg, Report, ps, eol, h);
    NoRange(msg, l.Method());
    StatusIs(msg, l, line, if |ps| > 2 then ps[2].start else eol);
    ReportUri(msg, l, line, ps);
    ReportProtocolRead(msg, l, line, ps);
  }

  /** Every accepted message with a start line reads as its words say; a missing last word or a long status shifts them. */
  lemma FieldsOfAccepted(msg: string, given: Kind, kind: Kind, eol: nat, ps: seq<Span>)
    requires FirstBreak(msg, eol) && Words(msg[..eol], ps) && ReadAs(msg[..eol], ps, given, kind) && eol > 0
    requires Parse(msg, given).Parsed?
    ensures FieldsRead(msg, Parse(msg, given).layout, kind, msg[..eol], ps)
  {
    hide Cuts, Parse, LooksLike, EmptyLineAt, LayoutFor, FieldsRead, BodyAt;
    AcceptedIff(msg, given, kind, eol, ps);
    var h: nat :| BodyAt(msg, eol, h) && h <= 0xFFFF;
    match kind
    case Unknown =>
    case Request => RequestRead(msg, msg[..eol], ps, eol, h);
    case Reply => ReplyRead(msg, msg[..eol], ps, eol, h);
    case Report => ReportRead(msg, msg[..eol], ps, eol, h);
  }

  // ---------------------------------------------------------------------------
  // Every message, and some small ones
  // ---------------------------------------------------------------------------

  /** Every message has a start line, cut into words in one way, and is read as one kind. */
  lemma EveryMessage(msg: string, given: Kind) returns (kind: Kind, eol: nat, ps: seq<Span>)
    ensures FirstBreak(msg, eol) && Words(msg[..eol], ps) && ReadAs(msg[..eol], ps, given, kind)
    ensures forall k :: ReadAs(msg[..eol], ps, given, k) ==> k == kind
    ensures forall qs :: Words(msg[..eol], qs) ==> qs == ps
    ensures forall e: nat :: FirstBreak(msg, e) ==> e == eol
  {
    hide Cuts;
    eol := LineEnd(msg, 0);
    var line := msg[..eol];
    ps := Parts(line);
    if line != "" {
      PartsIff(line, ps);
    }
    kind := EffectiveKind(line, given);
    forall k
      ensures ReadAs(line, ps, given, k) <==> k == kind
    {
      ReadAsIff(line, ps, given, k);
    }
    forall qs | Words(line, qs)
      ensures qs == ps
    {
      WordsAre(line, qs);
    }
    forall e: nat | FirstBreak(msg, e)
      ensures e == eol
    {
      FirstBreakIs(msg, e);
    }
  }

  /** A message that is just a start line and an empty line. */
  function Tiny(line: string): string {
    line + "\n\n"
  }

  lemma TinyAccepted(line: string, ps: seq<Span>, kind: Kind)
    requires line != "" && NoEol(line) && |line| <= 100 && Words(line, ps) && LooksLike(line, ps, kind)
    requires RightCount(kind, ps) && RightLengths(kind, ps, |line|) && RightStatus(kind, ps, |line|)
    ensures var r := Parse(Tiny(line), Unknown); r.Parsed? && r.layout.Type() == kind && r == Parse(Tiny(line), kind)
  {
    hide Parse, Cuts, LooksLike;
    var msg, n := Tiny(line), |line|;
    assert msg[..n] == line && msg[n] == '\n' && msg[n + 1] == '\n';
    assert forall i :: 0 <= i < n ==> msg[i] == line[i];
    assert FirstBreak(msg, n);
    assert FirstEmptyLine(msg, Behind(msg, n), n + 1);
    assert BodyAt(msg, n, n + 2);
    AcceptedIff(msg, Unknown, kind, n, ps);
    AcceptedIff(msg, kind, kind, n, ps);
    ReadAsIff(line, ps, Unknown, kind);
    FirstBreakIs(msg, n);
    LayoutSound(msg, Unknown);
  }

  /** A line of one, two or three words. */
  lemma OneWord(a: string)
    requires a != "" && NoSpace(a)
    ensures Words(a, [Span(0, |a|)]) && Word(a, [Span(0, |a|)], 0) == a
  {
    assert a[0..|a|] == a;
  }

  lemma TwoWords(line: string, a: string, b: string)
    requires line == a + " " + b && NoSpace(a) && NoSpace(b)
    ensures var ps := [Span(0, |a|), Span(|a| + 1, |line|)];
      Words(line, ps) && Word(line, ps, 0) == a && Word(line, ps, 1) == b
  {
    var ps := [Span(0, |a|), Span(|a| + 1, |line|)];
    assert ps[1..] == [ps[1]];
    assert forall i :: 0 <= i < |a| ==> line[i] == a[i];
    assert forall i :: 0 <= i < |b| ==> line[|a| + 1 + i] == b[i];
    assert line[0..|a|] == a && line[|a| + 1..|line|] == b;
    assert Cuts(line, ps[1..], |a| + 1, 1);
  }

  lemma ThreeWords(line: string, a: string, b: string, c: string)
    requires line == a + " " + b + " " + c && NoSpace(a) && NoSpace(b) && NoSpace(c)
    ensures var ps := [Span(0, |a|), Span(|a| + 1, |a| + 1 + |b|), Span(|a| + |b| + 2, |line|)];
      Words(line, ps) && Word(line, ps, 0) == a && Word(line, ps, 1) == b && Word(line, ps, 2) == c
  {
    var ps := [Span(0, |a|), Span(|a| + 1, |a| + 1 + |b|), Span(|a| + |b| + 2, |line|)];
    assert ps[1..] == [ps[1], ps[2]] && ps[1..][1..] == [ps[2]];
    assert forall i :: 0 <= i < |a| ==> line[i] == a[i];
    assert forall i :: 0 <= i < |b| ==> line[|a| + 1 + i] == b[i];
    assert forall i :: 0 <= i < |c| ==> line[|a| + |b| + 2 + i] == c[i];
    assert line[0..|a|] == a && line[|a| + 1..|a| + 1 + |b|] == b && line[|a| + |b| + 2..|line|] == c;
    assert Cuts(line, ps[1..][1..], |a| + |b| + 2, 2);
    assert Cuts(line, ps[1..], |a| + 1, 1);
  }

  lemma ProtocolSize(w: string)
    ensures NamesProtocol(w) ==> |w| == 6 || |w| == 8
  {
  }

  /** A method and a URI, which may be empty, make a request. */
  lemma TinyRequest(line: string, verb: string, uri: string)
    requires line == verb + " " + uri && NoEol(line) && |line| <= 100
    requires verb != "" && |verb| <= 14 && '/' !in verb && NoSpace(verb) && NoSpace(uri) && !NamesProtocol(uri)
    ensures var r := Parse(Tiny(line), Unknown); r.Parsed? && r.layout.Type() == Request && r == Parse(Tiny(line), Request)
  {
    hide Words, Parse;
    TwoWords(line, verb, uri);
    TinyAccepted(line, [Span(0, |verb|), Span(|verb| + 1, |line|)], Request);
  }

  /** A protocol, which may be missing, and three characters of status make a reply. */
  lemma TinyReply(line: string, protocol: string, status: string)
    requires line == protocol + " " + status && NoEol(line) && |line| <= 100 && NoSpace(protocol) && NoSpace(status)
    requires (protocol == "" || '/' in protocol) && |status| == 3
    ensures var r := Parse(Tiny(line), Unknown); r.Parsed? && r.layout.Type() == Reply && r == Parse(Tiny(line), Reply)
  {
    hide Words, Parse, NamesProtocol, Word;
    ProtocolSize(status);
    TwoWords(line, protocol, status);
    TinyAccepted(line, [Span(0, |protocol|), Span(|protocol| + 1, |line|)], Reply);
  }

  /** A URI alone, with a protocol, or with a protocol and three characters of status, makes a report. */
  lemma TinyReport(uri: string, protocol: string, status: string)
    requires uri != "" && NoSpace(uri) && NoSpace(status) && NamesProtocol(protocol) && |status| == 3
    requires NoEol(uri + " " + protocol + " " + status) && |uri| <= 80
    ensures forall line :: line in {uri, uri + " " + protocol, uri + " " + protocol + " " + status} ==>
      var r := Parse(Tiny(line), Unknown); r.Parsed? && r.layout.Type() == Report && r == Parse(Tiny(line), Report)
  {
    hide Words, Parse;
    var two, three := uri + " " + protocol, uri + " " + protocol + " " + status;
    NoEolConcat(two + " ", status);
    NoEolConcat(two, " ");
    NoEolConcat(uri + " ", protocol);
    NoEolConcat(uri, " ");
    ProtocolSize(status);
    assert NoSpace(protocol);
    assert two + " " + status == three;
    OneWord(uri);
    TinyAccepted(uri, [Span(0, |uri|)], Report);
    TwoWords(two, uri, protocol);
    TinyAccepted(two, [Span(0, |uri|), Span(|uri| + 1, |two|)], Report);
    ThreeWords(three, uri, protocol, status);
    TinyAccepted(three, [Span(0, |uri|), Span(|uri| + 1, |two|), Span(|two| + 1, |three|)], Report);
  }

  /** The smallest messages of each kind, accepted as what they are whether or not the reader says so. */
  lemma SmallestAccepted(line: string, kind: Kind)
    requires (line, kind) in {
      ("GET /a", Request), ("GET ", Request), ("Tell/0 404", Reply), (" 404", Reply),
      ("/a Tell/0 201", Report), ("/a Tell/0", Report), ("/a", Report)}
    ensures var r := Parse(Tiny(line), Unknown); r.Parsed? && r.layout.Type() == kind && r == Parse(Tiny(line), kind)
  {
    hide Parse, Tiny;
    if line == "GET /a" {
      TinyRequest(line, "GET", "/a");
    } else if line == "GET " {
      TinyRequest(line, "GET", "");
    } else if line == "Tell/0 404" {
      assert "Tell/0"[4] == '/';
      TinyReply(line, "Tell/0", "404");
    } else if line == " 404" {
      TinyReply(line, "", "404");
    } else {
      assert "/a" + " " + "Tell/0" == "/a Tell/0";
      assert "/a Tell/0" + " " + "201" == "/a Tell/0 201";
      TinyReport("/a", "Tell/0", "201");
    }
  }
}

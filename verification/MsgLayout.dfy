/**
 The packed layout of a message: how a start line is cut into parts, how the
 kind of message is guessed, and how the parts are stored as small offsets
 counted from both ends of the start line.
 */
module MsgLayout {
  import opened Options
  import opened MsgText
  import opened MsgTables

  const MAX_METHOD_LENGTH := 14
  const MAX_PROTOCOL_LENGTH := 16
  const MAX_STATUS_LENGTH := 3
  const MAX_REASON_LENGTH := 128

  const MAX_URI_POS := MAX_METHOD_LENGTH + 1
  const MAX_STS_RPOS := MAX_REASON_LENGTH + MAX_STATUS_LENGTH + 1
  const MAX_PRT_RPOS := MAX_STS_RPOS + MAX_PROTOCOL_LENGTH + 1

  datatype Kind = Unknown | Reply | Report | Request

  datatype MsgError =
    | HeaderIncomplete
    | HeaderMalformed
    | HeaderTooBig
    | StartLineMalformed
    | AlreadyWritten
    | NoSpaceForLength

  /** A half-open range of the start line. A part that is absent has no span. */
  datatype Span = Span(start: nat, end: nat)

  /** `HeadRange`, before conversion to an unsigned type. */
  datatype HeadRange = HeadRange(start: int, length: int) {
    predicate Within(limit: int) {
      0 <= start && 0 <= length && start + length <= limit
    }

    /** A range may lie anywhere when it is empty: its pointer is then never read. */
    predicate Sound(limit: int) {
      0 <= start && 0 <= length && (length > 0 ==> start + length <= limit)
    }

    /** Non-empty ranges come in this order with at least one character between them. */
    predicate Before(next: HeadRange) {
      length > 0 && next.length > 0 ==> start + length < next.start
    }

    function Of(msg: string): string {
      if length > 0 && Within(|msg|) then msg[start..start + length] else ""
    }
  }

  /** Conversion to an 8-bit and to a 16-bit unsigned integer. */
  function U8(x: int): (r: int)
    ensures 0 <= r < 0x100
    ensures 0 <= x < 0x100 ==> r == x
  {
    x % 0x100
  }

  function U16(x: int): (r: int)
    ensures 0 <= r < 0x1_0000
    ensures 0 <= x < 0x1_0000 ==> r == x
  {
    x % 0x1_0000
  }

  /** The space before a field that is there. */
  function Gap(x: int): int { if x == 0 then 0 else 1 }

  /** The 64-bit layout. Offsets named `Rpos` count backwards from the end of the start line. */
  datatype Layout = Layout(pBody: int, slLen: int, uriPos: int, prtRpos: int, stsRpos: int, slNl: int) {

    /** Every field fits the unsigned integer that holds it. */
    predicate Packed() {
      && 0 <= pBody < 0x1_0000 && 0 <= slLen < 0x1_0000
      && 0 <= uriPos < 0x100 && 0 <= prtRpos < 0x100 && 0 <= stsRpos < 0x100 && 0 <= slNl < 0x100
    }

    predicate HasMethod() { uriPos != 0 }
    predicate HasUri() { prtRpos < slLen }
    predicate HasProtocol() { prtRpos >= stsRpos + 1 }

    function Type(): Kind {
      if HasMethod() then Request
      else if HasUri() then Report
      else if HasProtocol() then Reply
      else Unknown
    }

    function HeadersPos(): int { slLen + slNl }

    function StartLine(): HeadRange { HeadRange(0, slLen) }
    function Headers(): HeadRange { HeadRange(HeadersPos(), pBody - HeadersPos()) }
    function Method(): HeadRange { HeadRange(0, uriPos - Gap(uriPos)) }
    function Uri(): HeadRange {
      HeadRange(uriPos, if HasUri() then slLen - uriPos - prtRpos - Gap(prtRpos) else 0)
    }
    function Protocol(): HeadRange {
      HeadRange(slLen - prtRpos, if prtRpos != 0 then prtRpos - stsRpos - Gap(stsRpos) else 0)
    }
    function Status(): HeadRange { HeadRange(slLen - stsRpos, if stsRpos != 0 then 3 else 0) }
    function Reason(): HeadRange { HeadRange(slLen + 4 - stsRpos, if stsRpos > 4 then stsRpos - 4 else 0) }
  }

  /** A failed parse may already have stored the body offset. */
  datatype ParseResult = Parsed(layout: Layout) | Failed(error: MsgError, bodyPos: int) {
    /** The body offset left behind, zero if the scan did not reach the body. */
    function BodyPos(): int {
      if Parsed? then layout.pBody else bodyPos
    }
  }

  // ---------------------------------------------------------------------------
  // Cutting the start line
  // ---------------------------------------------------------------------------

  /** The parts from index `i` on, when `n` parts have been cut already. */
  function PartsFrom(line: string, i: nat, n: nat): (ps: seq<Span>)
    requires i <= |line| && n <= 3
    ensures 1 <= |ps| <= 4 - n
    decreases |line| - i
  {
    if n == 3 then [Span(i, |line|)]
    else
      var e := WordEnd(line, i);
      if e == |line| then [Span(i, e)] else [Span(i, e)] + PartsFrom(line, e + 1, n + 1)
  }

  /** Up to four parts separated by single spaces; the fourth takes the rest of the line. */
  function Parts(line: string): (ps: seq<Span>)
    ensures |ps| <= 4
  {
    if line == "" then [] else PartsFrom(line, 0, 0)
  }

  /** The text of a part, empty when it is absent. */
  function PartText(line: string, ps: seq<Span>, k: nat): string {
    if k < |ps| && ps[k].start <= ps[k].end <= |line| then line[ps[k].start..ps[k].end] else ""
  }

  /** What it means for spans to cut a line from index `i`, given `n` earlier parts. */
  ghost predicate Cuts(line: string, ps: seq<Span>, i: nat, n: nat) {
    && |ps| >= 1
    && ps[0].start == i
    && i <= ps[0].end <= |line|
    && (n < 3 ==> NoSpaceIn(line, i, ps[0].end))
    && if |ps| == 1 then ps[0].end == |line|
       else ps[0].end < |line| && line[ps[0].end] == ' ' && Cuts(line, ps[1..], ps[0].end + 1, n + 1)
  }

  lemma {:induction false} PartsFromCut(line: string, i: nat, n: nat)
    requires i <= |line| && n <= 3
    ensures Cuts(line, PartsFrom(line, i, n), i, n)
    decreases |line| - i
  {
    var e := WordEnd(line, i);
    if n < 3 && e < |line| {
      PartsFromCut(line, e + 1, n + 1);
      assert PartsFrom(line, i, n)[1..] == PartsFrom(line, e + 1, n + 1);
    }
  }

  /** There is at most one way to cut a line at its first three spaces. */
  lemma {:induction false} CutsUnique(line: string, ps: seq<Span>, qs: seq<Span>, i: nat, n: nat)
    requires |ps| <= 4 - n && |qs| <= 4 - n
    requires Cuts(line, ps, i, n) && Cuts(line, qs, i, n)
    ensures ps == qs
    decreases |ps|
  {
    assert n == 3 ==> |ps| == |qs| == 1;
    assert ps[0].end == qs[0].end;
    if |ps| > 1 {
      CutsUnique(line, ps[1..], qs[1..], ps[0].end + 1, n + 1);
    }
    assert ps == [ps[0]] + ps[1..] && qs == [qs[0]] + qs[1..];
  }

  /** The parts are the one way to cut the line at its first three spaces. */
  lemma PartsIff(line: string, ps: seq<Span>)
    requires line != "" && |ps| <= 4
    ensures Parts(line) == ps <==> Cuts(line, ps, 0, 0)
  {
    PartsFromCut(line, 0, 0);
    if Cuts(line, ps, 0, 0) {
      CutsUnique(line, ps, Parts(line), 0, 0);
    }
  }

  /** Consecutive parts are one space apart and the last one ends the line. */
  lemma CutsPlaces(line: string, ps: seq<Span>, i: nat, n: nat)
    requires Cuts(line, ps, i, n) && |ps| <= 4
    ensures ps[0].start == i && ps[0].start <= ps[0].end <= |line|
    ensures |ps| > 1 ==> ps[1].start == ps[0].end + 1 && ps[1].start <= ps[1].end <= |line|
    ensures |ps| > 2 ==> ps[2].start == ps[1].end + 1 && ps[2].start <= ps[2].end <= |line|
    ensures |ps| > 3 ==> ps[3].start == ps[2].end + 1 && ps[3].start <= ps[3].end <= |line|
    ensures ps[|ps| - 1].end == |line|
  {
    if |ps| > 1 {
      CutsPlaces(line, ps[1..], ps[0].end + 1, n + 1);
    }
  }

  lemma Shift<T>(s: seq<T>, x: T, t: seq<T>)
    ensures s + ([x] + t) == (s + [x]) + t
  {
  }

  /** The inner scan for the next space. */
  method ScanWord(msg: string, len: nat, word: nat) returns (i: nat)
    requires word <= len <= |msg|
    ensures i == WordEnd(msg[..len], word)
  {
    i := word;
    while i < len && msg[i] != ' '
      invariant word <= i <= len
      invariant WordEnd(msg[..len], word) == WordEnd(msg[..len], i)
    {
      i := i + 1;
    }
  }

  /** The next part and those behind it. */
  lemma PartsNext(line: string, i: nat, n: nat)
    requires i <= |line| && n <= 3
    ensures n == 3 ==> PartsFrom(line, i, n) == [Span(i, |line|)]
    ensures n < 3 && WordEnd(line, i) == |line| ==> PartsFrom(line, i, n) == [Span(i, |line|)]
    ensures n < 3 && WordEnd(line, i) < |line| ==>
      PartsFrom(line, i, n) == [Span(i, WordEnd(line, i))] + PartsFrom(line, WordEnd(line, i) + 1, n + 1)
  {
    hide WordEnd;
  }

  lemma LastPartEmpty(line: string, n: nat)
    requires n <= 3
    ensures PartsFrom(line, |line|, n) == [Span(|line|, |line|)]
  {
  }

  /** The splitting loop of `_parse_msg`, over the first `len` characters of the message. */
  method SplitStartLine(msg: string, len: nat) returns (parts: seq<Span>)
    requires len < |msg| && IsEol(msg[len])
    ensures parts == Parts(msg[..len])
  {
    hide PartsFrom, WordEnd;
    ghost var line := msg[..len];
    ghost var todo := Parts(line);
    parts := [];
    var i := 0;
    while i < len
      invariant i <= len + 1
      invariant |parts| <= 3
      invariant Parts(line) == parts + todo
      invariant todo == if i > len || len == 0 then [] else PartsFrom(line, i, |parts|)
      invariant i == 0 || msg[i - 1] == if i <= len then ' ' else msg[len]
      decreases len + 1 - i
    {
      PartsNext(line, i, |parts|);
      if |parts| == 3 {
        parts := parts + [Span(i, len)];
        return;
      }
      var word := i;
      i := ScanWord(msg, len, word);
      todo := if i == len then [] else PartsFrom(line, i + 1, |parts| + 1);
      Shift(parts, Span(word, i), todo);
      parts := parts + [Span(word, i)];
      i := i + 1;
    }
    if i == len && |parts| <= 3 {
      LastPartEmpty(line, |parts|);
    }
    // Respect an empty final part.
    if i > 0 && msg[i - 1] == ' ' && |parts| < 4 {
      parts := parts + [Span(i, i)];
    }
  }

  // ---------------------------------------------------------------------------
  // Guessing the kind
  // ---------------------------------------------------------------------------

  function GuessKind(line: string, ps: seq<Span>): Kind {
    if |ps| == 0 then Unknown
    else if |ps| == 1 then Report
    else if |ps| > 2 && IsProtocolName(PartText(line, ps, 2)) then Request
    else if IsProtocolName(PartText(line, ps, 1)) then Report
    else if PartText(line, ps, 0) == "" || '/' in PartText(line, ps, 0) then Reply
    else Request
  }

  // ---------------------------------------------------------------------------
  // Packing
  // ---------------------------------------------------------------------------

  /** Reject a status whose distance from the line end is impossible. */
  predicate StatusFits(stsRpos: int, hasReason: bool) {
    stsRpos == 0 || (if hasReason then stsRpos >= 4 else stsRpos == 3)
  }

  /** The offsets of a request: a URI is required, a protocol optional, nothing may follow. */
  function PackRequest(base: Layout, ps: seq<Span>, len: int): (r: ParseResult)
    ensures r.BodyPos() == base.pBody
  {
    if |ps| < 2 || |ps| > 3 then Failed(StartLineMalformed, base.pBody)
    else if ps[1].start > MAX_URI_POS then Failed(HeaderTooBig, base.pBody)
    else if |ps| == 3 && len - ps[2].start > MAX_PRT_RPOS then Failed(HeaderTooBig, base.pBody)
    else
      Parsed(base.(uriPos := U8(ps[1].start), prtRpos := if |ps| == 3 then U8(len - ps[2].start) else 0))
  }

  /** The offsets of a reply: a status is required, the rest of the line is the reason. */
  function PackReply(base: Layout, ps: seq<Span>, len: int): (r: ParseResult)
    ensures r.BodyPos() == base.pBody
  {
    if |ps| < 2 then Failed(StartLineMalformed, base.pBody)
    else if len > MAX_PRT_RPOS || len - ps[1].start > MAX_STS_RPOS then Failed(HeaderTooBig, base.pBody)
    else if !StatusFits(U8(len - ps[1].start), |ps| > 2) then Failed(StartLineMalformed, base.pBody)
    else Parsed(base.(prtRpos := U8(len), stsRpos := U8(len - ps[1].start)))
  }

  /** The offsets of a report: only the URI is required. */
  function PackReport(base: Layout, ps: seq<Span>, len: int): (r: ParseResult)
    ensures r.BodyPos() == base.pBody
  {
    if |ps| < 2 then Parsed(base)
    else if len - ps[1].start > MAX_PRT_RPOS then Failed(HeaderTooBig, base.pBody)
    else if |ps| < 3 then Parsed(base.(prtRpos := U8(len - ps[1].start)))
    else if len - ps[2].start > MAX_STS_RPOS then Failed(HeaderTooBig, base.pBody)
    else if !StatusFits(U8(len - ps[2].start), |ps| > 3) then Failed(StartLineMalformed, base.pBody)
    else Parsed(base.(prtRpos := U8(len - ps[1].start), stsRpos := U8(len - ps[2].start)))
  }

  /** `_setStartLine`: `withEol` is the start line with its newline, `ps` its parts. */
  function SetStartLine(withEol: string, kind: Kind, ps: seq<Span>, pBody: int): (r: ParseResult)
    ensures r.BodyPos() == pBody
  {
    if |withEol| < 2 || withEol[|withEol| - 1] != '\n' then Failed(StartLineMalformed, pBody)
    else
      var nl := if withEol[|withEol| - 2] == '\r' then 2 else 1;
      var len := |withEol| - nl;
      if len > 0xFFFF then Failed(HeaderTooBig, pBody)
      else
        var base := Layout(pBody, U16(len), 0, 0, 0, U8(nl));
        match kind
        case Unknown => Failed(StartLineMalformed, pBody)
        case Request => PackRequest(base, ps, len)
        case Reply => PackReply(base, ps, len)
        case Report => PackReport(base, ps, len)
  }

  // ---------------------------------------------------------------------------
  // The whole message
  // ---------------------------------------------------------------------------

  /** The index just past the first empty line at or after `pos`, if the text does not end before it. */
  function HeadersEnd(msg: string, pos: nat): (r: Option<nat>)
    requires pos < |msg|
    ensures r.Some? ==> pos < r.value <= |msg|
    decreases |msg| - pos
  {
    if LineEnd(msg, pos) == pos then Some(NextLine(msg, pos))
    else if NextLine(msg, pos) == |msg| then None
    else HeadersEnd(msg, NextLine(msg, pos))
  }

  function EffectiveKind(line: string, kind: Kind): Kind {
    if kind == Unknown then GuessKind(line, Parts(line)) else kind
  }

  /** `_parse_msg` as a function of the message and the expected kind. */
  function Parse(msg: string, kind: Kind): (r: ParseResult)
    ensures 0 <= r.BodyPos() <= |msg|
  {
    if |msg| == 0 then Failed(HeaderIncomplete, 0)
    else
      var eol, next := LineEnd(msg, 0), NextLine(msg, 0);
      if eol > 0xFFFF then Failed(HeaderTooBig, 0)
      else if next == |msg| then Failed(HeaderIncomplete, 0)
      else
        var body := HeadersEnd(msg, next);
        if body.None? then Failed(HeaderIncomplete, 0)
        else if body.value > 0xFFFF then Failed(HeaderTooBig, 0)
        else
          var line := msg[..eol];
          SetStartLine(msg[..next], EffectiveKind(line, kind), Parts(line), U16(body.value))
  }

  /** `_parse_msg` as the scan it is. */
  method ParseMsg(msg: string, kind: Kind) returns (r: ParseResult)
    ensures r == Parse(msg, kind)
  {
    if |msg| == 0 {
      return Failed(HeaderIncomplete, 0);
    }
    var eol, pos := ConsumeLine(msg, 0);
    if eol > 0xFFFF {
      return Failed(HeaderTooBig, 0);
    }
    if pos == |msg| {
      return Failed(HeaderIncomplete, 0);
    }
    var headers := pos;
    while true
      invariant headers <= pos < |msg|
      invariant HeadersEnd(msg, headers) == HeadersEnd(msg, pos)
      decreases |msg| - pos
    {
      var bol := pos;
      var e;
      e, pos := ConsumeLine(msg, pos);
      if e == bol {
        break;
      }
      if pos == |msg| {
        return Failed(HeaderIncomplete, 0);
      }
    }
    if pos > 0xFFFF {
      return Failed(HeaderTooBig, 0);
    }
    var parts := SplitStartLine(msg, eol);
    var line := msg[..eol];
    var k := kind;
    if k == Unknown {
      k := GuessKind(line, parts);
    }
    r := SetStartLine(msg[..headers], k, parts, U16(pos));
  }
}

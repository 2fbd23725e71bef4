/**
 Reading HTTP-like headers: the name and trimmed value of one line, iteration
 over the header section, and the completeness of a message.
 */
module MsgHeaders {
  import opened Slices
  import opened MsgText
  import opened MsgTables
  import opened MsgLayout

  datatype Header = Header(name: string, value: string)

  predicate IsBlank(c: char) {
    c == ' ' || c == '\t'
  }

  function TrimLeft(s: string): string {
    if s != "" && IsBlank(s[0]) then TrimLeft(s[1..]) else s
  }

  function TrimRight(s: string): string {
    if s != "" && IsBlank(s[|s| - 1]) then TrimRight(s[..|s| - 1]) else s
  }

  /** The text without leading and trailing spaces and tabs. */
  function Trim(s: string): string {
    TrimRight(TrimLeft(s))
  }

  lemma {:induction false} TrimLeftIs(s: string, a: nat)
    requires a <= |s| && (forall i :: 0 <= i < a ==> IsBlank(s[i]))
    requires a < |s| ==> !IsBlank(s[a])
    ensures TrimLeft(s) == s[a..]
  {
    if a > 0 {
      TrimLeftIs(s[1..], a - 1);
      assert s[1..][a - 1..] == s[a..];
    }
  }

  lemma {:induction false} TrimRightIs(s: string, b: nat)
    requires b <= |s| && (forall i :: b <= i < |s| ==> IsBlank(s[i]))
    requires b > 0 ==> !IsBlank(s[b - 1])
    ensures TrimRight(s) == s[..b]
  {
    if b < |s| {
      TrimRightIs(s[..|s| - 1], b);
      assert s[..|s| - 1][..b] == s[..b];
    } else {
      assert s[..b] == s;
    }
  }

  /** A range that is bounded by non-blanks, with only blanks outside, is what trimming keeps. */
  lemma TrimIs(s: string, a: nat, b: nat)
    requires a <= b <= |s|
    requires forall i :: 0 <= i < |s| && (i < a || b <= i) ==> IsBlank(s[i])
    requires a < b ==> !IsBlank(s[a]) && !IsBlank(s[b - 1])
    requires a == b ==> a == |s|
    ensures Trim(s) == s[a..b]
  {
    TrimLeftIs(s, a);
    var t := s[a..];
    assert forall i :: 0 <= i < |t| ==> t[i] == s[a + i];
    TrimRightIs(t, b - a);
    assert t[..b - a] == s[a..b];
  }

  /** The index of the first colon or line break, or the end. */
  function NameEnd(line: string, i: nat): (e: nat)
    requires i <= |line|
    ensures i <= e <= |line|
    ensures forall k :: i <= k < e ==> line[k] != ':' && !IsEol(line[k])
    ensures e < |line| ==> line[e] == ':' || IsEol(line[e])
    decreases |line| - i
  {
    if i == |line| || line[i] == ':' || IsEol(line[i]) then i else NameEnd(line, i + 1)
  }

  /** A header line: name up to the first colon, trimmed value; without a colon it is all value. */
  function HeaderOf(line: string): Header {
    var e := NameEnd(line, 0);
    if e < |line| && line[e] == ':' then Header(line[..e], Trim(line[e + 1..]))
    else Header("", Trim(line))
  }

  /** `MsgHeaderView::parse_header` as the scan it is. */
  method ParseHeader(line: string) returns (h: Header)
    ensures h == HeaderOf(line)
  {
    var i := 0;
    var name := "";
    while true
      invariant i <= |line|
      invariant NameEnd(line, 0) == NameEnd(line, i)
      decreases |line| - i
    {
      if i == |line| || line[i] == '\r' || line[i] == '\n' {
        name := "";
        i := 0;
        break;
      }
      if line[i] == ':' {
        name := line[..i];
        i := i + 1;
        break;
      }
      i := i + 1;
    }
    var value := ScanValue(line, i);
    h := Header(name, value);
  }

  /** The value scan of `parse_header`: skip leading blanks, remember the last non-blank. */
  method ScanValue(line: string, from: nat) returns (value: string)
    requires from <= |line|
    ensures value == Trim(line[from..])
  {
    var i := from;
    while i != |line| && IsBlank(line[i])
      invariant from <= i <= |line|
      invariant forall k :: from <= k < i ==> IsBlank(line[k])
    {
      i := i + 1;
    }
    var first, last := i, i;
    while i != |line|
      invariant first <= last <= i <= |line|
      invariant forall k :: last <= k < i ==> IsBlank(line[k])
      invariant last > first ==> !IsBlank(line[last - 1])
      invariant i > first ==> last > first
    {
      if line[i] != ' ' && line[i] != '\t' {
        last := i + 1;
      }
      i := i + 1;
    }
    value := line[first..last];
    ghost var s := line[from..];
    assert forall k :: 0 <= k < |s| ==> s[k] == line[from + k];
    TrimIs(s, first - from, last - from);
    assert s[first - from..last - from] == value;
  }

  /** The headers from `pos` on, one per line. */
  function HeaderList(text: string, pos: nat): seq<Header>
    requires pos <= |text|
    decreases |text| - pos
  {
    if pos == |text| then []
    else [HeaderOf(text[pos..LineEnd(text, pos)])] + HeaderList(text, NextLine(text, pos))
  }

  /** `_string_rem_nl`: drop the newline of the empty line that ends the section. */
  function DropNewline(s: string): string {
    var t := if s != "" && s[|s| - 1] == '\n' then s[..|s| - 1] else s;
    if t != "" && t[|t| - 1] == '\r' then t[..|t| - 1] else t
  }

  /** `MsgView::headers`. */
  function HeadersOf(msg: string, l: Layout): seq<Header> {
    HeaderList(DropNewline(l.Headers().Of(msg)), 0)
  }

  /** `MsgHeaders::iterator`: a position in the header section and the header parsed there. */
  class HeaderIterator {
    const text: string
    var pos: nat
    var header: Header

    ghost predicate Valid()
      reads this
    {
      && pos <= |text|
      && (pos < |text| ==> header == HeaderOf(text[pos..LineEnd(text, pos)]))
    }

    /** The headers not yet passed. */
    ghost function Rest(): seq<Header>
      reads this
      requires Valid()
    {
      HeaderList(text, pos)
    }

    constructor (s: string)
      ensures text == s && pos == 0 && Valid()
      ensures Rest() == HeaderList(s, 0)
    {
      text := s;
      pos := 0;
      header := Header("", "");
      new;
      Settle();
    }

    method Settle()
      requires pos <= |text|
      modifies this
      ensures Valid() && pos == old(pos)
    {
      header := Header("", "");
      if pos < |text| {
        var eol, _ := ConsumeLine(text, pos);
        header := ParseHeader(text[pos..eol]);
      }
    }

    method Advance()
      requires Valid() && pos < |text|
      modifies this
      ensures Valid() && pos > old(pos)
      ensures old(Rest()) == [old(header)] + Rest()
    {
      var _, next := ConsumeLine(text, pos);
      pos := next;
      Settle();
    }
  }

  // ---------------------------------------------------------------------------
  // Completeness
  // ---------------------------------------------------------------------------

  function Lower(c: char): char {
    if 'A' <= c <= 'Z' then ((c as int) + 32) as char else c
  }

  /** `MsgHeaderView::is`: names compare without regard to case. */
  predicate IsNamed(h: Header, name: string) {
    |h.name| == |name| && forall i :: 0 <= i < |name| ==> Lower(h.name[i]) == Lower(name[i])
  }

  /** Where the run of digits starting at `i` ends. */
  function DigitsEnd(s: string, i: nat): (e: nat)
    requires i <= |s|
    ensures i <= e <= |s|
    ensures forall k :: i <= k < e ==> IsDigit(s[k])
    ensures e < |s| ==> !IsDigit(s[e])
    decreases |s| - i
  {
    if i < |s| && IsDigit(s[i]) then DigitsEnd(s, i + 1) else i
  }

  /** The number written by a run of digits. */
  function Decimal(s: string): nat
    requires forall k :: 0 <= k < |s| ==> IsDigit(s[k])
  {
    if s == "" then 0 else 10 * Decimal(s[..|s| - 1]) + DigitValue(s[|s| - 1])
  }

  const INT64_MAX: int := 0x7FFF_FFFF_FFFF_FFFF

  /** `value_dec`: an optional plus, then a signed 64-bit decimal; `onError` when there is none. */
  function ValueDec(v: string, onError: int): int {
    var b := if v != "" && v[0] == '+' then 1 else 0;
    var neg := b < |v| && v[b] == '-';
    var d := if neg then b + 1 else b;
    var e := DigitsEnd(v, d);
    var n: int := Decimal(v[d..e]);
    if d == e then onError
    else if neg then (if n <= INT64_MAX + 1 then -n else onError)
    else (if n <= INT64_MAX then n else onError)
  }

  /** Conversion of a signed 64-bit value to `size_t`. */
  function ToSize(n: int): int {
    if n < 0 then n + 0x1_0000_0000_0000_0000 else n
  }

  predicate Contains(s: string, t: string) {
    exists i {:trigger OccursAt(s, i, t)} :: 0 <= i <= |s| && OccursAt(s, i, t)
  }

  const CONTENT_LENGTH := "Content-Length"
  const TRANSFER_ENCODING := "Transfer-Encoding"

  datatype Completion = Completion(complete: bool, chunked: bool, lengthHeader: bool, length: int)

  predicate IsLength(h: Header) { IsNamed(h, CONTENT_LENGTH) }

  predicate IsChunked(h: Header) { IsNamed(h, TRANSFER_ENCODING) && Contains(h.value, "chunked") }

  /** What one header contributes. */
  function Note(c: Completion, h: Header): Completion {
    if IsLength(h) then c.(lengthHeader := true, length := ToSize(ValueDec(h.value, 0)))
    else if IsChunked(h) then c.(chunked := true)
    else c
  }

  /** What the headers say so far, noting each in order. */
  function Noted(hs: seq<Header>): Completion {
    if hs == [] then Completion(false, false, false, 0)
    else Note(Noted(hs[..|hs| - 1]), hs[|hs| - 1])
  }

  /** The verdict on a body of this size. */
  function Judge(c: Completion, bodySize: nat, http: bool): Completion {
    if c.lengthHeader then c.(complete := bodySize >= c.length)
    else if !c.chunked && !http then c.(complete := true, length := bodySize)
    else c
  }

  /** The last length header decides the length. */
  lemma {:induction false} LastLengthDecides(hs: seq<Header>, i: nat)
    requires i < |hs| && IsLength(hs[i])
    requires forall j :: i < j < |hs| ==> !IsLength(hs[j])
    ensures Noted(hs).lengthHeader && Noted(hs).length == ToSize(ValueDec(hs[i].value, 0))
  {
    if i < |hs| - 1 {
      LastLengthDecides(hs[..|hs| - 1], i);
    }
  }

  /** Without a length header no length is noted. */
  lemma {:induction false} NoLengthNoted(hs: seq<Header>)
    requires forall j :: 0 <= j < |hs| ==> !IsLength(hs[j])
    ensures !Noted(hs).lengthHeader && Noted(hs).length == 0
  {
    if hs != [] {
      NoLengthNoted(hs[..|hs| - 1]);
    }
  }

  /** Chunking is noted exactly when some header announces it. */
  lemma {:induction false} ChunkedNoted(hs: seq<Header>)
    ensures !Noted(hs).complete
    ensures Noted(hs).chunked <==> exists i :: 0 <= i < |hs| && !IsLength(hs[i]) && IsChunked(hs[i])
  {
    if hs != [] {
      ChunkedNoted(hs[..|hs| - 1]);
    }
  }

  /** The loop of `MsgView::completion` over a header section. */
  method ScanHeaders(text: string) returns (c: Completion)
    ensures c == Noted(HeaderList(text, 0))
  {
    c := Completion(false, false, false, 0);
    ghost var hs := HeaderList(text, 0);
    ghost var n := 0;
    var it := new HeaderIterator(text);
    while it.pos < |it.text|
      invariant it.Valid() && n <= |hs| && it.Rest() == hs[n..]
      invariant c == Noted(hs[..n])
      decreases |it.text| - it.pos
    {
      c := NoteHeader(c, it.header);
      it.Advance();
      assert hs[n..][1..] == hs[n + 1..];
      assert hs[..n + 1][..n] == hs[..n];
      n := n + 1;
    }
    assert hs[..n] == hs;
  }

  /** What a view of the message says about its completeness. */
  function Verdict(msg: string, l: Layout): Completion
    requires 0 <= l.pBody <= |msg|
  {
    Judge(Noted(HeadersOf(msg, l)), |msg| - l.pBody, ParseProtocol(l.Protocol().Of(msg)).IsHttp())
  }

  /** `MsgView::completion`. */
  method CompletionScan(msg: string, l: Layout) returns (c: Completion)
    requires 0 <= l.pBody <= |msg|
    ensures c == Verdict(msg, l)
  {
    c := ScanHeaders(DropNewline(l.Headers().Of(msg)));
    ChunkedNoted(HeadersOf(msg, l));
    var bodySize := |msg| - l.pBody;
    if c.lengthHeader {
      if bodySize >= c.length {
        c := c.(complete := true);
      }
    }
    if !c.chunked && !c.lengthHeader && !ParseProtocol(l.Protocol().Of(msg)).IsHttp() {
      c := c.(complete := true, length := bodySize);
    }
  }

  method NoteHeader(c: Completion, h: Header) returns (r: Completion)
    ensures r == Note(c, h)
  {
    r := c;
    if IsNamed(h, CONTENT_LENGTH) {
      r := r.(lengthHeader := true, length := ToSize(ValueDec(h.value, 0)));
    } else if IsNamed(h, TRANSFER_ENCODING) {
      if Contains(h.value, "chunked") {
        r := r.(chunked := true);
      }
    }
  }
}

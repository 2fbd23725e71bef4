/**
 The header lines of any message, and the verdict on its completeness: stated
 over the text of the lines, with names up to the case of ASCII letters.
 */
module MsgVerdict {
  import opened Options
  import opened Slices
  import opened MsgText
  import opened MsgTables
  import opened MsgLayout
  import opened MsgLayoutSound
  import opened MsgHeaders
  import opened MsgWriter
  import opened MsgRoundTrip
  import opened MsgAccept

  // ---------------------------------------------------------------------------
  // Names
  // ---------------------------------------------------------------------------

  /** The same ASCII letter, one of them a capital. */
  predicate OtherCase(c: char, d: char) {
    || ('a' <= c <= 'z' && 'A' <= d <= 'Z' && c as int == d as int + 32)
    || ('A' <= c <= 'Z' && 'a' <= d <= 'z' && c as int + 32 == d as int)
  }

  /** The same text up to the case of ASCII letters. */
  predicate SameName(a: string, b: string) {
    |a| == |b| && forall i :: 0 <= i < |a| ==> a[i] == b[i] || OtherCase(a[i], b[i])
  }

  /** Header names compare up to the case of ASCII letters, and in nothing else. */
  lemma NamedIff(h: Header, name: string)
    ensures IsNamed(h, name) <==> SameName(h.name, name)
  {
    forall c, d
      ensures Lower(c) == Lower(d) <==> c == d || OtherCase(c, d)
    {
    }
  }

  lemma SameNameChain(a: string, b: string, c: string)
    requires SameName(a, b)
    ensures SameName(a, c) <==> SameName(b, c)
  {
    forall x, y, z | x == y || OtherCase(x, y)
      ensures (x == z || OtherCase(x, z)) <==> (y == z || OtherCase(y, z))
    {
    }
  }

  // ---------------------------------------------------------------------------
  // Lines
  // ---------------------------------------------------------------------------

  /** The text from `pos` on is these lines, each but the last with its line break. */
  ghost predicate LinesFrom(text: string, pos: nat, ls: seq<string>)
    decreases |ls|
  {
    if ls == [] then pos == |text|
    else
      var e := pos + |ls[0]|;
      && pos < |text| && e <= |text| && text[pos..e] == ls[0] && NoEol(ls[0]) && (e < |text| ==> IsEol(text[e]))
      && LinesFrom(text, Behind(text, e), ls[1..])
  }

  /** What follows the blanks at its start and precedes those at its end. */
  ghost predicate Trimmed(s: string, t: string) {
    exists a: nat, b: nat :: TrimmedAt(s, t, a, b)
  }

  predicate TrimmedAt(s: string, t: string, a: nat, b: nat) {
    && a <= b <= |s| && t == s[a..b]
    && (forall i :: 0 <= i < |s| && (i < a || b <= i) ==> s[i] == ' ' || s[i] == '\t')
    && (a < b ==> s[a] != ' ' && s[a] != '\t' && s[b - 1] != ' ' && s[b - 1] != '\t')
  }

  /** The name is what precedes the first colon, the value the rest; without a colon all is value. */
  ghost predicate HeaderRead(line: string, h: Header) {
    && ':' !in h.name
    && if ':' in line then
         && |h.name| < |line| && line[..|h.name|] == h.name && line[|h.name|] == ':'
         && Trimmed(line[|h.name| + 1..], h.value)
       else h.name == "" && Trimmed(line, h.value)
  }

  lemma TrimTrims(s: string)
    ensures Trimmed(s, Trim(s))
  {
    var a, b := TrimBounds(s);
    TrimIs(s, a, b);
    assert TrimmedAt(s, Trim(s), a, b);
  }

  lemma TrimBounds(s: string) returns (a: nat, b: nat)
    ensures a <= b <= |s|
    ensures forall i :: 0 <= i < |s| && (i < a || b <= i) ==> IsBlank(s[i])
    ensures a < b ==> !IsBlank(s[a]) && !IsBlank(s[b - 1])
    ensures a == b ==> a == |s|
  {
    a, b := 0, |s|;
    while a < |s| && IsBlank(s[a])
      invariant a <= |s| && forall i :: 0 <= i < a ==> IsBlank(s[i])
    {
      a := a + 1;
    }
    while a < b && IsBlank(s[b - 1])
      invariant a <= b <= |s| && forall i :: b <= i < |s| ==> IsBlank(s[i])
      invariant a < |s| ==> !IsBlank(s[a])
    {
      b := b - 1;
    }
  }

  lemma HeaderOfReads(line: string)
    requires NoEol(line)
    ensures HeaderRead(line, HeaderOf(line))
  {
    hide Trimmed, Trim;
    var e := NameEnd(line, 0);
    if e < |line| {
      assert line[e] == ':';
      TrimTrims(line[e + 1..]);
    } else {
      TrimTrims(line);
    }
  }

  /** The header section of any text: one header per line, in order, each read from its own line. */
  lemma {:induction false} HeadersAreLines(text: string, pos: nat, ls: seq<string>)
    requires pos <= |text| && LinesFrom(text, pos, ls)
    ensures |HeaderList(text, pos)| == |ls|
    ensures forall i :: 0 <= i < |ls| ==> HeaderRead(ls[i], HeaderList(text, pos)[i])
    decreases |ls|
  {
    hide HeaderRead, HeaderOf;
    if ls != [] {
      var e := pos + |ls[0]|;
      LineAtPos(text, pos, ls[0]);
      HeaderOfReads(ls[0]);
      HeadersAreLines(text, Behind(text, e), ls[1..]);
      var hs := HeaderList(text, pos);
      assert hs == [HeaderOf(ls[0])] + HeaderList(text, Behind(text, e));
      forall i | 0 <= i < |ls|
        ensures HeaderRead(ls[i], hs[i])
      {
        if i > 0 {
          assert ls[i] == ls[1..][i - 1];
        }
      }
    }
  }

  lemma LineAtPos(text: string, pos: nat, line: string)
    requires pos + |line| <= |text| && text[pos..pos + |line|] == line && NoEol(line)
    requires pos + |line| < |text| ==> IsEol(text[pos + |line|])
    ensures LineEnd(text, pos) == pos + |line| && NextLine(text, pos) == Behind(text, pos + |line|)
  {
    assert forall i :: pos <= i < pos + |line| ==> text[i] == line[i - pos];
    LineEndIs(text, pos, pos + |line|);
  }

  /** Every text is lines. */
  lemma {:induction false} SomeLines(text: string, pos: nat) returns (ls: seq<string>)
    requires pos <= |text|
    ensures LinesFrom(text, pos, ls)
    decreases |text| - pos
  {
    if pos == |text| {
      ls := [];
    } else {
      var e := LineEnd(text, pos);
      assert NextLine(text, pos) == Behind(text, e);
      var rest := SomeLines(text, NextLine(text, pos));
      ls := [text[pos..e]] + rest;
      assert ls[1..] == rest;
    }
  }

  // ---------------------------------------------------------------------------
  // Numbers
  // ---------------------------------------------------------------------------

  predicate AllDigits(s: string) {
    forall i :: 0 <= i < |s| ==> '0' <= s[i] <= '9'
  }

  function Zeros(z: nat): (s: string)
    ensures |s| == z && forall i :: 0 <= i < z ==> s[i] == '0'
  {
    seq(z, _ => '0')
  }

  function Sign(plus: bool, minus: bool): (s: string)
    ensures |s| == One(plus) + One(minus) && (plus ==> s[0] == '+') && (minus ==> s[One(plus)] == '-')
  {
    if plus && minus then "+-" else if plus then "+" else if minus then "-" else ""
  }

  /** The text begins with this number: a plus, a minus, both or none, then all the digits there are. */
  predicate NumberAt(v: string, plus: bool, minus: bool, digits: string, rest: string) {
    && v == Sign(plus, minus) + digits + rest
    && digits != "" && AllDigits(digits) && (rest != "" ==> !('0' <= rest[0] <= '9'))
  }

  /** A number as 64 bits hold it, or what stands in for it. */
  function Signed64(minus: bool, n: nat, onError: int): int {
    if minus then (if n <= 0x8000_0000_0000_0000 then -(n as int) else onError)
    else if n <= 0x7FFF_FFFF_FFFF_FFFF then n else onError
  }

  lemma {:induction false} ZerosFirst(z: nat, s: string)
    requires AllDigits(s)
    ensures AllDigits(Zeros(z) + s) && Decimal(Zeros(z) + s) == Decimal(s)
    decreases |s|, z
  {
    var all := Zeros(z) + s;
    if s == "" {
      assert all == Zeros(z);
      ZerosOnly(z);
    } else {
      ZerosFirst(z, s[..|s| - 1]);
      assert all[..|all| - 1] == Zeros(z) + s[..|s| - 1];
    }
  }

  lemma {:induction false} ZerosOnly(z: nat)
    ensures Decimal(Zeros(z)) == 0
  {
    if z > 0 {
      ZerosOnly(z - 1);
      assert Zeros(z)[..z - 1] == Zeros(z - 1);
    }
  }

  lemma OneMoreDigit(y: nat, m: nat, c: char) returns (z: nat, n: nat)
    requires '0' <= c <= '9'
    ensures n == 10 * m + DigitValue(c) && Zeros(z) + DecimalText(n) == Zeros(y) + DecimalText(m) + [c]
  {
    n := 10 * m + DigitValue(c);
    assert n / 10 == m && Digit(n) == c;
    if m == 0 {
      z := y + 1;
      assert Digit(0) == '0';
      assert DecimalText(0) == "0" && DecimalText(n) == [c];
      assert Zeros(y) + "0" == Zeros(z);
    } else {
      z := y;
      assert DecimalText(n) == DecimalText(m) + [c];
    }
  }

  /** Every run of digits is a number with zeros in front. */
  lemma {:induction false} DigitsAreNumber(s: string) returns (z: nat, n: nat)
    requires s != "" && AllDigits(s)
    ensures s == Zeros(z) + DecimalText(n) && n == Decimal(s)
  {
    hide Zeros, DecimalText;
    var init, c := s[..|s| - 1], s[|s| - 1];
    assert s == init + [c];
    if init == "" {
      z, n := OneDigit(c);
    } else {
      var y, m := DigitsAreNumber(init);
      z, n := OneMoreDigit(y, m, c);
    }
  }

  lemma OneDigit(c: char) returns (z: nat, n: nat)
    requires '0' <= c <= '9'
    ensures Zeros(z) + DecimalText(n) == [c] && n == DigitValue(c)
  {
    z, n := 0, DigitValue(c);
    assert Digit(n) == c;
  }

  /** The value of a header that begins with a number is that number, and of any other what stands in for one. */
  lemma ValueRead(v: string, plus: bool, minus: bool, z: nat, n: nat, rest: string, onError: int)
    requires NumberAt(v, plus, minus, Zeros(z) + DecimalText(n), rest)
    ensures ValueDec(v, onError) == Signed64(minus, n, onError)
  {
    hide Decimal, Zeros, DecimalText, NumberAt, DigitsEnd;
    var digits := Zeros(z) + DecimalText(n);
    var d := One(plus) + One(minus);
    NumberPlaced(v, plus, minus, digits, rest, d);
    ZerosThenNumber(z, n);
  }

  lemma ZerosThenNumber(z: nat, n: nat)
    ensures AllDigits(Zeros(z) + DecimalText(n)) && Decimal(Zeros(z) + DecimalText(n)) == n
  {
    assert AllDigits(DecimalText(n));
    ZerosFirst(z, DecimalText(n));
    DecimalTextReads(n);
  }

  lemma NumberPlaced(v: string, plus: bool, minus: bool, digits: string, rest: string, d: nat)
    requires NumberAt(v, plus, minus, digits, rest) && d == One(plus) + One(minus)
    ensures d + |digits| <= |v| && v[d..d + |digits|] == digits && DigitsEnd(v, d) == d + |digits|
    ensures v != "" && (v[0] == '+' <==> plus)
    ensures var b := if plus then 1 else 0; b < |v| && (v[b] == '-' <==> minus)
  {
    var e := d + |digits|;
    assert forall i :: 0 <= i < |digits| ==> v[d + i] == digits[i];
    assert rest != "" ==> v[e] == rest[0];
    assert v[d] == digits[0];
    DigitsEndIs(v, d, e);
  }

  lemma DigitsEndIs(s: string, i: nat, e: nat)
    requires i <= e <= |s| && (forall k :: i <= k < e ==> IsDigit(s[k])) && (e < |s| ==> !IsDigit(s[e]))
    ensures DigitsEnd(s, i) == e
    decreases e - i
  {
    if i < e {
      DigitsEndIs(s, i + 1, e);
    }
  }

  ghost predicate HasNumber(v: string) {
    exists plus, minus, digits, rest :: NumberAt(v, plus, minus, digits, rest)
  }

  lemma ThreePieces(v: string, d: nat, e: nat)
    requires d <= e <= |v|
    ensures v == v[..d] + v[d..e] + v[e..]
  {
  }

  lemma NumberFound(v: string, plus: bool, minus: bool, d: nat, e: nat)
    requires d == One(plus) + One(minus) && d < e <= |v| && (forall k :: d <= k < e ==> IsDigit(v[k])) && (e < |v| ==> !IsDigit(v[e]))
    requires plus ==> v[0] == '+'
    requires minus ==> v[One(plus)] == '-'
    ensures HasNumber(v)
  {
    hide Sign;
    var front := Sign(plus, minus);
    assert d > 0 ==> v[0] == front[0];
    assert d > 1 ==> v[1] == front[1];
    assert v[..d] == front;
    ThreePieces(v, d, e);
    assert NumberAt(v, plus, minus, v[d..e], v[e..]);
  }

  lemma ValueMissing(v: string, onError: int)
    requires !HasNumber(v)
    ensures ValueDec(v, onError) == onError
  {
    hide Decimal, HasNumber;
    var plus := v != "" && v[0] == '+';
    var b := if plus then 1 else 0;
    var minus := b < |v| && v[b] == '-';
    var d := if minus then b + 1 else b;
    if d < DigitsEnd(v, d) {
      NumberFound(v, plus, minus, d, DigitsEnd(v, d));
    }
  }

  /** A length is taken as an unsigned 64-bit number. */
  lemma SizeIs(n: int)
    requires -0x8000_0000_0000_0000 <= n <= 0x7FFF_FFFF_FFFF_FFFF
    ensures 0 <= ToSize(n) < 0x1_0000_0000_0000_0000 && (ToSize(n) - n) % 0x1_0000_0000_0000_0000 == 0
  {
  }

  // ---------------------------------------------------------------------------
  // The verdict
  // ---------------------------------------------------------------------------

  ghost predicate SaysLength(h: Header) {
    SameName(h.name, "Content-Length")
  }

  ghost predicate SaysChunked(h: Header) {
    SameName(h.name, "Transfer-Encoding") && exists i :: 0 <= i <= |h.value| && OccursAt(h.value, i, "chunked")
  }

  lemma SaysIff(h: Header)
    ensures IsLength(h) <==> SaysLength(h)
    ensures IsChunked(h) <==> SaysChunked(h)
    ensures !(SaysLength(h) && SaysChunked(h))
  {
    NamedIff(h, CONTENT_LENGTH);
    NamedIff(h, TRANSFER_ENCODING);
    assert |CONTENT_LENGTH| != |TRANSFER_ENCODING|;
  }

  /** The last header that says a length. */
  ghost predicate LastSays(hs: seq<Header>, i: nat) {
    i < |hs| && SaysLength(hs[i]) && forall j :: i < j < |hs| ==> !SaysLength(hs[j])
  }

  lemma {:induction false} SomeLast(hs: seq<Header>) returns (r: Option<nat>)
    ensures r.None? ==> forall i :: 0 <= i < |hs| ==> !SaysLength(hs[i])
    ensures r.Some? ==> LastSays(hs, r.value)
  {
    hide SaysLength;
    r := None;
    if hs != [] {
      if SaysLength(hs[|hs| - 1]) {
        r := Some(|hs| - 1);
      } else {
        r := SomeLast(hs[..|hs| - 1]);
      }
    }
  }

  /**
   The verdict on every message: a length header and chunking are noted exactly
   if some header says so; the last length counts, and the message is complete
   exactly if the body has that many bytes; without a length it is complete, with
   the body as its length, exactly if it is neither chunked nor HTTP.
   */
  lemma VerdictIff(msg: string, l: Layout)
    requires 0 <= l.pBody <= |msg|
    ensures var c, hs, body := Verdict(msg, l), HeadersOf(msg, l), |msg| - l.pBody;
      var http := l.Protocol().Of(msg) == "HTTP/1.0" || l.Protocol().Of(msg) == "HTTP/1.1";
      && (c.lengthHeader <==> exists i :: 0 <= i < |hs| && SaysLength(hs[i]))
      && (c.chunked <==> exists i :: 0 <= i < |hs| && SaysChunked(hs[i]))
      && (forall i: nat :: LastSays(hs, i) ==> c.length == ToSize(ValueDec(hs[i].value, 0)))
      && (c.lengthHeader ==> (c.complete <==> c.length <= body))
      && (!c.lengthHeader ==> (c.complete <==> !c.chunked && !http))
      && (!c.lengthHeader ==> c.length == if c.complete then body else 0)
  {
    hide SaysLength, SaysChunked, HeadersOf, ValueDec, IsLength, IsChunked;
    var hs := HeadersOf(msg, l);
    forall h
      ensures IsLength(h) <==> SaysLength(h)
      ensures IsChunked(h) <==> SaysChunked(h)
      ensures !(SaysLength(h) && SaysChunked(h))
    {
      SaysIff(h);
    }
    ChunkedNoted(hs);
    var last := SomeLast(hs);
    if last.Some? {
      LastLengthDecides(hs, last.value);
      forall i: nat | LastSays(hs, i)
        ensures i == last.value
      {
        assert !(i < last.value) && !(last.value < i);
      }
    } else {
      NoLengthNoted(hs);
    }
    HttpIff(l.Protocol().Of(msg));
  }

  lemma HttpIff(v: string)
    ensures ParseProtocol(v).IsHttp() <==> v == "HTTP/1.0" || v == "HTTP/1.1"
  {
  }

  // ---------------------------------------------------------------------------
  // Names in another case
  // ---------------------------------------------------------------------------

  /** This place is in the name of a header: a colon follows on its line, and none precedes it there. */
  ghost predicate InName(text: string, from: nat, i: nat) {
    && from <= i < |text|
    && (exists j: nat :: ColonAfter(text, i, j))
    && (forall k :: from <= k < i && text[k] == ':' ==> exists e :: k < e < i && IsEol(text[e]))
  }

  predicate ColonAfter(text: string, i: nat, j: nat) {
    i < j < |text| && text[j] == ':' && NoEolIn(text, i, j)
  }

  /** The texts differ only in the case of letters in header names. */
  ghost predicate Recased(a: string, b: string, from: nat) {
    && |a| == |b|
    && forall i :: 0 <= i < |a| ==> a[i] == b[i] || (OtherCase(a[i], b[i]) && InName(a, from, i))
  }

  /** The texts have their line breaks in the same places. */
  predicate SameBreaks(a: string, b: string) {
    |a| == |b| && forall i :: 0 <= i < |a| ==> (IsEol(a[i]) || IsEol(b[i]) ==> a[i] == b[i])
  }

  lemma LinesSame(a: string, b: string, pos: nat)
    requires SameBreaks(a, b) && pos <= |a|
    ensures LineEnd(a, pos) == LineEnd(b, pos) && NextLine(a, pos) == NextLine(b, pos)
  {
    var e := LineEnd(a, pos);
    assert NoEolIn(b, pos, e);
    LineEndIs(b, pos, e);
  }

  lemma {:induction false} HeadSame(a: string, b: string, pos: nat)
    requires SameBreaks(a, b) && pos < |a|
    ensures HeadersEnd(a, pos) == HeadersEnd(b, pos)
    decreases |a| - pos
  {
    LinesSame(a, b, pos);
    if LineEnd(a, pos) != pos && NextLine(a, pos) != |a| {
      HeadSame(a, b, NextLine(a, pos));
    }
  }

  /** Same headers up to the case of their names. */
  ghost predicate SameHeaders(hs: seq<Header>, gs: seq<Header>) {
    |hs| == |gs| && forall i :: 0 <= i < |hs| ==> SameName(hs[i].name, gs[i].name) && hs[i].value == gs[i].value
  }

  lemma SaysSame(h: Header, g: Header)
    requires SameName(h.name, g.name) && h.value == g.value
    ensures SaysLength(h) <==> SaysLength(g)
    ensures SaysChunked(h) <==> SaysChunked(g)
  {
    hide SameName;
    SameNameChain(h.name, g.name, "Content-Length");
    SameNameChain(h.name, g.name, "Transfer-Encoding");
  }

  lemma {:induction false} NotedSame(hs: seq<Header>, gs: seq<Header>)
    requires SameHeaders(hs, gs)
    ensures Noted(hs) == Noted(gs)
  {
    hide IsLength, IsChunked, SameName, SaysLength, SaysChunked, ValueDec;
    if hs != [] {
      var h, g := hs[|hs| - 1], gs[|gs| - 1];
      NotedSame(hs[..|hs| - 1], gs[..|gs| - 1]);
      SaysIff(h);
      SaysIff(g);
      SaysSame(h, g);
    }
  }

  /** A line whose letters before its colon change case. */
  predicate RecasedLine(a: string, b: string) {
    && |a| == |b| && NoEol(a) && NoEol(b)
    && forall i :: 0 <= i < |a| ==> a[i] == b[i] || (OtherCase(a[i], b[i]) && i < NameEnd(a, 0) < |a|)
  }

  lemma RecasedHeader(a: string, b: string)
    requires RecasedLine(a, b)
    ensures SameName(HeaderOf(a).name, HeaderOf(b).name) && HeaderOf(a).value == HeaderOf(b).value
  {
    hide Trim;
    var e := NameEnd(a, 0);
    NameEndIs(b, e);
    if e < |a| {
      assert a[e + 1..] == b[e + 1..];
    } else {
      assert a == b;
    }
  }

  lemma NameEndIs(line: string, e: nat)
    requires e <= |line| && (forall k :: 0 <= k < e ==> line[k] != ':' && !IsEol(line[k]))
    requires e < |line| ==> line[e] == ':' || IsEol(line[e])
    ensures NameEnd(line, 0) == e
  {
    var x := NameEnd(line, 0);
    assert x < |line| ==> line[x] == ':' || IsEol(line[x]);
  }

  /** The line from `pos` of two such texts. */
  lemma LineRecased(a: string, b: string, pos: nat, e: nat)
    requires Recased(a, b, 0) && pos <= e <= |a| && e == LineEnd(a, pos) && NoEolIn(b, pos, e)
    ensures RecasedLine(a[pos..e], b[pos..e])
  {
    var x, y := a[pos..e], b[pos..e];
    forall i | 0 <= i < |x|
      ensures x[i] == y[i] || (OtherCase(x[i], y[i]) && i < NameEnd(x, 0) < |x|)
    {
      if x[i] != y[i] {
        assert a[pos + i] != b[pos + i];
        PlaceInName(a, pos, e, pos + i);
      }
    }
  }

  /** A place in a name is before the first colon of its line. */
  lemma PlaceInName(a: string, pos: nat, e: nat, i: nat)
    requires pos <= i < e <= |a| && e == LineEnd(a, pos) && InName(a, 0, i) && a[i] != ':'
    ensures i - pos < NameEnd(a[pos..e], 0) < e - pos
  {
    var x := a[pos..e];
    assert forall k :: pos <= k < e ==> !IsEol(a[k]);
    assert forall k :: pos <= k <= i ==> a[k] != ':';
    var j: nat :| ColonAfter(a, i, j);
    assert j < e;
    assert x[j - pos] == ':';
    NameEndBetween(x, i - pos, j - pos);
  }

  lemma NameEndBetween(x: string, i: nat, j: nat)
    requires i < j < |x| && NoEol(x) && x[j] == ':' && forall k :: 0 <= k <= i ==> x[k] != ':'
    ensures i < NameEnd(x, 0) <= j
  {
  }

  lemma {:induction false} ListSame(a: string, b: string, pos: nat)
    requires Recased(a, b, 0) && SameBreaks(a, b) && pos <= |a|
    ensures SameHeaders(HeaderList(a, pos), HeaderList(b, pos))
    decreases |a| - pos
  {
    hide Recased, SameName, HeaderOf, RecasedLine;
    if pos < |a| {
      var e := LineEnd(a, pos);
      LinesSame(a, b, pos);
      LineRecased(a, b, pos, e);
      RecasedHeader(a[pos..e], b[pos..e]);
      ListSame(a, b, NextLine(a, pos));
    }
  }

  lemma RecasedBreaks(a: string, b: string, from: nat)
    requires Recased(a, b, from)
    ensures SameBreaks(a, b)
  {
    hide InName;
  }

  // ---------------------------------------------------------------------------
  // The header section of a message
  // ---------------------------------------------------------------------------

  /** The section without the newline of the empty line that ends it. */
  lemma SectionCut(s: string)
    requires s != "" && IsEol(s[|s| - 1])
    ensures var t := DropNewline(s); |t| < |s| && t <= s && forall i :: |t| <= i < |s| ==> IsEol(s[i])
  {
  }

  lemma {:induction false} HeadEndsInBreak(msg: string, pos: nat)
    requires pos < |msg| && HeadersEnd(msg, pos).Some?
    ensures var h := HeadersEnd(msg, pos).value; pos < h <= |msg| && IsEol(msg[h - 1])
    decreases |msg| - pos
  {
    if LineEnd(msg, pos) != pos && NextLine(msg, pos) != |msg| {
      HeadEndsInBreak(msg, NextLine(msg, pos));
    }
  }

  /** A place in a name of the message is one of its header section. */
  lemma NameInSection(m: string, b: nat, n: nat, i: nat)
    requires b + n < |m| && i < n && IsEol(m[b + n]) && InName(m, b, b + i)
    ensures InName(m[b..b + n], 0, i)
  {
    var t := m[b..b + n];
    var j: nat :| ColonAfter(m, b + i, j);
    assert j < b + n;
    assert ColonAfter(t, i, j - b);
    forall k | 0 <= k < i && t[k] == ':'
      ensures exists e :: k < e < i && IsEol(t[e])
    {
      assert m[b + k] == ':';
      var e :| b + k < e < b + i && IsEol(m[e]);
      assert IsEol(t[e - b]);
    }
  }

  lemma SectionRecased(a: string, b: string, from: nat, n: nat)
    requires Recased(a, b, from) && from + n < |a| && IsEol(a[from + n])
    ensures Recased(a[from..from + n], b[from..from + n], 0)
  {
    hide InName;
    var x, y := a[from..from + n], b[from..from + n];
    forall i | 0 <= i < |x|
      ensures x[i] == y[i] || (OtherCase(x[i], y[i]) && InName(x, 0, i))
    {
      if x[i] != y[i] {
        assert x[i] == a[from + i] && y[i] == b[from + i];
        NameInSection(a, from, n, i);
      }
    }
  }

  /** The sections of two such messages, without the last newline. */
  lemma SectionsRecased(a: string, b: string, from: nat, h: nat)
    requires Recased(a, b, from) && from < h <= |a| && IsEol(a[h - 1])
    ensures Recased(DropNewline(a[from..h]), DropNewline(b[from..h]), 0)
  {
    hide Recased, DropNewline;
    RecasedBreaks(a, b, from);
    var x, y := a[from..h], b[from..h];
    SectionCut(x);
    SectionCut(y);
    SameCut(x, y);
    var n := |DropNewline(x)|;
    assert x[n] == a[from + n];
    SectionRecased(a, b, from, n);
    assert DropNewline(x) == a[from..from + n] && DropNewline(y) == b[from..from + n];
  }

  lemma SameCut(x: string, y: string)
    requires SameBreaks(x, y)
    ensures |DropNewline(x)| == |DropNewline(y)|
  {
  }

  lemma StartSame(a: string, b: string, from: nat)
    requires Recased(a, b, from) && from <= |a|
    ensures a[..from] == b[..from]
  {
  }

  /** Messages that differ only in the case of letters in header names are parsed alike. */
  lemma ParsedAlike(a: string, b: string, given: Kind)
    requires Recased(a, b, NextLine(a, 0))
    ensures Parse(b, given) == Parse(a, given) && NextLine(b, 0) == NextLine(a, 0)
  {
    hide Recased, SetStartLine, EffectiveKind, Parts;
    var next := NextLine(a, 0);
    RecasedBreaks(a, b, next);
    LinesSame(a, b, 0);
    StartSame(a, b, next);
    assert a[..LineEnd(a, 0)] == a[..next][..LineEnd(a, 0)];
    assert b[..LineEnd(a, 0)] == b[..next][..LineEnd(a, 0)];
    if next < |a| {
      HeadSame(a, b, next);
    }
  }

  /** The protocol of an accepted message is in its start line. */
  lemma ProtocolInLine(msg: string, given: Kind)
    requires Parse(msg, given).Parsed?
    ensures var r := Parse(msg, given).layout.Protocol(); r.length > 0 ==> 0 <= r.start && r.start + r.length <= LineEnd(msg, 0)
  {
    ParsedPlaces(msg, given);
    if StartLineOf(msg) != "" {
      LayoutSound(msg, given);
    }
  }

  lemma RangeAlike(a: string, b: string, r: HeadRange, from: nat)
    requires |a| == |b| && from <= |a| && a[..from] == b[..from] && (r.length > 0 ==> 0 <= r.start && r.start + r.length <= from)
    ensures r.Of(a) == r.Of(b)
  {
    if r.length > 0 {
      assert a[r.start..r.start + r.length] == a[..from][r.start..r.start + r.length];
      assert b[r.start..r.start + r.length] == b[..from][r.start..r.start + r.length];
    }
  }

  /** Messages that differ only in the case of letters in header names get the same verdict. */
  lemma CaseDoesNotMatter(a: string, b: string, given: Kind)
    requires Recased(a, b, NextLine(a, 0)) && Parse(a, given).Parsed?
    ensures Parse(b, given) == Parse(a, given)
    ensures var l := Parse(a, given).layout; 0 <= l.pBody <= |a| == |b| && Verdict(b, l) == Verdict(a, l)
  {
    hide Recased, Parse, HeaderList, DropNewline, Noted, SameHeaders, HeadersEnd, LineEnd, NextLine, HeadRange.Of, ParseProtocol;
    ParsedAlike(a, b, given);
    ParsedPlaces(a, given);
    var l, next := Parse(a, given).layout, NextLine(a, 0);
    HeadEndsInBreak(a, next);
    RecasedBreaks(a, b, next);
    SectionsRecased(a, b, next, l.pBody);
    SectionsOf(a, b, l, next);
    var x, y := DropNewline(a[next..l.pBody]), DropNewline(b[next..l.pBody]);
    RecasedBreaks(x, y, 0);
    ListSame(x, y, 0);
    NotedSame(HeaderList(x, 0), HeaderList(y, 0));
    ProtocolInLine(a, given);
    StartSame(a, b, next);
    RangeAlike(a, b, l.Protocol(), next);
  }

  lemma SectionsOf(a: string, b: string, l: Layout, next: nat)
    requires |a| == |b| && l.HeadersPos() == next < l.pBody <= |a|
    ensures l.Headers().Of(a) == a[next..l.pBody] && l.Headers().Of(b) == b[next..l.pBody]
  {
  }

  lemma FiveReads()
    ensures ValueDec("5", 0) == 5
  {
    hide ValueDec;
    assert Zeros(0) + DecimalText(5) == "5";
    ValueRead("5", false, false, 0, 5, "", 0);
  }

  /** A length header in small letters counts, in HTTP too. */
  lemma SmallLettersExample()
    ensures var h := Header("content-length", "5"); SaysLength(h) && IsLength(h) && Judge(Noted([h]), 5, true).complete
  {
    hide ValueDec, IsNamed;
    var h := Header("content-length", "5");
    SaysIff(h);
    FiveReads();
    LastLengthDecides([h], 0);
  }

  // ---------------------------------------------------------------------------
  // The headers of every accepted message
  // ---------------------------------------------------------------------------

  /** Dropping the newline of the empty line leaves the lines before it, whichever line breaks they have. */
  lemma SectionIs(msg: string, from: nat, p: nat, h: nat)
    requires FirstEmptyLine(msg, from, p) && h == Behind(msg, p)
    ensures from <= p < h <= |msg| && DropNewline(msg[from..h]) == msg[from..p]
  {
    var s := msg[from..h];
    assert |s| == h - from && s[|s| - 1] == msg[h - 1];
    if msg[p] == '\n' {
      assert s[..|s| - 1] == msg[from..p];
      assert p > from ==> msg[from..p][p - from - 1] == msg[p - 1];
    } else if h == p + 2 {
      assert s[..|s| - 1] == msg[from..p + 1] && msg[from..p + 1][p - from] == msg[p];
      assert msg[from..p + 1][..p - from] == msg[from..p];
    } else {
      assert s[..|s| - 1] == msg[from..p];
    }
  }

  /** The headers of every accepted message are the lines between its start line and its first empty line, in order. */
  lemma HeadersOfAccepted(msg: string, given: Kind, eol: nat, p: nat, ls: seq<string>)
    requires FirstBreak(msg, eol) && FirstEmptyLine(msg, Behind(msg, eol), p) && Parse(msg, given).Parsed?
    requires LinesFrom(msg[Behind(msg, eol)..p], 0, ls)
    ensures var hs := HeadersOf(msg, Parse(msg, given).layout);
      |hs| == |ls| && forall i :: 0 <= i < |ls| ==> HeaderRead(ls[i], hs[i])
  {
    hide *;
    HeaderSection(msg, given, eol, p);
    HeadersAreLines(msg[Behind(msg, eol)..p], 0, ls);
  }

  /** They are read from the text between. */
  lemma HeaderSection(msg: string, given: Kind, eol: nat, p: nat)
    requires FirstBreak(msg, eol) && FirstEmptyLine(msg, Behind(msg, eol), p) && Parse(msg, given).Parsed?
    ensures Behind(msg, eol) <= p < |msg|
    ensures HeadersOf(msg, Parse(msg, given).layout) == HeaderList(msg[Behind(msg, eol)..p], 0)
  {
    hide Parse, HeaderList, DropNewline, FirstEmptyLine, FirstBreak, LineBegins;
    var l, from := Parse(msg, given).layout, Behind(msg, eol);
    FirstBreakIs(msg, eol);
    HeadersFrom(msg, given);
    HeadEnd(msg, from, p);
    SectionIs(msg, from, p, Behind(msg, p));
  }

  lemma HeadersFrom(msg: string, given: Kind)
    requires Parse(msg, given).Parsed?
    ensures var from := NextLine(msg, 0);
      && from < |msg| && HeadersEnd(msg, from).Some?
      && Parse(msg, given).layout.Headers().Of(msg) == msg[from..HeadersEnd(msg, from).value]
  {
    hide Parse;
    ParsedPlaces(msg, given);
  }

  lemma HeadEnd(msg: string, from: nat, p: nat)
    requires from < |msg| && FirstEmptyLine(msg, from, p)
    ensures HeadersEnd(msg, from) == Some(Behind(msg, p))
  {
    hide HeadersEnd, LineBegins;
    NothingBefore(msg, from);
    var q := HeadersEndIs(msg, from, from);
    assert EmptyLineAt(msg, from, p) && q.Some?;
    assert !(q.value < p) && !(p < q.value);
  }

  // ---------------------------------------------------------------------------
  // Status codes
  // ---------------------------------------------------------------------------

  lemma ThreeDigits(s: string)
    requires |s| == 3 && AllDigits(s)
    ensures Decimal(s) == 100 * DigitValue(s[0]) + 10 * DigitValue(s[1]) + DigitValue(s[2])
  {
    var a, b := s[..2], s[..1];
    assert a[..1] == b && b[..0] == "";
    assert Decimal(b) == DigitValue(s[0]);
    assert Decimal(a) == 10 * Decimal(b) + DigitValue(s[1]);
  }

  lemma DigitsOfCode(code: int)
    requires 1 <= code <= 999
    ensures code == 100 * (code / 100 % 10) + 10 * (code / 10 % 10) + code % 10
  {
    assert code / 100 % 10 == code / 100;
  }

  lemma CodeReads(code: int)
    requires 1 <= code <= 999
    ensures AllDigits(StatusText(code)) && Decimal(StatusText(code)) == code
  {
    hide Decimal;
    DigitsOfCode(code);
    ThreeDigits(StatusText(code));
  }

  /** A status is the decimal number of its three digits, and nothing else has one; it is printed as the digits of its code. */
  lemma StatusIsDecimal(s: string, code: int)
    ensures ParseStatus(s) == if |s| == 3 && AllDigits(s) then Decimal(s) else 0
    ensures 1 <= code <= 999 ==> AllDigits(StatusText(code)) && Decimal(StatusText(code)) == code
    ensures !(1 <= code <= 999) ==> !AllDigits(StatusText(code))
  {
    hide Decimal, StatusText;
    if |s| == 3 && AllDigits(s) {
      ThreeDigits(s);
    }
    if 1 <= code <= 999 {
      CodeReads(code);
    } else {
      NotAvailable(code);
    }
  }

  lemma NotAvailable(code: int)
    requires !(1 <= code <= 999)
    ensures !AllDigits(StatusText(code))
  {
    assert StatusText(code)[0] == 'N';
  }
}

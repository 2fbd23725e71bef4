/**
 Reading back a message that was laid out as a start line, header lines, an
 empty line and a body.
 */
module MsgSections {
  import opened Options
  import opened Slices
  import opened MsgText
  import opened MsgLayout
  import opened MsgHeaders

  /** Every line followed by a newline. */
  function JoinLines(lines: seq<string>, nl: string): string {
    if lines == [] then "" else lines[0] + nl + JoinLines(lines[1..], nl)
  }

  lemma {:induction false} JoinLinesAppend(a: seq<string>, b: seq<string>, nl: string)
    ensures JoinLines(a + b, nl) == JoinLines(a, nl) + JoinLines(b, nl)
  {
    if a == [] {
      assert a + b == b;
    } else {
      assert (a + b)[1..] == a[1..] + b;
      JoinLinesAppend(a[1..], b, nl);
    }
  }

  lemma {:induction false} JoinLinesSnoc(a: seq<string>, x: string, nl: string)
    ensures JoinLines(a + [x], nl) == JoinLines(a, nl) + x + nl
  {
    if a == [] {
      assert a + [x] == [x] && [x][1..] == [];
    } else {
      assert (a + [x])[1..] == a[1..] + [x];
      JoinLinesSnoc(a[1..], x, nl);
    }
  }

  /** Lines that cannot be mistaken for the empty line or be cut in two. */
  predicate Solid(lines: seq<string>) {
    forall i :: 0 <= i < |lines| ==> lines[i] != "" && NoEol(lines[i])
  }

  /** The lines and their newlines occupy `m` from `pos` to `end`. */
  ghost predicate LinesAt(m: string, pos: nat, lines: seq<string>, nl: string, end: nat)
    decreases |lines|
  {
    if lines == [] then pos == end
    else
      && OccursAt(m, pos, lines[0])
      && OccursAt(m, pos + |lines[0]|, nl)
      && LinesAt(m, pos + |lines[0]| + |nl|, lines[1..], nl, end)
  }

  lemma {:induction false} LinesAtJoined(m: string, pos: nat, lines: seq<string>, nl: string)
    requires OccursAt(m, pos, JoinLines(lines, nl))
    ensures LinesAt(m, pos, lines, nl, pos + |JoinLines(lines, nl)|)
    decreases |lines|
  {
    if lines != [] {
      OccursAtThree(m, pos, lines[0], nl, JoinLines(lines[1..], nl));
      LinesAtJoined(m, pos + |lines[0]| + |nl|, lines[1..], nl);
    }
  }

  /** The scan for the empty line stops right after the lines and their closing newline. */
  lemma {:induction false} HeadersEndAt(m: string, pos: nat, lines: seq<string>, nl: string, end: nat)
    requires Solid(lines) && IsNewline(nl)
    requires LinesAt(m, pos, lines, nl, end) && OccursAt(m, end, nl)
    ensures pos <= end && pos < |m| && HeadersEnd(m, pos) == Some(end + |nl|)
    decreases |lines|
  {
    if lines == [] {
      assert OccursAt(m, pos, "");
      WrittenLine(m, pos, "", nl);
    } else {
      var next := pos + |lines[0]| + |nl|;
      WrittenLine(m, pos, lines[0], nl);
      HeadersEndAt(m, next, lines[1..], nl, end);
      assert LineEnd(m, pos) > pos && NextLine(m, pos) == next < |m|;
    }
  }

  /** The header each line holds. */
  function HeadersIn(lines: seq<string>): (hs: seq<Header>)
    ensures |hs| == |lines|
    ensures forall i :: 0 <= i < |lines| ==> hs[i] == HeaderOf(lines[i])
  {
    if lines == [] then [] else [HeaderOf(lines[0])] + HeadersIn(lines[1..])
  }

  lemma {:induction false} HeaderListAt(text: string, pos: nat, lines: seq<string>, nl: string)
    requires Solid(lines) && IsNewline(nl)
    requires LinesAt(text, pos, lines, nl, |text|)
    ensures pos <= |text| && HeaderList(text, pos) == HeadersIn(lines)
    decreases |lines|
  {
    if lines != [] {
      var next := pos + |lines[0]| + |nl|;
      WrittenLine(text, pos, lines[0], nl);
      assert LineEnd(text, pos) == pos + |lines[0]| && NextLine(text, pos) == next;
      HeaderListAt(text, next, lines[1..], nl);
      assert HeaderList(text, pos) == [HeaderOf(lines[0])] + HeaderList(text, next);
    }
  }

  lemma {:induction false} JoinLinesEnd(lines: seq<string>, nl: string)
    requires IsNewline(nl)
    ensures JoinLines(lines, nl) != "" ==> JoinLines(lines, nl)[|JoinLines(lines, nl)| - 1] == '\n'
  {
    if lines != [] {
      JoinLinesEnd(lines[1..], nl);
    }
  }

  lemma DropNewlineJoined(lines: seq<string>, nl: string)
    requires IsNewline(nl)
    ensures DropNewline(JoinLines(lines, nl) + nl) == JoinLines(lines, nl)
  {
    var j := JoinLines(lines, nl);
    JoinLinesEnd(lines, nl);
    var s := j + nl;
    if nl == "\n" {
      assert s[..|s| - 1] == j;
    } else {
      assert s[..|s| - 1] == j + "\r";
      assert s[..|s| - 1][..|s| - 2] == j;
    }
  }

  /** A message laid out in sections. */
  function Laid(start: string, nl: string, lines: seq<string>, body: string): string {
    start + nl + JoinLines(lines, nl) + nl + body
  }

  function HeadLength(start: string, nl: string, j: string): nat {
    |start| + |nl| + |j| + |nl|
  }

  /** The pieces of a laid-out message occur one after the other and fill it. */
  ghost predicate LaidAt(m: string, start: string, nl: string, j: string, body: string) {
    && OccursAt(m, 0, start) && OccursAt(m, |start|, nl) && OccursAt(m, |start| + |nl|, j)
    && OccursAt(m, |start| + |nl| + |j|, nl) && OccursAt(m, |start| + |nl| + |j| + |nl|, body)
    && |m| == |start| + |nl| + |j| + |nl| + |body|
  }

  lemma LaidOccurs(start: string, nl: string, j: string, body: string)
    ensures LaidAt(start + nl + j + nl + body, start, nl, j, body)
  {
    var m := start + nl + j + nl + body;
    assert OccursAt(m, 0, m);
    OccursAtThree(m, 0, start + nl + j, nl, body);
    OccursAtThree(m, 0, start, nl, j);
  }

  /** The sections of a message as the parser finds them. */
  ghost predicate SectionsOf(m: string, start: string, nl: string, j: string, body: string) {
    var h := HeadLength(start, nl, j);
    && LineEnd(m, 0) == |start| && m[..|start|] == start
    && NextLine(m, 0) == |start| + |nl| < |m| && m[..|start| + |nl|] == start + nl
    && HeadersEnd(m, |start| + |nl|) == Some(h)
    && h <= |m|
    && m[|start| + |nl|..h] == j + nl
    && m[h..] == body
  }

  lemma HeadersEndJoined(m: string, pos: nat, lines: seq<string>, nl: string, end: nat)
    requires Solid(lines) && IsNewline(nl)
    requires OccursAt(m, pos, JoinLines(lines, nl)) && end == pos + |JoinLines(lines, nl)| && OccursAt(m, end, nl)
    ensures pos < |m| && HeadersEnd(m, pos) == Some(end + |nl|)
  {
    LinesAtJoined(m, pos, lines, nl);
    HeadersEndAt(m, pos, lines, nl, end);
  }

  lemma LaidSlices(m: string, start: string, nl: string, j: string, body: string)
    requires LaidAt(m, start, nl, j, body)
    ensures m[..|start|] == start && m[..|start| + |nl|] == start + nl
    ensures m[|start| + |nl|..|start| + |nl| + |j| + |nl|] == j + nl
    ensures m[|start| + |nl| + |j| + |nl|..] == body
  {
    Adjacent(m, 0, start, nl);
    Adjacent(m, |start| + |nl|, j, nl);
  }

  /** The parser finds the sections where they were laid, whatever the body. */
  lemma LaidSections(m: string, start: string, nl: string, lines: seq<string>, j: string, body: string)
    requires NoEol(start) && Solid(lines) && IsNewline(nl) && j == JoinLines(lines, nl)
    requires LaidAt(m, start, nl, j, body)
    ensures SectionsOf(m, start, nl, j, body)
  {
    hide Solid, JoinLines, HeadersEnd, LineEnd, NextLine;
    var a, b := |start| + |nl|, |start| + |nl| + |j|;
    assert LineEnd(m, 0) == |start| && NextLine(m, 0) == a by {
      WrittenLine(m, 0, start, nl);
    }
    assert a < |m| && HeadersEnd(m, a) == Some(b + |nl|) by {
      HeadersEndJoined(m, a, lines, nl, b);
    }
    LaidSlices(m, start, nl, j, body);
  }

  lemma Adjacent(m: string, pos: nat, t: string, u: string)
    requires OccursAt(m, pos, t) && OccursAt(m, pos + |t|, u)
    ensures m[pos..pos + |t| + |u|] == t + u
  {
    OccursAtConcat(m, pos, t, u);
  }

  /** Parsing a message whose sections are known. */
  lemma ParseSections(m: string, kind: Kind, line: string, withEol: string, body: nat)
    requires line == m[..LineEnd(m, 0)] && withEol == m[..NextLine(m, 0)]
    requires NextLine(m, 0) < |m| && HeadersEnd(m, NextLine(m, 0)) == Some(body)
    ensures body > 0xFFFF ==> Parse(m, kind) == Failed(HeaderTooBig, 0)
    ensures body <= 0xFFFF ==> Parse(m, kind) == SetStartLine(withEol, EffectiveKind(line, kind), Parts(line), body)
  {
  }

  /** Parsing a laid-out message is packing its start line, if the head fits 16 bits. */
  lemma ParseLaid(m: string, start: string, nl: string, j: string, body: string, kind: Kind)
    requires SectionsOf(m, start, nl, j, body)
    ensures HeadLength(start, nl, j) > 0xFFFF ==> Parse(m, kind) == Failed(HeaderTooBig, 0)
    ensures HeadLength(start, nl, j) <= 0xFFFF ==>
      Parse(m, kind) == SetStartLine(start + nl, EffectiveKind(start, kind), Parts(start), HeadLength(start, nl, j))
  {
    ParseSections(m, kind, start, start + nl, HeadLength(start, nl, j));
  }

  /** The view of a laid-out message reads back the headers and the body. */
  lemma ViewLaid(m: string, start: string, nl: string, lines: seq<string>, j: string, body: string, l: Layout)
    requires Solid(lines) && IsNewline(nl) && j == JoinLines(lines, nl) && SectionsOf(m, start, nl, j, body)
    requires l.slLen == |start| && l.slNl == |nl| && l.pBody == HeadLength(start, nl, j)
    ensures HeadersOf(m, l) == HeadersIn(lines)
    ensures m[l.pBody..] == body
  {
    assert l.Headers().Of(m) == j + nl;
    DropNewlineJoined(lines, nl);
    HeaderListJoined(lines, nl);
  }

  lemma HeaderListJoined(lines: seq<string>, nl: string)
    requires Solid(lines) && IsNewline(nl)
    ensures HeaderList(JoinLines(lines, nl), 0) == HeadersIn(lines)
  {
    var j := JoinLines(lines, nl);
    assert OccursAt(j, 0, j);
    LinesAtJoined(j, 0, lines, nl);
    HeaderListAt(j, 0, lines, nl);
  }
}

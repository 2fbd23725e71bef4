/**
 Line and word scanning over message text.

 A message is a sequence of characters and a C++ pointer into it is an index.
 Newlines are LF, CR LF or a lone CR, as in `detail::ConsumeLine`.
 */
module MsgText {
  import opened Slices

  /** A line break character. */
  predicate IsEol(c: char) {
    c == '\n' || c == '\r'
  }

  /** No line break among the characters of `s` in `[lo, hi)`. */
  predicate NoEolIn(s: string, lo: nat, hi: nat)
    requires lo <= hi <= |s|
  {
    forall i :: lo <= i < hi ==> !IsEol(s[i])
  }

  predicate NoEol(s: string) {
    NoEolIn(s, 0, |s|)
  }

  predicate NoSpaceIn(s: string, lo: nat, hi: nat)
    requires lo <= hi <= |s|
  {
    forall i :: lo <= i < hi ==> s[i] != ' '
  }

  predicate NoSpace(s: string) {
    NoSpaceIn(s, 0, |s|)
  }

  predicate IsNewline(s: string) {
    s == "\n" || s == "\r\n"
  }

  lemma NoEolConcat(a: string, b: string)
    ensures NoEol(a + b) <==> NoEol(a) && NoEol(b)
  {
    var s := a + b;
    assert forall i :: 0 <= i < |a| ==> s[i] == a[i];
    assert forall i :: 0 <= i < |b| ==> s[|a| + i] == b[i];
  }

  /** The index of the first line break at or after `pos`, or the end of the text. */
  function LineEnd(s: string, pos: nat): (eol: nat)
    requires pos <= |s|
    ensures pos <= eol <= |s|
    ensures NoEolIn(s, pos, eol)
    ensures eol < |s| ==> IsEol(s[eol])
    decreases |s| - pos
  {
    if pos == |s| || IsEol(s[pos]) then pos else LineEnd(s, pos + 1)
  }

  /** The index just past the line break that ends the line starting at `pos`. */
  function NextLine(s: string, pos: nat): (next: nat)
    requires pos <= |s|
    ensures LineEnd(s, pos) <= next <= |s|
    ensures pos < |s| ==> pos < next
  {
    var eol := LineEnd(s, pos);
    if eol == |s| then eol
    else if s[eol] == '\r' && eol + 1 < |s| && s[eol + 1] == '\n' then eol + 2
    else eol + 1
  }

  /** `detail::ConsumeLine`: the line is `s[pos..eol]` and scanning resumes at `next`. */
  method ConsumeLine(s: string, pos: nat) returns (eol: nat, next: nat)
    requires pos <= |s|
    ensures eol == LineEnd(s, pos)
    ensures next == NextLine(s, pos)
  {
    next := pos;
    while true
      invariant pos <= next <= |s|
      invariant LineEnd(s, pos) == LineEnd(s, next)
      decreases |s| - next
    {
      if next >= |s| {
        eol := next;
        break;
      }
      if s[next] == '\n' {
        eol := next;
        next := next + 1;
        break;
      }
      if s[next] == '\r' {
        eol := next;
        next := next + 1;
        if next != |s| && s[next] == '\n' {
          next := next + 1;
        }
        break;
      }
      next := next + 1;
    }
  }

  /** A line written with a newline is read back, and scanning resumes right after it. */
  lemma WrittenLine(s: string, pos: nat, line: string, nl: string)
    requires NoEol(line) && IsNewline(nl)
    requires OccursAt(s, pos, line) && OccursAt(s, pos + |line|, nl)
    ensures LineEnd(s, pos) == pos + |line|
    ensures NextLine(s, pos) == pos + |line| + |nl|
  {
    OccursAtIndex(s, pos, line);
    OccursAtIndex(s, pos + |line|, nl);
    assert forall i :: pos <= i < pos + |line| ==> s[i] == line[i - pos];
    assert s[pos + |line|] == nl[0];
    assert |nl| == 2 ==> s[pos + |line| + 1] == nl[1];
  }

  /** The first space at or after `i`, or the end of the line. */
  function WordEnd(line: string, i: nat): (e: nat)
    requires i <= |line|
    ensures i <= e <= |line|
    ensures NoSpaceIn(line, i, e)
    ensures e < |line| ==> line[e] == ' '
    decreases |line| - i
  {
    if i == |line| || line[i] == ' ' then i else WordEnd(line, i + 1)
  }
}

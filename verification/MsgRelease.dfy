/**
 What a run of the writer releases, and what filling in Content-Length changes.
 */
module MsgRelease {
  import opened Options
  import opened Slices
  import opened MsgText
  import opened MsgTables
  import opened MsgLayout
  import opened MsgHeaders
  import opened MsgWriter
  import opened MsgSections
  import opened MsgRoundTrip

  /** The header lines as first written, with blanks for the length. */
  function DraftLines(fs: seq<Field>): (lines: seq<string>)
    ensures |lines| == |fs|
    ensures forall i :: 0 <= i < |fs| ==> lines[i] == fs[i].Line()
  {
    if fs == [] then [] else DraftLines(fs[..|fs| - 1]) + [fs[|fs| - 1].Line()]
  }

  /** The message before its length is filled in. */
  function Draft(p: Protocol, o: Opening, fs: seq<Field>, body: string): string {
    HeadText(p, o, fs) + p.Newline() + body
  }

  /** The number of characters before the body. */
  function BodyStart(p: Protocol, o: Opening, fs: seq<Field>): nat {
    |HeadText(p, o, fs)| + |p.Newline()|
  }

  lemma {:induction false} HeaderTextJoins(fs: seq<Field>, nl: string)
    ensures HeaderText(fs, nl) == JoinLines(DraftLines(fs), nl)
  {
    if fs != [] {
      var init, last := fs[..|fs| - 1], fs[|fs| - 1];
      HeaderTextJoins(init, nl);
      JoinLinesSnoc(DraftLines(init), last.Line(), nl);
    }
  }

  lemma DraftIsLaid(p: Protocol, o: Opening, fs: seq<Field>, body: string)
    ensures Draft(p, o, fs, body) == Laid(o.Text(p), p.Newline(), DraftLines(fs), body)
  {
    HeaderTextJoins(fs, p.Newline());
  }

  /** The reserved blanks are long enough for the size of the body. */
  predicate RoomFor(fs: seq<Field>, size: nat) {
    LengthIndex(fs) < |fs| ==> NumDigits(size) <= LengthSize(fs)
  }

  lemma LengthIsThere(fs: seq<Field>, i: nat)
    requires OneLength(fs) && i < |fs| && fs[i].Length?
    ensures i == LengthIndex(fs)
  {
  }

  /** Only the length line changes, and it keeps its length. */
  lemma LinesDiffer(fs: seq<Field>, size: nat, i: nat)
    requires OneLength(fs) && RoomFor(fs, size) && i < |fs|
    ensures i != LengthIndex(fs) ==> FinalLine(fs[i], size) == fs[i].Line()
    ensures |FinalLine(fs[i], size)| == |fs[i].Line()|
  {
    if fs[i].Length? {
      LengthIsThere(fs, i);
    }
  }

  lemma {:induction false} JoinLinesSameLength(a: seq<string>, b: seq<string>, nl: string)
    requires |a| == |b| && forall i :: 0 <= i < |a| ==> |a[i]| == |b[i]|
    ensures |JoinLines(a, nl)| == |JoinLines(b, nl)|
  {
    if a != [] {
      JoinLinesSameLength(a[1..], b[1..], nl);
    }
  }

  lemma HeadsSameLength(p: Protocol, fs: seq<Field>, size: nat)
    requires OneLength(fs) && RoomFor(fs, size)
    ensures |JoinLines(DraftLines(fs), p.Newline())| == |JoinedHeaders(p, fs, size)|
  {
    forall i | 0 <= i < |fs|
      ensures |DraftLines(fs)[i]| == |FinalLines(fs, size)[i]|
    {
      LinesDiffer(fs, size, i);
    }
    JoinLinesSameLength(DraftLines(fs), FinalLines(fs, size), p.Newline());
  }

  // ---------------------------------------------------------------------------
  // The fill-in
  // ---------------------------------------------------------------------------

  lemma {:induction false} BlanksSplit(a: nat, b: nat)
    ensures Blanks(a + b) == Blanks(a) + Blanks(b)
  {
  }

  /** Overwriting the start of a run of blanks. */
  lemma OverwriteBlanks(pre: string, digits: string, total: nat, post: string)
    requires |digits| <= total
    ensures Overwrite(pre + Blanks(total) + post, |pre|, digits) == pre + digits + Blanks(total - |digits|) + post
  {
    var rest := Blanks(total - |digits|);
    BlanksSplit(|digits|, total - |digits|);
    var s := pre + Blanks(total) + post;
    assert s[..|pre|] == pre;
    assert s[|pre| + |digits|..] == rest + post;
  }

  /** A joined list of lines around its line `k`. */
  lemma JoinLinesAround(lines: seq<string>, k: nat, nl: string)
    requires k < |lines|
    ensures JoinLines(lines, nl) == JoinLines(lines[..k], nl) + lines[k] + (nl + JoinLines(lines[k + 1..], nl))
  {
    assert lines == lines[..k] + lines[k..];
    JoinLinesAppend(lines[..k], lines[k..], nl);
    assert lines[k..][1..] == lines[k + 1..];
  }

  lemma Regroup(t: string, nl: string, j: string, line: string, post: string, body: string)
    ensures t + nl + (j + line + (nl + post)) + nl + body == (t + nl + j) + line + (nl + post + nl + body)
  {
    assert t + nl + (j + line + (nl + post)) == (t + nl + j) + line + (nl + post);
  }

  /** What stands before and after the length line of a message. */
  function Before(p: Protocol, o: Opening, fs: seq<Field>, k: nat): string
    requires k <= |fs|
  {
    HeadText(p, o, fs[..k])
  }

  function After(p: Protocol, fs: seq<Field>, k: nat, body: string): string
    requires k < |fs|
  {
    p.Newline() + JoinLines(DraftLines(fs)[k + 1..], p.Newline()) + p.Newline() + body
  }

  lemma DraftLinesPrefix(fs: seq<Field>, k: nat)
    requires k <= |fs|
    ensures DraftLines(fs)[..k] == DraftLines(fs[..k])
  {
  }

  /** A message laid out around its line `k`. */
  lemma LaidAround(p: Protocol, o: Opening, fs: seq<Field>, k: nat, lines: seq<string>, body: string)
    requires k < |fs| == |lines|
    requires lines[..k] == DraftLines(fs)[..k] && lines[k + 1..] == DraftLines(fs)[k + 1..]
    ensures Laid(o.Text(p), p.Newline(), lines, body) == Before(p, o, fs, k) + lines[k] + After(p, fs, k, body)
  {
    var nl := p.Newline();
    JoinLinesAround(lines, k, nl);
    assert JoinLines(lines[..k], nl) == HeaderText(fs[..k], nl) by {
      DraftLinesPrefix(fs, k);
      HeaderTextJoins(fs[..k], nl);
    }
    Regroup(o.Text(p), nl, JoinLines(lines[..k], nl), lines[k], JoinLines(lines[k + 1..], nl), body);
  }

  lemma LinesAgree(fs: seq<Field>, size: nat, k: nat)
    requires k == LengthIndex(fs) < |fs| && OneLength(fs) && RoomFor(fs, size)
    ensures FinalLines(fs, size)[..k] == DraftLines(fs)[..k]
    ensures FinalLines(fs, size)[k + 1..] == DraftLines(fs)[k + 1..]
  {
    forall i | 0 <= i < |fs| && i != k
      ensures FinalLines(fs, size)[i] == DraftLines(fs)[i]
    {
      LinesDiffer(fs, size, i);
    }
  }

  lemma MessageAround(p: Protocol, o: Opening, fs: seq<Field>, body: string, k: nat)
    requires k == LengthIndex(fs) < |fs| && OneLength(fs) && RoomFor(fs, |body|)
    ensures Message(p, o, fs, body) == Before(p, o, fs, k) + FinalLine(fs[k], |body|) + After(p, fs, k, body)
  {
    LinesAgree(fs, |body|, k);
    LaidAround(p, o, fs, k, FinalLines(fs, |body|), body);
  }

  lemma DraftAround(p: Protocol, o: Opening, fs: seq<Field>, body: string, k: nat)
    requires k < |fs|
    ensures Draft(p, o, fs, body) == Before(p, o, fs, k) + fs[k].Line() + After(p, fs, k, body)
  {
    DraftIsLaid(p, o, fs, body);
    LaidAround(p, o, fs, k, DraftLines(fs), body);
  }

  /** Overwriting the blanks after a tag, in the middle of a text. */
  lemma OverwriteLine(draft: string, pre: string, tag: string, digits: string, total: nat, post: string, off: nat)
    requires |digits| <= total && off == |pre| + |tag|
    requires draft == pre + (tag + Blanks(total)) + post
    ensures off + |digits| <= |draft|
    ensures Overwrite(draft, off, digits) == pre + (tag + digits + Blanks(total - |digits|)) + post
  {
    OverwriteBlanks(pre + tag, digits, total, post);
    assert draft == (pre + tag) + Blanks(total) + post;
    var rest := Blanks(total - |digits|);
    assert pre + (tag + digits + rest) + post == (pre + tag) + digits + rest + post;
  }

  lemma LengthLines(fs: seq<Field>, size: nat, k: nat)
    requires k == LengthIndex(fs) < |fs| && RoomFor(fs, size)
    ensures fs[k].Line() == "Content-Length:" + Blanks(LengthSize(fs))
    ensures FinalLine(fs[k], size) == "Content-Length:" + DecimalText(size) + Blanks(LengthSize(fs) - NumDigits(size))
  {
    hide Blanks, DecimalText, NumDigits;
    assert fs[k].Length?;
  }

  /** Filling in the length of a draft gives the released message. */
  lemma FillIn(p: Protocol, o: Opening, fs: seq<Field>, body: string)
    requires OneLength(fs) && LengthIndex(fs) < |fs| && RoomFor(fs, |body|)
    ensures LengthOffset(p, o, fs) + |DecimalText(|body|)| <= |Draft(p, o, fs, body)|
    ensures Overwrite(Draft(p, o, fs, body), LengthOffset(p, o, fs), DecimalText(|body|)) == Message(p, o, fs, body)
  {
    var k, off := LengthIndex(fs), LengthOffset(p, o, fs);
    var pre, post := Before(p, o, fs, k), After(p, fs, k, body);
    LengthLines(fs, |body|, k);
    DraftAround(p, o, fs, body, k);
    OverwriteLine(Draft(p, o, fs, body), pre, "Content-Length:", DecimalText(|body|), LengthSize(fs), post, off);
    MessageAround(p, o, fs, body, k);
  }

  // ---------------------------------------------------------------------------
  // What the fill-in leaves alone
  // ---------------------------------------------------------------------------

  lemma DraftLineSolid(f: Field)
    requires f.Accepted()
    ensures f.Line() != "" && NoEol(f.Line())
  {
    match f
    case Plain(name, value) =>
      NoEolConcat(name + ":", value);
      NoEolConcat(name, ":");
    case Length(maxLength) =>
      NoEolConcat("Content-Length:", Blanks(NumDigits(maxLength)));
  }

  lemma DraftSections(p: Protocol, o: Opening, fs: seq<Field>, body: string)
    requires p.Valid() && o.Accepted() && AllAccepted(fs)
    ensures Solid(DraftLines(fs))
    ensures SectionsOf(Draft(p, o, fs, body), o.Text(p), p.Newline(), JoinLines(DraftLines(fs), p.Newline()), body)
  {
    var j := JoinLines(DraftLines(fs), p.Newline());
    forall i | 0 <= i < |fs|
      ensures DraftLines(fs)[i] != "" && NoEol(DraftLines(fs)[i])
    {
      DraftLineSolid(fs[i]);
    }
    OpeningSolid(o, p);
    DraftIsLaid(p, o, fs, body);
    LaidOccurs(o.Text(p), p.Newline(), j, body);
    LaidSections(Draft(p, o, fs, body), o.Text(p), p.Newline(), DraftLines(fs), j, body);
  }

  /** A draft parses as the released message does, and as it does with any other body. */
  lemma DraftParses(p: Protocol, o: Opening, fs: seq<Field>, body: string, body': string)
    requires p.Valid() && o.Accepted() && AllAccepted(fs)
    ensures Parse(Draft(p, o, fs, body), Unknown) == Parse(Draft(p, o, fs, body'), Unknown)
    ensures OneLength(fs) && RoomFor(fs, |body|) ==>
      Parse(Draft(p, o, fs, body), Unknown) == Parse(Message(p, o, fs, body), Unknown)
  {
    var t, nl, j := o.Text(p), p.Newline(), JoinLines(DraftLines(fs), p.Newline());
    DraftSections(p, o, fs, body);
    ParseLaid(Draft(p, o, fs, body), t, nl, j, body, Unknown);
    DraftSections(p, o, fs, body');
    ParseLaid(Draft(p, o, fs, body'), t, nl, j, body', Unknown);
    if OneLength(fs) && RoomFor(fs, |body|) {
      HeadsSameLength(p, fs, |body|);
      MessageSections(p, o, fs, body);
      ParseLaid(Message(p, o, fs, body), t, nl, JoinedHeaders(p, fs, |body|), body, Unknown);
    }
  }

  /** The blanks of a draft are where the writer noted them. */
  lemma DraftBlanks(p: Protocol, o: Opening, fs: seq<Field>, body: string)
    requires LengthIndex(fs) < |fs|
    ensures OccursAt(Draft(p, o, fs, body), LengthOffset(p, o, fs), Blanks(LengthSize(fs)))
  {
    var k, off := LengthIndex(fs), LengthOffset(p, o, fs);
    var pre, post := Before(p, o, fs, k), After(p, fs, k, body);
    DraftAround(p, o, fs, body, k);
    BlanksInside(Draft(p, o, fs, body), pre, "Content-Length:", LengthSize(fs), post, off);
  }

  /** Only characters inside the reserved blanks differ between the draft and the release. */
  lemma OnlyBlanksChange(p: Protocol, o: Opening, fs: seq<Field>, body: string)
    requires OneLength(fs) && LengthIndex(fs) < |fs| && RoomFor(fs, |body|)
    ensures var m, draft, off := Message(p, o, fs, body), Draft(p, o, fs, body), LengthOffset(p, o, fs);
      && |m| == |draft|
      && OccursAt(draft, off, Blanks(LengthSize(fs)))
      && forall i :: 0 <= i < |m| && !(off <= i < off + LengthSize(fs)) ==> m[i] == draft[i]
  {
    DraftBlanks(p, o, fs, body);
    FillIn(p, o, fs, body);
    OverwriteElsewhere(Draft(p, o, fs, body), LengthOffset(p, o, fs), DecimalText(|body|));
  }

  lemma BlanksInside(draft: string, pre: string, tag: string, n: nat, post: string, off: nat)
    requires off == |pre| + |tag| && draft == pre + (tag + Blanks(n)) + post
    ensures OccursAt(draft, off, Blanks(n))
  {
    assert draft == (pre + tag) + Blanks(n) + post;
  }

  /**
   Filling in Content-Length on release changes only the reserved blanks: the
   layout, the other headers and the body read as before, and the length header
   now reads as the size of the body.
   */
  lemma BackPatch(p: Protocol, o: Opening, fs: seq<Field>, body: string)
    requires p.Valid() && o.Accepted() && AllAccepted(fs) && OneLength(fs)
    requires LengthIndex(fs) < |fs| && RoomFor(fs, |body|)
    requires Parse(Draft(p, o, fs, body), Unknown).Parsed?
    ensures var m, draft, k := Message(p, o, fs, body), Draft(p, o, fs, body), LengthIndex(fs);
      && Parse(m, Unknown) == Parse(draft, Unknown)
      && var l := Parse(m, Unknown).layout;
         && |HeadersOf(m, l)| == |HeadersOf(draft, l)| == |fs|
         && (forall i :: 0 <= i < |fs| && i != k ==> HeadersOf(m, l)[i] == HeadersOf(draft, l)[i])
         && IsLength(HeadersOf(m, l)[k])
         && (|body| <= INT64_MAX ==> ValueDec(HeadersOf(m, l)[k].value, 0) == |body|)
         && 0 <= l.pBody <= |m| == |draft| && m[l.pBody..] == draft[l.pBody..] == body
  {
    hide Parse, Message, Draft, JoinLines, HeadersOf, HeadersIn, ValueDec, SectionsOf;
    var m, draft, k := Message(p, o, fs, body), Draft(p, o, fs, body), LengthIndex(fs);
    var l := Parse(draft, Unknown).layout;
    DraftParses(p, o, fs, body, body);
    RestReadBack(p, o, fs, body, Unknown);
    DraftSections(p, o, fs, body);
    ViewParsed(draft, Unknown, o.Text(p), p.Newline(), DraftLines(fs), JoinLines(DraftLines(fs), p.Newline()), body);
    OnlyBlanksChange(p, o, fs, body);
    if |body| <= INT64_MAX {
      LengthValueReads(|body|);
    }
    forall i | 0 <= i < |fs| && i != k
      ensures HeadersOf(m, l)[i] == HeadersOf(draft, l)[i]
    {
      LinesDiffer(fs, |body|, i);
      FinalLineReads(fs[i], |body|);
    }
  }

  /** The place of the last length header, if there is one. */
  function LastLength(hs: seq<Header>): (r: Option<nat>)
    ensures r.None? <==> forall i :: 0 <= i < |hs| ==> !IsLength(hs[i])
    ensures r.Some? ==> r.value < |hs| && IsLength(hs[r.value]) && forall j :: r.value < j < |hs| ==> !IsLength(hs[j])
  {
    if hs == [] then None
    else if IsLength(hs[|hs| - 1]) then Some(|hs| - 1)
    else LastLength(hs[..|hs| - 1])
  }

  function FinalHeaders(fs: seq<Field>, size: nat): (hs: seq<Header>)
    ensures |hs| == |fs| && forall i :: 0 <= i < |fs| ==> hs[i] == FinalHeader(fs[i], size)
  {
    seq(|fs|, i requires 0 <= i < |fs| => FinalHeader(fs[i], size))
  }

  /** The verdict on a body, by the last length header. */
  lemma JudgedByLast(hs: seq<Header>, n: nat, http: bool)
    ensures var c := Judge(Noted(hs), n, http);
      match LastLength(hs)
      case None => !c.lengthHeader && (c.complete <==> !http && forall i :: 0 <= i < |hs| ==> !IsChunked(hs[i]))
      case Some(i) => c.lengthHeader && c.length == ToSize(ValueDec(hs[i].value, 0)) && (c.complete <==> c.length <= n)
  {
    ChunkedNoted(hs);
    match LastLength(hs)
    case None => NoLengthNoted(hs);
    case Some(i) => LastLengthDecides(hs, i);
  }

  /** Whether the message is taken to be HTTP: by its protocol, or by its reason if that names one. */
  predicate ReadAsHttp(p: Protocol, o: Opening) {
    if Unambiguous(o) then p.IsHttp() else ParseProtocol(o.reason).IsHttp()
  }

  /**
   A released message that parses is judged by the last length header written:
   complete exactly if the body has that many bytes, and always if it is the one
   the writer fills in; without any, exactly if it is not taken to be HTTP and
   nothing is chunked.
   */
  lemma ReleasedComplete(p: Protocol, o: Opening, fs: seq<Field>, body: string)
    requires p.Valid() && o.Accepted() && AllAccepted(fs)
    requires Parse(Message(p, o, fs, body), Unknown).Parsed?
    ensures var m, hs := Message(p, o, fs, body), FinalHeaders(fs, |body|);
      var c := Verdict(m, Parse(m, Unknown).layout);
      match LastLength(hs)
      case None => !c.lengthHeader && (c.complete <==> !ReadAsHttp(p, o) && forall i :: 0 <= i < |hs| ==> !IsChunked(hs[i]))
      case Some(i) =>
        && c.lengthHeader && (c.complete <==> ToSize(ValueDec(hs[i].value, 0)) <= |body|)
        && (fs[i].Length? && |body| <= INT64_MAX ==> c.complete && c.length == |body|)
  {
    hide Message, JoinLines, ParseProtocol, Unambiguous, FirstWord, LastLength, IsChunked, ValueDec;
    var m, hs := Message(p, o, fs, body), FinalHeaders(fs, |body|);
    RestReadBack(p, o, fs, body, Unknown);
    ProtocolRead(p, o, fs, body);
    assert HeadersOf(m, Parse(m, Unknown).layout) == hs;
    assert |m| - Parse(m, Unknown).layout.pBody == |body|;
    JudgedByLast(hs, |body|, ReadAsHttp(p, o));
    if |body| <= INT64_MAX {
      LengthValueReads(|body|);
    }
  }

  // ---------------------------------------------------------------------------
  // A whole run of the writer
  // ---------------------------------------------------------------------------

  lemma DraftGrows(p: Protocol, o: Opening, fs: seq<Field>, f: Field)
    ensures HeadText(p, o, fs + [f]) == HeadText(p, o, fs) + f.Line() + p.Newline()
  {
    assert (fs + [f])[..|fs|] == fs;
  }

  /** What adding a field does to the position of the reserved blanks. */
  lemma LengthGrows(p: Protocol, o: Opening, fs: seq<Field>, f: Field)
    requires OneLength(fs) && (f.Length? ==> LengthIndex(fs) == |fs|)
    ensures OneLength(fs + [f])
    ensures LengthIndex(fs) < |fs| ==>
      LengthSize(fs + [f]) == LengthSize(fs) && LengthOffset(p, o, fs + [f]) == LengthOffset(p, o, fs)
    ensures LengthIndex(fs) == |fs| && !f.Length? ==> LengthSize(fs + [f]) == 0
    ensures f.Length? ==>
      && LengthSize(fs + [f]) == NumDigits(f.maxLength)
      && LengthOffset(p, o, fs + [f]) == |HeadText(p, o, fs)| + |"Content-Length:"|
  {
    var gs, k := fs + [f], LengthIndex(fs);
    assert gs[..|fs|] == fs;
    assert gs[..k] == fs[..k];
  }

  /** The error that writing `f` after `fs` meets, if any. */
  function StepError(fs: seq<Field>, f: Field): Option<MsgError> {
    if f.Length? then (if LengthIndex(fs) < |fs| then Some(NoSpaceForLength) else None)
    else if f.Accepted() then None else Some(HeaderMalformed)
  }

  /** The first error that writing `fs` after `done` meets. */
  function ErrorFrom(done: seq<Field>, fs: seq<Field>): Option<MsgError>
    decreases |fs|
  {
    if fs == [] then None
    else if StepError(done, fs[0]).Some? then StepError(done, fs[0])
    else ErrorFrom(done + [fs[0]], fs[1..])
  }

  function FieldError(fs: seq<Field>): Option<MsgError> {
    ErrorFrom([], fs)
  }

  /** A run without errors has accepted every field and reserved at most one length. */
  lemma {:induction false} NoFieldError(done: seq<Field>, fs: seq<Field>)
    requires AllAccepted(done) && OneLength(done) && ErrorFrom(done, fs).None?
    ensures AllAccepted(done + fs) && OneLength(done + fs)
    decreases |fs|
  {
    if fs == [] {
      assert done + fs == done;
    } else {
      NoFieldError(done + [fs[0]], fs[1..]);
      assert done + fs == done + [fs[0]] + fs[1..];
    }
  }

  lemma NoFields()
    ensures AllAccepted([]) && OneLength([])
  {
  }

  /** What a run of the writer ends with. */
  function Outcome(p: Protocol, o: Opening, fs: seq<Field>, body: string): Released {
    if !o.Accepted() then NotReleased(StartLineMalformed)
    else if FieldError(fs).Some? then NotReleased(FieldError(fs).value)
    else
      match Parse(Draft(p, o, fs, ""), Unknown)
      case Failed(error, _) => NotReleased(error)
      case Parsed(_) =>
        if RoomFor(fs, |body|) then Released(Some(Message(p, o, fs, body))) else NotReleased(NoSpaceForLength)
  }

  /**
   The writer releases a reply whose reason starts with a protocol name exactly if
   it is no more than that name and nothing else stops it, and then the message
   is read back as a request; with more words behind the name the start line is
   refused.
   */
  lemma MisreadOutcome(p: Protocol, o: Opening, fs: seq<Field>, body: string)
    requires p.Valid() && o.Accepted() && FieldError(fs).None? && o.OpenReply? && IsProtocolName(FirstWord(o.reason))
    ensures Outcome(p, o, fs, body) ==
      if BodyStart(p, o, fs) > 0xFFFF then NotReleased(HeaderTooBig)
      else if FirstWord(o.reason) != o.reason then NotReleased(StartLineMalformed)
      else if RoomFor(fs, |body|) then Released(Some(Message(p, o, fs, body)))
      else NotReleased(NoSpaceForLength)
    ensures Outcome(p, o, fs, body).Released? ==>
      Parse(Message(p, o, fs, body), Unknown).Parsed? && Parse(Message(p, o, fs, body), Unknown).layout.Type() == Kind.Request
  {
    hide Parse, Message, Draft, FirstWord, IsProtocolName, JoinLines, AllAccepted, OneLength, RoomFor, ErrorFrom;
    NoFields();
    NoFieldError([], fs);
    assert [] + fs == fs;
    DraftSections(p, o, fs, "");
    MisreadLaid(Draft(p, o, fs, ""), p, o, JoinLines(DraftLines(fs), p.Newline()), "");
    BodyStartIs(p, o, fs);
    if RoomFor(fs, |body|) {
      DraftParses(p, o, fs, body, "");
      Misread(p, o, fs, body);
    }
  }

  /** Such a reply is released and read back as a request. */
  lemma MisreadExample()
    ensures var o := OpenReply(200, "Tell/0");
      var m := Message(Telling, o, [], "");
      && Outcome(Telling, o, [], "") == Released(Some(m))
      && Parse(m, Unknown).Parsed? && Parse(m, Unknown).layout.Type() == Kind.Request
  {
    var s := "Tell/0";
    assert WordEnd(s, 4) == 6;
    assert WordEnd(s, 2) == 6;
    assert s[..6] == s;
    MisreadOutcome(Telling, OpenReply(200, s), [], "");
  }

  /** A reply that names HTTP as its reason is complete by its own protocol, but not as it is read back. */
  lemma IncompleteExample()
    ensures var o := OpenReply(200, "HTTP/1.1");
      var m := Message(Telling, o, [], "");
      && Outcome(Telling, o, [], "") == Released(Some(m)) && Parse(m, Unknown).Parsed?
      && !Telling.IsHttp() && ParseProtocol(Parse(m, Unknown).layout.Protocol().Of(m)) == Http11
      && !Verdict(m, Parse(m, Unknown).layout).complete
  {
    var s := "HTTP/1.1";
    var o := OpenReply(200, s);
    assert WordEnd(s, 6) == 8;
    assert WordEnd(s, 4) == 8;
    assert WordEnd(s, 2) == 8;
    assert WordEnd(s, 0) == 8;
    assert s[..8] == s;
    MisreadOutcome(Telling, o, [], "");
    ReleasedComplete(Telling, o, [], "");
    ProtocolRead(Telling, o, [], "");
  }

  /** A reserved length and, behind it, one of the caller's own. */
  function TwoLengths(): seq<Field> {
    [Length(9), Plain("Content-Length", "5")]
  }

  lemma TwoLengthsWritten()
    ensures AllAccepted(TwoLengths()) && OneLength(TwoLengths()) && FieldError(TwoLengths()).None?
    ensures RoomFor(TwoLengths(), 0)
  {
    var fs := TwoLengths();
    var first := [fs[0]];
    assert fs[1..] == [fs[1]] && fs[1..][1..] == [];
    assert [] + [fs[0]] == first;
    assert NumDigits(9) == 1 && NumDigits(0) == 1;
    assert ErrorFrom(first, fs[1..]).None?;
    NoFields();
    NoFieldError([], fs);
    assert [] + fs == fs;
    assert LengthIndex(first) == 0 && fs[..1] == first;
  }

  lemma TwoLengthsJudged()
    ensures var hs := FinalHeaders(TwoLengths(), 0);
      LastLength(hs) == Some(1) && ToSize(ValueDec(hs[1].value, 0)) == 5
  {
    var hs := FinalHeaders(TwoLengths(), 0);
    assert hs[1] == Header("Content-Length", "5");
    var v := "5";
    assert DigitsEnd(v, 1) == 1 && DigitsEnd(v, 0) == 1;
    assert v[0..1] == v && v[..0] == "";
    assert Decimal(v) == 5;
  }

  lemma TwoLengthsFit(o: Opening)
    requires o == OpenReply(200, "OK")
    ensures Fits(Telling, o, TwoLengths(), 0) && Unambiguous(o)
  {
    var lines := FinalLines(TwoLengths(), 0);
    assert NumDigits(9) == 1 && NumDigits(0) == 1;
    assert |lines[0]| <= 20 && |lines[1]| <= 20;
    assert lines[1..] == [lines[1]] && lines[1..][1..] == [];
    assert |JoinLines(lines[1..], "\n")| <= 21;
    var r := "OK";
    assert WordEnd(r, 1) == 2 && WordEnd(r, 0) == 2 && r[..2] == r;
  }

  /** A later length header of the caller overrides the one that is filled in: the message is released, and incomplete. */
  lemma OverrideExample()
    ensures var o, fs := OpenReply(200, "OK"), TwoLengths();
      var m := Message(Telling, o, fs, "");
      && Outcome(Telling, o, fs, "") == Released(Some(m))
      && Parse(m, Unknown).Parsed? && !Verdict(m, Parse(m, Unknown).layout).complete
  {
    hide Message, Draft, Parse, TwoLengths, FieldError, Fits, Unambiguous, RoomFor, OneLength, AllAccepted, LastLength, ValueDec;
    var o, fs := OpenReply(200, "OK"), TwoLengths();
    TwoLengthsWritten();
    TwoLengthsFit(o);
    TwoLengthsJudged();
    KindReadBack(Telling, o, fs, "");
    DraftParses(Telling, o, fs, "", "");
    ReleasedComplete(Telling, o, fs, "");
  }

  method WriteField(w: Writer, ghost o: Opening, ghost fs: seq<Field>, f: Field, ghost more: seq<Field>)
    returns (e: Option<MsgError>)
    requires w.Valid() && w.Composing(o, fs) && more == fs + [f]
    modifies w
    ensures w.Valid()
    ensures e == StepError(fs, f)
    ensures e.None? ==> w.Composing(o, more)
  {
    DraftGrows(w.protocol, o, fs, f);
    match f {
      case Plain(name, value) =>
        e := w.WriteHeader(name, value);
      case Length(maxLength) =>
        e := w.WriteHeaderLength(maxLength);
    }
    if e.None? {
      LengthGrows(w.protocol, o, fs, f);
    }
  }

  /** Writing the fields one by one, until all are written. */
  method WriteFields(w: Writer, ghost o: Opening, ghost done: seq<Field>, fs: seq<Field>, ghost all: seq<Field>)
    returns (e: Option<MsgError>)
    requires w.Valid() && w.Composing(o, done) && done + fs == all
    modifies w
    ensures w.Valid()
    ensures e == ErrorFrom(done, fs)
    ensures e.None? ==> w.Composing(o, all)
    decreases |fs|
  {
    hide Writer.Composing, StepError;
    if fs == [] {
      assert done == all;
      return None;
    }
    ghost var more := done + [fs[0]];
    assert more + fs[1..] == all;
    e := WriteField(w, o, done, fs[0], more);
    if e.None? {
      e := WriteFields(w, o, more, fs[1..], all);
    }
  }

  lemma DraftEmptyBody(p: Protocol, o: Opening, fs: seq<Field>)
    ensures HeadText(p, o, fs) + p.Newline() == Draft(p, o, fs, "")
  {
  }

  lemma BodyStartIs(p: Protocol, o: Opening, fs: seq<Field>)
    ensures BodyStart(p, o, fs) == HeadLength(o.Text(p), p.Newline(), JoinLines(DraftLines(fs), p.Newline()))
  {
    HeaderTextJoins(fs, p.Newline());
  }

  /** A closed head that parses puts the body right behind it, and the blanks within 16 bits. */
  lemma ClosedAt(p: Protocol, o: Opening, fs: seq<Field>)
    requires p.Valid() && o.Accepted() && AllAccepted(fs)
    requires Parse(Draft(p, o, fs, ""), Unknown).Parsed?
    ensures Parse(Draft(p, o, fs, ""), Unknown).layout.pBody == BodyStart(p, o, fs) <= 0xFFFF
  {
    DraftSections(p, o, fs, "");
    ViewParsed(Draft(p, o, fs, ""), Unknown, o.Text(p), p.Newline(), DraftLines(fs), JoinLines(DraftLines(fs), p.Newline()), "");
    BodyStartIs(p, o, fs);
  }

  lemma BlanksWithin(p: Protocol, o: Opening, fs: seq<Field>)
    requires LengthIndex(fs) < |fs|
    ensures LengthOffset(p, o, fs) + LengthSize(fs) <= |Draft(p, o, fs, "")|
  {
    var k := LengthIndex(fs);
    DraftAround(p, o, fs, "", k);
    assert |fs[k].Line()| == |"Content-Length:"| + LengthSize(fs);
  }

  lemma LinesSame(fs: seq<Field>, size: nat)
    requires LengthIndex(fs) == |fs|
    ensures DraftLines(fs) == FinalLines(fs, size)
  {
    forall i | 0 <= i < |fs|
      ensures DraftLines(fs)[i] == FinalLines(fs, size)[i]
    {
      assert !fs[i].Length?;
    }
  }

  /** Without a length field there is nothing to fill in. */
  lemma DraftIsMessage(p: Protocol, o: Opening, fs: seq<Field>, body: string)
    requires LengthIndex(fs) == |fs|
    ensures Draft(p, o, fs, body) == Message(p, o, fs, body)
  {
    DraftIsLaid(p, o, fs, body);
    LinesSame(fs, |body|);
  }

  /** Letting go of a closed draft releases the message, if the blanks suffice. */
  lemma FinishIs(p: Protocol, o: Opening, fs: seq<Field>, body: string, off: nat)
    requires OneLength(fs) && (LengthIndex(fs) < |fs| ==> off == LengthOffset(p, o, fs))
    requires off + LengthSize(fs) <= |Draft(p, o, fs, body)| && |Draft(p, o, fs, body)| == BodyStart(p, o, fs) + |body|
    ensures Finish(Draft(p, o, fs, body), BodyStart(p, o, fs), off, LengthSize(fs)) ==
      if RoomFor(fs, |body|) then Released(Some(Message(p, o, fs, body))) else NotReleased(NoSpaceForLength)
  {
    if LengthIndex(fs) == |fs| {
      DraftIsMessage(p, o, fs, body);
    } else if RoomFor(fs, |body|) {
      FillIn(p, o, fs, body);
    }
  }

  /**
   The four documented steps of writing, on a writer that holds no message:
   start, write headers, write the body, release.
   */
  method Compose(w: Writer, o: Opening, fs: seq<Field>, body: string) returns (r: Released)
    requires w.Valid() && w.msg.None? && w.protocol.Valid()
    modifies w
    ensures r == Outcome(w.protocol, o, fs, body)
  {
    var e := w.Start(o);
    if e.Some? {
      return NotReleased(e.value);
    }
    e := WriteFields(w, o, [], fs, fs);
    if e.Some? {
      return NotReleased(e.value);
    }
    assert [] + fs == fs;
    NoFieldError([], fs);
    DraftEmptyBody(w.protocol, o, fs);
    e := w.WriteBody(body);
    if e.Some? {
      return NotReleased(e.value);
    }
    ClosedAt(w.protocol, o, fs);
    if w.lengthSize > 0 {
      BlanksWithin(w.protocol, o, fs);
    }
    FinishIs(w.protocol, o, fs, body, w.lengthOffset);
    r := w.Release();
  }
}

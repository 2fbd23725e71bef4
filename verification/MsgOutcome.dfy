/**
 The outcome of writing, for every start line, list of fields and body, told from
 the texts and lengths alone.
 */
module MsgOutcome {
  import opened Options
  import opened MsgText
  import opened MsgTables
  import opened MsgLayout
  import opened MsgHeaders
  import opened MsgWriter
  import opened MsgSections
  import opened MsgRoundTrip
  import opened MsgRelease

  // ---------------------------------------------------------------------------
  // What the writer refuses
  // ---------------------------------------------------------------------------

  /** A header is refused exactly if its line would be read as more than one line or under another name. */
  lemma HeaderAcceptedIff(name: string, value: string)
    ensures var line := name + ":" + value;
      Plain(name, value).Accepted() <==> NoEol(line) && HeaderOf(line) == Header(name, Trim(value))
  {
    hide Trim;
    var line := name + ":" + value;
    NoEolConcat(name + ":", value);
    NoEolConcat(name, ":");
    assert forall i :: 0 <= i < |name| ==> name[i] == line[i];
    if Plain(name, value).Accepted() {
      NamedLine(name, value);
    }
  }

  /** The URI of a start line, if it has one. */
  function UriOf(o: Opening): string {
    if o.OpenReply? then "" else o.uri
  }

  /** A start line is refused exactly with an unknown method, a line break anywhere in it, or a space or a tab in its URI. */
  lemma OpeningAcceptedIff(p: Protocol, o: Opening)
    requires p.Valid()
    ensures o.Accepted() <==>
            && (o.OpenRequest? ==> o.verb.Valid())
            && NoEol(o.Text(p)) && ' ' !in UriOf(o) && '\t' !in UriOf(o)
  {
    hide StatusText;
    if o.Accepted() {
      OpeningSolid(o, p);
    } else {
      match o
      case OpenRequest(uri, verb) =>
        NoEolConcat(verb.ToString() + " " + uri + " ", p.ToString());
        NoEolConcat(verb.ToString() + " " + uri, " ");
        NoEolConcat(verb.ToString() + " ", uri);
      case OpenReply(status, reason) =>
        NoEolConcat(p.ToString() + " " + StatusText(status) + " ", reason);
      case OpenReport(uri, status, reason) =>
        NoEolConcat(uri + " " + p.ToString() + " " + StatusText(status) + " ", reason);
        NoEolConcat(uri + " " + p.ToString() + " " + StatusText(status), " ");
        NoEolConcat(uri + " " + p.ToString() + " ", StatusText(status));
        NoEolConcat(uri + " " + p.ToString(), " ");
        NoEolConcat(uri + " ", p.ToString());
        NoEolConcat(uri, " ");
    }
  }

  /** The error of field `i`, the fields before it being in order. */
  function ErrorOf(fs: seq<Field>, i: nat): MsgError
    requires i < |fs|
  {
    if fs[i].Length? then NoSpaceForLength else HeaderMalformed
  }

  /** The fields up to here are accepted, at most one of them a length. */
  predicate Good(fs: seq<Field>) {
    AllAccepted(fs) && OneLength(fs)
  }

  lemma GoodNext(fs: seq<Field>, f: Field)
    requires Good(fs)
    ensures StepError(fs, f).None? <==> Good(fs + [f])
    ensures StepError(fs, f).Some? ==> StepError(fs, f) == Some(ErrorOf(fs + [f], |fs|))
  {
    var gs := fs + [f];
    assert gs[|fs|] == f && forall i :: 0 <= i < |fs| ==> gs[i] == fs[i];
    if f.Length? && LengthIndex(fs) < |fs| {
      assert gs[LengthIndex(fs)].Length? && gs[|fs|].Length?;
    }
  }

  /** The first field that is not in order decides the error. */
  lemma {:induction false} ErrorFromIs(done: seq<Field>, fs: seq<Field>, all: seq<Field>)
    requires Good(done) && all == done + fs
    ensures ErrorFrom(done, fs).None? <==> Good(all)
    ensures ErrorFrom(done, fs).Some? ==>
              exists i: nat :: |done| <= i < |all| && Good(all[..i]) && !Good(all[..i + 1]) &&
                               ErrorFrom(done, fs) == Some(ErrorOf(all, i))
    decreases |fs|
  {
    hide Good, StepError;
    if fs == [] {
      assert all == done;
    } else {
      var more, n := done + [fs[0]], |done|;
      GoodNext(done, fs[0]);
      assert all[..n] == done && all[..n + 1] == more && all == more + fs[1..];
      if StepError(done, fs[0]).None? {
        ErrorFromIs(more, fs[1..], all);
      } else {
        GoodPrefix(all, n + 1);
      }
    }
  }

  lemma GoodPrefix(fs: seq<Field>, n: nat)
    requires n <= |fs|
    ensures Good(fs) ==> Good(fs[..n])
  {
  }

  /** Writing the fields fails exactly if one is refused or is a second length, with the error of the first such field. */
  lemma FieldErrorIff(fs: seq<Field>)
    ensures FieldError(fs).None? <==> AllAccepted(fs) && OneLength(fs)
    ensures FieldError(fs).Some? ==>
              exists i: nat :: i < |fs| && Good(fs[..i]) && !Good(fs[..i + 1]) && FieldError(fs) == Some(ErrorOf(fs, i))
  {
    hide ErrorFrom;
    NoFields();
    assert [] + fs == fs;
    ErrorFromIs([], fs, fs);
  }

  // ---------------------------------------------------------------------------
  // Room for the length
  // ---------------------------------------------------------------------------

  function Pow10(d: nat): (r: nat)
    ensures r >= 1
  {
    if d == 0 then 1 else 10 * Pow10(d - 1)
  }

  /** A number has the fewest digits that can hold it. */
  lemma {:induction false} DigitsIff(n: nat, d: nat)
    requires d >= 1
    ensures NumDigits(n) <= d <==> n < Pow10(d)
    decreases d
  {
    if n >= 10 {
      if d == 1 {
        assert Pow10(1) == 10 * Pow10(0);
      } else {
        DigitsIff(n / 10, d - 1);
      }
    } else {
      assert Pow10(d) == 10 * Pow10(d - 1);
    }
  }

  /**
   The reserved blanks hold the size of the body exactly if it has no more digits
   than the largest one announced; so they do for every body up to that.
   */
  lemma RoomIff(fs: seq<Field>, size: nat)
    requires LengthIndex(fs) < |fs|
    ensures var max := fs[LengthIndex(fs)].maxLength;
      && (RoomFor(fs, size) <==> size < Pow10(NumDigits(max)))
      && (size <= max ==> RoomFor(fs, size))
  {
    var max := fs[LengthIndex(fs)].maxLength;
    DigitsIff(size, NumDigits(max));
    DigitsIff(max, NumDigits(max));
  }

  // ---------------------------------------------------------------------------
  // The whole run
  // ---------------------------------------------------------------------------

  /** The reason of a start line, if it has one. */
  function ReasonOf(o: Opening): string {
    if o.OpenRequest? then "" else o.reason
  }

  /** A reason that is too long makes the start line too big. */
  lemma TooLong(p: Protocol, o: Opening, h: int)
    requires p.Valid() && o.Accepted() && |o.Text(p)| <= 0xFFFF && Unambiguous(o) && |ReasonOf(o)| > MAX_REASON_LENGTH
    ensures SetStartLine(o.Text(p) + p.Newline(), EffectiveKind(o.Text(p), Unknown), Parts(o.Text(p)), h) == Failed(HeaderTooBig, h)
  {
    hide Parts, FirstWord, StatusText;
    var line := o.Text(p);
    OpeningSolid(o, p);
    PackedOf(line, p.Newline(), EffectiveKind(line, Unknown), Parts(line), h);
    if o.OpenReply? {
      ReplyLine(o.status, o.reason, p);
    } else {
      ReportLine(o.uri, o.status, o.reason, p);
    }
  }

  /** How a head without refused parts is parsed when the writer closes it. */
  lemma DraftVerdict(p: Protocol, o: Opening, fs: seq<Field>)
    requires p.Valid() && o.Accepted() && AllAccepted(fs) && Unambiguous(o)
    ensures var r, n := Parse(Draft(p, o, fs, ""), Unknown), BodyStart(p, o, fs);
      if n > 0xFFFF || |ReasonOf(o)| > MAX_REASON_LENGTH then r.Failed? && r.error == HeaderTooBig else r.Parsed?
  {
    hide Parse, Parts, Draft, JoinLines, Unambiguous, AllAccepted;
    var j, n := JoinLines(DraftLines(fs), p.Newline()), BodyStart(p, o, fs);
    DraftSections(p, o, fs, "");
    BodyStartIs(p, o, fs);
    ParseLaid(Draft(p, o, fs, ""), o.Text(p), p.Newline(), j, "", Unknown);
    if n <= 0xFFFF {
      OpeningPacks(p, o, n);
      if |ReasonOf(o)| > MAX_REASON_LENGTH {
        TooLong(p, o, n);
      }
    }
  }

  /**
   A run of the writer, for every start line, list of fields and body. It ends with
   the first of these that applies: a malformed start line, the error of the first
   field that is not in order, a head or a reason that is too big, a reply that its
   reason makes a malformed request, blanks that are too few; else with the message.
   */
  lemma OutcomeIs(p: Protocol, o: Opening, fs: seq<Field>, body: string)
    requires p.Valid()
    ensures Outcome(p, o, fs, body) ==
      if !o.Accepted() then NotReleased(StartLineMalformed)
      else if FieldError(fs).Some? then NotReleased(FieldError(fs).value)
      else if BodyStart(p, o, fs) > 0xFFFF || (Unambiguous(o) && |ReasonOf(o)| > MAX_REASON_LENGTH) then NotReleased(HeaderTooBig)
      else if !Unambiguous(o) && FirstWord(o.reason) != o.reason then NotReleased(StartLineMalformed)
      else if !RoomFor(fs, |body|) then NotReleased(NoSpaceForLength)
      else Released(Some(Message(p, o, fs, body)))
  {
    hide Parse, Draft, Message, FirstWord, IsProtocolName, AllAccepted, OneLength, ErrorFrom, RoomFor;
    if o.Accepted() && FieldError(fs).None? {
      FieldErrorIff(fs);
      if Unambiguous(o) {
        DraftVerdict(p, o, fs);
      } else {
        MisreadOutcome(p, o, fs, body);
      }
    }
  }
}

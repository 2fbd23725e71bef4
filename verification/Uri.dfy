/**
 Taking a URI apart at its slashes, from either end.
 */
module Uri {

  /** The index of the first slash at or after `i`, or the length. */
  function FindSlash(s: string, i: nat): (e: nat)
    requires i <= |s|
    ensures i <= e <= |s|
    ensures forall k :: i <= k < e ==> s[k] != '/'
    ensures e < |s| ==> s[e] == '/'
    decreases |s| - i
  {
    if i == |s| || s[i] == '/' then i else FindSlash(s, i + 1)
  }

  /** The index of the first character at or after `i` that is not a slash, or the length. */
  function SkipSlashes(s: string, i: nat): (e: nat)
    requires i <= |s|
    ensures i <= e <= |s|
    ensures forall k :: i <= k < e ==> s[k] == '/'
    ensures e < |s| ==> s[e] != '/'
    decreases |s| - i
  {
    if i < |s| && s[i] == '/' then SkipSlashes(s, i + 1) else i
  }

  /** One past the last character before `e` that is not a slash, or zero. */
  function SkipSlashesBack(s: string, e: nat): (i: nat)
    requires e <= |s|
    ensures i <= e
    ensures forall k :: i <= k < e ==> s[k] == '/'
    ensures i > 0 ==> s[i - 1] != '/'
  {
    if e > 0 && s[e - 1] == '/' then SkipSlashesBack(s, e - 1) else e
  }

  /** One past the last slash before `e`, or zero. */
  function FindSlashBack(s: string, e: nat): (i: nat)
    requires e <= |s|
    ensures i <= e
    ensures forall k :: i <= k < e ==> s[k] != '/'
    ensures i > 0 ==> s[i - 1] == '/'
  {
    if e == 0 || s[e - 1] == '/' then e else FindSlashBack(s, e - 1)
  }

  /** The non-empty slash-separated segments, in order: the maximal runs without a slash. */
  function Segments(s: string): seq<string>
    decreases |s|
  {
    if s == "" then []
    else if s[0] == '/' then Segments(s[1..])
    else
      var e := FindSlash(s, 0);
      [s[..e]] + Segments(s[e..])
  }

  /** Two texts share no segment when a slash or an end separates them. */
  predicate Apart(a: string, b: string) {
    a == "" || b == "" || a[|a| - 1] == '/' || b[0] == '/'
  }

  lemma FindSlashIs(s: string, i: nat, e: nat)
    requires i <= e <= |s|
    requires forall k :: i <= k < e ==> s[k] != '/'
    requires e == |s| || s[e] == '/'
    ensures FindSlash(s, i) == e
  {
  }

  lemma {:induction false} SegmentsConcat(a: string, b: string)
    requires Apart(a, b)
    ensures Segments(a + b) == Segments(a) + Segments(b)
    decreases |a|
  {
    if a == "" {
      assert a + b == b;
    } else if a[0] == '/' {
      assert (a + b)[1..] == a[1..] + b;
      SegmentsConcat(a[1..], b);
    } else {
      var e := FindSlash(a, 0);
      assert forall k :: 0 <= k < |a| ==> (a + b)[k] == a[k];
      FindSlashIs(a + b, 0, e);
      assert (a + b)[..e] == a[..e];
      assert (a + b)[e..] == a[e..] + b;
      SegmentsConcat(a[e..], b);
    }
  }

  lemma {:induction false} SlashesHaveNoSegments(s: string)
    requires forall k :: 0 <= k < |s| ==> s[k] == '/'
    ensures Segments(s) == []
  {
    if s != "" {
      SlashesHaveNoSegments(s[1..]);
    }
  }

  lemma OneSegment(w: string)
    requires w != "" && forall k :: 0 <= k < |w| ==> w[k] != '/'
    ensures Segments(w) == [w]
  {
    FindSlashIs(w, 0, |w|);
    assert w[..|w|] == w && w[|w|..] == "";
  }

  lemma CutInThree(s: string, a: nat, b: nat)
    requires a <= b <= |s|
    ensures s == s[..a] + (s[a..b] + s[b..])
  {
  }

  lemma FirstSegment(a: string, w: string, b: string)
    requires forall k :: 0 <= k < |a| ==> a[k] == '/'
    requires w != "" && forall k :: 0 <= k < |w| ==> w[k] != '/'
    requires b == "" || b[0] == '/'
    ensures Segments(a + (w + b)) == [w] + Segments(b)
  {
    SegmentsConcat(a, w + b);
    SegmentsConcat(w, b);
    OneSegment(w);
    SlashesHaveNoSegments(a);
  }

  /** Slashes, one segment, then something apart from it. */
  lemma FrontSegment(s: string, beg: nat, end: nat)
    requires beg == SkipSlashes(s, 0) && end == FindSlash(s, beg)
    ensures beg == end ==> Segments(s) == []
    ensures beg < end ==> Segments(s) == [s[beg..end]] + Segments(s[end..])
  {
    if beg < end {
      FirstSegment(s[..beg], s[beg..end], s[end..]);
      CutInThree(s, beg, end);
    } else {
      SlashesHaveNoSegments(s);
    }
  }

  lemma LastSegment(a: string, w: string, b: string)
    requires a == "" || a[|a| - 1] == '/'
    requires w != "" && forall k :: 0 <= k < |w| ==> w[k] != '/'
    requires forall k :: 0 <= k < |b| ==> b[k] == '/'
    ensures Segments(a + (w + b)) == Segments(a) + [w]
  {
    SegmentsConcat(w, b);
    SegmentsConcat(a, w + b);
    OneSegment(w);
    SlashesHaveNoSegments(b);
  }

  /** Something apart, one segment, then slashes. */
  lemma BackSegment(s: string, beg: nat, end: nat)
    requires end == SkipSlashesBack(s, |s|) && beg == FindSlashBack(s, end)
    ensures end == 0 ==> Segments(s) == []
    ensures end > 0 ==> beg < end && Segments(s) == Segments(s[..beg]) + [s[beg..end]]
  {
    if end > 0 {
      LastSegment(s[..beg], s[beg..end], s[end..]);
      CutInThree(s, beg, end);
    } else {
      SlashesHaveNoSegments(s);
    }
  }

  /** `Uri_`: a string that can give up its first or last segment. */
  class UriText {
    var text: string

    constructor (s: string)
      ensures text == s
    {
      text := s;
    }

    /** `front`: where the first segment lies; empty at the end if there is none. */
    method Front() returns (beg: nat, end: nat)
      ensures beg == SkipSlashes(text, 0) && end == FindSlash(text, beg)
    {
      beg := 0;
      while beg < |text| && text[beg] == '/'
        invariant beg <= |text| && SkipSlashes(text, 0) == SkipSlashes(text, beg)
      {
        beg := beg + 1;
      }
      end := beg;
      while end < |text| && text[end] != '/'
        invariant beg <= end <= |text| && FindSlash(text, beg) == FindSlash(text, end)
      {
        end := end + 1;
      }
    }

    /** `back`: where the last segment lies; empty if there is none. */
    method Back() returns (beg: nat, end: nat)
      ensures beg <= end <= |text|
      ensures SkipSlashesBack(text, |text|) == 0 ==> beg == end
      ensures SkipSlashesBack(text, |text|) > 0 ==>
        end == SkipSlashesBack(text, |text|) && beg == FindSlashBack(text, end)
    {
      end := |text|;
      while end > 0 && text[end - 1] == '/'
        invariant end <= |text| && SkipSlashesBack(text, |text|) == SkipSlashesBack(text, end)
      {
        end := end - 1;
      }
      if end == 0 {
        return |text|, |text|;
      }
      beg := end;
      while beg > 0 && text[beg - 1] != '/'
        invariant beg <= end && FindSlashBack(text, end) == FindSlashBack(text, beg)
      {
        beg := beg - 1;
      }
    }

    /** `pop_front` removes and returns exactly the first segment. */
    method PopFront() returns (w: string)
      modifies this
      ensures Segments(old(text)) == [] ==> w == "" && text == old(text)
      ensures Segments(old(text)) != [] ==>
        w == Segments(old(text))[0] && Segments(text) == Segments(old(text))[1..]
    {
      var beg, end := Front();
      FrontSegment(text, beg, end);
      w := text[beg..end];
      if w != "" {
        text := text[end..];
      }
    }

    /** `pop_back` removes and returns exactly the last segment. */
    method PopBack() returns (w: string)
      modifies this
      ensures Segments(old(text)) == [] ==> w == "" && text == old(text)
      ensures Segments(old(text)) != [] ==>
        var segs := Segments(old(text));
        w == segs[|segs| - 1] && Segments(text) == segs[..|segs| - 1]
    {
      var beg, end := Back();
      BackSegment(text, FindSlashBack(text, SkipSlashesBack(text, |text|)), SkipSlashesBack(text, |text|));
      w := text[beg..end];
      if w != "" {
        text := text[..beg];
      }
    }
  }

  // ---------------------------------------------------------------------------
  // Any mix of pops
  // ---------------------------------------------------------------------------

  datatype Pop = FromFront | FromBack

  /** What popping a list of segments gives: the word, and what is left. */
  function PopList(segs: seq<string>, p: Pop): (string, seq<string>) {
    if segs == [] then ("", [])
    else if p.FromFront? then (segs[0], segs[1..])
    else (segs[|segs| - 1], segs[..|segs| - 1])
  }

  /** The words a run of pops gives on a list of segments. */
  function PopAll(segs: seq<string>, ops: seq<Pop>): seq<string> {
    if ops == [] then []
    else
      var (w, rest) := PopList(segs, ops[0]);
      [w] + PopAll(rest, ops[1..])
  }

  lemma PopAllNone(segs: seq<string>)
    ensures PopAll(segs, []) == []
  {
  }

  lemma PopAllNext(segs: seq<string>, ops: seq<Pop>, i: nat, ws: seq<string>)
    requires i < |ops|
    ensures ws + PopAll(segs, ops[i..]) == ws + [PopList(segs, ops[i]).0] + PopAll(PopList(segs, ops[i]).1, ops[i + 1..])
  {
    assert ops[i..][0] == ops[i] && ops[i..][1..] == ops[i + 1..];
  }

  /** A run of pops on a URI acts as on the list of its segments. */
  method RunPops(u: UriText, ops: seq<Pop>) returns (ws: seq<string>)
    modifies u
    ensures ws == PopAll(Segments(old(u.text)), ops)
  {
    hide Segments, PopAll;
    assert ops[0..] == ops;
    ws := [];
    ghost var segs := Segments(u.text);
    for i := 0 to |ops|
      invariant PopAll(Segments(old(u.text)), ops) == ws + PopAll(segs, ops[i..])
      invariant segs == Segments(u.text)
    {
      var w;
      if ops[i] == FromFront {
        w := u.PopFront();
      } else {
        w := u.PopBack();
      }
      PopAllNext(segs, ops, i, ws);
      segs := PopList(segs, ops[i]).1;
      ws := ws + [w];
    }
    PopAllNone(segs);
    assert ops[|ops|..] == [];
  }

  function Times(p: Pop, n: nat): (ops: seq<Pop>)
    ensures |ops| == n && forall i :: 0 <= i < n ==> ops[i] == p
  {
    if n == 0 then [] else [p] + Times(p, n - 1)
  }

  function Reverse(s: seq<string>): (r: seq<string>)
    ensures |r| == |s|
    ensures forall i :: 0 <= i < |s| ==> r[i] == s[|s| - 1 - i]
  {
    if s == [] then [] else [s[|s| - 1]] + Reverse(s[..|s| - 1])
  }

  /** Popping only from the front lists the segments in order. */
  lemma {:induction false} FrontPops(segs: seq<string>)
    ensures PopAll(segs, Times(FromFront, |segs|)) == segs
  {
    if segs != [] {
      var ops := Times(FromFront, |segs|);
      assert ops[1..] == Times(FromFront, |segs| - 1);
      FrontPops(segs[1..]);
    }
  }

  /** Popping only from the back lists them in reverse. */
  lemma {:induction false} BackPops(segs: seq<string>)
    ensures PopAll(segs, Times(FromBack, |segs|)) == Reverse(segs)
  {
    if segs != [] {
      var ops := Times(FromBack, |segs|);
      assert ops[1..] == Times(FromBack, |segs| - 1);
      BackPops(segs[..|segs| - 1]);
    }
  }
}

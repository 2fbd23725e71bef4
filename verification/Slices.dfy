/**
 Where one sequence occurs inside another.
 */
module Slices {

  /** The sequence `t` occurs in `s` at index `pos`. */
  predicate OccursAt<T(==)>(s: seq<T>, pos: nat, t: seq<T>) {
    pos + |t| <= |s| && s[pos..pos + |t|] == t
  }

  lemma OccursAtIndex<T>(s: seq<T>, pos: nat, t: seq<T>)
    requires OccursAt(s, pos, t)
    ensures forall i :: 0 <= i < |t| ==> s[pos + i] == t[i]
  {
    forall i | 0 <= i < |t|
      ensures s[pos + i] == t[i]
    {
      assert s[pos..pos + |t|][i] == s[pos + i];
    }
  }

  lemma OccursAtParts<T>(s: seq<T>, pos: nat, t: seq<T>, u: seq<T>)
    requires OccursAt(s, pos, t + u)
    ensures OccursAt(s, pos, t) && OccursAt(s, pos + |t|, u)
  {
    var w := s[pos..pos + |t + u|];
    assert w[..|t|] == t && w[|t|..] == u;
    assert w[..|t|] == s[pos..pos + |t|];
    assert w[|t|..] == s[pos + |t|..pos + |t| + |u|];
  }

  lemma OccursAtThree<T>(s: seq<T>, pos: nat, t: seq<T>, u: seq<T>, v: seq<T>)
    requires OccursAt(s, pos, t + u + v)
    ensures OccursAt(s, pos, t) && OccursAt(s, pos + |t|, u) && OccursAt(s, pos + |t| + |u|, v)
  {
    OccursAtParts(s, pos, t + u, v);
    OccursAtParts(s, pos, t, u);
  }

  /** `s` with the elements from `off` on replaced by `t`. */
  function Overwrite<T>(s: seq<T>, off: nat, t: seq<T>): (r: seq<T>)
    requires off + |t| <= |s|
    ensures |r| == |s|
  {
    s[..off] + t + s[off + |t|..]
  }

  lemma OverwriteElsewhere<T>(s: seq<T>, off: nat, t: seq<T>)
    requires off + |t| <= |s|
    ensures forall i :: 0 <= i < |s| && !(off <= i < off + |t|) ==> Overwrite(s, off, t)[i] == s[i]
  {
  }

  /** What was written is there, and what lies before it is as it was. */
  lemma OverwriteOccurs<T>(s: seq<T>, off: nat, t: seq<T>)
    requires off + |t| <= |s|
    ensures OccursAt(Overwrite(s, off, t), off, t)
    ensures Overwrite(s, off, t)[..off] == s[..off]
    ensures Overwrite(s, off, t)[off + |t|..] == s[off + |t|..]
  {
  }

  lemma OccursAtConcat<T>(s: seq<T>, pos: nat, t: seq<T>, u: seq<T>)
    requires OccursAt(s, pos, t) && OccursAt(s, pos + |t|, u)
    ensures OccursAt(s, pos, t + u)
  {
    var a, b, c := pos, pos + |t|, pos + |t| + |u|;
    assert s[a..c] == s[a..b] + s[b..c];
  }

  lemma ConcatAssociative<T>(x: seq<T>, y: seq<T>, z: seq<T>)
    ensures x + y + z == x + (y + z)
  {
  }

  /** Taking one element out of the middle part takes it out of the whole. */
  lemma RemovedInside<T>(front: seq<T>, mid: seq<T>, back: seq<T>, all: seq<T>, i: nat, n: nat)
    requires i < |mid| && n == |front| + i && all == front + mid + back
    ensures n < |all| && all[n] == mid[i]
    ensures all[..n] + all[n + 1..] == front + (mid[..i] + mid[i + 1..]) + back
  {
    var f, b := front + mid[..i], mid[i + 1..] + back;
    assert all[..n] == f;
    assert all[n + 1..] == b;
    assert f + b == front + (mid[..i] + mid[i + 1..]) + back;
  }
}

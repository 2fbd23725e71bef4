/**
 What an array-hash holds: the entries of its buckets, bucket by bucket, the
 values they index, and the finite map the two stand for.
 */
module TableContent {
  import opened ArrayBucket
  import opened Slices

  type Content = seq<seq<Entry>>

  // ---------------------------------------------------------------------------
  // Iteration order
  // ---------------------------------------------------------------------------

  /** All entries in iteration order. */
  function Flat(c: Content): seq<Entry> {
    if c == [] then [] else Flat(c[..|c| - 1]) + c[|c| - 1]
  }

  /** The rank of the first entry of bucket `b`. */
  function Start(c: Content, b: nat): nat
    requires b <= |c|
  {
    |Flat(c[..b])|
  }

  lemma StartNext(c: Content, b: nat)
    requires b < |c|
    ensures Start(c, b + 1) == Start(c, b) + |c[b]|
    ensures Flat(c[..b + 1]) == Flat(c[..b]) + c[b]
  {
    assert c[..b + 1][..b] == c[..b];
  }

  lemma {:induction false} FlatAppend(a: Content, b: Content)
    ensures Flat(a + b) == Flat(a) + Flat(b)
    decreases |b|
  {
    if b == [] {
      assert a + b == a;
    } else {
      var init, last := b[..|b| - 1], b[|b| - 1];
      FlatAppend(a, init);
      var both := a + b;
      assert both[..|both| - 1] == a + init && both[|both| - 1] == last;
      ConcatAssociative(Flat(a), Flat(init), last);
    }
  }

  lemma FlatParts(c: Content, front: Content, back: Content)
    requires c == front + back
    ensures Flat(c) == Flat(front) + Flat(back)
  {
    FlatAppend(front, back);
  }

  lemma FlatSplit(c: Content, b: nat)
    requires b < |c|
    ensures Flat(c) == Flat(c[..b]) + c[b] + Flat(c[b + 1..])
  {
    FlatParts(c, c[..b + 1], c[b + 1..]);
    StartNext(c, b);
  }

  lemma FlatReplaced(c: Content, b: nat, es: seq<Entry>)
    requires b < |c|
    ensures Flat(c[b := es]) == Flat(c[..b]) + es + Flat(c[b + 1..])
    ensures Start(c[b := es], b) == Start(c, b)
  {
    FlatSplit(c[b := es], b);
    assert c[b := es][..b] == c[..b] && c[b := es][b + 1..] == c[b + 1..];
  }

  /** Entry `i` of bucket `b` in iteration order. */
  lemma FlatAt(c: Content, b: nat, i: nat)
    requires b < |c| && i < |c[b]|
    ensures Start(c, b) + i < |Flat(c)| && Flat(c)[Start(c, b) + i] == c[b][i]
    ensures Start(c, b + 1) <= |Flat(c)|
  {
    FlatSplit(c, b);
    StartNext(c, b);
  }

  lemma StartEnd(c: Content)
    ensures Start(c, |c|) == |Flat(c)|
  {
    assert c[..|c|] == c;
  }

  lemma FlatMember(c: Content, e: Entry) returns (b: nat, i: nat)
    requires e in Flat(c)
    ensures b < |c| && i < |c[b]| && c[b][i] == e
    decreases |c|
  {
    var last := |c| - 1;
    if e in c[last] {
      i :| 0 <= i < |c[last]| && c[last][i] == e;
      b := last;
    } else {
      b, i := FlatMember(c[..last], e);
    }
  }

  /** One more entry at the end of bucket `b`. */
  lemma FlatAdded(c: Content, b: nat, e: Entry, d: Content)
    requires b < |c| && d == c[b := c[b] + [e]]
    ensures forall f :: f in Flat(d) <==> f in Flat(c) || f == e
    ensures |Flat(d)| == |Flat(c)| + 1
    ensures Start(d, b) == Start(c, b)
  {
    FlatReplaced(c, b, c[b] + [e]);
    FlatSplit(c, b);
  }

  /** Entry `i` of bucket `b` taken out. */
  lemma FlatRemoved(c: Content, b: nat, i: nat, n: nat, d: Content)
    requires b < |c| && i < |c[b]| && n == Start(c, b) + i && d == c[b := c[b][..i] + c[b][i + 1..]]
    ensures n < |Flat(c)| && Flat(c)[n] == c[b][i] && Flat(d) == Flat(c)[..n] + Flat(c)[n + 1..]
    ensures Start(d, b) == Start(c, b)
  {
    FlatReplaced(c, b, c[b][..i] + c[b][i + 1..]);
    FlatSplit(c, b);
    RemovedInside(Flat(c[..b]), c[b], Flat(c[b + 1..]), Flat(c), i, n);
  }

  // ---------------------------------------------------------------------------
  // The finite map
  // ---------------------------------------------------------------------------

  /** The sequence lists the elements of the set, each once. */
  ghost predicate Lists<T(!new)>(s: seq<T>, all: set<T>) {
    (forall e :: e in s <==> e in all) && |s| == |all|
  }

  ghost predicate Distinct(all: set<Entry>) {
    forall e, f :: e in all && f in all && e != f ==> e.key != f.key && e.index != f.index
  }

  ghost predicate Stores<V>(all: set<Entry>, values: seq<V>, m: map<Key, V>) {
    forall e :: e in all ==> e.index < |values| && e.key in m && m[e.key] == values[e.index]
  }

  ghost predicate HasKey(all: set<Entry>, key: Key) {
    exists e :: e in all && e.key == key
  }

  /** The entries and the values stand for the map. */
  ghost predicate Maps<V>(all: set<Entry>, values: seq<V>, m: map<Key, V>) {
    && Distinct(all)
    && Stores(all, values, m)
    && |all| == |m|
  }

  /** Every key of the map is in some entry, for there are as many entries as keys. */
  lemma MapsHasKey<V>(all: set<Entry>, values: seq<V>, m: map<Key, V>, k: Key)
    requires Maps(all, values, m) && k in m
    ensures HasKey(all, k)
  {
    if !HasKey(all, k) {
      KeysFit(all, m.Keys - {k});
    }
  }

  lemma {:induction false} KeysFit(all: set<Entry>, keys: set<Key>)
    requires Distinct(all) && forall e :: e in all ==> e.key in keys
    ensures |all| <= |keys|
  {
    if all != {} {
      var e :| e in all;
      KeysFit(all - {e}, keys - {e.key});
    }
  }

  lemma MapsAdd<V>(all: set<Entry>, values: seq<V>, m: map<Key, V>, e: Entry, v: V)
    requires Maps(all, values, m) && e.key !in m && e.index == |values|
    ensures e !in all && Maps(all + {e}, values + [v], m[e.key := v])
  {
  }

  lemma MapsRemove<V>(all: set<Entry>, values: seq<V>, m: map<Key, V>, e: Entry)
    requires Maps(all, values, m) && e in all
    ensures e.key in m && Maps(all - {e}, values, m - {e.key})
  {
    var rest := m - {e.key};
    assert rest.Keys == m.Keys - {e.key};
    assert |rest| == |rest.Keys|;
  }

  /** A listed element that is taken out is not listed any more, the others are. */
  lemma ListsRemove<T(!new)>(s: seq<T>, all: set<T>, n: nat)
    requires Lists(s, all) && n < |s|
    ensures Lists(s[..n] + s[n + 1..], all - {s[n]})
  {
    var rest := s[..n] + s[n + 1..];
    assert s == s[..n] + [s[n]] + s[n + 1..];
    assert forall e :: e in s <==> e in rest || e == s[n];
    if s[n] in rest {
      ListSize(rest, all);
      assert false;
    }
  }

  /** A list of all elements of a set is at least as long as the set is large. */
  lemma {:induction false} ListSize<T>(s: seq<T>, all: set<T>)
    requires forall e :: e in all ==> e in s
    ensures |all| <= |s|
  {
    if s != [] {
      var last := s[|s| - 1];
      ListSize(s[..|s| - 1], all - {last});
    }
  }

  lemma NoRepeat<T(!new)>(s: seq<T>, all: set<T>, i: nat, j: nat)
    requires Lists(s, all) && i < j < |s|
    ensures s[i] != s[j]
  {
    ListsRemove(s, all, i);
    assert (s[..i] + s[i + 1..])[j - 1] == s[j];
  }

  /** Distinct indices below `n` are at most `n`. */
  lemma {:induction false} CountBelow(all: set<Entry>, n: nat)
    requires Distinct(all) && forall e :: e in all ==> e.index < n
    ensures |all| <= n
  {
    if n == 0 {
      assert all == {};
    } else if e :| e in all && e.index == n - 1 {
      CountBelow(all - {e}, n - 1);
    } else {
      CountBelow(all, n - 1);
    }
  }

  // ---------------------------------------------------------------------------
  // Compaction
  // ---------------------------------------------------------------------------

  /** Bucket entries with indices counted from `from`. */
  function Counted(es: seq<Entry>, from: nat): (r: seq<Entry>)
    ensures |r| == |es|
  {
    seq(|es|, i requires 0 <= i < |es| => Entry(es[i].key, from + i))
  }

  /** Every entry indexed by its own rank. */
  function Renumbered(c: Content): (r: Content)
    ensures |r| == |c|
  {
    seq(|c|, b requires 0 <= b < |c| => Counted(c[b], Start(c, b)))
  }

  lemma CountedConcat(es: seq<Entry>, fs: seq<Entry>)
    ensures Counted(es + fs, 0) == Counted(es, 0) + Counted(fs, |es|)
  {
  }

  lemma RenumberedInit(c: Content)
    requires c != []
    ensures Renumbered(c)[..|c| - 1] == Renumbered(c[..|c| - 1])
  {
    var init := c[..|c| - 1];
    forall b | 0 <= b < |init|
      ensures Renumbered(c)[b] == Renumbered(init)[b]
    {
      assert init[..b] == c[..b];
    }
  }

  lemma {:induction false} RenumberedFlat(c: Content)
    ensures Flat(Renumbered(c)) == Counted(Flat(c), 0)
  {
    hide Counted;
    if c != [] {
      var init := c[..|c| - 1];
      RenumberedFlat(init);
      RenumberedInit(c);
      CountedConcat(Flat(init), c[|c| - 1]);
    }
  }

  /** The values in iteration order. */
  function Gathered<V>(s: seq<Entry>, values: seq<V>): (r: seq<V>)
    requires forall i :: 0 <= i < |s| ==> s[i].index < |values|
    ensures |r| == |s|
  {
    seq(|s|, i requires 0 <= i < |s| => values[s[i].index])
  }

  /** Compaction changes no pair of the map. */
  lemma MapsCompacted<V>(s: seq<Entry>, all: set<Entry>, values: seq<V>, m: map<Key, V>) returns (now: set<Entry>)
    requires Lists(s, all) && Maps(all, values, m)
    ensures forall i :: 0 <= i < |s| ==> s[i].index < |values|
    ensures Lists(Counted(s, 0), now) && Maps(now, Gathered(s, values), m)
  {
    hide Distinct, Stores, Counted, Gathered, Lists;
    var t := Counted(s, 0);
    ListedStores(s, all, values, m);
    now := set e | e in t;
    CountedLists(s, now);
    ListsSize(s, all);
    ListsSize(t, now);
    CountedDistinct(s, all, t, now);
    CountedStores(s, all, values, m, t, now);
  }

  lemma ListsSize(s: seq<Entry>, all: set<Entry>)
    requires Lists(s, all)
    ensures |s| == |all|
  {
  }

  lemma CountedLists(s: seq<Entry>, now: set<Entry>)
    requires forall e :: e in now <==> e in Counted(s, 0)
    ensures Lists(Counted(s, 0), now)
  {
    var t := Counted(s, 0);
    assert t[..|t|] == t;
    CountedOnce(t, |t|, now);
  }

  lemma CountedStores<V>(s: seq<Entry>, all: set<Entry>, values: seq<V>, m: map<Key, V>, t: seq<Entry>, now: set<Entry>)
    requires Lists(s, all) && Stores(all, values, m) && t == Counted(s, 0) && forall e :: e in now ==> e in t
    requires forall j :: 0 <= j < |s| ==> s[j].index < |values|
    ensures Stores(now, Gathered(s, values), m)
  {
    hide Counted, Gathered, Lists;
    forall e: Entry | e in now
      ensures e.index < |s| && e.key in m && m[e.key] == Gathered(s, values)[e.index]
    {
      var i :| 0 <= i < |t| && t[i] == e;
      GatheredAt(s, all, values, m, i);
    }
  }

  lemma ListedStores<V>(s: seq<Entry>, all: set<Entry>, values: seq<V>, m: map<Key, V>)
    requires Lists(s, all) && Stores(all, values, m)
    ensures forall i :: 0 <= i < |s| ==> s[i].index < |values|
  {
    forall i | 0 <= i < |s|
      ensures s[i].index < |values|
    {
      assert s[i] in all;
    }
  }

  lemma GatheredAt<V>(s: seq<Entry>, all: set<Entry>, values: seq<V>, m: map<Key, V>, i: nat)
    requires Lists(s, all) && Stores(all, values, m) && i < |s|
    requires forall j :: 0 <= j < |s| ==> s[j].index < |values|
    ensures var e := Counted(s, 0)[i]; e.index == i && e.key in m && m[e.key] == Gathered(s, values)[i]
  {
    assert s[i] in all;
  }

  lemma CountedDistinct(s: seq<Entry>, all: set<Entry>, t: seq<Entry>, now: set<Entry>)
    requires Lists(s, all) && Distinct(all) && t == Counted(s, 0) && forall e :: e in now ==> e in t
    ensures Distinct(now)
  {
    forall e: Entry, f: Entry | e in now && f in now && e != f
      ensures e.key != f.key && e.index != f.index
    {
      var i :| 0 <= i < |t| && t[i] == e;
      var j :| 0 <= j < |t| && t[j] == f;
      assert s[i] in all && s[j] in all;
      NoRepeat(s, all, if i < j then i else j, if i < j then j else i);
    }
  }

  lemma {:induction false} CountedOnce(t: seq<Entry>, n: nat, all: set<Entry>)
    requires n <= |t| && forall i :: 0 <= i < |t| ==> t[i].index == i
    requires forall e :: e in all <==> e in t[..n]
    ensures |all| == n
  {
    if n > 0 {
      assert t[..n] == t[..n - 1] + [t[n - 1]];
      assert t[n - 1] in all && t[n - 1] !in t[..n - 1];
      CountedOnce(t, n - 1, all - {t[n - 1]});
    } else {
      assert all == {};
    }
  }
}

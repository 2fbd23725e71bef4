/**
 The passes of `rehash_impl`: how much room each new bucket needs, the reserved
 buckets, and the entries moved into them.
 */
module TableRehash {
  import opened ArrayBucket
  import opened GrowthPolicy
  import opened TableContent
  import opened TableCursor

  function BucketOf(hash: Key -> nat, mask: nat, e: Entry): (b: nat)
    ensures b <= mask
  {
    And(hash(e.key), mask)
  }

  /** The entries that go to bucket `b`, in their order. */
  function Routed(s: seq<Entry>, hash: Key -> nat, mask: nat, b: nat): (r: seq<Entry>)
    ensures forall e :: e in r ==> e in s && BucketOf(hash, mask, e) == b
  {
    if s == [] then []
    else
      var init, last := s[..|s| - 1], s[|s| - 1];
      Routed(init, hash, mask, b) + if BucketOf(hash, mask, last) == b then [last] else []
  }

  ghost predicate EachStorable(s: seq<Entry>) {
    forall e :: e in s ==> e.Storable()
  }

  /** The bytes the entries of bucket `b` need. */
  function RoutedSize(s: seq<Entry>, hash: Key -> nat, mask: nat, b: nat): nat {
    if s == [] then 0
    else
      var init, last := s[..|s| - 1], s[|s| - 1];
      RoutedSize(init, hash, mask, b) + if BucketOf(hash, mask, last) == b then EntrySize(|last.key|) else 0
  }

  lemma RoutedNext(s: seq<Entry>, n: nat, hash: Key -> nat, mask: nat, b: nat)
    requires n < |s|
    ensures Routed(s[..n + 1], hash, mask, b) ==
            Routed(s[..n], hash, mask, b) + if BucketOf(hash, mask, s[n]) == b then [s[n]] else []
    ensures RoutedSize(s[..n + 1], hash, mask, b) ==
            RoutedSize(s[..n], hash, mask, b) + if BucketOf(hash, mask, s[n]) == b then EntrySize(|s[n].key|) else 0
  {
    assert s[..n + 1][..n] == s[..n];
  }

  /** The size pre-computation is exact: it is the packed size of what ends up in the bucket. */
  lemma {:induction false} RoutedSizeExact(s: seq<Entry>, hash: Key -> nat, mask: nat, b: nat)
    requires EachStorable(s)
    ensures AllStorable(Routed(s, hash, mask, b))
    ensures |Packed(Routed(s, hash, mask, b))| == RoutedSize(s, hash, mask, b)
  {
    if s != [] {
      var init, last := s[..|s| - 1], s[|s| - 1];
      RoutedSizeExact(init, hash, mask, b);
      if BucketOf(hash, mask, last) == b {
        PackedSnoc(Routed(init, hash, mask, b), last, Routed(s, hash, mask, b));
      } else {
        assert Routed(s, hash, mask, b) == Routed(init, hash, mask, b);
      }
    }
  }

  lemma {:induction false} RoutedSizeGrows(s: seq<Entry>, n: nat, hash: Key -> nat, mask: nat, b: nat)
    requires n <= |s|
    ensures RoutedSize(s[..n], hash, mask, b) <= RoutedSize(s, hash, mask, b)
    decreases |s| - n
  {
    if n < |s| {
      RoutedNext(s, n, hash, mask, b);
      RoutedSizeGrows(s, n + 1, hash, mask, b);
    } else {
      assert s[..n] == s;
    }
  }

  lemma ListedStorable(buckets: seq<Buffer>, c: Content)
    requires HoldsAll(buckets, c)
    ensures EachStorable(Flat(c))
  {
    hide Holds, Flat;
    AllHeldStorable(buckets, c);
    forall e | e in Flat(c)
      ensures e.Storable()
    {
      var b, i := FlatMember(c, e);
    }
  }

  /** First pass: the new bucket of every entry and the room each bucket needs. */
  method Measure(buckets: seq<Buffer>, hash: Key -> nat, mask: nat, count: nat, size: nat, ghost c: Content)
    returns (bucketFor: seq<nat>, required: seq<nat>)
    requires HoldsAll(buckets, c) && size == |Flat(c)| && (size > 0 ==> mask < count)
    ensures |bucketFor| == size && forall i :: 0 <= i < size ==> bucketFor[i] == BucketOf(hash, mask, Flat(c)[i])
    ensures |required| == count
    ensures forall b :: 0 <= b < count ==> required[b] == RoutedSize(Flat(c), hash, mask, b)
  {
    hide Holds, Flat, Located, BucketOf;
    bucketFor, required := seq(size, _ => 0), seq(count, _ => 0);
    ghost var flat := Flat(c);
    var n := 0;
    var cur := Begin(buckets, c);
    LocatedEntry(c, cur, 0);
    while cur.At?
      invariant n <= size && Located(c, cur, n) && (cur.At? <==> n < size)
      invariant |bucketFor| == size && forall i :: 0 <= i < n ==> bucketFor[i] == BucketOf(hash, mask, flat[i])
      invariant |required| == count
      invariant forall b :: 0 <= b < count ==> required[b] == RoutedSize(flat[..n], hash, mask, b)
      decreases size - n
    {
      var e := Read(buckets, cur, c, n);
      var ibucket := BucketOf(hash, mask, e);
      forall b | 0 <= b < count
        ensures RoutedSize(flat[..n + 1], hash, mask, b) ==
                RoutedSize(flat[..n], hash, mask, b) + if ibucket == b then EntrySize(|e.key|) else 0
      {
        RoutedNext(flat, n, hash, mask, b);
      }
      bucketFor := bucketFor[n := ibucket];
      required := required[ibucket := required[ibucket] + EntrySize(|e.key|)];
      cur := Next(buckets, cur, c, n);
      n := n + 1;
      LocatedEntry(c, cur, n);
    }
    assert flat[..n] == flat;
  }

  /** The length of a block that was reserved for this many bytes. */
  function BlockSize(required: nat): nat {
    if required == 0 then 0 else required + 2
  }

  /** The block is exactly as long as its entries and the end marker need. */
  ghost predicate Snug(b: Buffer, es: seq<Entry>) {
    AllStorable(es) && |b| == BlockSize(|Packed(es)|)
  }

  method ReserveAll(required: seq<nat>) returns (r: seq<Buffer>)
    ensures |r| == |required| && HoldsAll(r, seq(|required|, _ => []))
    ensures forall b :: 0 <= b < |r| ==> |r[b]| == BlockSize(required[b])
  {
    hide Holds;
    r := [];
    while |r| < |required|
      invariant |r| <= |required|
      invariant forall b :: 0 <= b < |r| ==> Holds(r[b], []) && |r[b]| == BlockSize(required[b])
    {
      var block := Reserve(required[|r|]);
      r := r + [block];
    }
  }

  /** The content after the first `n` entries have been moved. */
  function Moved(s: seq<Entry>, hash: Key -> nat, mask: nat, count: nat): (c: Content)
    ensures |c| == count
  {
    seq(count, b requires 0 <= b < count => Routed(s, hash, mask, b))
  }

  lemma MovedNext(s: seq<Entry>, n: nat, hash: Key -> nat, mask: nat, count: nat, k: nat)
    requires n < |s| && k == BucketOf(hash, mask, s[n]) < count
    ensures Moved(s[..n + 1], hash, mask, count) ==
            Moved(s[..n], hash, mask, count)[k := Routed(s[..n], hash, mask, k) + [s[n]]]
  {
    var next := Moved(s[..n + 1], hash, mask, count);
    var one := Moved(s[..n], hash, mask, count)[k := Routed(s[..n], hash, mask, k) + [s[n]]];
    forall b | 0 <= b < count
      ensures next[b] == one[b]
    {
      RoutedNext(s, n, hash, mask, b);
    }
  }

  /** Moving the entries loses none and repeats none. */
  lemma {:induction false} MovedLists(s: seq<Entry>, n: nat, hash: Key -> nat, mask: nat, count: nat)
    requires n <= |s| && forall e :: e in s ==> BucketOf(hash, mask, e) < count
    ensures forall e :: e in Flat(Moved(s[..n], hash, mask, count)) <==> e in s[..n]
    ensures |Flat(Moved(s[..n], hash, mask, count))| == n
  {
    hide BucketOf, Flat;
    if n == 0 {
      assert s[..0] == [];
      NothingMoved(hash, mask, count);
    } else {
      MovedLists(s, n - 1, hash, mask, count);
      var e, c := s[n - 1], Moved(s[..n - 1], hash, mask, count);
      var k := BucketOf(hash, mask, e);
      assert e in s;
      MovedNext(s, n - 1, hash, mask, count, k);
      FlatAdded(c, k, e, Moved(s[..n], hash, mask, count));
      assert s[..n] == s[..n - 1] + [e];
    }
  }

  lemma NothingMoved(hash: Key -> nat, mask: nat, count: nat)
    ensures Flat(Moved([], hash, mask, count)) == []
  {
    EmptyContent(Moved([], hash, mask, count));
  }

  lemma {:induction false} EmptyContent(c: Content)
    requires forall b :: 0 <= b < |c| ==> c[b] == []
    ensures Flat(c) == []
  {
    if c != [] {
      EmptyContent(c[..|c| - 1]);
    }
  }

  /** Second pass: each entry is appended to its reserved bucket, which it fits without a check. */
  method MoveOne(blocks: seq<Buffer>, ibucket: nat, e: Entry, hash: Key -> nat, mask: nat,
                 ghost s: seq<Entry>, ghost n: nat, ghost c: Content)
    returns (r: seq<Buffer>)
    requires EachStorable(s) && n < |s| && s[n] == e && ibucket == BucketOf(hash, mask, e) < |blocks|
    requires c == Moved(s[..n], hash, mask, |blocks|) && HoldsAll(blocks, c)
    requires forall b :: 0 <= b < |blocks| ==> |blocks[b]| == BlockSize(RoutedSize(s, hash, mask, b))
    ensures |r| == |blocks| && HoldsAll(r, Moved(s[..n + 1], hash, mask, |blocks|))
    ensures forall b :: 0 <= b < |r| ==> |r[b]| == |blocks[b]|
  {
    hide Holds, BucketOf, Packed;
    RoutedNext(s, n, hash, mask, ibucket);
    RoutedSizeGrows(s, n + 1, hash, mask, ibucket);
    RoutedSizeExact(s[..n], hash, mask, ibucket);
    MovedNext(s, n, hash, mask, |blocks|, ibucket);
    var block := AppendReserved(blocks[ibucket], e, c[ibucket]);
    r := blocks[ibucket := block];
  }

  method MoveAll(buckets: seq<Buffer>, reserved: seq<Buffer>, bucketFor: seq<nat>, hash: Key -> nat, mask: nat,
                 ghost c: Content)
    returns (r: seq<Buffer>)
    requires HoldsAll(buckets, c) && |bucketFor| == |Flat(c)| && (|Flat(c)| > 0 ==> mask < |reserved|)
    requires forall i :: 0 <= i < |Flat(c)| ==> bucketFor[i] == BucketOf(hash, mask, Flat(c)[i])
    requires HoldsAll(reserved, seq(|reserved|, _ => []))
    requires forall b :: 0 <= b < |reserved| ==> |reserved[b]| == BlockSize(RoutedSize(Flat(c), hash, mask, b))
    ensures |r| == |reserved| && HoldsAll(r, Moved(Flat(c), hash, mask, |reserved|))
    ensures forall b :: 0 <= b < |r| ==> Snug(r[b], Moved(Flat(c), hash, mask, |r|)[b])
  {
    hide Holds, Flat, Located, BucketOf, RoutedSize, Packed;
    ghost var flat := Flat(c);
    ListedStorable(buckets, c);
    r := reserved;
    var n := 0;
    var cur := Begin(buckets, c);
    LocatedEntry(c, cur, 0);
    assert flat[..0] == [];
    assert Moved([], hash, mask, |r|) == seq(|reserved|, _ => []);
    while cur.At?
      invariant n <= |flat| && Located(c, cur, n) && (cur.At? <==> n < |flat|)
      invariant |r| == |reserved| && HoldsAll(r, Moved(flat[..n], hash, mask, |r|))
      invariant forall b :: 0 <= b < |r| ==> |r[b]| == BlockSize(RoutedSize(flat, hash, mask, b))
      decreases |flat| - n
    {
      var e := Read(buckets, cur, c, n);
      r := MoveOne(r, bucketFor[n], e, hash, mask, flat, n, Moved(flat[..n], hash, mask, |r|));
      cur := Next(buckets, cur, c, n);
      n := n + 1;
      LocatedEntry(c, cur, n);
    }
    assert flat[..n] == flat;
    forall b | 0 <= b < |r|
      ensures Snug(r[b], Moved(flat, hash, mask, |r|)[b])
    {
      RoutedSizeExact(flat, hash, mask, b);
    }
  }
}

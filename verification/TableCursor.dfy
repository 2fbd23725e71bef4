/**
 Walking over the buckets of an array-hash, and the passes over the entries
 that rehashing and compaction make.
 */
module TableCursor {
  import opened ArrayBucket
  import opened TableContent

  /** An iterator: a bucket and a position in its buffer, or the end. */
  datatype Cursor = At(bucket: nat, offset: nat) | End

  ghost predicate HoldsAll(buckets: seq<Buffer>, c: Content) {
    |buckets| == |c| && forall b :: 0 <= b < |c| ==> Holds(buckets[b], c[b])
  }

  /** The cursor is at the entry of rank `n`, or at the end when there is none. */
  ghost predicate Located(c: Content, cur: Cursor, n: nat) {
    if cur.End? then n == |Flat(c)|
    else
      && cur.bucket < |c|
      && 0 <= n - Start(c, cur.bucket) < |c[cur.bucket]|
      && AllStorable(c[cur.bucket])
      && cur.offset == Offset(c[cur.bucket], n - Start(c, cur.bucket))
  }

  lemma LocatedEntry(c: Content, cur: Cursor, n: nat)
    requires Located(c, cur, n)
    ensures cur.At? <==> n < |Flat(c)|
    ensures cur.At? ==> Flat(c)[n] == c[cur.bucket][n - Start(c, cur.bucket)]
  {
    if cur.At? {
      FlatAt(c, cur.bucket, n - Start(c, cur.bucket));
    }
  }

  /** `empty()` of a bucket. */
  predicate IsEmpty(b: Buffer) {
    b == [] || |b| < 2 || ReadU16(b, 0) == END_OF_BUCKET
  }

  lemma EmptyIff(b: Buffer, es: seq<Entry>)
    requires Holds(b, es)
    ensures IsEmpty(b) <==> es == []
    ensures AllStorable(es) && (es != [] ==> b != [])
  {
    if b != [] {
      HoldsEnd(b, es);
      if es != [] {
        HoldsEntry(b, es, 0);
      }
    }
  }

  /** The first entry at or after the start of bucket `from`. */
  method SkipEmpty(buckets: seq<Buffer>, from: nat, ghost c: Content) returns (cur: Cursor)
    requires HoldsAll(buckets, c) && from <= |c|
    ensures Located(c, cur, Start(c, from))
  {
    hide Holds;
    var b := from;
    StartEnd(c);
    while b < |buckets| && IsEmpty(buckets[b])
      invariant from <= b <= |c| && Start(c, b) == Start(c, from)
    {
      EmptyIff(buckets[b], c[b]);
      StartNext(c, b);
      b := b + 1;
    }
    if b < |buckets| {
      EmptyIff(buckets[b], c[b]);
      cur := At(b, 0);
    } else {
      cur := End;
    }
  }

  method Begin(buckets: seq<Buffer>, ghost c: Content) returns (cur: Cursor)
    requires HoldsAll(buckets, c)
    ensures Located(c, cur, 0)
  {
    cur := SkipEmpty(buckets, 0, c);
  }

  /** `operator++`. */
  method Next(buckets: seq<Buffer>, at: Cursor, ghost c: Content, ghost n: nat) returns (cur: Cursor)
    requires HoldsAll(buckets, c) && at.At? && Located(c, at, n)
    ensures Located(c, cur, n + 1)
  {
    hide Holds;
    var b := at.bucket;
    ghost var i := n - Start(c, b);
    EmptyIff(buckets[b], c[b]);
    HoldsEntry(buckets[b], c[b], i);
    StartNext(c, b);
    var p := at.offset + EntrySize(ReadU16(buckets[b], at.offset));
    if i + 1 < |c[b]| {
      HoldsEntry(buckets[b], c[b], i + 1);
    } else {
      HoldsEnd(buckets[b], c[b]);
    }
    if ReadU16(buckets[b], p) == END_OF_BUCKET {
      cur := SkipEmpty(buckets, b + 1, c);
    } else {
      cur := At(b, p);
    }
  }

  /** The entry under the cursor. */
  method Read(buckets: seq<Buffer>, at: Cursor, ghost c: Content, ghost n: nat) returns (e: Entry)
    requires HoldsAll(buckets, c) && at.At? && Located(c, at, n)
    ensures n < |Flat(c)| && e == Flat(c)[n] && e.Storable()
  {
    hide Holds, Packed;
    var b := buckets[at.bucket];
    ghost var es, i := c[at.bucket], n - Start(c, at.bucket);
    LocatedEntry(c, at, n);
    EmptyIff(b, es);
    HoldsEntry(b, es, i);
    var p := at.offset;
    var size := ReadU16(b, p);
    var q := p + 2 + size;
    e := Entry(b[p + 2..q], ReadU16(b, q));
  }

  // ---------------------------------------------------------------------------
  // Compaction
  // ---------------------------------------------------------------------------

  /** The first pass of `clear_old_erased_values`: the live values in iteration order. */
  method Gather<V>(buckets: seq<Buffer>, values: seq<V>, ghost c: Content) returns (live: seq<V>)
    requires HoldsAll(buckets, c)
    requires forall i :: 0 <= i < |Flat(c)| ==> Flat(c)[i].index < |values|
    ensures live == Gathered(Flat(c), values)
  {
    hide Holds;
    ghost var n := 0;
    live := [];
    var cur := Begin(buckets, c);
    LocatedEntry(c, cur, n);
    while cur.At?
      invariant n <= |Flat(c)| && Located(c, cur, n) && (cur.At? <==> n < |Flat(c)|)
      invariant |live| == n && forall i :: 0 <= i < n ==> live[i] == values[Flat(c)[i].index]
      decreases |Flat(c)| - n
    {
      var e := Read(buckets, cur, c, n);
      live := live + [values[e.index]];
      cur := Next(buckets, cur, c, n);
      n := n + 1;
      LocatedEntry(c, cur, n);
    }
  }

  /** A bucket in the middle of renumbering: ranks below `n` are done. */
  function HalfCounted(es: seq<Entry>, from: nat, n: nat): (r: seq<Entry>)
    ensures |r| == |es|
  {
    seq(|es|, i requires 0 <= i < |es| => if from + i < n then Entry(es[i].key, from + i) else es[i])
  }

  function HalfRenumbered(c: Content, n: nat): (r: Content)
    ensures |r| == |c|
  {
    seq(|c|, b requires 0 <= b < |c| => HalfCounted(c[b], Start(c, b), n))
  }

  /** Buckets of the same shape: key by key, only the indices differ. */
  ghost predicate SameKeys(c: Content, d: Content) {
    && |c| == |d|
    && forall b :: 0 <= b < |c| ==> |c[b]| == |d[b]| && forall i :: 0 <= i < |c[b]| ==> c[b][i].key == d[b][i].key
  }

  lemma {:induction false} SameKeysFlat(c: Content, d: Content)
    requires SameKeys(c, d)
    ensures |Flat(c)| == |Flat(d)|
    ensures forall n :: 0 <= n < |Flat(c)| ==> Flat(c)[n].key == Flat(d)[n].key
  {
    if c != [] {
      SameKeysFlat(c[..|c| - 1], d[..|d| - 1]);
    }
  }

  lemma SameKeysStart(c: Content, d: Content, b: nat)
    requires SameKeys(c, d) && b <= |c|
    ensures Start(c, b) == Start(d, b)
  {
    SameKeysFlat(c[..b], d[..b]);
  }

  lemma {:induction false} SameKeysOffset(es: seq<Entry>, fs: seq<Entry>, n: nat)
    requires AllStorable(es) && AllStorable(fs) && |es| == |fs| && n <= |es|
    requires forall i :: 0 <= i < |es| ==> es[i].key == fs[i].key
    ensures Offset(es, n) == Offset(fs, n)
  {
    if n > 0 {
      SameKeysOffset(es, fs, n - 1);
      OffsetNext(es, n - 1);
      OffsetNext(fs, n - 1);
    }
  }

  /** Cursors survive a change of indices. */
  lemma SameKeysLocated(c: Content, d: Content, cur: Cursor, n: nat)
    requires SameKeys(c, d) && Located(c, cur, n) && forall b :: 0 <= b < |d| ==> AllStorable(d[b])
    ensures Located(d, cur, n)
  {
    SameKeysFlat(c, d);
    if cur.At? {
      SameKeysStart(c, d, cur.bucket);
      SameKeysOffset(c[cur.bucket], d[cur.bucket], n - Start(c, cur.bucket));
    }
  }

  lemma HalfStep(c: Content, b: nat, i: nat, n: nat)
    requires b < |c| && i < |c[b]| && n == Start(c, b) + i
    ensures HalfRenumbered(c, n)[b][i].key == c[b][i].key
    ensures HalfRenumbered(c, n + 1) ==
            HalfRenumbered(c, n)[b := HalfRenumbered(c, n)[b][i := Entry(c[b][i].key, n)]]
  {
    var next := HalfRenumbered(c, n)[b := HalfRenumbered(c, n)[b][i := Entry(c[b][i].key, n)]];
    forall d | 0 <= d < |c|
      ensures HalfRenumbered(c, n + 1)[d] == next[d]
    {
      if d < b {
        StartMonotone(c, d + 1, b);
        StartNext(c, d);
        assert HalfRenumbered(c, n + 1)[d] == HalfRenumbered(c, n)[d];
      } else if d > b {
        StartMonotone(c, b + 1, d);
        StartNext(c, b);
        assert HalfRenumbered(c, n + 1)[d] == HalfRenumbered(c, n)[d];
      } else {
        assert HalfRenumbered(c, n + 1)[b] == HalfRenumbered(c, n)[b][i := Entry(c[b][i].key, n)];
      }
    }
  }

  lemma {:induction false} StartMonotone(c: Content, a: nat, b: nat)
    requires a <= b <= |c|
    ensures Start(c, a) <= Start(c, b)
    decreases b - a
  {
    if a < b {
      StartNext(c, a);
      StartMonotone(c, a + 1, b);
    }
  }

  lemma HalfEnds(c: Content)
    ensures HalfRenumbered(c, 0) == c
    ensures HalfRenumbered(c, |Flat(c)|) == Renumbered(c)
  {
    assert HalfRenumbered(c, 0) == c by {
      assert forall b :: 0 <= b < |c| ==> HalfCounted(c[b], Start(c, b), 0) == c[b];
    }
    forall b | 0 <= b < |c|
      ensures HalfRenumbered(c, |Flat(c)|)[b] == Renumbered(c)[b]
    {
      if c[b] != [] {
        FlatAt(c, b, |c[b]| - 1);
      }
      StartNext(c, b);
    }
  }

  ghost predicate SameSizes(bs: seq<Buffer>, cs: seq<Buffer>) {
    |bs| == |cs| && forall b :: 0 <= b < |bs| ==> |bs[b]| == |cs[b]|
  }

  /** One step of the second pass: `set_value` on the entry under the cursor. */
  method RenumberOne(buckets: seq<Buffer>, cur: Cursor, index: nat, ghost c: Content, ghost d: Content)
    returns (r: seq<Buffer>)
    requires d == HalfRenumbered(c, index) && HoldsAll(buckets, d) && index <= 0xFFFF
    requires cur.At? && Located(d, cur, index)
    ensures HoldsAll(r, HalfRenumbered(c, index + 1)) && Located(HalfRenumbered(c, index + 1), cur, index)
    ensures SameSizes(buckets, r)
  {
    hide Holds, Flat, HalfRenumbered;
    HalfSameKeys(c, index);
    SameKeysStart(c, d, cur.bucket);
    ghost var b, i := cur.bucket, index - Start(c, cur.bucket);
    EmptyIff(buckets[b], d[b]);
    HalfStep(c, b, i, index);
    var block := SetIndex(buckets[cur.bucket], cur.offset, index, d[b], i);
    r := buckets[cur.bucket := block];
    ghost var next := HalfRenumbered(c, index + 1);
    HalfSameKeys(c, index + 1);
    AllHeldStorable(r, next);
    SameKeysLocated(d, next, cur, index);
  }

  lemma AllHeldStorable(buckets: seq<Buffer>, c: Content)
    requires HoldsAll(buckets, c)
    ensures forall b :: 0 <= b < |c| ==> AllStorable(c[b])
  {
    hide Holds;
    forall b | 0 <= b < |c|
      ensures AllStorable(c[b])
    {
      EmptyIff(buckets[b], c[b]);
    }
  }

  /** The second pass: every entry gets its own rank as index, in place. */
  method Renumber(buckets: seq<Buffer>, ghost c: Content) returns (r: seq<Buffer>)
    requires HoldsAll(buckets, c) && |Flat(c)| <= 0x1_0000
    ensures HoldsAll(r, Renumbered(c)) && SameSizes(buckets, r)
  {
    hide Holds, Flat, HalfRenumbered;
    r := buckets;
    HalfEnds(c);
    var cur := Begin(r, c);
    LocatedEntry(c, cur, 0);
    var index := 0;
    while cur.At?
      invariant index <= |Flat(c)| && HoldsAll(r, HalfRenumbered(c, index)) && SameSizes(buckets, r)
      invariant Located(HalfRenumbered(c, index), cur, index) && (cur.At? <==> index < |Flat(c)|)
      decreases |Flat(c)| - index
    {
      ghost var next := HalfRenumbered(c, index + 1);
      r := RenumberOne(r, cur, index, c, HalfRenumbered(c, index));
      cur := Next(r, cur, next, index);
      index := index + 1;
      HalfSameKeys(c, index);
      SameKeysFlat(c, next);
      LocatedEntry(next, cur, index);
    }
  }

  lemma HalfSameKeys(c: Content, n: nat)
    ensures SameKeys(c, HalfRenumbered(c, n))
  {
  }

  lemma RenumberedSameKeys(c: Content)
    ensures SameKeys(c, Renumbered(c))
  {
  }
}

/**
 The array-hash: a hash table whose buckets are packed byte buffers and whose
 values lie in a side vector. Erased values stay in the vector until they are
 compacted away.

 Load factors are reals here; the rounding of floats is not modelled, and the
 map a table stands for does not depend on it.
 */
module ArrayHash {
  import opened ArrayBucket
  import opened GrowthPolicy
  import opened TableContent
  import opened TableCursor
  import opened TableRehash

  /** `max_size`: the largest 16-bit index. */
  const MAX_VALUES := 0xFFFF

  datatype Emplaced = Placed(at: Cursor, added: bool) | LengthError

  /** Every entry is in the bucket its hash selects. */
  ghost predicate InPlace(c: Content, hash: Key -> nat, mask: nat) {
    forall b, i :: 0 <= b < |c| && 0 <= i < |c[b]| ==> BucketOf(hash, mask, c[b][i]) == b
  }

  /** The keys in iteration order. */
  function Keys(s: seq<Entry>): (ks: seq<Key>)
    ensures |ks| == |s|
  {
    seq(|s|, i requires 0 <= i < |s| => s[i].key)
  }

  /** A key of the map is in the bucket its hash selects. */
  lemma KeyInBucket<V>(c: Content, hash: Key -> nat, mask: nat, all: set<Entry>, values: seq<V>, m: map<Key, V>, key: Key)
    returns (b: nat, i: nat)
    requires InPlace(c, hash, mask) && Lists(Flat(c), all) && Maps(all, values, m) && key in m
    ensures b < |c| && i < |c[b]| && c[b][i].key == key && b == And(hash(key), mask)
  {
    hide Flat, And;
    MapsHasKey(all, values, m, key);
    var e :| e in all && e.key == key;
    b, i := FlatMember(c, e);
  }

  lemma EmptyTable<V>(count: nat, hash: Key -> nat, mask: nat)
    ensures HoldsAll(seq(count, _ => []), seq(count, _ => []))
    ensures InPlace(seq(count, _ => []), hash, mask)
    ensures Lists(Flat(seq(count, _ => [])), {})
    ensures Maps<V>({}, [], map[])
  {
    EmptyContent(seq(count, _ => []));
  }

  /** The rank of a position in its own bucket. */
  lemma RankInBucket(c: Content, cur: Cursor, n: nat) returns (i: nat)
    requires cur.At? && Located(c, cur, n)
    ensures n == Start(c, cur.bucket) + i
  {
    i := n - Start(c, cur.bucket);
  }

  lemma HeldAt(buckets: seq<Buffer>, c: Content, b: nat)
    requires HoldsAll(buckets, c) && (b < |c| || b < |buckets|)
    ensures |buckets| == |c| && Holds(buckets[b], c[b]) && AllStorable(c[b]) && (c[b] != [] ==> buckets[b] != [])
  {
    hide Holds;
    EmptyIff(buckets[b], c[b]);
  }

  lemma KeysRemoved(s: seq<Entry>, t: seq<Entry>, n: nat)
    requires n < |s| && t == s[..n] + s[n + 1..]
    ensures Keys(s)[n] == s[n].key && Keys(t) == Keys(s)[..n] + Keys(s)[n + 1..]
  {
  }

  lemma HoldsAllUpdate(buckets: seq<Buffer>, c: Content, b: nat, block: Buffer, es: seq<Entry>)
    requires HoldsAll(buckets, c) && b < |c| && Holds(block, es)
    ensures HoldsAll(buckets[b := block], c[b := es])
  {
    hide Holds;
  }

  lemma InPlaceUpdate(c: Content, hash: Key -> nat, mask: nat, b: nat, es: seq<Entry>)
    requires InPlace(c, hash, mask) && b < |c|
    requires forall i :: 0 <= i < |es| ==> es[i] in c[b] || BucketOf(hash, mask, es[i]) == b
    ensures InPlace(c[b := es], hash, mask)
  {
    hide BucketOf;
  }

  lemma ListsAdd(s: seq<Entry>, t: seq<Entry>, all: set<Entry>, e: Entry)
    requires Lists(s, all) && e !in all && |t| == |s| + 1 && forall f :: f in t <==> f in s || f == e
    ensures Lists(t, all + {e})
  {
  }

  lemma ListsMember(s: seq<Entry>, all: set<Entry>, n: nat)
    requires Lists(s, all) && n < |s|
    ensures s[n] in all && |all - {s[n]}| == |all| - 1
  {
  }

  lemma ListsSame(s: seq<Entry>, t: seq<Entry>, all: set<Entry>)
    requires Lists(s, all) && |t| == |s| && forall e :: e in t <==> e in s
    ensures Lists(t, all)
  {
  }

  lemma RoutesFit(hash: Key -> nat, mask: nat, count: nat)
    requires MaskFor(mask, count)
    ensures count > 0 ==> mask < count && forall e :: BucketOf(hash, mask, e) < count
  {
  }

  lemma MovedInPlace(s: seq<Entry>, hash: Key -> nat, mask: nat, count: nat)
    ensures InPlace(Moved(s, hash, mask, count), hash, mask)
  {
    hide BucketOf;
    var c := Moved(s, hash, mask, count);
    forall b, i | 0 <= b < |c| && 0 <= i < |c[b]|
      ensures BucketOf(hash, mask, c[b][i]) == b
    {
      assert c[b][i] in Routed(s, hash, mask, b);
    }
  }

  lemma NotEmpty(count: nat, nb: nat, maxLoad: real)
    requires nb < (count as real * maxLoad).Floor
    ensures count > 0
  {
    assert 0.0 * maxLoad == 0.0;
  }

  /** The number of elements at which a table of this many buckets grows. */
  ghost predicate Loaded(count: nat, maxLoad: real, threshold: int) {
    maxLoad >= 0.1 && threshold == (count as real * maxLoad).Floor
  }

  /** With at most 65535 values the table never outgrows its largest size. */
  lemma GrowthFits(mask: nat, count: nat, nb: nat, maxLoad: real)
    requires MaskFor(mask, count) && nb <= MAX_VALUES && maxLoad >= 0.1
    requires nb >= (count as real * maxLoad).Floor
    ensures NextBucketCount(mask).Some? && NextBucketCount(mask).value <= MAX_BUCKETS
  {
    assert count as real * 0.1 <= count as real * maxLoad;
    assert count as real * maxLoad < (nb + 1) as real;
    assert count < 10 * (nb + 1);
  }

  /** How many buckets a table grows to. */
  function Grown(count: nat): nat {
    if count == 0 then GROWTH_FACTOR else count * GROWTH_FACTOR
  }

  class Table<V> {
    const hash: Key -> nat
    var mask: nat
    var buckets: seq<Buffer>
    var values: seq<V>
    var nb: nat
    var maxLoad: real
    var loadThreshold: int

    ghost var content: Content
    ghost var all: set<Entry>
    ghost var model: map<Key, V>

    ghost predicate Valid()
      reads this
    {
      && MaskFor(mask, |buckets|)
      && HoldsAll(buckets, content)
      && InPlace(content, hash, mask)
      && Lists(Flat(content), all)
      && Maps(all, values, model)
      && nb == |all| && |values| <= MAX_VALUES
      && Loaded(|buckets|, maxLoad, loadThreshold)
    }

    /** The keys in iteration order. */
    ghost function Order(): seq<Key>
      reads this
    {
      Keys(Flat(content))
    }

    constructor (hash: Key -> nat, mask: nat, count: nat, maxLoad: real)
      requires MaskFor(mask, count)
      ensures Valid() && model == map[] && nb == 0 && this.hash == hash && |buckets| == count
    {
      this.hash := hash;
      this.mask := mask;
      buckets := seq(count, _ => []);
      values := [];
      nb := 0;
      var factor := if maxLoad > 0.1 then maxLoad else 0.1;
      this.maxLoad := factor;
      loadThreshold := (count as real * factor).Floor;
      content := seq(count, _ => []);
      all := {};
      model := map[];
      new;
      assert Loaded(|buckets|, this.maxLoad, loadThreshold);
      hide Loaded, HoldsAll, InPlace, Flat, Maps, Lists, MaskFor;
      EmptyTable<V>(count, hash, mask);
    }

    // -------------------------------------------------------------------------
    // Lookup and iteration
    // -------------------------------------------------------------------------

    /** The bucket of a key, and where in it the key is or would be appended. */
    method Locate(key: Key) returns (b: nat, found: bool, p: nat, ghost i: nat)
      requires Valid()
      ensures b == And(hash(key), mask) && (|buckets| > 0 ==> b < |buckets|)
      ensures found <==> key in model
      ensures found ==> b < |content| && i < |content[b]| && content[b][i].key == key
      ensures found ==> Located(content, At(b, p), Start(content, b) + i)
      ensures !found && b < |buckets| && buckets[b] != [] ==> AllStorable(content[b]) && p == Offset(content[b], |content[b]|)
    {
      hide Holds, And, Flat, Lists, Maps;
      b := And(hash(key), mask);
      found, p, i := false, 0, 0;
      BucketInRange(hash(key), mask, |buckets|);
      if b < |buckets| {
        EmptyIff(buckets[b], content[b]);
        if buckets[b] != [] {
          found, p, i := FindOrEnd(buckets[b], key, content[b]);
        }
      }
      if key in model {
        ghost var b', i' := KeyInBucket(content, hash, mask, all, values, model, key);
      }
      if found {
        InModel(b, i);
      }
    }

    lemma InModel(b: nat, i: nat)
      requires Valid() && b < |content| && i < |content[b]|
      ensures content[b][i].key in model && content[b][i] in all
      ensures content[b][i].index < |values| && model[content[b][i].key] == values[content[b][i].index]
    {
      hide Holds, And, Flat;
      FlatAt(content, b, i);
      assert Flat(content)[Start(content, b) + i] in Flat(content);
    }

    /** `find`. */
    method Find(key: Key) returns (cur: Cursor, ghost n: nat)
      requires Valid()
      ensures Located(content, cur, n) && n <= |Order()|
      ensures cur.At? <==> key in model
      ensures cur.At? ==> n < |Order()| && Order()[n] == key
    {
      hide Holds, And, Flat;
      var b, found, p, i := Locate(key);
      if found {
        cur, n := At(b, p), Start(content, b) + i;
      } else {
        cur, n := End, |Flat(content)|;
      }
      LocatedEntry(content, cur, n);
    }

    /** The value under a cursor. */
    method Value(cur: Cursor, ghost n: nat) returns (v: V)
      requires Valid() && cur.At? && Located(content, cur, n)
      ensures n < |Order()| && Order()[n] in model && v == model[Order()[n]]
    {
      hide Holds, And, Flat;
      var e := Read(buckets, cur, content, n);
      assert e in Flat(content);
      v := values[e.index];
    }

    /** `begin`. */
    method First() returns (cur: Cursor)
      requires Valid()
      ensures Located(content, cur, 0) && (cur.At? <==> |Order()| > 0)
    {
      hide Holds, And, Flat;
      cur := Begin(buckets, content);
      LocatedEntry(content, cur, 0);
    }

    /** `operator++`. */
    method Advance(at: Cursor, ghost n: nat) returns (cur: Cursor)
      requires Valid() && at.At? && Located(content, at, n)
      ensures n < |Order()| && Located(content, cur, n + 1) && (cur.At? <==> n + 1 < |Order()|)
    {
      hide Holds, And, Flat;
      LocatedEntry(content, at, n);
      cur := Next(buckets, at, content, n);
      LocatedEntry(content, cur, n + 1);
    }

    /** The key under a cursor. */
    method KeyUnder(at: Cursor, ghost n: nat) returns (k: Key)
      requires Valid() && at.At? && Located(content, at, n)
      ensures n < |Order()| && k == Order()[n] && |k| <= MAX_KEY_SIZE
    {
      hide Holds, And, Flat;
      var e := Read(buckets, at, content, n);
      k := e.key;
    }

    /** Iterating visits every key of the map once: the order lists them all. */
    lemma OrderLists()
      requires Valid()
      ensures |Order()| == |model| == nb <= MAX_VALUES
      ensures forall k :: k in model <==> k in Order()
      ensures forall i, j :: 0 <= i < j < |Order()| ==> Order()[i] != Order()[j]
    {
      hide Holds, And, Flat;
      CountLive();
      var flat := Flat(content);
      forall k | k in model
        ensures k in Order()
      {
        MapsHasKey(all, values, model, k);
        var e :| e in all && e.key == k;
        var i :| 0 <= i < |flat| && flat[i] == e;
        assert Order()[i] == k;
      }
      assert forall i :: 0 <= i < |flat| ==> flat[i] in all;
      forall i, j | 0 <= i < j < |Order()|
        ensures Order()[i] != Order()[j]
      {
        NoRepeat(flat, all, i, j);
      }
    }

    // -------------------------------------------------------------------------
    // Compaction and rehashing
    // -------------------------------------------------------------------------

    /** `should_clear_old_erased_values`. */
    predicate ShouldCompact(threshold: real)
      reads this
    {
      |values| != 0 && nb as real / |values| as real < threshold
    }

    /** `clear_old_erased_values`: no pair of the map changes, and no value is left over. */
    method Compact()
      requires Valid()
      modifies this
      ensures Valid() && model == old(model) && nb == old(nb) && |values| == nb
      ensures SameKeys(old(content), content) && SameSizes(old(buckets), buckets) && mask == old(mask)
    {
      hide Holds, And, Flat, Maps, Located, Renumbered;
      CountLive();
      if nb == |values| {
        return;
      }
      ghost var flat := Flat(content);
      ghost var now := MapsCompacted(flat, all, values, model);
      ghost var was := content;
      var live := Gather(buckets, values, content);
      buckets := Renumber(buckets, content);
      values := live;
      RenumberedFlat(content);
      RenumberedSameKeys(content);
      content := Renumbered(content);
      all := now;
      SameKeysInPlace(was, content, hash, mask);
    }

    lemma CountLive()
      requires Valid()
      ensures nb == |Flat(content)| <= |values|
    {
      hide Holds, And, Flat;
      CountBelow(all, |values|);
    }

    /** `rehash_impl`: more buckets, the same map; `false` is the length error of the growth policy or of a vector. */
    method Rehash(wanted: nat) returns (ok: bool)
      requires Valid() && (nb > 0 ==> wanted > 0)
      modifies this
      ensures Valid() && model == old(model) && nb == old(nb)
      ensures ok <==> wanted <= MAX_BUCKETS || (wanted <= MAX_BUCKET_COUNT && LeastPowerAbove(wanted, old(|buckets|)))
      ensures !ok ==> Order() == old(Order()) && |buckets| == old(|buckets|)
      ensures wanted > MAX_BUCKET_COUNT ==> unchanged(this)
      ensures ok ==> if wanted == 0 then |buckets| == 0 else LeastPowerAbove(wanted, |buckets|)
    {
      hide Holds, And, Flat, Maps, MaskFor, LeastPowerAbove;
      var newMask, count := NewPolicy(wanted);
      if newMask.None? {
        return false;
      }
      if wanted > 0 {
        RoundedFits(wanted, count);
        LeastPowerUnique(wanted, count, |buckets|);
      }
      if count == |buckets| {
        return true;
      }
      if ShouldCompact(0.9) {
        ghost var was := content;
        Compact();
        SameKeysFlat(was, content);
      }
      if count > MAX_VECTOR_SIZE {
        return false;
      }
      Redistribute(newMask.value, count);
      return true;
    }

    /** The passes of a rehash. */
    method Redistribute(newMask: nat, count: nat)
      requires Valid() && MaskFor(newMask, count) && (nb > 0 ==> count > 0)
      modifies this
      ensures Valid() && model == old(model) && nb == old(nb) && |buckets| == count
      ensures forall b :: 0 <= b < |buckets| ==> Snug(buckets[b], content[b])
    {
      hide HoldsAll, Holds, Flat, Maps, BucketOf, Moved, Snug, InPlace, Lists, MaskFor, Packed;
      CountLive();
      ghost var flat := Flat(content);
      RoutesFit(hash, newMask, count);
      var bucketFor, required := Measure(buckets, hash, newMask, count, nb, content);
      var blocks := ReserveAll(required);
      blocks := MoveAll(buckets, blocks, bucketFor, hash, newMask, content);
      MovedLists(flat, |flat|, hash, newMask, count);
      assert flat[..|flat|] == flat;
      MovedInPlace(flat, hash, newMask, count);
      ListsSame(flat, Flat(Moved(flat, hash, newMask, count)), all);
      content := Moved(flat, hash, newMask, count);
      buckets := blocks;
      mask := newMask;
      loadThreshold := (|buckets| as real * maxLoad).Floor;
    }

    // -------------------------------------------------------------------------
    // Modifiers
    // -------------------------------------------------------------------------

    /** `rehash_on_high_load`; either way there are buckets then. */
    method GrowOnHighLoad() returns (grown: bool)
      requires Valid()
      modifies this
      ensures Valid() && model == old(model) && |buckets| > 0
      ensures !grown ==> unchanged(this)
      ensures grown <==> old(nb) >= old(loadThreshold)
      ensures |buckets| == if grown then Grown(old(|buckets|)) else old(|buckets|)
    {
      hide HoldsAll, And, Flat, Maps, InPlace, Lists;
      CountLive();
      grown := nb >= loadThreshold;
      if grown {
        GrowthFits(mask, |buckets|, nb, maxLoad);
        ghost var was, next := mask, NextBucketCount(mask).value;
        var ok := Rehash(NextBucketCount(mask).value);
        GrowthIsExact(was, old(|buckets|), next, |buckets|);
      } else {
        NotEmpty(|buckets|, nb, maxLoad);
      }
    }

    lemma FoundAt(b: nat, p: nat, i: nat, key: Key)
      requires Valid() && b < |content| && i < |content[b]| && content[b][i].key == key
      requires Located(content, At(b, p), Start(content, b) + i)
      ensures exists n :: 0 <= n < |Order()| && Order()[n] == key && Located(content, At(b, p), n)
    {
      hide HoldsAll, Flat, Maps, InPlace, Lists;
      var n := Start(content, b) + i;
      LocatedEntry(content, At(b, p), n);
      assert Order()[n] == key;
    }

    /** `emplace`: keeps the value of a key that is already there. */
    method Emplace(key: Key, v: V) returns (r: Emplaced)
      requires Valid()
      modifies this
      ensures Valid()
      ensures r.LengthError? <==> key !in old(model) && (|key| > MAX_KEY_SIZE || |old(model)| == MAX_VALUES)
      ensures r.LengthError? ==> model == old(model)
      ensures r.Placed? ==> r.added == (key !in old(model))
      ensures r.Placed? && r.added ==> model == old(model)[key := v]
      ensures r.Placed? && !r.added ==> unchanged(this)
      ensures key !in old(model) ==> |buckets| == if old(nb) >= old(loadThreshold) then Grown(old(|buckets|)) else old(|buckets|)
      ensures r.Placed? ==> r.at.At? && exists n :: 0 <= n < |Order()| && Order()[n] == key && Located(content, r.at, n)
    {
      hide Valid, Located, Order, Start, And;
      var b, found, p, i := Locate(key);
      if found {
        FoundAt(b, p, i, key);
        return Placed(At(b, p), false);
      }
      var grown := GrowOnHighLoad();
      if grown {
        b, found, p, i := Locate(key);
      }
      r := Insert(b, p, key, v);
    }

    /** `emplace_impl`. */
    method Insert(b: nat, p: nat, key: Key, v: V) returns (r: Emplaced)
      requires Valid() && key !in model && b == And(hash(key), mask) < |buckets|
      requires buckets[b] != [] ==> AllStorable(content[b]) && p == Offset(content[b], |content[b]|)
      modifies this
      ensures Valid()
      ensures r.LengthError? <==> |key| > MAX_KEY_SIZE || |old(model)| == MAX_VALUES
      ensures r.LengthError? ==> model == old(model)
      ensures |buckets| == old(|buckets|)
      ensures r.Placed? ==> r.added && model == old(model)[key := v]
      ensures r.Placed? ==> r.at.At? && exists n :: 0 <= n < |Order()| && Order()[n] == key && Located(content, r.at, n)
    {
      hide Holds, And, Flat;
      CountLive();
      if |values| >= MAX_VALUES {
        ghost var was, block := content, buckets[b];
        EmptyIff(block, was[b]);
        Compact();
        EmptyIff(buckets[b], content[b]);
        SameKeysOffset(was[b], content[b], |was[b]|);
        if |values| >= MAX_VALUES {
          return LengthError;
        }
      }
      if |key| > MAX_KEY_SIZE {
        return LengthError; // the value pushed for it is popped again
      }
      r := AppendEntry(b, p, key, v);
    }

    /** The value is pushed and the entry that indexes it appended. */
    method AppendEntry(b: nat, p: nat, key: Key, v: V) returns (r: Emplaced)
      requires Valid() && key !in model && b == And(hash(key), mask) < |buckets|
      requires buckets[b] != [] ==> AllStorable(content[b]) && p == Offset(content[b], |content[b]|)
      requires |key| <= MAX_KEY_SIZE && |values| < MAX_VALUES
      modifies this
      ensures Valid() && r.Placed? && r.added && model == old(model)[key := v] && |buckets| == old(|buckets|)
      ensures r.at.At? && exists n :: 0 <= n < |Order()| && Order()[n] == key && Located(content, r.at, n)
    {
      hide HoldsAll, Holds, And, Flat, Maps, Located, InPlace, Lists, MaskFor, Loaded, Keys, Offset, AllStorable, Packed;
      var e := Entry(key, |values|);
      var at := if buckets[b] == [] then 0 else p;
      HeldAt(buckets, content, b);
      OffsetNone(content[b]);
      var block := Append(buckets[b], p, e, content[b]);
      ghost var more := content[b := content[b] + [e]];
      MapsAdd(all, values, model, e, v);
      EntryAdded(buckets, content, hash, mask, all, b, e, block, at, more);
      values, buckets, nb := values + [v], buckets[b := block], nb + 1;
      content, all, model := more, all + {e}, model[key := v];
      r := Placed(At(b, at), true);
    }

    /** `erase(iterator)`: one pair goes, the others keep their order, and the next position comes back. */
    method EraseAt(cur: Cursor, ghost n: nat) returns (next: Cursor)
      requires Valid() && cur.At? && Located(content, cur, n)
      modifies this
      ensures n < |old(Order())| && Valid()
      ensures Order() == old(Order())[..n] + old(Order())[n + 1..]
      ensures model == old(model) - {old(Order())[n]} && nb == old(nb) - 1
      ensures Located(content, next, n) && (next.At? <==> n < |Order()|)
    {
      hide Holds, And, Flat, Maps;
      LocatedEntry(content, cur, n);
      if ShouldCompact(0.6) {
        ghost var was := content;
        Compact();
        AllHeldStorable(buckets, content);
        SameKeysLocated(was, content, cur, n);
        SameKeysFlat(was, content);
      }
      next := EraseFromBucket(cur, n);
      LocatedEntry(content, next, n);
    }

    /** `erase_from_bucket`. */
    method EraseFromBucket(cur: Cursor, ghost n: nat) returns (next: Cursor)
      requires Valid() && cur.At? && Located(content, cur, n)
      modifies this
      ensures n < |old(Order())| && Valid()
      ensures Order() == old(Order())[..n] + old(Order())[n + 1..]
      ensures model == old(model) - {old(Order())[n]} && nb == old(nb) - 1
      ensures Located(content, next, n)
    {
      hide Valid, Located, Start, Order;
      ghost var i := RankInBucket(content, cur, n);
      var last := RemoveEntry(cur, i, n);
      next := AfterRemoved(cur, last, i, n);
    }

    /** The pair under the position goes; `last` says that its bucket has none after it. */
    method RemoveEntry(cur: Cursor, ghost i: nat, ghost n: nat) returns (last: bool)
      requires Valid() && cur.At? && Located(content, cur, n) && n == Start(content, cur.bucket) + i
      modifies this
      ensures n < |old(Order())| && Valid()
      ensures Order() == old(Order())[..n] + old(Order())[n + 1..]
      ensures model == old(model) - {old(Order())[n]} && nb == old(nb) - 1
      ensures cur.bucket < |content| && n == Start(content, cur.bucket) + i && i <= |content[cur.bucket]|
      ensures last <==> i == |content[cur.bucket]|
      ensures !last ==> cur.offset == Offset(content[cur.bucket], i)
    {
      hide HoldsAll, Holds, And, Flat, Maps, InPlace, Lists, MaskFor, Loaded, Keys;
      var b := cur.bucket;
      ghost var was := content;
      CountLive();
      LocatedEntry(content, cur, n);
      HeldAt(buckets, content, b);
      var block;
      block, last := ArrayBucket.EraseAt(buckets[b], cur.offset, content[b], i);
      ghost var es := was[b][..i] + was[b][i + 1..];
      HoldsAllUpdate(buckets, was, b, block, es);
      InPlaceUpdate(was, hash, mask, b, es);
      FlatRemoved(was, b, i, n, was[b := es]);
      KeysRemoved(Flat(was), Flat(was[b := es]), n);
      ghost var e := Flat(was)[n];
      ListsRemove(Flat(was), all, n);
      ListsMember(Flat(was), all, n);
      MapsRemove(all, values, model, e);
      assert was[b := es][..b] == was[..b];
      buckets, nb := buckets[b := block], nb - 1;
      content, all, model := was[b := es], all - {e}, model - {e.key};
    }

    /** The position after a removed one. */
    method AfterRemoved(cur: Cursor, last: bool, ghost i: nat, ghost n: nat) returns (next: Cursor)
      requires Valid() && cur.At? && cur.bucket < |content| && n == Start(content, cur.bucket) + i
      requires last <==> i == |content[cur.bucket]|
      requires i <= |content[cur.bucket]| && (!last ==> cur.offset == Offset(content[cur.bucket], i))
      ensures Located(content, next, n)
    {
      hide HoldsAll, Holds, And, Flat, Maps, InPlace, Lists, MaskFor, Loaded, Start;
      HeldAt(buckets, content, cur.bucket);
      StartNext(content, cur.bucket);
      if !last {
        next := At(cur.bucket, cur.offset);
      } else {
        next := SkipEmpty(buckets, cur.bucket + 1, content);
      }
    }

    /** `erase(key)`. */
    method Erase(key: Key) returns (count: nat)
      requires Valid()
      modifies this
      ensures Valid() && count == (if key in old(model) then 1 else 0)
      ensures model == old(model) - {key}
    {
      hide Holds, And, Flat, Maps, Located;
      if ShouldCompact(0.6) {
        Compact();
      }
      var cur, n := Find(key);
      if cur.At? {
        var next := EraseFromBucket(cur, n);
        count := 1;
      } else {
        count := 0;
        assert model - {key} == model;
      }
    }

    /** `clear`: the buckets stay, their blocks and the values go. */
    method Clear()
      requires Valid()
      modifies this
      ensures Valid() && model == map[] && nb == 0 && |buckets| == |old(buckets)|
    {
      hide HoldsAll, InPlace, Flat, Maps, Lists, MaskFor;
      EmptyTable<V>(|buckets|, hash, mask);
      values := [];
      buckets := seq(|buckets|, _ => []);
      nb := 0;
      content := seq(|buckets|, _ => []);
      all := {};
      model := map[];
    }
  }

  lemma SameKeysInPlace(c: Content, d: Content, hash: Key -> nat, mask: nat)
    requires SameKeys(c, d) && InPlace(c, hash, mask)
    ensures InPlace(d, hash, mask)
  {
    hide And;
    forall b, i | 0 <= b < |d| && 0 <= i < |d[b]|
      ensures BucketOf(hash, mask, d[b][i]) == b
    {
      assert BucketOf(hash, mask, c[b][i]) == b;
    }
  }

  /** The new entry is where the append put it. */
  lemma OffsetNone(es: seq<Entry>)
    ensures es == [] ==> Offset(es, |es|) == 0
  {
  }

  /** One more entry at the end of its bucket. */
  lemma EntryAdded(buckets: seq<Buffer>, was: Content, hash: Key -> nat, mask: nat, all: set<Entry>,
                   b: nat, e: Entry, block: Buffer, at: nat, c: Content)
    requires HoldsAll(buckets, was) && InPlace(was, hash, mask) && Lists(Flat(was), all) && e !in all
    requires b < |was| && c == was[b := was[b] + [e]] && BucketOf(hash, mask, e) == b && Holds(block, was[b] + [e])
    requires AllStorable(was[b]) && at == Offset(was[b], |was[b]|)
    ensures HoldsAll(buckets[b := block], c) && InPlace(c, hash, mask) && Lists(Flat(c), all + {e})
    ensures exists n :: 0 <= n < |Keys(Flat(c))| && Keys(Flat(c))[n] == e.key && Located(c, At(b, at), n)
  {
    hide HoldsAll, Holds, Flat, InPlace, Lists, BucketOf, Keys, Located, Offset;
    HoldsAllUpdate(buckets, was, b, block, was[b] + [e]);
    InPlaceUpdate(was, hash, mask, b, was[b] + [e]);
    FlatAdded(was, b, e, c);
    ListsAdd(Flat(was), Flat(c), all, e);
    AppendedAt(was, b, e, c, block, at);
  }

  lemma AppendedAt(was: Content, b: nat, e: Entry, c: Content, block: Buffer, at: nat)
    requires b < |was| && c == was[b := was[b] + [e]] && Holds(block, c[b]) && Start(c, b) == Start(was, b)
    requires AllStorable(was[b]) && at == Offset(was[b], |was[b]|)
    ensures exists n :: 0 <= n < |Keys(Flat(c))| && Keys(Flat(c))[n] == e.key && Located(c, At(b, at), n)
  {
    hide Holds, Flat;
    EmptyIff(block, c[b]);
    var n := Start(c, b) + |was[b]|;
    assert c[b][..|was[b]|] == was[b][..|was[b]|];
    assert Located(c, At(b, at), n);
    LocatedEntry(c, At(b, at), n);
    assert Keys(Flat(c))[n] == e.key;
  }
}

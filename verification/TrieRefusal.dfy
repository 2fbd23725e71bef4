/**
 When an insertion of a key that is not too long is refused with a length error:
 its leaf has used up all value indices, or a burst on the way would need a table
 with too many buckets.
 */
module TrieRefusal {
  import opened Options
  import opened ArrayBucket
  import opened GrowthPolicy
  import opened ArrayHash
  import opened TrieShape
  import opened TrieNodes

  /** The keys that start with a character. */
  ghost function KeysWith<V>(vals: map<Key, V>, c: byte): set<Key> {
    set k | k in vals && k != [] && k[0] == c
  }

  /** A table for this many keys would have too many buckets. */
  predicate TooBig(count: nat, maxLoad: real)
    requires maxLoad > 0.0
  {
    (count + DEFAULT_INIT_BUCKETS / 2) as real / maxLoad > MAX_BUCKETS as real
  }

  /** A burst of a leaf with these keys needs a table that is too big. */
  ghost predicate Overflows<V>(vals: map<Key, V>, maxLoad: real)
    requires maxLoad > 0.0
  {
    exists k :: k in vals && k != [] && TooBig(|KeysWith(vals, k[0])|, maxLoad)
  }

  /** What the child for a character gets in a burst. */
  ghost function ChildVals<V>(vals: map<Key, V>, c: byte): map<Key, V> {
    map r | r in (set k | k in KeysWith(vals, c) :: k[1..]) && [c] + r in vals :: vals[[c] + r]
  }

  /** Inserting `rest` into a leaf with these keys is refused, there or after bursting it. */
  ghost predicate RefusedBy<V>(vals: map<Key, V>, rest: Key, burst: nat, maxLoad: real)
    requires maxLoad > 0.0
    decreases |rest|, 1
  {
    if |vals| < burst then rest !in vals && |vals| == MAX_VALUES
    else Overflows(vals, maxLoad) || RefusedBelow(vals, rest, burst, maxLoad)
  }

  /** After a burst of this leaf the rest of the key is refused by the child for its first character. */
  ghost predicate RefusedBelow<V>(vals: map<Key, V>, rest: Key, burst: nat, maxLoad: real)
    requires maxLoad > 0.0
    decreases |rest|, 0
  {
    rest != [] && RefusedBy(ChildVals(vals, rest[0]), rest[1..], burst, maxLoad)
  }

  /** The leaf that the key runs into. */
  predicate LeafFor<V>(ns: Shapes<V>, path: Paths, key: Key, id: Id) {
    id in ns && id in path && ns[id].Leaf? && path[id] <= key
  }

  ghost predicate RefusedAt<V>(ns: Shapes<V>, path: Paths, key: Key, burst: nat, maxLoad: real, id: Id)
    requires maxLoad > 0.0
  {
    LeafFor(ns, path, key, id) && RefusedBy(ns[id].vals, key[|path[id]|..], burst, maxLoad)
  }

  /** Inserting the key is refused. */
  ghost predicate Refusal<V>(ns: Shapes<V>, path: Paths, key: Key, burst: nat, maxLoad: real)
    requires maxLoad > 0.0
  {
    exists id :: RefusedAt(ns, path, key, burst, maxLoad, id)
  }

  // ---------------------------------------------------------------------------
  // The leaf a key runs into
  // ---------------------------------------------------------------------------

  lemma OneLeaf<V>(ns: Shapes<V>, path: Paths, root: Option<Id>, key: Key, a: Id, b: Id)
    requires Linked(ns, path, root) && LeafFor(ns, path, key, a) && LeafFor(ns, path, key, b)
    ensures a == b
  {
    hide Linked;
    if |path[a]| <= |path[b]| {
      ShorterLeaf(ns, path, root, key, a, b);
    } else {
      ShorterLeaf(ns, path, root, key, b, a);
    }
  }

  lemma ShorterLeaf<V>(ns: Shapes<V>, path: Paths, root: Option<Id>, key: Key, a: Id, b: Id)
    requires Linked(ns, path, root) && LeafFor(ns, path, key, a)
    requires b in ns && b in path && path[b] <= key && |path[a]| <= |path[b]|
    ensures a == b
  {
    hide Linked;
    var x := Ancestor(ns, path, root, b, |path[a]|);
    assert path[b][..|path[a]|] == key[..|path[a]|] == path[a];
    PathUnique(ns, path, root, x, a);
    if |path[a]| == |path[b]| {
      assert path[b][..|path[a]|] == path[b];
      PathUnique(ns, path, root, b, a);
    }
  }

  /** No leaf is on the way of a key that ends at an inner node, or that needs a child it does not have. */
  lemma NoLeafFor<V>(ns: Shapes<V>, path: Paths, root: Option<Id>, cur: Id, key: Key, l: Id)
    requires Linked(ns, path, root) && cur in ns && cur in path && path[cur] <= key && ns[cur].Branch?
    requires |path[cur]| < |key| ==> key[|path[cur]|] !in ns[cur].children
    ensures !LeafFor(ns, path, key, l)
  {
    hide Linked;
    if LeafFor(ns, path, key, l) {
      var n := |path[cur]|;
      if |path[l]| <= n {
        ShorterLeaf(ns, path, root, key, l, cur);
      } else {
        var a := Ancestor(ns, path, root, l, n);
        assert path[l][..n] == key[..n] == path[cur];
        PathUnique(ns, path, root, a, cur);
      }
    }
  }

  lemma RefusalAtLeaf<V>(ns: Shapes<V>, path: Paths, root: Option<Id>, key: Key, burst: nat, maxLoad: real, id: Id)
    requires Linked(ns, path, root) && LeafFor(ns, path, key, id) && maxLoad > 0.0
    ensures Refusal(ns, path, key, burst, maxLoad) <==> RefusedBy(ns[id].vals, key[|path[id]|..], burst, maxLoad)
  {
    hide Linked, RefusedBy;
    if Refusal(ns, path, key, burst, maxLoad) {
      var x :| RefusedAt(ns, path, key, burst, maxLoad, x);
      OneLeaf(ns, path, root, key, x, id);
    }
    if RefusedBy(ns[id].vals, key[|path[id]|..], burst, maxLoad) {
      assert RefusedAt(ns, path, key, burst, maxLoad, id);
    }
  }

  lemma NoRefusalAt<V>(ns: Shapes<V>, path: Paths, root: Option<Id>, cur: Id, key: Key, burst: nat, maxLoad: real)
    requires Linked(ns, path, root) && cur in ns && cur in path && path[cur] <= key && ns[cur].Branch? && maxLoad > 0.0
    requires |path[cur]| < |key| ==> key[|path[cur]|] !in ns[cur].children
    ensures !Refusal(ns, path, key, burst, maxLoad)
  {
    hide Linked, RefusedBy, LeafFor;
    forall l
      ensures !RefusedAt(ns, path, key, burst, maxLoad, l)
    {
      NoLeafFor(ns, path, root, cur, key, l);
    }
  }

  // ---------------------------------------------------------------------------
  // Bursts
  // ---------------------------------------------------------------------------

  lemma ChildValsIs<V>(vals: map<Key, V>, value: Option<V>, leaves: map<byte, map<Key, V>>, c: byte)
    requires Split(vals, value, leaves)
    ensures ValsAt(leaves, c) == ChildVals(vals, c)
  {
    var child := ChildVals(vals, c);
    forall r | r in child
      ensures r in ValsAt(leaves, c) && ValsAt(leaves, c)[r] == child[r]
    {
      assert ([c] + r)[1..] == r;
    }
    forall r | r in ValsAt(leaves, c)
      ensures r in child
    {
      var k := [c] + r;
      assert k in vals && k[1..] == r;
      assert k in KeysWith(vals, c);
    }
  }

  /** After a burst of its leaf the key is refused exactly when the child for its next character refuses the rest. */
  lemma BurstRefusal<V>(ns: Shapes<V>, path: Paths, root: Option<Id>, m: map<Key, V>, l: Id, b: Id, value: Option<V>,
                        kids: map<byte, Shape<V>>, leaves: map<byte, map<Key, V>>, key: Key, burst: nat, maxLoad: real)
    requires Tree(ns, path, root, m) && LeafFor(ns, path, key, l) && burst > 0 && maxLoad > 0.0
    requires (forall x :: x in ns ==> x < b) && KidShapes(kids, b, leaves) && Split(ns[l].vals, value, leaves)
    ensures Refusal(BurstShapes(ns, l, b, value, kids), BurstPaths(path, l, b, kids), key, burst, maxLoad) <==>
            RefusedBelow(ns[l].vals, key[|path[l]|..], burst, maxLoad)
  {
    hide Linked, Represents, Split, Listed, BurstShapes, BurstPaths, RefusedBy, ChildVals, Refusal, KidId;
    var ms, path' := BurstShapes(ns, l, b, value, kids), BurstPaths(path, l, b, kids);
    BurstBuilt(ns, path, l, b, value, kids, leaves);
    KidVals(kids, b, leaves);
    BurstRepresents(ns, path, root, m, ms, path', l, b, value, kids);
    var rest := key[|path[l]|..];
    if rest == [] {
      NoRefusalAt(ms, path', BurstRoot(ns, root, l, b), b, key, burst, maxLoad);
    } else {
      ChildValsIs(ns[l].vals, value, leaves, rest[0]);
      if rest[0] in kids {
        assert path[l] + [rest[0]] == key[..|path[l]| + 1];
        assert rest[1..] == key[|path[l]| + 1..];
        RefusalAtLeaf(ms, path', BurstRoot(ns, root, l, b), key, burst, maxLoad, KidId(b, rest[0]));
      } else {
        NothingRefused<V>(rest[1..], burst, maxLoad);
        NoRefusalAt(ms, path', BurstRoot(ns, root, l, b), b, key, burst, maxLoad);
      }
    }
  }

  lemma NothingRefused<V>(rest: Key, burst: nat, maxLoad: real)
    requires burst > 0 && maxLoad > 0.0
    ensures !RefusedBy<V>(map[], rest, burst, maxLoad)
  {
  }

  /** How often the keys of a list start with the character, as a set. */
  ghost function StartSet(order: seq<Key>, c: int): set<Key> {
    set k | k in order && StartsWith(k, c)
  }

  predicate StartsWith(k: Key, c: int) {
    k != [] && k[0] as int == c
  }

  lemma StartSetNext(init: seq<Key>, k: Key, c: int)
    ensures StartSet(init + [k], c) == if StartsWith(k, c) then StartSet(init, c) + {k} else StartSet(init, c)
  {
  }

  lemma StartingNext(init: seq<Key>, k: Key, c: int)
    ensures Starting(init + [k], c) == Starting(init, c) + One(StartsWith(k, c))
  {
    assert (init + [k])[..|init|] == init;
  }

  lemma {:induction false} StartingIs(order: seq<Key>, n: nat, c: int)
    requires n <= |order| && forall i, j :: 0 <= i < j < |order| ==> order[i] != order[j]
    ensures Starting(order[..n], c) == |StartSet(order[..n], c)|
  {
    hide StartsWith;
    if n == 0 {
      assert order[..n] == [];
    } else {
      StartingIs(order, n - 1, c);
      var init, k := order[..n - 1], order[n - 1];
      assert order[..n] == init + [k];
      StartSetNext(init, k, c);
      StartingNext(init, k, c);
      assert k !in StartSet(init, c);
    }
  }

  lemma StartingCount<V>(order: seq<Key>, vals: map<Key, V>, c: byte)
    requires Listed(order, vals)
    ensures Starting(order, c as int) == |KeysWith(vals, c)|
  {
    StartingIs(order, |order|, c as int);
    assert order[..|order|] == order;
    assert StartSet(order, c as int) == KeysWith(vals, c);
  }

  lemma CeilingAbove(x: real, m: nat)
    requires x >= 0.0
    ensures Ceiling(x) > m <==> x > m as real
  {
  }

  /** None of these children needs a table that is too big. */
  ghost predicate Roomy(chars: set<byte>, count: seq<nat>, maxLoad: real)
    requires maxLoad > 0.0 && |count| == 0x100
  {
    forall c :: c in chars ==> !TooBig(count[c as int], maxLoad)
  }

  lemma RoomyNone(count: seq<nat>, maxLoad: real)
    requires maxLoad > 0.0 && |count| == 0x100
    ensures Roomy({}, count, maxLoad)
  {
  }

  lemma OverflowsAt<V>(order: seq<Key>, vals: map<Key, V>, count: seq<nat>, maxLoad: real, k: Key)
    requires maxLoad > 0.0 && Listed(order, vals) && k in vals && k != []
    requires |count| == 0x100 && Tallied(count, order)
    requires TooBig(count[k[0] as int], maxLoad)
    ensures Overflows(vals, maxLoad)
  {
    hide TooBig, KeysWith;
    StartingCount(order, vals, k[0]);
  }

  lemma RoomForAll<V>(order: seq<Key>, vals: map<Key, V>, value: Option<V>, leaves: map<byte, map<Key, V>>, count: seq<nat>, maxLoad: real)
    requires maxLoad > 0.0 && Listed(order, vals) && Split(vals, value, leaves)
    requires |count| == 0x100 && Tallied(count, order)
    requires Roomy(leaves.Keys, count, maxLoad)
    ensures !Overflows(vals, maxLoad)
  {
    hide TooBig, KeysWith;
    forall k | k in vals && k != []
      ensures !TooBig(|KeysWith(vals, k[0])|, maxLoad)
    {
      StartingCount(order, vals, k[0]);
      assert k[0] in leaves.Keys;
    }
  }

  lemma KidsKeys<V>(kids: map<byte, Table<V>>, leaves: map<byte, map<Key, V>>, hash: Key -> nat)
    requires Kids(kids, leaves, hash)
    ensures kids.Keys == leaves.Keys
  {
    hide Table<V>.Valid;
  }

  lemma EmptyRefusal<V>(ns: Shapes<V>, path: Paths, key: Key, burst: nat, maxLoad: real)
    requires maxLoad > 0.0 && forall id :: id !in ns
    ensures !Refusal(ns, path, key, burst, maxLoad)
  {
    hide RefusedBy;
  }

  // ---------------------------------------------------------------------------
  // When nothing is refused
  // ---------------------------------------------------------------------------

  lemma SubsetCount<T>(a: set<T>, b: set<T>)
    requires a <= b
    ensures |a| <= |b|
  {
    assert b == a + (b - a);
  }

  lemma NoOverflow<V>(vals: map<Key, V>, maxLoad: real)
    requires |vals| <= MAX_VALUES && maxLoad >= 0.1
    ensures !Overflows(vals, maxLoad)
  {
    forall k | k in vals && k != []
      ensures !TooBig(|KeysWith(vals, k[0])|, maxLoad)
    {
      SubsetCount(KeysWith(vals, k[0]), vals.Keys);
      SmallEnough(|KeysWith(vals, k[0])|, maxLoad);
    }
  }

  lemma ChildCount<V>(vals: map<Key, V>, c: byte)
    ensures |ChildVals(vals, c)| <= |vals|
  {
    var child := ChildVals(vals, c);
    forall r | r in child.Keys
      ensures [c] + r in vals.Keys
    {
    }
    PrefixedSize(c, child.Keys, vals.Keys);
  }

  /** With a threshold of at most 65535 and a load factor of at least 0.1 no leaf refuses a key. */
  lemma {:induction false} NeverRefused<V>(vals: map<Key, V>, rest: Key, burst: nat, maxLoad: real)
    requires |vals| <= MAX_VALUES && burst <= MAX_VALUES && maxLoad >= 0.1
    ensures !RefusedBy(vals, rest, burst, maxLoad)
    decreases |rest|
  {
    if |vals| >= burst {
      NoOverflow(vals, maxLoad);
      if rest != [] {
        ChildCount(vals, rest[0]);
        NeverRefused(ChildVals(vals, rest[0]), rest[1..], burst, maxLoad);
      }
    }
  }
}

/**
 A HAT-trie that refuses a short key: with a burst threshold above 65535 a hash
 node can use up all the value indices of its table.
 */
module TrieLimit {
  import opened Options
  import opened ArrayBucket
  import opened ArrayHash
  import opened TrieShape
  import opened TrieNodes
  import opened TrieRefusal
  import opened HTrie
  import opened TrieWalk
  import opened TrieErase

  /** The two-character key of a number. */
  function KeyFor(i: nat): Key
    requires i < 0x1_0000
  {
    [(i / 0x100) as byte, (i % 0x100) as byte]
  }

  lemma KeysDiffer(i: nat, j: nat)
    requires i < 0x1_0000 && j < 0x1_0000 && i != j
    ensures KeyFor(i) != KeyFor(j)
  {
    var a, b := KeyFor(i), KeyFor(j);
    assert a[0] as int * 0x100 + a[1] as int == i;
    assert b[0] as int * 0x100 + b[1] as int == j;
  }

  /** The keys from number `i` on are not stored. */
  ghost predicate Unused(m: map<Key, nat>, i: nat) {
    forall j: nat :: i <= j < 0x1_0000 ==> KeyFor(j) !in m
  }

  lemma UnusedNext(m: map<Key, nat>, i: nat)
    requires i < 0x1_0000 && Unused(m, i)
    ensures Unused(m[KeyFor(i) := i], i + 1)
  {
    hide KeyFor;
    forall j: nat | i < j < 0x1_0000
      ensures KeyFor(j) !in m[KeyFor(i) := i]
    {
      KeysDiffer(i, j);
    }
  }

  /** A trie that is a single hash node stores what its table stores. */
  lemma RootTable<V>(t: Trie<V>, id: Id)
    requires t.Valid() && t.root == Some(id) && id in t.nodes && t.nodes[id].HashNode?
    ensures id in t.path && t.path[id] == [] && t.nodes[id].table.model == t.contents && t.nodes[id].table.nb == |t.contents|
  {
    hide Linked, Represents, Stocked, Separate, Mirrored, Table<V>.Valid, Table<V>.Order, Listed;
    t.RootStep();
    MirroredLeaf(t.nodes[id], t.shapes[id], t.hash);
    LeafListed(t.nodes[id].table);
    LeafContents(t.shapes, t.path, t.root, t.contents, id);
    forall k: Key
      ensures k[0..] == k
    {
    }
    assert t.nodes[id].table.model == t.contents;
  }

  /** The trie is one hash node, whose keys are the first `i` numbered ones. */
  ghost predicate OneLeaf(t: Trie<nat>, id: Id, i: nat)
    reads t
  {
    && t.root == Some(id) && id in t.nodes && t.nodes[id].HashNode?
    && t.burst == 0x1_0000 && |t.contents| == i && Unused(t.contents, i)
  }

  method FirstInLeaf(t: Trie<nat>) returns (id: Id)
    requires t.Valid() && t.contents == map[] && t.burst == 0x1_0000
    modifies t
    ensures t.Valid() && fresh(Tables(t.nodes) - old(Tables(t.nodes))) && OneLeaf(t, id, 1)
  {
    hide Trie<nat>.Valid, KeyFor, Unused, Tables;
    RootIff(t);
    KeyForSize(0);
    var r := t.PlantRoot(KeyFor(0), 0);
    id := t.root.value;
    NoneUsed();
    UnusedNext(map[], 0);
    assert t.contents == map[][KeyFor(0) := 0];
  }

  lemma NoneUsed()
    ensures Unused(map[], 0)
  {
    hide KeyFor;
  }

  method NextInLeaf(t: Trie<nat>, id: Id, i: nat)
    requires t.Valid() && OneLeaf(t, id, i) && i < MAX_VALUES
    modifies t, Tables(t.nodes)
    ensures t.Valid() && OneLeaf(t, id, i + 1) && t.nodes == old(t.nodes)
  {
    hide Tree, Stocked, Separate, Mirrored, Trie<nat>.PointsTo, KeyFor, Unused, Table<nat>.Valid;
    RootTable(t, id);
    KeyForSize(i);
    UnusedNext(t.contents, i);
    assert KeyFor(i) !in t.contents by { FirstUnused(t.contents, i); }
    assert KeyFor(i) == t.path[id] + KeyFor(i);
    OwnTable(t, id);
    var r := t.PutInHashNode(id, KeyFor(i), i, KeyFor(i));
  }

  lemma FirstUnused(m: map<Key, nat>, i: nat)
    requires i < 0x1_0000 && Unused(m, i)
    ensures KeyFor(i) !in m
  {
    hide KeyFor;
  }

  /** A single hash node with 65535 keys. */
  method FillLeaf(hash: Key -> nat, maxLoad: real) returns (t: Trie<nat>, id: Id)
    requires maxLoad > 0.0
    ensures fresh(t) && fresh(Tables(t.nodes)) && t.Valid() && OneLeaf(t, id, MAX_VALUES)
  {
    hide Trie<nat>.Valid, OneLeaf;
    t := new Trie<nat>(hash, maxLoad, 0x1_0000);
    id := FirstInLeaf(t);
    var i := 1;
    while i < MAX_VALUES
      invariant 1 <= i <= MAX_VALUES && t.Valid() && fresh(Tables(t.nodes)) && OneLeaf(t, id, i)
    {
      NextInLeaf(t, id, i);
      i := i + 1;
    }
  }

  lemma KeyForSize(i: nat)
    requires i < 0x1_0000
    ensures |KeyFor(i)| == 2
  {
  }

  /** With a threshold above 65535 a key of two characters can meet the length error. */
  method RefusedExample(hash: Key -> nat, maxLoad: real) returns (t: Trie<nat>, r: Inserted)
    requires maxLoad > 0.0
    ensures fresh(t) && t.Valid() && |t.contents| == MAX_VALUES && |KeyFor(MAX_VALUES)| == 2
    ensures r.LengthError? && KeyFor(MAX_VALUES) !in t.contents
  {
    hide Tree, Stocked, Separate, Mirrored, Trie<nat>.PointsTo, KeyFor, Refusal, Unused;
    KeyForSize(MAX_VALUES);
    var id;
    t, id := FillLeaf(hash, maxLoad);
    FirstUnused(t.contents, MAX_VALUES);
    RootTable(t, id);
    t.LeafRefusal(id, KeyFor(MAX_VALUES));
    assert KeyFor(MAX_VALUES)[0..] == KeyFor(MAX_VALUES);
    r := t.Insert(KeyFor(MAX_VALUES), MAX_VALUES);
  }
}

/**
 The nodes of a HAT-trie: trie nodes, and hash nodes whose keys are in an
 array-hash table; and what inserting and bursting do to them.
 */
module TrieNodes {
  import opened Options
  import opened ArrayBucket
  import opened GrowthPolicy
  import opened TableCursor
  import opened ArrayHash
  import opened TrieShape

  const MIN_BURST_THRESHOLD := 4
  const DEFAULT_INIT_BUCKETS := 32

  datatype Node<V> =
    | TrieNode(parent: Option<Id>, ch: byte, value: Option<V>, children: map<byte, Id>)
    | HashNode(parent: Option<Id>, ch: byte, table: Table<V>)

  ghost predicate Tree<V>(ns: Shapes<V>, path: Paths, root: Option<Id>, m: map<Key, V>) {
    Linked(ns, path, root) && Represents(ns, path, m)
  }

  /** A leaf decides about the keys that continue its path. */
  lemma InLeaf<V>(ns: Shapes<V>, path: Paths, root: Option<Id>, m: map<Key, V>, id: Id, rest: Key, key: Key)
    requires Tree(ns, path, root, m) && id in ns && id in path && ns[id].Leaf? && key == path[id] + rest
    ensures key in m <==> rest in ns[id].vals
    ensures key in m ==> m[key] == ns[id].vals[rest]
  {
    hide Linked, Represents;
    LeafContents(ns, path, root, m, id);
    assert key[|path[id]|..] == rest;
  }

  /** A leaf takes one more key, or the same keys in another order. */
  lemma PutKeeps<V>(ns: Shapes<V>, path: Paths, root: Option<Id>, m: map<Key, V>, burst: nat,
                    id: Id, t: Shape<V>, rest: Key, v: V, m': map<Key, V>)
    requires Tree(ns, path, root, m) && Stocked(ns, burst) && id in ns && id in path
    requires ns[id].Leaf? && t.Leaf? && SameLinks(ns[id], t) && Listed(t.keys, t.vals) && 0 < |t.keys| <= burst
    requires (t.vals == ns[id].vals && m' == m) || (t.vals == ns[id].vals[rest := v] && m' == m[path[id] + rest := v])
    ensures Tree(ns[id := t], path, root, m') && Stocked(ns[id := t], burst)
  {
    hide Linked, Represents, Stocked, Rewritten, Listed;
    LeafContents(ns, path, root, m, id);
    RewrittenPut(m, path[id], ns[id].vals, rest, v);
    LeafChange(ns, path, root, m, id, t, m');
    StockedChange(ns, burst, id, t);
  }

  /** A key that continues the path of an inner node without the child it needs is not stored. */
  lemma NoChild<V>(ns: Shapes<V>, path: Paths, root: Option<Id>, m: map<Key, V>, cur: Id, k: Key)
    requires Tree(ns, path, root, m) && cur in ns && cur in path && path[cur] < k && ns[cur].Branch?
    requires k[|path[cur]|] !in ns[cur].children
    ensures k !in m
  {
    hide Linked, Represents;
    if k in m {
      var o := OwnerOf(ns, path, m, k);
      OwnerBelow(ns, path, root, cur, k, o);
    }
  }

  lemma HangKeeps<V>(ns: Shapes<V>, path: Paths, root: Option<Id>, m: map<Key, V>, burst: nat,
                     p: Id, id: Id, leaf: Shape<V>, rest: Key, v: V, key: Key)
    requires Tree(ns, path, root, m) && Stocked(ns, burst) && p in ns && p in path && ns[p].Branch? && id !in ns
    requires leaf.Leaf? && leaf.parent == Some(p) && leaf.ch !in ns[p].children && burst > 0
    requires leaf.keys == [rest] && leaf.vals == map[rest := v] && Listed(leaf.keys, leaf.vals)
    requires key == path[p] + [leaf.ch] + rest
    ensures key !in m && Tree(ns[p := WithChild(ns[p], leaf.ch, id)][id := leaf], path[id := path[p] + [leaf.ch]], root, m[key := v])
    ensures Stocked(ns[p := WithChild(ns[p], leaf.ch, id)][id := leaf], burst)
  {
    hide Linked, Represents, Stocked, Listed;
    var front := path[p] + [leaf.ch];
    forall k: Key | front <= k
      ensures k !in m
    {
      assert k[|path[p]|] == leaf.ch && path[p] < k;
      NoChild(ns, path, root, m, p, k);
    }
    assert key[|front|..] == rest;
    assert forall k: Key :: front <= k && k[|front|..] == rest ==> k == key;
    LeafHung(ns, path, root, m, ns[p := WithChild(ns[p], leaf.ch, id)][id := leaf], path[id := front], p, id, leaf, m[key := v]);
    StockedAt(ns, burst, p);
    StockedChange(ns, burst, p, WithChild(ns[p], leaf.ch, id));
    StockedChange(ns[p := WithChild(ns[p], leaf.ch, id)], burst, id, leaf);
  }

  lemma SetValueKeeps<V>(ns: Shapes<V>, path: Paths, root: Option<Id>, m: map<Key, V>, burst: nat, cur: Id, v: V)
    requires Tree(ns, path, root, m) && Stocked(ns, burst) && cur in ns && cur in path && ns[cur].Branch?
    ensures Tree(ns[cur := ns[cur].(value := Some(v))], path, root, m[path[cur] := v])
    ensures Stocked(ns[cur := ns[cur].(value := Some(v))], burst)
  {
    hide Linked, Represents, Stocked, Listed;
    ValueChange(ns, path, root, m, cur, Some(v), m[path[cur] := v]);
    StockedChange(ns, burst, cur, ns[cur].(value := Some(v)));
  }

  lemma NoNodes<V>(ns: Shapes<V>, path: Paths, root: Option<Id>, m: map<Key, V>)
    requires Tree(ns, path, root, m) && root.None?
    ensures ns == map[] && m == map[]
  {
    hide Up, Down;
    forall k | k in m
      ensures false
    {
      var o := OwnerOf(ns, path, m, k);
    }
  }

  lemma PlantKeeps<V>(id: Id, leaf: Shape<V>, burst: nat)
    requires leaf.Leaf? && leaf.parent.None? && |leaf.keys| == 1 && Listed(leaf.keys, leaf.vals) && burst > 0
    ensures Tree(map[id := leaf], map[id := []], Some(id), leaf.vals) && Stocked(map[id := leaf], burst)
  {
    hide Listed;
    var ns, path: Paths := map[id := leaf], map[id := []];
    forall k | k in leaf.vals
      ensures Owned(ns, path, k)
    {
      assert k[0..] == k;
      assert Owns(ns, path, id, k);
    }
  }

  lemma LeafListed<V>(t: Table<V>)
    requires t.Valid()
    ensures Listed(t.Order(), t.model) && |t.Order()| == |t.model| == t.nb <= MAX_VALUES
  {
    t.OrderLists();
  }

  lemma StockedAt<V>(ns: Shapes<V>, burst: nat, id: Id)
    requires Stocked(ns, burst) && id in ns
    ensures !Empty(ns[id])
    ensures ns[id].Leaf? ==> Listed(ns[id].keys, ns[id].vals) && 0 < |ns[id].keys| <= burst
  {
    hide Listed;
  }

  lemma StockedChange<V>(ns: Shapes<V>, burst: nat, id: Id, t: Shape<V>)
    requires Stocked(ns, burst) && !Empty(t)
    requires t.Leaf? ==> Listed(t.keys, t.vals) && |t.keys| <= burst
    ensures Stocked(ns[id := t], burst)
  {
    hide Empty, Listed;
  }

  /** The tables of all hash nodes. */
  ghost function Tables<V>(nodes: map<Id, Node<V>>): set<Table<V>> {
    set id | id in nodes && nodes[id].HashNode? :: nodes[id].table
  }

  /** What a node holds. */
  ghost predicate Mirrored<V>(node: Node<V>, shape: Shape<V>, hash: Key -> nat)
    reads if node.HashNode? then {node.table} else {}
  {
    match node
    case TrieNode(p, c, v, cs) => shape == Branch(p, c, v, cs)
    case HashNode(p, c, t) => t.Valid() && t.hash == hash && shape == Leaf(p, c, t.Order(), t.model)
  }

  ghost predicate Mirrors<V>(nodes: map<Id, Node<V>>, shapes: Shapes<V>, hash: Key -> nat)
    reads Tables(nodes)
  {
    && nodes.Keys == shapes.Keys
    && forall id :: id in nodes ==> Mirrored(nodes[id], shapes[id], hash)
  }

  /** The shape of a hash node as its table stands. */
  ghost function LeafShape<V>(node: Node<V>): Shape<V>
    requires node.HashNode?
    reads node.table
  {
    Leaf(node.parent, node.ch, node.table.Order(), node.table.model)
  }

  lemma MirroredLeaf<V>(node: Node<V>, shape: Shape<V>, hash: Key -> nat)
    requires node.HashNode?
    ensures Mirrored(node, shape, hash) <==> node.table.Valid() && node.table.hash == hash && shape == LeafShape(node)
  {
  }

  lemma MirroredBranch<V>(node: Node<V>, shape: Shape<V>, hash: Key -> nat)
    requires node.TrieNode?
    ensures Mirrored(node, shape, hash) <==> shape == Branch(node.parent, node.ch, node.value, node.children)
  {
  }

  lemma MirrorsAt<V>(nodes: map<Id, Node<V>>, shapes: Shapes<V>, hash: Key -> nat, x: Id)
    requires Mirrors(nodes, shapes, hash)
    ensures x in nodes <==> x in shapes
    ensures x in nodes ==> Mirrored(nodes[x], shapes[x], hash)
  {
    hide Mirrored;
  }

  lemma MirrorsPut<V>(nodes: map<Id, Node<V>>, shapes: Shapes<V>, hash: Key -> nat, x: Id, node: Node<V>, shape: Shape<V>)
    requires Mirrors(nodes, shapes, hash) && Mirrored(node, shape, hash)
    ensures Mirrors(nodes[x := node], shapes[x := shape], hash)
  {
    hide Mirrored;
  }

  lemma MirrorsDrop<V>(nodes: map<Id, Node<V>>, shapes: Shapes<V>, hash: Key -> nat, x: Id)
    requires Mirrors(nodes, shapes, hash)
    ensures Mirrors(nodes - {x}, shapes - {x}, hash)
  {
    hide Mirrored;
    assert (nodes - {x}).Keys == nodes.Keys - {x};
    assert (shapes - {x}).Keys == shapes.Keys - {x};
  }

  /** The cursor stands on the key of rank `n` in the table. */
  ghost predicate LeafAt<V>(t: Table<V>, cur: Cursor, n: nat)
    reads t
  {
    cur.At? && Located(t.content, cur, n)
  }

  /** What `emplace` does to a leaf. */
  ghost predicate EmplacedInto<V>(was: Shape<V>, now: Shape<V>, rest: Key, v: V, e: Emplaced)
    requires was.Leaf? && now.Leaf?
  {
    && SameLinks(was, now) && Listed(now.keys, now.vals) && |now.keys| == |now.vals|
    && (e.LengthError? <==> rest !in was.vals && (|rest| > MAX_KEY_SIZE || |was.vals| == MAX_VALUES))
    && (e.Placed? ==> e.added == (rest !in was.vals))
    && now.vals == if e.Placed? && e.added then was.vals[rest := v] else was.vals
  }

  /** No two hash nodes share a table. */
  ghost predicate Separate<V>(nodes: map<Id, Node<V>>, next: Id) {
    && (forall id :: id in nodes ==> id < next)
    && (forall i, j :: i in nodes && j in nodes && i != j && nodes[i].HashNode? && nodes[j].HashNode? ==>
          nodes[i].table != nodes[j].table)
  }

  /** A change of an inner node moves no table. */
  lemma SeparateTrie<V>(nodes: map<Id, Node<V>>, next: Id, id: Id, node: Node<V>)
    requires Separate(nodes, next) && id in nodes && nodes[id].TrieNode? && node.TrieNode?
    ensures Separate(nodes[id := node], next) && Tables(nodes[id := node]) == Tables(nodes)
  {
    var more := nodes[id := node];
    forall t | t in Tables(nodes)
      ensures t in Tables(more)
    {
      var x :| x in nodes && nodes[x].HashNode? && nodes[x].table == t;
      assert x in more && more[x] == nodes[x];
    }
  }

  lemma SeparateLeaf<V>(nodes: map<Id, Node<V>>, next: Id, leaf: Node<V>)
    requires Separate(nodes, next) && leaf.HashNode? && leaf.table !in Tables(nodes)
    ensures next !in nodes && Separate(nodes[next := leaf], next + 1) && Tables(nodes[next := leaf]) <= Tables(nodes) + {leaf.table}
  {
    forall i | i in nodes && nodes[i].HashNode?
      ensures nodes[i].table != leaf.table
    {
      assert nodes[i].table in Tables(nodes);
    }
  }

  // ---------------------------------------------------------------------------
  // Burst
  // ---------------------------------------------------------------------------

  /** The smallest whole number that is not below `x`. */
  function Ceiling(x: real): (n: nat)
    requires x >= 0.0
    ensures x <= n as real < x + 1.0
  {
    -((-x).Floor)
  }

  lemma SmallEnough(count: nat, maxLoad: real)
    requires count <= MAX_VALUES && maxLoad > 0.0
    ensures maxLoad >= 0.1 ==> (count + DEFAULT_INIT_BUCKETS / 2) as real / maxLoad <= MAX_BUCKETS as real
  {
    if maxLoad >= 0.1 {
      var x := (count + DEFAULT_INIT_BUCKETS / 2) as real;
      assert x / maxLoad * maxLoad == x;
      assert x / maxLoad * 0.1 <= x;
    }
  }

  /** How many of the keys start with the character. */
  function Starting(keys: seq<Key>, c: int): (n: nat)
    ensures n <= |keys|
  {
    if keys == [] then 0
    else
      var k := keys[|keys| - 1];
      Starting(keys[..|keys| - 1], c) + if |k| > 0 && k[0] as int == c then 1 else 0
  }

  /** How many keys start with each character. */
  ghost predicate Tallied(count: seq<nat>, keys: seq<Key>) {
    |count| == 0x100 && forall c :: 0 <= c < 0x100 ==> count[c] == Starting(keys, c)
  }

  ghost function ValsAt<V>(leaves: map<byte, map<Key, V>>, c: byte): map<Key, V> {
    if c in leaves then leaves[c] else map[]
  }

  /** The tables of the new children, apart from each other. */
  ghost predicate Kids<V>(kids: map<byte, Table<V>>, leaves: map<byte, map<Key, V>>, hash: Key -> nat)
    reads kids.Values
  {
    && kids.Keys == leaves.Keys
    && (forall c :: c in kids ==> kids[c].Valid() && kids[c].hash == hash && kids[c].model == leaves[c] && |leaves[c]| > 0)
    && (forall c, d :: c in kids && d in kids && c != d ==> kids[c] != kids[d])
  }

  lemma NoKids<V>(hash: Key -> nat)
    ensures Split<V>(map[], None, map[]) && Kids<V>(map[], map[], hash)
  {
  }

  /** All the tables but one. */
  ghost predicate KidsBut<V>(kids: map<byte, Table<V>>, leaves: map<byte, map<Key, V>>, hash: Key -> nat, c: byte, t: Table<V>)
    reads set d | d in kids && d != c :: kids[d]
  {
    && kids.Keys == leaves.Keys
    && (forall d :: d in kids && d != c ==>
          kids[d] != t && kids[d].Valid() && kids[d].hash == hash && kids[d].model == leaves[d] && |leaves[d]| > 0)
    && (forall d, e :: d in kids && e in kids && d != e && d != c && e != c ==> kids[d] != kids[e])
  }

  lemma KidsWith<V>(kids: map<byte, Table<V>>, leaves: map<byte, map<Key, V>>, hash: Key -> nat, c: byte, t: Table<V>,
                    kids': map<byte, Table<V>>, leaves': map<byte, map<Key, V>>)
    requires KidsBut(kids, leaves, hash, c, t) && t.Valid() && t.hash == hash && |t.model| > 0
    requires kids' == kids[c := t] && leaves' == leaves[c := t.model]
    ensures Kids(kids', leaves', hash)
  {
    hide Table<V>.Valid;
    assert kids'.Keys == leaves'.Keys;
    forall d | d in kids'
      ensures kids'[d].Valid() && kids'[d].hash == hash && kids'[d].model == leaves'[d] && |leaves'[d]| > 0
    {
      if d != c {
        assert d in kids && kids'[d] == kids[d];
      }
    }
    forall d, e | d in kids' && e in kids' && d != e
      ensures kids'[d] != kids'[e]
    {
      if d == c {
        assert e in kids && kids'[e] == kids[e];
      } else if e == c {
        assert d in kids && kids'[d] == kids[d];
      } else {
        assert d in kids && e in kids && kids'[d] == kids[d] && kids'[e] == kids[e];
      }
    }
  }

  lemma SplitPut<V>(done: map<Key, V>, value: Option<V>, leaves: map<byte, map<Key, V>>, k: Key, v: V)
    requires Split(done, value, leaves) && k !in done
    ensures k == [] ==> Split(done[k := v], Some(v), leaves)
    ensures k != [] ==> k[1..] !in ValsAt(leaves, k[0])
    ensures k != [] ==> Split(done[k := v], value, leaves[k[0] := ValsAt(leaves, k[0])[k[1..] := v]])
  {
    if k != [] {
      assert [k[0]] + k[1..] == k;
      var more := leaves[k[0] := ValsAt(leaves, k[0])[k[1..] := v]];
      forall j | j in done[k := v] && j != []
        ensures j[0] in more && j[1..] in more[j[0]] && more[j[0]][j[1..]] == done[k := v][j]
      {
        assert [j[0]] + j[1..] == j;
      }
    }
  }

  /** No child gets more keys than there are. */
  lemma SplitCount<V>(done: map<Key, V>, value: Option<V>, leaves: map<byte, map<Key, V>>, c: byte)
    requires Split(done, value, leaves)
    ensures |ValsAt(leaves, c)| <= |done|
  {
    var rests := ValsAt(leaves, c).Keys;
    assert |rests| == |ValsAt(leaves, c)|;
    forall r | r in rests
      ensures [c] + r in done.Keys
    {
    }
    PrefixedSize(c, rests, done.Keys);
  }

  lemma {:induction false} PrefixedSize(c: byte, rests: set<Key>, keys: set<Key>)
    requires forall r :: r in rests ==> [c] + r in keys
    ensures |rests| <= |keys|
  {
    if rests != {} {
      var r :| r in rests;
      forall q | q in rests - {r}
        ensures [c] + q in keys - {[c] + r}
      {
        assert ([c] + q)[1..] == q && ([c] + r)[1..] == r;
      }
      PrefixedSize(c, rests - {r}, keys - {[c] + r});
    }
  }

  /** The map restricted to its first `n` keys. */
  ghost function Restricted<V>(m: map<Key, V>, order: seq<Key>, n: nat): map<Key, V>
    requires n <= |order|
  {
    map k | k in m && k in order[..n] :: m[k]
  }

  lemma RestrictedNext<V>(m: map<Key, V>, order: seq<Key>, n: nat)
    requires Listed(order, m) && n < |order|
    ensures order[n] in m && order[n] !in Restricted(m, order, n)
    ensures Restricted(m, order, n + 1) == Restricted(m, order, n)[order[n] := m[order[n]]]
  {
    assert order[..n + 1] == order[..n] + [order[n]];
    assert order[n] in order;
  }

  lemma RestrictedNone<V>(m: map<Key, V>, order: seq<Key>)
    ensures Restricted(m, order, 0) == map[]
  {
  }

  lemma RestrictedAll<V>(m: map<Key, V>, order: seq<Key>)
    requires Listed(order, m)
    ensures Restricted(m, order, |order|) == m
  {
    assert order[..|order|] == order;
  }

  function KidChar(b: Id, x: Id): (c: byte)
    requires b < x <= b + 0x100
    ensures KidId(b, c) == x
  {
    (x - b - 1) as byte
  }

  /** What is given by character, at the addresses of the new children. */
  function KidMap<T>(b: Id, kids: map<byte, T>): (r: map<Id, T>)
    ensures forall c :: c in kids ==> KidId(b, c) in r && r[KidId(b, c)] == kids[c]
    ensures forall x :: x in r ==> b < x <= b + 0x100 && KidChar(b, x) in kids && r[x] == kids[KidChar(b, x)]
  {
    map x | b < x <= b + 0x100 && KidChar(b, x) in kids :: kids[KidChar(b, x)]
  }

  function KeptShapes<V>(ns: Shapes<V>, l: Id, b: Id): (r: Shapes<V>)
    requires l in ns
    ensures forall x :: x in r <==> x in ns && x != l
    ensures forall x :: x in r ==> r[x] == if ns[l].parent == Some(x) then Redirected(ns[x], ns[l].ch, b) else ns[x]
  {
    map x | x in ns && x != l :: if ns[l].parent == Some(x) then Redirected(ns[x], ns[l].ch, b) else ns[x]
  }

  function BurstShapes<V>(ns: Shapes<V>, l: Id, b: Id, value: Option<V>, kids: map<byte, Shape<V>>): Shapes<V>
    requires l in ns
  {
    KeptShapes(ns, l, b)[b := Branch(ns[l].parent, ns[l].ch, value, KidIds(b, kids))] + KidMap(b, kids)
  }

  function BurstPaths<V>(path: Paths, l: Id, b: Id, kids: map<byte, Shape<V>>): Paths
    requires l in path
  {
    path[b := path[l]] + KidMap(b, map c | c in kids :: path[l] + [c])
  }

  /** A trie node that pointed to the old leaf points to the new node. */
  function RedirectedNode<V>(node: Node<V>, ch: byte, b: Id): Node<V> {
    if node.TrieNode? then node.(children := node.children[ch := b]) else node
  }

  function KeptNodes<V>(nodes: map<Id, Node<V>>, l: Id, b: Id): (r: map<Id, Node<V>>)
    requires l in nodes
    ensures forall x :: x in r <==> x in nodes && x != l
    ensures forall x :: x in r ==> r[x] == if nodes[l].parent == Some(x) then RedirectedNode(nodes[x], nodes[l].ch, b) else nodes[x]
  {
    map x | x in nodes && x != l :: if nodes[l].parent == Some(x) then RedirectedNode(nodes[x], nodes[l].ch, b) else nodes[x]
  }

  function KidNodes<V>(b: Id, kids: map<byte, Table<V>>): (r: map<byte, Node<V>>)
    ensures r.Keys == kids.Keys && forall c :: c in kids ==> r[c] == HashNode(Some(b), c, kids[c])
  {
    map c | c in kids :: HashNode(Some(b), c, kids[c])
  }

  function KidIds<T>(b: Id, kids: map<byte, T>): (r: map<byte, Id>)
    ensures r.Keys == kids.Keys && forall c :: c in kids ==> r[c] == KidId(b, c)
  {
    map c | c in kids :: KidId(b, c)
  }

  function BurstNodes<V>(nodes: map<Id, Node<V>>, l: Id, b: Id, value: Option<V>, kids: map<byte, Table<V>>): map<Id, Node<V>>
    requires l in nodes
  {
    KeptNodes(nodes, l, b)[b := TrieNode(nodes[l].parent, nodes[l].ch, value, KidIds(b, kids))] + KidMap(b, KidNodes(b, kids))
  }

  /** The nodes after a burst, one by one. */
  lemma BurstNodeAt<V>(nodes: map<Id, Node<V>>, l: Id, b: Id, value: Option<V>, kids: map<byte, Table<V>>, ms: map<Id, Node<V>>, x: Id)
    requires l in nodes && (forall id :: id in nodes ==> id < b) && ms == BurstNodes(nodes, l, b, value, kids)
    ensures x < b ==> (x in ms <==> x in nodes && x != l)
    ensures x < b && x in ms ==> ms[x] == if nodes[l].parent == Some(x) then RedirectedNode(nodes[x], nodes[l].ch, b) else nodes[x]
    ensures b in ms && ms[b] == TrieNode(nodes[l].parent, nodes[l].ch, value, KidIds(b, kids))
    ensures x > b ==> (x in ms <==> x <= b + 0x100 && KidChar(b, x) in kids)
    ensures x > b && x in ms ==> ms[x] == HashNode(Some(b), KidChar(b, x), kids[KidChar(b, x)])
  {
    hide KidMap, KeptNodes, KidNodes, KidIds, RedirectedNode, KidChar, KidId;
    if b < x <= b + 0x100 {
      assert KidId(b, KidChar(b, x)) == x;
    }
  }

  lemma BurstPathAt<V>(path: Paths, l: Id, b: Id, kids: map<byte, Shape<V>>)
    requires l in path
    ensures b in BurstPaths(path, l, b, kids) && BurstPaths(path, l, b, kids)[b] == path[l]
  {
    hide KidMap;
  }

  lemma BurstShapeAt<V>(ns: Shapes<V>, l: Id, b: Id, value: Option<V>, kids: map<byte, Shape<V>>, ms: Shapes<V>, x: Id)
    requires l in ns && (forall id :: id in ns ==> id < b) && ms == BurstShapes(ns, l, b, value, kids)
    ensures x < b ==> (x in ms <==> x in ns && x != l)
    ensures x < b && x in ms ==> ms[x] == if ns[l].parent == Some(x) then Redirected(ns[x], ns[l].ch, b) else ns[x]
    ensures b in ms && ms[b] == Branch(ns[l].parent, ns[l].ch, value, KidIds(b, kids))
    ensures x > b ==> (x in ms <==> x <= b + 0x100 && KidChar(b, x) in kids)
    ensures x > b && x in ms ==> ms[x] == kids[KidChar(b, x)]
  {
    hide KidMap, KeptShapes, KidIds, Redirected, KidChar, KidId;
    if b < x <= b + 0x100 {
      assert KidId(b, KidChar(b, x)) == x;
    }
  }

  ghost predicate KidShapes<V>(kids: map<byte, Shape<V>>, b: Id, leaves: map<byte, map<Key, V>>) {
    && kids.Keys == leaves.Keys
    && forall c :: c in kids ==>
         && kids[c].Leaf? && kids[c].parent == Some(b) && kids[c].ch == c && kids[c].vals == leaves[c]
         && Listed(kids[c].keys, kids[c].vals) && 0 < |kids[c].keys|
  }

  lemma BurstBuilt<V>(ns: Shapes<V>, path: Paths, l: Id, b: Id, value: Option<V>, kids: map<byte, Shape<V>>, leaves: map<byte, map<Key, V>>)
    requires l in ns && l in path && ns[l].Leaf? && (forall x :: x in ns ==> x < b) && KidShapes(kids, b, leaves)
    ensures Burst(ns, path, BurstShapes(ns, l, b, value, kids), BurstPaths(path, l, b, kids), l, b, value, kids)
  {
    hide Listed, BurstShapes, BurstPaths, Redirected, KidMap, KidId;
    var ms := BurstShapes(ns, l, b, value, kids);
    assert KidIds(b, kids) == map c | c in kids :: KidId(b, c);
    BurstShapeAt(ns, l, b, value, kids, ms, b);
    forall x | x in ms
      ensures x == b || (x in ns && x != l) || exists c :: c in kids && x == KidId(b, c)
    {
      BurstShapeAt(ns, l, b, value, kids, ms, x);
    }
    forall x | x in ns && x != l
      ensures x in ms && ms[x] == if ns[l].parent == Some(x) then Redirected(ns[x], ns[l].ch, b) else ns[x]
    {
      BurstShapeAt(ns, l, b, value, kids, ms, x);
    }
    forall c | c in kids
      ensures KidId(b, c) in ms && ms[KidId(b, c)] == kids[c]
    {
      KidBack(b, c);
      BurstShapeAt(ns, l, b, value, kids, ms, KidId(b, c));
    }
    BurstPathsAt(ns, path, l, b, kids);
  }

  lemma KidBack(b: Id, c: byte)
    ensures b < KidId(b, c) <= b + 0x100 && KidChar(b, KidId(b, c)) == c
  {
  }

  lemma BurstPathsAt<V>(ns: Shapes<V>, path: Paths, l: Id, b: Id, kids: map<byte, Shape<V>>)
    requires l in path && forall x :: x in ns ==> x < b
    ensures forall x :: x in ns && x in path ==> x in BurstPaths(path, l, b, kids) && BurstPaths(path, l, b, kids)[x] == path[x]
    ensures b in BurstPaths(path, l, b, kids) && BurstPaths(path, l, b, kids)[b] == path[l]
    ensures forall c :: c in kids ==> KidId(b, c) in BurstPaths(path, l, b, kids) && BurstPaths(path, l, b, kids)[KidId(b, c)] == path[l] + [c]
  {
    hide KidMap;
  }

  /** A burst keeps the map, and leaves no node empty or too full. */
  lemma BurstKeeps<V>(ns: Shapes<V>, path: Paths, root: Option<Id>, m: map<Key, V>, burst: nat,
                      l: Id, b: Id, value: Option<V>, kids: map<byte, Shape<V>>, leaves: map<byte, map<Key, V>>)
    requires Tree(ns, path, root, m) && Stocked(ns, burst) && l in ns && l in path && ns[l].Leaf?
    requires (forall x :: x in ns ==> x < b) && KidShapes(kids, b, leaves) && Split(ns[l].vals, value, leaves)
    ensures Tree(BurstShapes(ns, l, b, value, kids), BurstPaths(path, l, b, kids), BurstRoot(ns, root, l, b), m)
    ensures Stocked(BurstShapes(ns, l, b, value, kids), burst)
  {
    hide Linked, Represents, Stocked, Burst, Split, Listed, KidShapes, BurstShapes, BurstPaths;
    BurstBuilt(ns, path, l, b, value, kids, leaves);
    KidVals(kids, b, leaves);
    var ms, path' := BurstShapes(ns, l, b, value, kids), BurstPaths(path, l, b, kids);
    BurstRepresents(ns, path, root, m, ms, path', l, b, value, kids);
    BurstStocked(ns, path, burst, ms, path', l, b, value, kids, leaves);
  }

  lemma BurstStocked<V>(ns: Shapes<V>, path: Paths, burst: nat, ms: Shapes<V>, path': Paths,
                        l: Id, b: Id, value: Option<V>, kids: map<byte, Shape<V>>, leaves: map<byte, map<Key, V>>)
    requires Stocked(ns, burst) && Burst(ns, path, ms, path', l, b, value, kids)
    requires KidShapes(kids, b, leaves) && Split(ns[l].vals, value, leaves)
    ensures Stocked(ms, burst)
  {
    hide Burst, Split, Listed, Stocked, KidShapes;
    forall x | x in ms
      ensures !Empty(ms[x]) && (ms[x].Leaf? ==> Listed(ms[x].keys, ms[x].vals) && |ms[x].keys| <= burst)
    {
      BurstStockedAt(ns, path, burst, ms, path', l, b, value, kids, leaves, x);
    }
    MakeStocked(ms, burst);
  }

  lemma MakeStocked<V>(ms: Shapes<V>, burst: nat)
    requires forall x :: x in ms ==> !Empty(ms[x]) && (ms[x].Leaf? ==> Listed(ms[x].keys, ms[x].vals) && |ms[x].keys| <= burst)
    ensures Stocked(ms, burst)
  {
    hide Empty, Listed;
  }

  lemma BurstStockedAt<V>(ns: Shapes<V>, path: Paths, burst: nat, ms: Shapes<V>, path': Paths,
                          l: Id, b: Id, value: Option<V>, kids: map<byte, Shape<V>>, leaves: map<byte, map<Key, V>>, x: Id)
    requires Stocked(ns, burst) && Burst(ns, path, ms, path', l, b, value, kids)
    requires KidShapes(kids, b, leaves) && Split(ns[l].vals, value, leaves) && x in ms
    ensures !Empty(ms[x]) && (ms[x].Leaf? ==> Listed(ms[x].keys, ms[x].vals) && |ms[x].keys| <= burst)
  {
    hide Split, Listed, Stocked;
    StockedAt(ns, burst, l);
    ListedSize(ns[l].keys, ns[l].vals);
    if x == b {
      BurstNotEmpty(ns[l].keys, ns[l].vals, value, leaves);
      if value.None? {
        var c :| c in leaves;
        assert c in ms[b].children;
      }
    } else if x in ns && x != l {
      StockedAt(ns, burst, x);
    } else {
      var c :| c in kids && x == KidId(b, c);
      ListedSize(kids[c].keys, kids[c].vals);
      SplitCount(ns[l].vals, value, leaves, c);
    }
  }

  lemma ListedSize<V>(keys: seq<Key>, vals: map<Key, V>)
    requires Listed(keys, vals)
    ensures |keys| == |vals|
  {
  }

  lemma KidVals<V>(kids: map<byte, Shape<V>>, b: Id, leaves: map<byte, map<Key, V>>)
    requires KidShapes(kids, b, leaves)
    ensures (forall c :: c in kids ==> kids[c].Leaf?) && ValsOf(kids) == leaves
  {
    hide Listed;
  }

  lemma BurstNotEmpty<V>(keys: seq<Key>, vals: map<Key, V>, value: Option<V>, leaves: map<byte, map<Key, V>>)
    requires Split(vals, value, leaves) && Listed(keys, vals) && |keys| > 0
    ensures value.Some? || exists c :: c in leaves
  {
    assert keys[0] in vals;
  }

  ghost function KidLeaves<V>(kids: map<byte, Table<V>>, b: Id): map<byte, Shape<V>>
    reads kids.Values
  {
    map c | c in kids :: LeafShape(HashNode(Some(b), c, kids[c]))
  }

  lemma KidLeavesShaped<V>(kids: map<byte, Table<V>>, leaves: map<byte, map<Key, V>>, hash: Key -> nat, b: Id)
    requires Kids(kids, leaves, hash)
    ensures KidShapes(KidLeaves(kids, b), b, leaves)
  {
    hide Table<V>.Valid, Table<V>.Order, Listed;
    forall c | c in kids
      ensures Listed(kids[c].Order(), kids[c].model) && |kids[c].Order()| > 0
    {
      LeafListed(kids[c]);
    }
  }

  lemma BurstMirrorsAt<V>(nodes: map<Id, Node<V>>, shapes: Shapes<V>, hash: Key -> nat, l: Id, b: Id,
                          value: Option<V>, kids: map<byte, Table<V>>, leaves: map<byte, map<Key, V>>, x: Id)
    requires Mirrors(nodes, shapes, hash) && l in nodes && Kids(kids, leaves, hash) && (forall id :: id in nodes ==> id < b)
    requires x in BurstNodes(nodes, l, b, value, kids)
    ensures x in BurstShapes(shapes, l, b, value, KidLeaves(kids, b))
    ensures Mirrored(BurstNodes(nodes, l, b, value, kids)[x], BurstShapes(shapes, l, b, value, KidLeaves(kids, b))[x], hash)
  {
    hide Table<V>.Valid, Table<V>.Order, BurstNodes, BurstShapes;
    var ms, ns := BurstNodes(nodes, l, b, value, kids), BurstShapes(shapes, l, b, value, KidLeaves(kids, b));
    BurstNodeAt(nodes, l, b, value, kids, ms, x);
    BurstShapeAt(shapes, l, b, value, KidLeaves(kids, b), ns, x);
    assert Mirrored(nodes[l], shapes[l], hash);
    if x < b {
      assert Mirrored(nodes[x], shapes[x], hash);
    } else if x == b {
      assert KidIds(b, kids) == KidIds(b, KidLeaves(kids, b));
    }
  }

  lemma BurstMirrors<V>(nodes: map<Id, Node<V>>, shapes: Shapes<V>, hash: Key -> nat, l: Id, b: Id,
                        value: Option<V>, kids: map<byte, Table<V>>, leaves: map<byte, map<Key, V>>)
    requires Mirrors(nodes, shapes, hash) && l in nodes && Kids(kids, leaves, hash) && (forall id :: id in nodes ==> id < b)
    ensures Mirrors(BurstNodes(nodes, l, b, value, kids), BurstShapes(shapes, l, b, value, KidLeaves(kids, b)), hash)
  {
    hide Mirrored, Kids, BurstNodes, BurstShapes;
    var ms, ns := BurstNodes(nodes, l, b, value, kids), BurstShapes(shapes, l, b, value, KidLeaves(kids, b));
    forall x | x in ms
      ensures x in ns && Mirrored(ms[x], ns[x], hash)
    {
      BurstMirrorsAt(nodes, shapes, hash, l, b, value, kids, leaves, x);
    }
    forall x | x in ns
      ensures x in ms
    {
      BurstNodeAt(nodes, l, b, value, kids, ms, x);
      BurstShapeAt(shapes, l, b, value, KidLeaves(kids, b), ns, x);
    }
    assert ms.Keys == ns.Keys;
  }

  lemma BurstTable<V>(nodes: map<Id, Node<V>>, l: Id, b: Id, value: Option<V>, kids: map<byte, Table<V>>, ms: map<Id, Node<V>>, x: Id)
    requires l in nodes && (forall id :: id in nodes ==> id < b) && ms == BurstNodes(nodes, l, b, value, kids)
    requires x in ms && ms[x].HashNode?
    ensures x <= b + 0x100
    ensures x < b ==> x in nodes && nodes[x].HashNode? && ms[x].table == nodes[x].table && ms[x].table in Tables(nodes)
    ensures x >= b ==> b < x && KidChar(b, x) in kids && ms[x].table == kids[KidChar(b, x)] && ms[x].table in kids.Values
  {
    hide BurstNodes;
    BurstNodeAt(nodes, l, b, value, kids, ms, x);
  }

  lemma BurstSeparate<V>(nodes: map<Id, Node<V>>, next: Id, hash: Key -> nat, l: Id,
                         value: Option<V>, kids: map<byte, Table<V>>, leaves: map<byte, map<Key, V>>)
    requires Separate(nodes, next) && l in nodes && Kids(kids, leaves, hash) && kids.Values !! Tables(nodes)
    ensures Separate(BurstNodes(nodes, l, next, value, kids), next + 0x101)
    ensures Tables(BurstNodes(nodes, l, next, value, kids)) <= Tables(nodes) + kids.Values
  {
    hide BurstNodes, Table<V>.Valid;
    var ms := BurstNodes(nodes, l, next, value, kids);
    forall x | x in ms
      ensures x < next + 0x101
    {
      BurstNodeAt(nodes, l, next, value, kids, ms, x);
    }
    forall x, y | x in ms && y in ms && x != y && ms[x].HashNode? && ms[y].HashNode?
      ensures ms[x].table != ms[y].table
    {
      BurstTable(nodes, l, next, value, kids, ms, x);
      BurstTable(nodes, l, next, value, kids, ms, y);
    }
    forall t | t in Tables(ms)
      ensures t in Tables(nodes) + kids.Values
    {
      var x :| x in ms && ms[x].HashNode? && ms[x].table == t;
      BurstTable(nodes, l, next, value, kids, ms, x);
    }
  }

  lemma SeparateBelow<V>(nodes: map<Id, Node<V>>, next: Id)
    requires Separate(nodes, next)
    ensures forall id :: id in nodes ==> id < next
  {
  }

  lemma SeparateAt<V>(nodes: map<Id, Node<V>>, next: Id, id: Id)
    requires Separate(nodes, next) && id in nodes && nodes[id].HashNode?
    ensures forall j :: j in nodes && j != id && nodes[j].HashNode? ==> nodes[j].table != nodes[id].table
  {
  }

  /** A single hash node. */
  lemma OneNode<V>(id: Id, node: Node<V>, shape: Shape<V>, hash: Key -> nat)
    requires node.HashNode? && Mirrored(node, shape, hash)
    ensures Mirrors(map[id := node], map[id := shape], hash) && Separate(map[id := node], id + 1)
    ensures Tables(map[id := node]) <= {node.table}
  {
    hide Mirrored;
  }

  lemma OtherTables<V>(nodes: map<Id, Node<V>>, next: Id, id: Id)
    requires Separate(nodes, next) && id in nodes && nodes[id].HashNode?
    ensures nodes[id].table in Tables(nodes) && nodes[id].table !in Tables(nodes - {id})
  {
  }

  /** All nodes but one mirror their shapes, and so does that one with its new shape. */
  lemma MirrorsAgain<V>(nodes: map<Id, Node<V>>, shapes: Shapes<V>, hash: Key -> nat, id: Id, shape: Shape<V>)
    requires id in nodes && id in shapes && Mirrors(nodes - {id}, shapes - {id}, hash) && Mirrored(nodes[id], shape, hash)
    ensures Mirrors(nodes, shapes[id := shape], hash)
  {
    hide Mirrors, Mirrored;
    MirrorsPut(nodes - {id}, shapes - {id}, hash, id, nodes[id], shape);
    assert (nodes - {id})[id := nodes[id]] == nodes;
    assert (shapes - {id})[id := shape] == shapes[id := shape];
  }
}

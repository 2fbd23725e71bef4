/**
 Erasing from a HAT-trie: the key goes, nodes left empty are pruned upwards, and
 the position of the next key comes back.
 */
module TrieErase {
  import opened Options
  import opened ArrayBucket
  import opened TableCursor
  import opened ArrayHash
  import opened TrieShape
  import opened TrieOrder
  import opened TrieNodes
  import opened HTrie
  import opened TrieWalk

  // ---------------------------------------------------------------------------
  // A trie with one empty node
  // ---------------------------------------------------------------------------

  /** Every node but `e` is stocked. */
  ghost predicate StockedBut<V>(ns: Shapes<V>, burst: nat, e: Id) {
    forall id :: id in ns && id != e ==>
      && !Empty(ns[id])
      && (ns[id].Leaf? ==> Listed(ns[id].keys, ns[id].vals) && |ns[id].keys| <= burst)
  }

  /** The trie is in order except that node `e` is empty. */
  ghost predicate Pruning<V>(t: Trie<V>, e: Id)
    reads t, Tables(t.nodes)
  {
    && Mirrors(t.nodes, t.shapes, t.hash) && Separate(t.nodes, t.next)
    && Tree(t.shapes, t.path, t.root, t.contents)
    && StockedBut(t.shapes, t.burst, e) && Bare(t.shapes, e) && e in t.path
    && t.nb == |t.contents|
    && t.burst >= MIN_BURST_THRESHOLD && t.maxLoad > 0.0
  }

  /** Nodes that store keys are where they were, with what they held. */
  ghost predicate Untouched<V>(ns: Shapes<V>, path: Paths, ms: Shapes<V>, path': Paths, e: Id) {
    forall x :: Stores(ns, x) && x != e && x in path ==> Same(ns, path, ms, path', x)
  }

  ghost predicate Same<V>(ns: Shapes<V>, path: Paths, ms: Shapes<V>, path': Paths, x: Id)
    requires x in ns && x in path
  {
    && x in ms && x in path' && path'[x] == path[x]
    && match ns[x]
       case Branch(p, c, v, _) => ms[x].Branch? && ms[x].value == v && ms[x].parent == p && ms[x].ch == c
       case Leaf(_, _, _, _) => ms[x] == ns[x]
  }

  /** Every remaining hash node has the table it had. */
  ghost predicate SameTables<V>(was: map<Id, Node<V>>, now: map<Id, Node<V>>) {
    forall x :: x in now && now[x].HashNode? ==> x in was && was[x].HashNode? && was[x].table == now[x].table
  }

  lemma SeparateFewer<V>(was: map<Id, Node<V>>, now: map<Id, Node<V>>, next: Id)
    requires Separate(was, next) && SameTables(was, now) && forall x :: x in now ==> x in was
    ensures Separate(now, next) && Tables(now) <= Tables(was)
  {
    forall table | table in Tables(now)
      ensures table in Tables(was)
    {
      var x :| x in now && now[x].HashNode? && now[x].table == table;
      assert x in was && was[x].HashNode? && was[x].table == table;
    }
  }

  lemma StockedFull<V>(ns: Shapes<V>, burst: nat, e: Id)
    requires StockedBut(ns, burst, e)
    requires e in ns ==> !Empty(ns[e]) && (ns[e].Leaf? ==> Listed(ns[e].keys, ns[e].vals) && |ns[e].keys| <= burst)
    ensures Stocked(ns, burst)
  {
    hide Empty, Listed;
  }

  /** A node that stores something owns a key of the map. */
  lemma StoresKey<V>(ns: Shapes<V>, path: Paths, root: Option<Id>, m: map<Key, V>, burst: nat, e: Id, x: Id)
    requires Tree(ns, path, root, m) && StockedBut(ns, burst, e) && Stores(ns, x) && x != e && x in path
    ensures m != map[]
  {
    hide Linked;
    if ns[x].Branch? {
      OwnsInMap(ns, path, m, x, path[x]);
    } else {
      var k := path[x] + ns[x].keys[0];
      assert k[|path[x]|..] == ns[x].keys[0];
      OwnsInMap(ns, path, m, x, k);
    }
  }

  // ---------------------------------------------------------------------------
  // Pruning
  // ---------------------------------------------------------------------------

  /** The last node goes with the last key. */
  method DropRoot<V>(t: Trie<V>, ghost e: Id)
    requires Pruning(t, e) && t.contents == map[]
    modifies t
    ensures t.Valid() && t.contents == map[] && t.root.None?
    ensures Untouched(old(t.shapes), old(t.path), t.shapes, t.path, e)
    ensures Tables(t.nodes) <= old(Tables(t.nodes)) && SameTables(old(t.nodes), t.nodes)
  {
    hide Linked, Represents, Stores, StockedBut;
    forall x | Stores(t.shapes, x) && x != e && x in t.path
      ensures false
    {
      StoresKey(t.shapes, t.path, t.root, t.contents, t.burst, e, x);
    }
    NoTree<V>(t.path);
    t.root, t.nodes, t.shapes := None, map[], map[];
  }

  lemma NoTree<V>(path: Paths)
    ensures Tree<V>(map[], path, None, map[])
  {
  }

  lemma OneLess(children: map<byte, Id>, c: byte)
    requires |children| > 1
    ensures |children - {c}| > 0
  {
    var rest := children - {c};
    assert rest.Keys == children.Keys - {c};
    assert |rest| == |rest.Keys| && |children| == |children.Keys|;
  }

  /** Without its empty child the parent is still stocked, and so is every other node. */
  lemma DropStocked<V>(ns: Shapes<V>, path: Paths, burst: nat, ms: Shapes<V>, p: Id, e: Id)
    requires StockedBut(ns, burst, e) && e in ns && p in ns && ns[p].Branch? && p != e
    requires ns[p].value.Some? || |ns[p].children| > 1
    requires ms == ns[p := WithoutChild(ns[p], ns[e].ch)] - {e}
    ensures Stocked(ms, burst) && Untouched(ns, path, ms, path, e)
  {
    hide Listed, Empty;
    if |ns[p].children| > 1 {
      OneLess(ns[p].children, ns[e].ch);
    }
    StillStocked(ns[p], ns[e].ch);
    forall x | x in ms
      ensures !Empty(ms[x]) && (ms[x].Leaf? ==> Listed(ms[x].keys, ms[x].vals) && |ms[x].keys| <= burst)
    {
      assert x in ns && x != e && (x != p ==> ms[x] == ns[x]);
    }
    DropUntouched(ns, path, ms, p, e);
  }

  lemma StillStocked<V>(s: Shape<V>, c: byte)
    requires s.Branch? && (s.value.Some? || |s.children - {c}| > 0)
    ensures !Empty(WithoutChild(s, c))
  {
  }

  lemma DropUntouched<V>(ns: Shapes<V>, path: Paths, ms: Shapes<V>, p: Id, e: Id)
    requires e in ns && p in ns && ns[p].Branch? && p != e && ms == ns[p := WithoutChild(ns[p], ns[e].ch)] - {e}
    ensures Untouched(ns, path, ms, path, e)
  {
  }

  lemma DropKeeps<V>(ns: Shapes<V>, path: Paths, root: Option<Id>, m: map<Key, V>, burst: nat, p: Id, e: Id)
    requires Tree(ns, path, root, m) && StockedBut(ns, burst, e) && Bare(ns, e)
    requires ns[e].parent == Some(p) && p in ns && ns[p].Branch? && p != e
    requires ns[p].value.Some? || |ns[p].children| > 1
    ensures Tree(ns[p := WithoutChild(ns[p], ns[e].ch)] - {e}, path, root, m)
    ensures Stocked(ns[p := WithoutChild(ns[p], ns[e].ch)] - {e}, burst)
    ensures Untouched(ns, path, ns[p := WithoutChild(ns[p], ns[e].ch)] - {e}, path, e)
  {
    hide Linked, Represents, Stocked, StockedBut, Untouched, WithoutChild;
    var ms := ns[p := WithoutChild(ns[p], ns[e].ch)] - {e};
    DroppedKeeps(ns, path, root, m, ms, p, e);
    DropStocked(ns, path, burst, ms, p, e);
  }

  lemma LiftKeeps<V>(ns: Shapes<V>, path: Paths, root: Option<Id>, m: map<Key, V>, burst: nat, g: Id, p: Id, e: Id,
                     ms: Shapes<V>, path': Paths)
    requires Tree(ns, path, root, m) && StockedBut(ns, burst, e) && Lifted(ns, path, ms, path', g, p, e)
    ensures Tree(ms, path', root, m) && StockedBut(ms, burst, e) && Bare(ms, e) && e in path'
    ensures Untouched(ns, path, ms, path', e)
  {
    hide Linked, Represents, StockedBut, Untouched;
    LiftedKeeps(ns, path, root, m, ms, path', g, p, e);
    LiftStocked(ns, path, burst, g, p, e, ms, path');
    LiftUntouched(ns, path, g, p, e, ms, path');
  }

  lemma LiftStocked<V>(ns: Shapes<V>, path: Paths, burst: nat, g: Id, p: Id, e: Id, ms: Shapes<V>, path': Paths)
    requires StockedBut(ns, burst, e) && Lifted(ns, path, ms, path', g, p, e)
    ensures StockedBut(ms, burst, e)
  {
    hide Listed;
    assert ns[p].ch in ms[g].children;
    forall x | x in ms && x != e
      ensures !Empty(ms[x]) && (ms[x].Leaf? ==> Listed(ms[x].keys, ms[x].vals) && |ms[x].keys| <= burst)
    {
      assert x in ns && (x != g ==> ms[x] == ns[x]);
    }
  }

  lemma LiftUntouched<V>(ns: Shapes<V>, path: Paths, g: Id, p: Id, e: Id, ms: Shapes<V>, path': Paths)
    requires Lifted(ns, path, ms, path', g, p, e)
    ensures Untouched(ns, path, ms, path', e)
  {
  }

  lemma OnlyChild(children: map<byte, Id>, c: byte, e: Id)
    requires |children| <= 1 && c in children && children[c] == e
    ensures children == map[c := e]
  {
    var rest := children.Keys - {c};
    assert |rest| == |children.Keys| - 1;
    assert rest == {};
    assert forall d :: d in children && d != c ==> d in rest;
  }

  /** The parent of a node and, one step up, its grandparent. */
  lemma Lineage<V>(ns: Shapes<V>, path: Paths, root: Option<Id>, e: Id)
    requires Linked(ns, path, root) && e in ns && ns[e].parent.Some?
    ensures var p := ns[e].parent.value;
            && p in ns && p in path && e in path && p != e && ns[p].Branch? && |path[p]| < |path[e]|
            && ns[e].ch in ns[p].children && ns[p].children[ns[e].ch] == e
            && (ns[p].parent.Some? ==>
                  var g := ns[p].parent.value; g in ns && ns[g].Branch? && g != p && g != e)
  {
    hide Linked;
    Links(ns, path, root, e);
    var p := ns[e].parent.value;
    Links(ns, path, root, p);
    if ns[p].parent.Some? {
      Links(ns, path, root, ns[p].parent.value);
    }
  }

  /** The nodes after a child is taken off still mirror their shapes, and no two share a table. */
  lemma DropMirrors<V>(nodes: map<Id, Node<V>>, shapes: Shapes<V>, hash: Key -> nat, next: Id, p: Id, e: Id, parent: Node<V>)
    requires Mirrors(nodes, shapes, hash) && Separate(nodes, next) && p in nodes && e in nodes && nodes[p].TrieNode?
    requires parent == nodes[p].(children := nodes[p].children - {nodes[e].ch})
    ensures p in shapes && e in shapes && shapes[p].Branch?
    ensures shapes[p] == Branch(nodes[p].parent, nodes[p].ch, nodes[p].value, nodes[p].children)
    ensures shapes[e].parent == nodes[e].parent && shapes[e].ch == nodes[e].ch
    ensures Mirrors(nodes[p := parent] - {e}, shapes[p := WithoutChild(shapes[p], shapes[e].ch)] - {e}, hash)
    ensures Separate(nodes[p := parent] - {e}, next)
    ensures Tables(nodes[p := parent] - {e}) <= Tables(nodes) && SameTables(nodes, nodes[p := parent] - {e})
  {
    hide Mirrors, Mirrored, Separate, Tables, Table<V>.Valid, Table<V>.Order;
    MirrorsAt(nodes, shapes, hash, p);
    MirrorsAt(nodes, shapes, hash, e);
    MirroredBranch(nodes[p], shapes[p], hash);
    SameParent(nodes[e], shapes[e], hash);
    var above := WithoutChild(shapes[p], shapes[e].ch);
    MirroredBranch(parent, above, hash);
    MirrorsPut(nodes, shapes, hash, p, parent, above);
    MirrorsDrop(nodes[p := parent], shapes[p := above], hash, e);
    SeparateFewer(nodes, nodes[p := parent] - {e}, next);
  }

  /** The empty node is taken off its parent. */
  method DropChild<V>(t: Trie<V>, e: Id, p: Id)
    requires Pruning(t, e) && e in t.nodes && t.nodes[e].parent == Some(p) && p in t.nodes && t.nodes[p].TrieNode? && p != e
    requires t.nodes[p].value.Some? || |t.nodes[p].children| > 1
    modifies t
    ensures t.Valid() && t.contents == old(t.contents)
    ensures Untouched(old(t.shapes), old(t.path), t.shapes, t.path, e)
    ensures Tables(t.nodes) <= old(Tables(t.nodes)) && SameTables(old(t.nodes), t.nodes)
  {
    hide Tree, Stocked, StockedBut, Mirrors, Mirrored, Separate, Tables, Untouched, Bare, Table<V>.Valid, Table<V>.Order;
    var parent := t.nodes[p].(children := t.nodes[p].children - {t.nodes[e].ch});
    DropMirrors(t.nodes, t.shapes, t.hash, t.next, p, e, parent);
    DropKeeps(t.shapes, t.path, t.root, t.contents, t.burst, p, e);
    t.nodes, t.shapes :=
      t.nodes[p := parent] - {e}, t.shapes[p := WithoutChild(t.shapes[p], t.shapes[e].ch)] - {e};
  }

  lemma SameParent<V>(node: Node<V>, shape: Shape<V>, hash: Key -> nat)
    requires Mirrored(node, shape, hash)
    ensures node.parent == shape.parent && node.ch == shape.ch
  {
    hide Table<V>.Valid, Table<V>.Order;
  }

  /** A node hung elsewhere. */
  function Moved<V>(node: Node<V>, p: Id, c: byte): Node<V> {
    match node
    case TrieNode(_, _, v, cs) => TrieNode(Some(p), c, v, cs)
    case HashNode(_, _, t) => HashNode(Some(p), c, t)
  }

  lemma MirroredMoved<V>(node: Node<V>, shape: Shape<V>, hash: Key -> nat, p: Id, c: byte)
    requires Mirrored(node, shape, hash)
    ensures Mirrored(Moved(node, p, c), shape.(parent := Some(p), ch := c), hash)
  {
    hide Table<V>.Valid, Table<V>.Order;
  }

  /** The empty node takes the place of a parent that has nothing else. */
  method Lift<V>(t: Trie<V>, e: Id, p: Id, g: Id)
    requires Pruning(t, e) && e in t.nodes && t.nodes[e].parent == Some(p) && p in t.nodes && t.nodes[p].TrieNode? && p != e
    requires t.nodes[p].value.None? && t.nodes[p].children == map[t.nodes[e].ch := e] && p in t.path
    requires t.nodes[p].parent == Some(g) && g in t.nodes && t.nodes[g].TrieNode? && g != p && g != e
    modifies t
    ensures Pruning(t, e) && e in t.nodes && t.contents == old(t.contents)
    ensures t.path[e] == old(t.path[p])
    ensures Untouched(old(t.shapes), old(t.path), t.shapes, t.path, e)
    ensures Tables(t.nodes) <= old(Tables(t.nodes)) && SameTables(old(t.nodes), t.nodes)
  {
    hide Tree, Stocked, StockedBut, Mirrors, Mirrored, Separate, Tables, Untouched, Bare, Table<V>.Valid, Table<V>.Order;
    MirrorsAt(t.nodes, t.shapes, t.hash, p);
    MirrorsAt(t.nodes, t.shapes, t.hash, g);
    MirrorsAt(t.nodes, t.shapes, t.hash, e);
    MirroredBranch(t.nodes[p], t.shapes[p], t.hash);
    MirroredBranch(t.nodes[g], t.shapes[g], t.hash);
    SameParent(t.nodes[e], t.shapes[e], t.hash);
    var c := t.nodes[p].ch;
    var above := t.nodes[g].(children := t.nodes[g].children[c := e]);
    ghost var ms := t.shapes[g := WithChild(t.shapes[g], c, e)][e := t.shapes[e].(parent := Some(g), ch := c)] - {p};
    LiftKeeps(t.shapes, t.path, t.root, t.contents, t.burst, g, p, e, ms, t.path[e := t.path[p]]);
    MirroredBranch(above, WithChild(t.shapes[g], c, e), t.hash);
    MirroredMoved(t.nodes[e], t.shapes[e], t.hash, g, c);
    ghost var moved := t.shapes[e].(parent := Some(g), ch := c);
    MirrorsPut(t.nodes, t.shapes, t.hash, g, above, WithChild(t.shapes[g], c, e));
    MirrorsPut(t.nodes[g := above], t.shapes[g := WithChild(t.shapes[g], c, e)], t.hash, e, Moved(t.nodes[e], g, c), moved);
    MirrorsDrop(t.nodes[g := above][e := Moved(t.nodes[e], g, c)], t.shapes[g := WithChild(t.shapes[g], c, e)][e := moved], t.hash, p);
    MirrorsAt(t.nodes[g := above][e := Moved(t.nodes[e], g, c)] - {p}, ms, t.hash, e);
    SeparateFewer(t.nodes, t.nodes[g := above][e := Moved(t.nodes[e], g, c)] - {p}, t.next);
    t.nodes, t.shapes, t.path :=
      t.nodes[g := above][e := Moved(t.nodes[e], g, c)] - {p}, ms, t.path[e := t.path[p]];
  }

  lemma UntouchedTwice<V>(a: Shapes<V>, pa: Paths, b: Shapes<V>, pb: Paths, c: Shapes<V>, pc: Paths, e: Id)
    requires Untouched(a, pa, b, pb, e) && Untouched(b, pb, c, pc, e)
    ensures Untouched(a, pa, c, pc, e)
  {
    forall x | Stores(a, x) && x != e && x in pa
      ensures Same(a, pa, c, pc, x)
    {
      assert Same(a, pa, b, pb, x);
      assert Same(b, pb, c, pc, x);
    }
  }

  /** `clear_empty_nodes`: the empty node goes, and every ancestor that would be empty without it. */
  method ClearEmptyNodes<V>(t: Trie<V>, e: Id)
    requires Pruning(t, e) && e in t.nodes
    modifies t
    ensures t.Valid() && t.contents == old(t.contents) && (t.root.None? <==> t.contents == map[])
    ensures Untouched(old(t.shapes), old(t.path), t.shapes, t.path, e)
    ensures Tables(t.nodes) <= old(Tables(t.nodes)) && SameTables(old(t.nodes), t.nodes)
    decreases |t.path[e]|
  {
    hide Linked, Represents, StockedBut, Stocked, Mirrored, Untouched, Separate, Table<V>.Valid, Table<V>.Order;
    SameParent(t.nodes[e], t.shapes[e], t.hash);
    if t.nodes[e].parent.None? {
      BareRoot(t.shapes, t.path, t.root, t.contents, e);
      DropRoot(t, e);
      return;
    }
    var p := t.nodes[e].parent.value;
    Lineage(t.shapes, t.path, t.root, e);
    BranchNode(t.nodes[p], t.shapes[p], t.hash);
    if t.nodes[p].value.Some? || |t.nodes[p].children| > 1 {
      DropChild(t, e, p);
      RootIff(t);
      return;
    }
    OnlyChild(t.nodes[p].children, t.nodes[e].ch, e);
    if t.nodes[p].parent.None? {
      BareBelowRoot(t.shapes, t.path, t.root, t.contents, p, e);
      DropRoot(t, e);
    } else {
      BranchNode(t.nodes[t.nodes[p].parent.value], t.shapes[t.nodes[p].parent.value], t.hash);
      ghost var ns, path := t.shapes, t.path;
      Lift(t, e, p, t.nodes[p].parent.value);
      ghost var ms, path' := t.shapes, t.path;
      ClearEmptyNodes(t, e);
      UntouchedTwice(ns, path, ms, path', t.shapes, t.path, e);
    }
  }

  lemma BranchNode<V>(node: Node<V>, shape: Shape<V>, hash: Key -> nat)
    requires Mirrored(node, shape, hash) && shape.Branch?
    ensures node.TrieNode? && shape == Branch(node.parent, node.ch, node.value, node.children)
  {
    hide Table<V>.Valid, Table<V>.Order;
  }

  // ---------------------------------------------------------------------------
  // Erase
  // ---------------------------------------------------------------------------

  lemma EraseValueKeeps<V>(ns: Shapes<V>, path: Paths, root: Option<Id>, m: map<Key, V>, burst: nat, id: Id)
    requires Tree(ns, path, root, m) && Stocked(ns, burst) && id in ns && id in path && ns[id].Branch?
    ensures Tree(ns[id := ns[id].(value := None)], path, root, m - {path[id]})
    ensures StockedBut(ns[id := ns[id].(value := None)], burst, id)
    ensures Untouched(ns, path, ns[id := ns[id].(value := None)], path, id)
  {
    hide Linked, Represents, Listed;
    ValueChange(ns, path, root, m, id, None, m - {path[id]});
  }

  /** A leaf loses one key. */
  lemma EraseKeyKeeps<V>(ns: Shapes<V>, path: Paths, root: Option<Id>, m: map<Key, V>, burst: nat, id: Id, t: Shape<V>, rest: Key)
    requires Tree(ns, path, root, m) && Stocked(ns, burst) && id in ns && id in path && ns[id].Leaf? && t.Leaf?
    requires SameLinks(ns[id], t) && t.vals == ns[id].vals - {rest}
    ensures Tree(ns[id := t], path, root, m - {path[id] + rest}) && StockedBut(ns[id := t], burst, id)
    ensures Untouched(ns, path, ns[id := t], path, id)
  {
    hide Linked, Represents, Rewritten, Listed;
    LeafContents(ns, path, root, m, id);
    RewrittenDrop(m, path[id], ns[id].vals, rest);
    LeafChange(ns, path, root, m, id, t, m - {path[id] + rest});
  }

  lemma SizeLess<V>(m: map<Key, V>, k: Key)
    requires k in m
    ensures |m - {k}| == |m| - 1
  {
    assert (m - {k}).Keys == m.Keys - {k};
    assert |m - {k}| == |(m - {k}).Keys| && |m| == |m.Keys|;
  }

  /** The value of a trie node goes; a node left with nothing is pruned. */
  method EraseValue<V>(t: Trie<V>, id: Id)
    requires t.Valid() && id in t.nodes && id in t.path && t.nodes[id].TrieNode? && t.nodes[id].value.Some?
    modifies t
    ensures t.Valid() && t.contents == old(t.contents) - {old(t.path[id])}
    ensures Untouched(old(t.shapes), old(t.path), t.shapes, t.path, id)
    ensures Tables(t.nodes) <= old(Tables(t.nodes)) && SameTables(old(t.nodes), t.nodes)
  {
    hide Tree, Stocked, StockedBut, Mirrors, Mirrored, Separate, Untouched, Tables, Table<V>.Valid, Table<V>.Order;
    MirrorsAt(t.nodes, t.shapes, t.hash, id);
    MirroredBranch(t.nodes[id], t.shapes[id], t.hash);
    t.PathStored(id);
    SizeLess(t.contents, t.path[id]);
    EraseValueKeeps(t.shapes, t.path, t.root, t.contents, t.burst, id);
    var node := t.nodes[id].(value := None);
    MirroredBranch(node, t.shapes[id].(value := None), t.hash);
    MirrorsPut(t.nodes, t.shapes, t.hash, id, node, t.shapes[id].(value := None));
    SeparateTrie(t.nodes, t.next, id, node);
    t.nodes, t.nb, t.shapes, t.contents :=
      t.nodes[id := node], t.nb - 1, t.shapes[id := t.shapes[id].(value := None)], t.contents - {t.path[id]};
    if |t.nodes[id].children| == 0 {
      ghost var ms, path := t.shapes, t.path;
      ClearEmptyNodes(t, id);
      UntouchedTwice(old(t.shapes), old(t.path), ms, path, t.shapes, t.path, id);
    } else {
      StockedFull(t.shapes, t.burst, id);
    }
  }

  /** What erasing the key of rank `n` does to a leaf. */
  ghost predicate ErasedFrom<V>(was: Shape<V>, now: Shape<V>, n: nat) {
    && was.Leaf? && now.Leaf? && SameLinks(was, now) && n < |was.keys|
    && now.keys == was.keys[..n] + was.keys[n + 1..] && now.vals == was.vals - {was.keys[n]}
    && Listed(now.keys, now.vals)
  }

  /** The table of a hash node loses the key of rank `n`. */
  method EraseInLeaf<V>(node: Node<V>, at: Cursor, ghost n: nat) returns (cur: Cursor)
    requires node.HashNode? && node.table.Valid() && LeafAt(node.table, at, n)
    modifies node.table
    ensures node.table.Valid() && ErasedFrom(old(LeafShape(node)), LeafShape(node), n)
    ensures cur.At? <==> n < |LeafShape(node).keys|
    ensures cur.At? ==> LeafAt(node.table, cur, n)
  {
    hide Listed, Table<V>.Valid, Table<V>.Order, Located;
    cur := node.table.EraseAt(at, n);
    LeafListed(node.table);
  }

  /** The table of a hash node loses a key; the shape follows. */
  method EraseInTable<V>(t: Trie<V>, it: Iter, id: Id, ghost n: nat) returns (cur: Cursor)
    requires Mirrors(t.nodes, t.shapes, t.hash) && Separate(t.nodes, t.next)
    requires id in t.nodes && t.nodes[id].HashNode? && LeafAt(t.nodes[id].table, it.cursor, n)
    modifies t`shapes, t.nodes[id].table
    ensures Mirrors(t.nodes, t.shapes, t.hash) && t.shapes == old(t.shapes)[id := LeafShape(t.nodes[id])]
    ensures ErasedFrom(old(t.shapes[id]), t.shapes[id], n)
    ensures cur.At? <==> n < |t.shapes[id].keys|
    ensures cur.At? ==> LeafAt(t.nodes[id].table, cur, n)
  {
    hide Mirrored, Separate, ErasedFrom, LeafShape, Table<V>.Valid, Table<V>.Order, Located;
    MirrorsAt(t.nodes, t.shapes, t.hash, id);
    MirroredLeaf(t.nodes[id], t.shapes[id], t.hash);
    MirrorsDrop(t.nodes, t.shapes, t.hash, id);
    OtherTables(t.nodes, t.next, id);
    cur := EraseInLeaf(t.nodes[id], it.cursor, n);
    MirroredLeaf(t.nodes[id], LeafShape(t.nodes[id]), t.hash);
    MirrorsAgain(t.nodes, t.shapes, t.hash, id, LeafShape(t.nodes[id]));
    t.shapes := t.shapes[id := LeafShape(t.nodes[id])];
  }

  /** What is left of the trie when the key of rank `n` is gone from a leaf that may now be empty. */
  ghost predicate Thinned<V>(t: Trie<V>, id: Id)
    reads t, Tables(t.nodes)
  {
    && Mirrors(t.nodes, t.shapes, t.hash) && Separate(t.nodes, t.next)
    && Tree(t.shapes, t.path, t.root, t.contents)
    && StockedBut(t.shapes, t.burst, id) && id in t.nodes && t.nodes[id].HashNode? && id in t.path
    && t.nb == |t.contents|
    && t.burst >= MIN_BURST_THRESHOLD && t.maxLoad > 0.0
  }

  /** A key goes from a hash node, which may be left with nothing. */
  method ThinOut<V>(t: Trie<V>, it: Iter, id: Id, ghost n: nat) returns (cur: Cursor)
    requires t.Valid() && t.Points(it, id, n) && !it.readsValue && id in t.path && n < |t.shapes[id].keys|
    modifies t, t.nodes[id].table
    ensures Thinned(t, id) && t.contents == old(t.contents) - {old(t.KeyAt(id, n))}
    ensures Untouched(old(t.shapes), old(t.path), t.shapes, t.path, id)
    ensures t.nodes == old(t.nodes) && t.path == old(t.path)
    ensures id in t.shapes && ErasedFrom(old(t.shapes[id]), t.shapes[id], n)
    ensures cur.At? <==> n < |t.shapes[id].keys|
    ensures cur.At? ==> LeafAt(t.nodes[id].table, cur, n)
    ensures |old(t.shapes[id].keys)| <= t.burst
  {
    hide Tree, Stocked, StockedBut, Mirrored, Separate, Untouched, Listed, Located, Table<V>.Valid, Table<V>.Order;
    MirroredLeaf(t.nodes[id], t.shapes[id], t.hash);
    StockedAt(t.shapes, t.burst, id);
    t.PointsInside(it, id, n);
    ghost var was, key := t.shapes, t.KeyAt(id, n);
    SizeLess(t.contents, key);
    cur := EraseInTable(t, it, id, n);
    EraseKeyKeeps(was, t.path, t.root, t.contents, t.burst, id, t.shapes[id], was[id].keys[n]);
    t.nb, t.contents := t.nb - 1, t.contents - {key};
  }

  lemma ThinnedFull<V>(t: Trie<V>, id: Id)
    requires Thinned(t, id) && |t.shapes[id].keys| <= t.burst
    ensures t.nodes[id].table.nb == |t.shapes[id].keys|
    ensures |t.shapes[id].keys| > 0 ==> t.Valid()
    ensures |t.shapes[id].keys| == 0 ==> Pruning(t, id)
  {
    hide Tree, Stocked, StockedBut, Mirrored, Separate, Listed, Table<V>.Valid, Table<V>.Order;
    MirroredLeaf(t.nodes[id], t.shapes[id], t.hash);
    LeafListed(t.nodes[id].table);
    if |t.shapes[id].keys| > 0 {
      StockedFull(t.shapes, t.burst, id);
    }
  }

  /** A key goes from a hash node; a node left with nothing is pruned. */
  method EraseKey<V>(t: Trie<V>, it: Iter, id: Id, ghost n: nat) returns (cur: Cursor)
    requires t.Valid() && t.Points(it, id, n) && !it.readsValue && id in t.path && n < |t.shapes[id].keys|
    modifies t, t.nodes[id].table
    ensures t.Valid() && t.contents == old(t.contents) - {old(t.KeyAt(id, n))}
    ensures Untouched(old(t.shapes), old(t.path), t.shapes, t.path, id)
    ensures Tables(t.nodes) <= old(Tables(t.nodes)) && SameTables(old(t.nodes), t.nodes)
    ensures cur.At? <==> n + 1 < |old(t.shapes[id].keys)|
    ensures cur.At? ==> t.nodes == old(t.nodes) && t.path == old(t.path) && LeafAt(t.nodes[id].table, cur, n)
    ensures cur.At? ==> id in t.shapes && ErasedFrom(old(t.shapes[id]), t.shapes[id], n)
  {
    hide Tree, Stocked, StockedBut, Mirrored, Separate, Untouched, Listed, Located, Table<V>.Valid, Table<V>.Order;
    cur := ThinOut(t, it, id, n);
    ThinnedFull(t, id);
    if !cur.At? && t.nodes[id].table.nb == 0 {
      ghost var ms, path := t.shapes, t.path;
      ClearEmptyNodes(t, id);
      UntouchedTwice(old(t.shapes), old(t.path), ms, path, t.shapes, t.path, id);
    }
  }

  /** Position `(y, k)` comes right after `(id, n)`; at the end, nothing does. */
  ghost predicate SuccessorOf<V>(t: Trie<V>, id: Id, n: nat, end: bool, y: Id, k: nat)
    reads t
  {
    if end then forall x, j :: Position(t, x, j) ==> PosBefore(t, x, j, id, n) || (x == id && j == n)
    else
      && Position(t, y, k) && y in t.path
      && forall x, j :: Position(t, x, j) ==> (PosBefore(t, x, j, y, k) <==> PosBefore(t, x, j, id, n) || (x == id && j == n))
  }

  lemma FollowsSuccessor<V>(t: Trie<V>, id: Id, n: nat, it: Iter, y: Id, k: nat)
    requires t.Valid() && Follows(t, id, n, it, y, k) && Position(t, id, n)
    ensures SuccessorOf(t, id, n, it.AtEnd(), y, k)
    ensures !it.AtEnd() ==> y != id || n < k
  {
    hide Trie<V>.Valid, Before, Position;
    if !it.AtEnd() {
      PointsKey(t, it, y, k);
      NotBeforeSelf(t, id, n);
      if y == id {
        SelfBefore(t, id, n, k);
      }
    }
  }

  lemma SelfBefore<V>(t: Trie<V>, id: Id, n: nat, k: nat)
    requires PosBefore(t, id, n, id, k)
    ensures n < k
  {
    hide Less;
    if id in t.path {
      Irreflexive(t.path[id]);
    }
  }

  lemma NextInLeaf<V>(t: Trie<V>, id: Id, n: nat)
    requires Position(t, id, n + 1) && id in t.path
    ensures SuccessorOf(t, id, n, false, id, n + 1)
  {
    hide Before, Position;
  }

  /** What an untouched node keeps: its place, its value, its table. */
  lemma StillPoints<V>(t: Trie<V>, was: map<Id, Node<V>>, ns: Shapes<V>, path: Paths, e: Id, it: Iter, y: Id, k: nat)
    requires t.Valid() && Untouched(ns, path, t.shapes, t.path, e) && SameTables(was, t.nodes)
    requires y != e && y in was && Stores(ns, y) && y in path
    requires was[y].HashNode? <==> ns[y].Leaf?
    requires if was[y].TrieNode? then it.readsValue && it.tnode == Some(y) && k == 0
             else !it.readsValue && it.tnode == ns[y].parent && it.hnode == Some(y) && LeafAt(was[y].table, it.cursor, k)
    ensures t.Points(it, y, k) && y in t.path && t.path[y] == path[y]
    ensures t.shapes[y].Branch? == ns[y].Branch? && (ns[y].Leaf? ==> t.shapes[y].keys == ns[y].keys)
  {
    hide Trie<V>.Valid, Linked, Located;
    assert Same(ns, path, t.shapes, t.path, y);
    SameIds(t);
    NodeFacts(t, y);
  }

  /** Erasing the value of a trie node leaves the next position as it was. */
  method EraseTrieValue<V>(t: Trie<V>, id: Id, next: Iter, ghost y: Id, ghost k: nat)
    requires t.Valid() && id in t.nodes && id in t.path && t.nodes[id].TrieNode? && t.nodes[id].value.Some?
    requires next.AtEnd() || (t.Points(next, y, k) && (y != id || 0 < k))
    modifies t
    ensures t.Valid() && t.contents == old(t.contents) - {old(t.path[id])}
    ensures Tables(t.nodes) <= old(Tables(t.nodes))
    ensures !next.AtEnd() ==> y in old(t.path) && old(Position(t, y, k)) && t.Points(next, y, k) && KeyIs(t, y, k, old(t.KeyAt(y, k)))
  {
    hide Tree, Stocked, Separate, Mirrored, Located, Untouched, SameTables, Table<V>.Valid, Table<V>.Order, Stores;
    if !next.AtEnd() {
      PointsKey(t, next, y, k);
      NodeFacts(t, y);
    }
    EraseValue(t, id);
    if !next.AtEnd() {
      StillPoints(t, old(t.nodes), old(t.shapes), old(t.path), id, next, y, k);
      PointsKey(t, next, y, k);
    }
  }

  /** Erasing from a hash node: the next key of its table, or the next position as it was. */
  method EraseHashKey<V>(t: Trie<V>, it0: Iter, id: Id, ghost n: nat, next: Iter, ghost y: Id, ghost k: nat)
    returns (it: Iter, ghost inLeaf: bool)
    requires t.Valid() && t.Points(it0, id, n) && !it0.readsValue && id in t.path && n < |t.shapes[id].keys|
    requires next.AtEnd() || (t.Points(next, y, k) && (y != id || n < k))
    modifies t, t.nodes[id].table
    ensures t.Valid() && t.contents == old(t.contents) - {old(t.KeyAt(id, n))}
    ensures Tables(t.nodes) <= old(Tables(t.nodes))
    ensures inLeaf == (n + 1 < |old(t.shapes[id].keys)|)
    ensures inLeaf ==> !it.AtEnd() && t.Points(it, id, n) && KeyIs(t, id, n, old(t.KeyAt(id, n + 1)))
    ensures !inLeaf ==> it == next
    ensures !inLeaf && !next.AtEnd() ==> y in old(t.path) && old(Position(t, y, k)) && t.Points(it, y, k) && KeyIs(t, y, k, old(t.KeyAt(y, k)))
  {
    hide Tree, Stocked, Separate, Mirrored, Located, Untouched, SameTables, Table<V>.Valid, Table<V>.Order, Stores, Listed;
    if !next.AtEnd() {
      PointsKey(t, next, y, k);
      NodeFacts(t, y);
    }
    NodeFacts(t, id);
    OtherTable(t, id, y);
    var cur := EraseKey(t, it0, id, n);
    inLeaf := cur.At?;
    if cur.At? {
      it := Iter(t.nodes[id].parent, Some(id), cur, false);
      NodeFacts(t, id);
      PointsKey(t, it, id, n);
    } else {
      it := next;
      if !next.AtEnd() {
        StillPoints(t, old(t.nodes), old(t.shapes), old(t.path), id, next, y, k);
        PointsKey(t, next, y, k);
      }
    }
  }

  lemma OwnTable<V>(t: Trie<V>, id: Id)
    requires id in t.nodes && t.nodes[id].HashNode?
    ensures t.nodes[id].table in Tables(t.nodes)
  {
  }

  lemma OtherTable<V>(t: Trie<V>, id: Id, y: Id)
    requires t.Valid() && id in t.nodes && t.nodes[id].HashNode?
    ensures y in t.nodes && y != id && t.nodes[y].HashNode? ==> t.nodes[y].table != t.nodes[id].table
  {
    SeparateAt(t.nodes, t.next, id);
  }

  /** The position after the one to be erased. */
  method NextOf<V>(t: Trie<V>, it0: Iter, ghost id: Id, ghost n: nat) returns (next: Iter, ghost y: Id, ghost k: nat)
    requires t.Valid() && t.Points(it0, id, n)
    ensures t.Valid() && t.Points(it0, id, n)
    ensures SuccessorOf(t, id, n, next.AtEnd(), y, k)
    ensures next.AtEnd() || (t.Points(next, y, k) && (y != id || n < k))
  {
    hide Tree, Stocked, Separate, Mirrored, Located, Follows, SuccessorOf, Position, Table<V>.Valid, Table<V>.Order;
    next, y, k := TrieWalk.Next(t, it0, id, n);
    PointsKey(t, it0, id, n);
    FollowsPoints(t, id, n, next, y, k);
    FollowsSuccessor(t, id, n, next, y, k);
  }

  /** The hash-node branch of an erase. */
  method EraseFromTable<V>(t: Trie<V>, it0: Iter, ghost id: Id, ghost n: nat, next: Iter, ghost y0: Id, ghost k0: nat)
    returns (it: Iter, ghost y: Id, ghost k: nat, ghost y': Id, ghost k': nat)
    requires t.Valid() && t.Points(it0, id, n) && !it0.readsValue
    requires SuccessorOf(t, id, n, next.AtEnd(), y0, k0)
    requires next.AtEnd() || (t.Points(next, y0, k0) && (y0 != id || n < k0))
    modifies t, Tables(t.nodes)
    ensures id in old(t.path) && old(Position(t, id, n))
    ensures t.Valid() && t.contents == old(t.contents) - {old(t.KeyAt(id, n))}
    ensures Tables(t.nodes) <= old(Tables(t.nodes))
    ensures old(SuccessorOf(t, id, n, it.AtEnd(), y, k))
    ensures !it.AtEnd() ==> t.Points(it, y', k') && KeyIs(t, y', k', old(t.KeyAt(y, k)))
  {
    hide Trie<V>.Valid, Located, Stores, SuccessorOf, KeyIs, Tables, PosBefore, Linked, Before, Table<V>.Valid, Table<V>.Order;
    PointsKey(t, it0, id, n);
    NodeFacts(t, id);
    if n + 1 < |t.shapes[id].keys| {
      NextInLeaf(t, id, n);
    }
    OwnTable(t, id);
    ghost var inLeaf;
    it, inLeaf := EraseHashKey(t, it0, it0.hnode.value, n, next, y0, k0);
    if inLeaf {
      y, k, y', k' := id, n + 1, id, n;
    } else {
      y, k, y', k' := y0, k0, y0, k0;
    }
  }

  /** `erase(iterator)`: the key goes, and the position of the next key comes back. */
  method Erase<V>(t: Trie<V>, it0: Iter, ghost id: Id, ghost n: nat)
    returns (it: Iter, ghost y: Id, ghost k: nat, ghost y': Id, ghost k': nat)
    requires t.Valid() && t.Points(it0, id, n)
    modifies t, Tables(t.nodes)
    ensures id in old(t.path) && old(Position(t, id, n))
    ensures t.Valid() && t.contents == old(t.contents) - {old(t.KeyAt(id, n))}
    ensures t.root.None? <==> t.contents == map[]
    ensures Tables(t.nodes) <= old(Tables(t.nodes))
    ensures old(SuccessorOf(t, id, n, it.AtEnd(), y, k))
    ensures !it.AtEnd() ==> t.Points(it, y', k') && KeyIs(t, y', k', old(t.KeyAt(y, k)))
  {
    hide Trie<V>.Valid, Located, Stores, SuccessorOf, KeyIs, Tables, PosBefore, Linked, Before, Table<V>.Valid, Table<V>.Order;
    PointsKey(t, it0, id, n);
    NodeFacts(t, id);
    var next;
    next, y, k := NextOf(t, it0, id, n);
    if it0.readsValue {
      it, y', k' := next, y, k;
      EraseTrieValue(t, it0.tnode.value, next, y, k);
    } else {
      it, y, k, y', k' := EraseFromTable(t, it0, id, n, next, y, k);
    }
    RootIff(t);
  }

  /** `erase(key)`. */
  method EraseByKey<V>(t: Trie<V>, key: Key) returns (count: nat)
    requires t.Valid()
    modifies t, Tables(t.nodes)
    ensures t.Valid() && Tables(t.nodes) <= old(Tables(t.nodes))
    ensures count == (if key in old(t.contents) then 1 else 0) && t.contents == old(t.contents) - {key}
  {
    hide Tree, Stocked, Separate, Mirrored, Located, SuccessorOf, Position;
    var it, id, n := t.Find(key);
    if it.AtEnd() {
      count := 0;
      assert t.contents - {key} == t.contents;
    } else {
      var next, y, k, y', k' := Erase(t, it, id, n);
      count := 1;
    }
  }

  /** `clear`. */
  method Clear<V>(t: Trie<V>)
    requires t.Valid()
    modifies t
    ensures t.Valid() && t.contents == map[] && t.root.None? && Tables(t.nodes) == {}
  {
    hide Linked, Represents;
    NoTree<V>(t.path);
    t.root, t.nb, t.nodes, t.shapes, t.contents := None, 0, map[], map[], map[];
  }
}

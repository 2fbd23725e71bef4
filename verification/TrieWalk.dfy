/**
 Walking over a HAT-trie with iterators: from the first key to the end, each
 key once, and the key of a position rebuilt from the parent links.
 */
module TrieWalk {
  import opened Options
  import opened ArrayBucket
  import opened TableCursor
  import opened ArrayHash
  import opened TrieShape
  import opened TrieOrder
  import opened TrieNodes
  import opened HTrie

  // ---------------------------------------------------------------------------
  // Children by character
  // ---------------------------------------------------------------------------

  /** The first child at or after position `from`. */
  method ChildFrom(children: map<byte, Id>, from: nat) returns (c: Option<byte>)
    requires from <= 0x100
    ensures c.None? <==> forall d :: d in children ==> d as int < from
    ensures c.Some? ==> c.value in children && c.value as int >= from
    ensures c.Some? ==> forall d :: d in children && d as int >= from ==> c.value <= d
  {
    var i := from;
    while i < 0x100
      invariant from <= i <= 0x100
      invariant forall d :: d in children && d as int >= from ==> d as int >= i
    {
      if i as byte in children {
        return Some(i as byte);
      }
      i := i + 1;
    }
    c := None;
  }

  /** `first_child`. */
  method FirstChild(children: map<byte, Id>) returns (c: Option<byte>)
    ensures c.None? <==> forall d :: d !in children
    ensures c.Some? ==> LeastChild(children, c.value)
  {
    c := ChildFrom(children, 0);
  }

  /** `next_child`. */
  method NextChild(children: map<byte, Id>, after: byte) returns (c: Option<byte>)
    ensures c.None? <==> forall d :: d in children ==> d <= after
    ensures c.Some? ==> NextSibling(children, after, c.value)
  {
    c := ChildFrom(children, after as int + 1);
  }

  // ---------------------------------------------------------------------------
  // Facts about the nodes of a trie
  // ---------------------------------------------------------------------------

  lemma NodeFacts<V>(t: Trie<V>, id: Id)
    requires t.Valid() && id in t.nodes
    ensures Linked(t.shapes, t.path, t.root) && id in t.path && id in t.shapes
    ensures t.shapes[id].parent == t.nodes[id].parent && t.shapes[id].ch == t.nodes[id].ch
    ensures t.nodes[id].TrieNode? ==>
              t.shapes[id] == Branch(t.nodes[id].parent, t.nodes[id].ch, t.nodes[id].value, t.nodes[id].children)
    ensures t.nodes[id].HashNode? ==>
              t.shapes[id] == LeafShape(t.nodes[id]) && t.nodes[id].table.Valid() && |t.shapes[id].keys| > 0
    ensures Stores(t.shapes, id) || (t.nodes[id].TrieNode? && |t.nodes[id].children| > 0)
  {
    hide Linked, Represents, Stocked, Mirrored;
    Links(t.shapes, t.path, t.root, id);
    StockedAt(t.shapes, t.burst, id);
    if t.nodes[id].TrieNode? {
      MirroredBranch(t.nodes[id], t.shapes[id], t.hash);
    } else {
      MirroredLeaf(t.nodes[id], t.shapes[id], t.hash);
    }
  }

  lemma ChildFacts<V>(t: Trie<V>, id: Id, c: byte)
    requires t.Valid() && id in t.nodes && t.nodes[id].TrieNode? && c in t.nodes[id].children
    ensures var k := t.nodes[id].children[c];
            && k in t.nodes && k in t.path && id in t.path && t.path[k] == t.path[id] + [c]
            && t.nodes[k].parent == Some(id) && t.nodes[k].ch == c
  {
    hide Trie<V>.Valid;
    NodeFacts(t, id);
    ChildPath(t.shapes, t.path, t.root, id, c);
    SameIds(t);
    NodeFacts(t, t.nodes[id].children[c]);
  }

  lemma SameIds<V>(t: Trie<V>)
    requires t.Valid()
    ensures t.nodes.Keys == t.shapes.Keys
  {
  }

  lemma ParentFacts<V>(t: Trie<V>, id: Id)
    requires t.Valid() && id in t.nodes && t.nodes[id].parent.Some?
    ensures var p := t.nodes[id].parent.value;
            && p in t.nodes && p in t.path && id in t.path && t.nodes[p].TrieNode?
            && t.nodes[id].ch in t.nodes[p].children && t.nodes[p].children[t.nodes[id].ch] == id
            && t.path[id] == t.path[p] + [t.nodes[id].ch]
  {
    hide Trie<V>.Valid, Linked;
    NodeFacts(t, id);
    SameIds(t);
    Links(t.shapes, t.path, t.root, id);
    NodeFacts(t, t.nodes[id].parent.value);
  }

  lemma RootPathEmpty<V>(t: Trie<V>, id: Id)
    requires t.Valid() && id in t.nodes && t.nodes[id].parent.None?
    ensures id in t.path && t.path[id] == []
  {
    hide Trie<V>.Valid, Linked;
    NodeFacts(t, id);
    Links(t.shapes, t.path, t.root, id);
  }

  /** No path is longer than this. */
  ghost predicate DepthBound(ids: set<Id>, path: Paths, n: nat) {
    forall id :: id in ids && id in path ==> |path[id]| <= n
  }

  lemma {:induction false} MaxDepth(ids: set<Id>, path: Paths) returns (n: nat)
    ensures DepthBound(ids, path, n)
  {
    if ids == {} {
      n := 0;
    } else {
      var id :| id in ids;
      n := MaxDepth(ids - {id}, path);
      if id in path && |path[id]| > n {
        n := |path[id]|;
      }
    }
  }

  // ---------------------------------------------------------------------------
  // Down to the first key
  // ---------------------------------------------------------------------------

  /** `set_current_hash_node`. */
  method SetHashNode<V>(t: Trie<V>, it0: Iter, h: Id) returns (it: Iter)
    requires t.Valid() && h in t.nodes && t.nodes[h].HashNode? && it0.tnode == t.nodes[h].parent && !it0.readsValue
    ensures t.Points(it, h, 0)
  {
    hide Trie<V>.Valid, Table<V>.Valid, Located;
    NodeFacts(t, h);
    var cur := t.nodes[h].table.First();
    it := it0.(hnode := Some(h), cursor := cur);
  }

  /** `most_left_descendant_value_trie_node`. */
  method MostLeftTrieNode<V>(t: Trie<V>, start: Id) returns (cur: Id)
    requires t.Valid() && start in t.nodes && t.nodes[start].TrieNode?
    ensures cur in t.nodes && t.nodes[cur].TrieNode?
    ensures forall y :: FirstUnder(t.shapes, t.path, cur, y) ==> FirstUnder(t.shapes, t.path, start, y)
    ensures t.nodes[cur].value.None? ==>
              exists c :: LeastChild(t.nodes[cur].children, c) && t.nodes[cur].children[c] in t.nodes &&
                          t.nodes[t.nodes[cur].children[c]].HashNode?
  {
    hide Tree, Stocked, Separate, Mirrored, FirstUnder;
    cur := start;
    ghost var depth := MaxDepth(t.nodes.Keys, t.path);
    NodeFacts(t, cur);
    while t.nodes[cur].value.None?
      invariant cur in t.nodes && cur in t.path && t.nodes[cur].TrieNode?
      invariant forall y :: FirstUnder(t.shapes, t.path, cur, y) ==> FirstUnder(t.shapes, t.path, start, y)
      decreases depth - |t.path[cur]|
    {
      NodeFacts(t, cur);
      var c := FirstChild(t.nodes[cur].children);
      ChildFacts(t, cur, c.value);
      var child := t.nodes[cur].children[c.value];
      if t.nodes[child].HashNode? {
        return;
      }
      forall y | FirstUnder(t.shapes, t.path, child, y)
        ensures FirstUnder(t.shapes, t.path, cur, y)
      {
        FirstOfChild(t.shapes, t.path, t.root, cur, c.value, y);
      }
      cur := child;
    }
  }

  /** The hash node that comes first below a trie node without a value. */
  method FirstHashNode<V>(t: Trie<V>, it0: Iter, cur: Id) returns (it: Iter, ghost y: Id)
    requires t.Valid() && cur in t.nodes && t.nodes[cur].TrieNode? && t.nodes[cur].value.None?
    requires exists c :: LeastChild(t.nodes[cur].children, c) && t.nodes[cur].children[c] in t.nodes &&
                         t.nodes[t.nodes[cur].children[c]].HashNode?
    requires it0.tnode == Some(cur) && !it0.readsValue
    ensures t.Points(it, y, 0) && FirstUnder(t.shapes, t.path, cur, y)
  {
    hide Tree, Stocked, Separate, Mirrored, FirstUnder, Trie<V>.Points, Table<V>.Valid, Table<V>.Order;
    NodeFacts(t, cur);
    var c := FirstChild(t.nodes[cur].children);
    ChildFacts(t, cur, c.value);
    var child := t.nodes[cur].children[c.value];
    NodeFacts(t, child);
    FirstIsSelf(t.shapes, t.path, t.root, child);
    FirstOfChild(t.shapes, t.path, t.root, cur, c.value, child);
    y := child;
    it := SetHashNode(t, it0, child);
  }

  /** `set_most_left_descendant_as_next_node`: the first key of a subtree. */
  method SetMostLeft<V>(t: Trie<V>, it0: Iter, start: Id) returns (it: Iter, ghost y: Id)
    requires t.Valid() && start in t.nodes && it0.tnode == t.nodes[start].parent && !it0.readsValue
    ensures t.Points(it, y, 0) && FirstUnder(t.shapes, t.path, start, y)
  {
    hide Tree, Stocked, Separate, Mirrored, FirstUnder, LeastChild, Located, Table<V>.Valid, Table<V>.Order;
    NodeFacts(t, start);
    if t.nodes[start].HashNode? {
      FirstIsSelf(t.shapes, t.path, t.root, start);
      y := start;
      it := SetHashNode(t, it0, start);
    } else {
      var cur := MostLeftTrieNode(t, start);
      NodeFacts(t, cur);
      it := it0.(tnode := Some(cur));
      if t.nodes[cur].value.Some? {
        FirstIsSelf(t.shapes, t.path, t.root, cur);
        y := cur;
        it := it.(readsValue := true);
      } else {
        it, y := FirstHashNode(t, it, cur);
      }
    }
  }

  // ---------------------------------------------------------------------------
  // Up to the next subtree
  // ---------------------------------------------------------------------------

  /** Everything stored has been passed once the subtree of `c` is done. */
  ghost predicate AllPassed<V>(t: Trie<V>, c: Id)
    reads t
  {
    forall x :: Stores(t.shapes, x) ==> Passed(t.shapes, t.path, c, x)
  }

  /** Node `y` comes right after the subtree of `c`. */
  ghost predicate RightAfter<V>(t: Trie<V>, c: Id, y: Id)
    reads t
  {
    forall x :: Stores(t.shapes, x) ==> (Before(t.shapes, t.path, x, y) <==> Passed(t.shapes, t.path, c, x))
  }

  /** The same nodes have been passed. */
  ghost predicate SamePassed<V>(t: Trie<V>, c: Id, d: Id)
    reads t
  {
    forall x :: Stores(t.shapes, x) ==> (Passed(t.shapes, t.path, c, x) <==> Passed(t.shapes, t.path, d, x))
  }

  lemma ParentPassed<V>(t: Trie<V>, child: Id, p: Id)
    requires t.Valid() && child in t.nodes && t.nodes[child].parent == Some(p) && p in t.nodes && t.nodes[p].TrieNode?
    requires forall d :: d in t.nodes[p].children ==> d <= t.nodes[child].ch
    ensures SamePassed(t, child, p)
  {
    hide Trie<V>.Valid, Linked, Passed, Stores;
    ParentFacts(t, child);
    NodeFacts(t, p);
    forall x | Stores(t.shapes, x)
      ensures Passed(t.shapes, t.path, child, x) <==> Passed(t.shapes, t.path, p, x)
    {
      EndOfParent(t.shapes, t.path, t.root, p, t.nodes[child].ch, x);
    }
  }

  lemma SiblingAfter<V>(t: Trie<V>, child: Id, p: Id, d: byte, y: Id)
    requires t.Valid() && child in t.nodes && t.nodes[child].parent == Some(p) && p in t.nodes && t.nodes[p].TrieNode?
    requires NextSibling(t.nodes[p].children, t.nodes[child].ch, d)
    requires FirstUnder(t.shapes, t.path, t.nodes[p].children[d], y)
    ensures RightAfter(t, child, y)
  {
    hide Trie<V>.Valid, Linked, Passed, Stores, Before, FirstUnder;
    ParentFacts(t, child);
    NodeFacts(t, p);
    forall x | Stores(t.shapes, x)
      ensures Before(t.shapes, t.path, x, y) <==> Passed(t.shapes, t.path, child, x)
    {
      AfterSibling(t.shapes, t.path, t.root, p, t.nodes[child].ch, d, y, x);
    }
  }

  lemma RootAllPassed<V>(t: Trie<V>, r: Id)
    requires t.Valid() && r in t.nodes && t.nodes[r].parent.None?
    ensures AllPassed(t, r)
  {
    hide Trie<V>.Valid, Linked, Passed;
    NodeFacts(t, r);
    forall x | Stores(t.shapes, x)
      ensures Passed(t.shapes, t.path, r, x)
    {
      RootPassed(t.shapes, t.path, t.root, r, x);
    }
  }

  /** `set_next_node_ascending`: the first key after a subtree, or the end. */
  method SetNextAscending<V>(t: Trie<V>, it0: Iter, child: Id) returns (it: Iter, ghost y: Id)
    requires t.Valid() && child in t.nodes && t.nodes[child].parent.Some? && it0.tnode == t.nodes[child].parent && !it0.readsValue
    ensures it.AtEnd() ==> AllPassed(t, child)
    ensures !it.AtEnd() ==> t.Points(it, y, 0) && RightAfter(t, child, y)
  {
    hide Tree, Stocked, Separate, Mirrored, FirstUnder, Located, Passed, Stores, Before;
    y := child;
    var k, p := child, t.nodes[child].parent.value;
    ParentFacts(t, k);
    var next := NextChild(t.nodes[p].children, t.nodes[k].ch);
    while next.None? && t.nodes[p].parent.Some?
      invariant k in t.nodes && p in t.nodes && p in t.path && t.nodes[p].TrieNode? && t.nodes[k].parent == Some(p)
      invariant next.None? <==> forall d :: d in t.nodes[p].children ==> d <= t.nodes[k].ch
      invariant next.Some? ==> NextSibling(t.nodes[p].children, t.nodes[k].ch, next.value)
      invariant SamePassed(t, child, k)
      decreases |t.path[p]|
    {
      ParentPassed(t, k, p);
      ParentFacts(t, p);
      k, p := p, t.nodes[p].parent.value;
      next := NextChild(t.nodes[p].children, t.nodes[k].ch);
    }
    if next.None? {
      ParentPassed(t, k, p);
      RootAllPassed(t, p);
      it := END_ITER;
    } else {
      ChildFacts(t, p, next.value);
      it, y := SetMostLeft(t, it0.(tnode := Some(p)), t.nodes[p].children[next.value]);
      SiblingAfter(t, k, p, next.value, y);
    }
  }

  // ---------------------------------------------------------------------------
  // Positions in order
  // ---------------------------------------------------------------------------

  /** Node `x` stores a key of rank `j`. */
  ghost predicate Position<V>(t: Trie<V>, x: Id, j: nat)
    reads t
  {
    Stores(t.shapes, x) && if t.shapes[x].Branch? then j == 0 else j < |t.shapes[x].keys|
  }

  ghost predicate PosBefore<V>(t: Trie<V>, x: Id, j: nat, y: Id, k: nat)
    reads t
  {
    Before(t.shapes, t.path, x, y) || (x == y && j < k)
  }

  /** The iterator stands at the position right after the given one, or at the end after the last. */
  ghost predicate Follows<V>(t: Trie<V>, id: Id, n: nat, it: Iter, y: Id, k: nat)
    reads t, Tables(t.nodes)
  {
    if it.AtEnd() then forall x, j :: Position(t, x, j) ==> PosBefore(t, x, j, id, n) || (x == id && j == n)
    else
      && t.Points(it, y, k)
      && forall x, j :: Position(t, x, j) ==> (PosBefore(t, x, j, y, k) <==> PosBefore(t, x, j, id, n) || (x == id && j == n))
  }

  /** The node is the last key of its own subtree. */
  lemma AfterSubtree<V>(t: Trie<V>, id: Id, n: nat, it: Iter, y: Id)
    requires t.Valid() && id in t.nodes && (t.nodes[id].TrieNode? ==> forall c :: c !in t.nodes[id].children)
    requires if t.nodes[id].TrieNode? then n == 0 else n + 1 == |t.shapes[id].keys|
    requires if it.AtEnd() then AllPassed(t, id) else t.Points(it, y, 0) && RightAfter(t, id, y)
    ensures Follows(t, id, n, it, y, 0)
  {
    hide Trie<V>.Valid, Linked, Passed, Before, Trie<V>.Points;
    NodeFacts(t, id);
    forall x | Stores(t.shapes, x)
      ensures Passed(t.shapes, t.path, id, x) <==> Before(t.shapes, t.path, x, id) || x == id
    {
      AloneUnder(t.shapes, t.path, t.root, id, x);
    }
  }

  lemma AfterOwnValue<V>(t: Trie<V>, id: Id, c: byte, it: Iter, y: Id)
    requires t.Valid() && id in t.nodes && t.nodes[id].TrieNode? && LeastChild(t.nodes[id].children, c)
    requires t.Points(it, y, 0) && FirstUnder(t.shapes, t.path, t.nodes[id].children[c], y) && !it.AtEnd()
    ensures Follows(t, id, 0, it, y, 0)
  {
    hide Trie<V>.Valid, Linked, FirstUnder, Before, Trie<V>.Points;
    NodeFacts(t, id);
    forall x | Stores(t.shapes, x)
      ensures Before(t.shapes, t.path, x, y) <==> Before(t.shapes, t.path, x, id) || x == id
    {
      AfterValue(t.shapes, t.path, t.root, id, c, y, x);
    }
  }

  lemma WithinLeaf<V>(t: Trie<V>, id: Id, n: nat, it: Iter)
    requires t.Points(it, id, n + 1) && !it.AtEnd()
    ensures Follows(t, id, n, it, id, n + 1)
  {
    hide Trie<V>.Points, Before;
  }

  /** After the last key of a node without children: the next subtree, or the end. */
  method AfterLast<V>(t: Trie<V>, it0: Iter, id: Id, ghost n: nat) returns (it: Iter, ghost y: Id)
    requires t.Valid() && id in t.nodes && (t.nodes[id].TrieNode? ==> forall c :: c !in t.nodes[id].children)
    requires if t.nodes[id].TrieNode? then n == 0 else id in t.shapes && t.shapes[id].Leaf? && n + 1 == |t.shapes[id].keys|
    requires it0.tnode == t.nodes[id].parent && !it0.readsValue
    ensures Follows(t, id, n, it, y, 0)
  {
    hide Tree, Stocked, Separate, Mirrored, Located, Passed, Stores, Before, Follows;
    y := id;
    if it0.tnode.Some? {
      it, y := SetNextAscending(t, it0, id);
    } else {
      RootAllPassed(t, id);
      it := END_ITER;
    }
    AfterSubtree(t, id, n, it, y);
  }

  /** From the value of a trie node into its first child. */
  method IntoChild<V>(t: Trie<V>, it0: Iter, id: Id, c: byte) returns (it: Iter, ghost y: Id)
    requires t.Valid() && id in t.nodes && t.nodes[id].TrieNode? && LeastChild(t.nodes[id].children, c)
    requires it0.tnode == Some(id) && !it0.readsValue
    ensures Follows(t, id, 0, it, y, 0)
  {
    hide Tree, Stocked, Separate, Mirrored, FirstUnder, Located, Stores, Before, Follows;
    ChildFacts(t, id, c);
    it, y := SetMostLeft(t, it0, t.nodes[id].children[c]);
    AfterOwnValue(t, id, c, it, y);
  }

  /** From the value of a trie node: its first child, else the next subtree. */
  method NextFromValue<V>(t: Trie<V>, it0: Iter, id: Id) returns (it: Iter, ghost y: Id)
    requires t.Valid() && t.Points(it0, id, 0) && it0.readsValue
    ensures Follows(t, id, 0, it, y, 0)
  {
    hide Tree, Stocked, Separate, Mirrored, Located, Follows, LeastChild;
    var c := FirstChild(t.nodes[id].children);
    if c.Some? {
      it, y := IntoChild(t, it0.(readsValue := false), id, c.value);
    } else {
      it, y := AfterLast(t, it0.(readsValue := false, tnode := t.nodes[id].parent), id, 0);
    }
  }

  /** From a key in a hash node: the next one in its table, else the next subtree. */
  method NextFromTable<V>(t: Trie<V>, it0: Iter, id: Id, ghost n: nat) returns (it: Iter, ghost y: Id, ghost k: nat)
    requires t.Valid() && t.Points(it0, id, n) && !it0.readsValue
    ensures Follows(t, id, n, it, y, k)
  {
    hide Tree, Stocked, Separate, Mirrored, Located, Follows, Table<V>.Valid, Table<V>.Order, Linked, Stores;
    NodeFacts(t, id);
    var cur := t.nodes[id].table.Advance(it0.cursor, n);
    if cur.At? {
      y, k := id, n + 1;
      it := it0.(cursor := cur);
      WithinLeaf(t, id, n, it);
    } else {
      k := 0;
      it, y := AfterLast(t, it0, id, n);
    }
  }

  /** `operator++`. */
  method Next<V>(t: Trie<V>, it0: Iter, ghost id: Id, ghost n: nat) returns (it: Iter, ghost y: Id, ghost k: nat)
    requires t.Valid() && t.Points(it0, id, n)
    ensures Follows(t, id, n, it, y, k)
  {
    hide Tree, Stocked, Separate, Mirrored, Located, Follows;
    k := 0;
    if it0.readsValue {
      it, y := NextFromValue(t, it0, it0.tnode.value);
    } else {
      it, y, k := NextFromTable(t, it0, it0.hnode.value, n);
    }
  }

  // ---------------------------------------------------------------------------
  // Keys of positions
  // ---------------------------------------------------------------------------

  /** The key of rank `j` in node `x` is `k`. */
  ghost predicate KeyIs<V>(t: Trie<V>, x: Id, j: nat, k: Key)
    reads t
  {
    Position(t, x, j) && x in t.path && k == t.KeyAt(x, j)
  }

  lemma KeyOwned<V>(t: Trie<V>, x: Id, j: nat, k: Key)
    requires t.Valid() && KeyIs(t, x, j, k)
    ensures Owns(t.shapes, t.path, x, k) && k in t.contents
    ensures t.shapes[x].Leaf? ==> k[|t.path[x]|..] == t.shapes[x].keys[j]
    ensures t.shapes[x].Leaf? ==> Listed(t.shapes[x].keys, t.shapes[x].vals)
  {
    hide Linked, Stocked, Mirrored;
    StockedAt(t.shapes, t.burst, x);
    if t.shapes[x].Leaf? {
      assert k[|t.path[x]|..] == t.shapes[x].keys[j];
    }
    OwnsInMap(t.shapes, t.path, t.contents, x, k);
  }

  /** A key has one position. */
  lemma OnePosition<V>(t: Trie<V>, x: Id, j: nat, y: Id, i: nat, k: Key)
    requires t.Valid() && KeyIs(t, x, j, k) && KeyIs(t, y, i, k)
    ensures x == y && j == i
  {
    hide Trie<V>.Valid, Linked;
    KeyOwned(t, x, j, k);
    KeyOwned(t, y, i, k);
    SameIds(t);
    NodeFacts(t, x);
    OwnerUnique(t.shapes, t.path, t.root, x, y, k);
  }

  /** Every stored key has a position. */
  lemma SomePosition<V>(t: Trie<V>, k: Key) returns (x: Id, j: nat)
    requires t.Valid() && k in t.contents
    ensures KeyIs(t, x, j, k)
  {
    hide Linked, Stocked, Mirrored;
    x := OwnerOf(t.shapes, t.path, t.contents, k);
    j := 0;
    StockedAt(t.shapes, t.burst, x);
    if t.shapes[x].Leaf? {
      var rest := k[|t.path[x]|..];
      j :| 0 <= j < |t.shapes[x].keys| && t.shapes[x].keys[j] == rest;
      assert k == t.path[x] + rest;
    }
  }

  lemma PointsKey<V>(t: Trie<V>, it: Iter, id: Id, n: nat)
    requires t.Valid() && t.Points(it, id, n)
    ensures id in t.path && Position(t, id, n) && KeyIs(t, id, n, t.KeyAt(id, n))
  {
    hide Trie<V>.Valid, Linked, Located;
    NodeFacts(t, id);
    t.PointsInside(it, id, n);
  }

  /** Under every node there is a stored key. */
  lemma {:induction false} SomeKey<V>(t: Trie<V>, id: Id, depth: nat)
    requires t.Valid() && id in t.nodes && id in t.path && DepthBound(t.nodes.Keys, t.path, depth)
    ensures t.contents != map[]
    decreases depth - |t.path[id]|
  {
    hide Trie<V>.Valid, Linked;
    NodeFacts(t, id);
    if Stores(t.shapes, id) {
      KeyOwned(t, id, 0, t.KeyAt(id, 0));
    } else {
      var c :| c in t.nodes[id].children;
      ChildFacts(t, id, c);
      SomeKey(t, t.nodes[id].children[c], depth);
    }
  }

  /** There is a root exactly when something is stored. */
  lemma RootIff<V>(t: Trie<V>)
    requires t.Valid()
    ensures t.root.None? <==> t.contents == map[]
  {
    hide Tree, Stocked, Separate, Mirrored;
    t.RootStep();
    if t.root.Some? {
      var depth := MaxDepth(t.nodes.Keys, t.path);
      SomeKey(t, t.root.value, depth);
    }
  }

  // ---------------------------------------------------------------------------
  // The key of an iterator
  // ---------------------------------------------------------------------------

  function Reversed(s: Key): (r: Key)
    ensures |r| == |s|
  {
    if s == [] then [] else [s[|s| - 1]] + Reversed(s[..|s| - 1])
  }

  lemma ReversedPush(s: Key, c: byte)
    ensures Reversed(s + [c]) == [c] + Reversed(s)
  {
    assert (s + [c])[..|s|] == s;
  }

  /** The path of a trie node, collected upwards and reversed. */
  method PathOf<V>(t: Trie<V>, start: Id) returns (key: Key)
    requires t.Valid() && start in t.nodes && start in t.path
    ensures key == t.path[start]
  {
    hide Tree, Stocked, Separate, Mirrored;
    var buffer: Key := [];
    var cur := start;
    while t.nodes[cur].parent.Some?
      invariant cur in t.nodes && cur in t.path && t.path[start] == t.path[cur] + Reversed(buffer)
      decreases |t.path[cur]|
    {
      ParentFacts(t, cur);
      ReversedPush(buffer, t.nodes[cur].ch);
      buffer := buffer + [t.nodes[cur].ch];
      cur := t.nodes[cur].parent.value;
    }
    RootPathEmpty(t, cur);
    key := Reversed(buffer);
  }

  /** `key`: rebuilt from the parent links and, in a hash node, the table. */
  method KeyOf<V>(t: Trie<V>, it: Iter, ghost id: Id, ghost n: nat) returns (key: Key)
    requires t.Valid() && t.Points(it, id, n)
    ensures KeyIs(t, id, n, key)
  {
    hide Tree, Stocked, Separate, Mirrored, Located, Position, Table<V>.Valid;
    PointsKey(t, it, id, n);
    NodeFacts(t, id);
    key := [];
    if it.tnode.Some? {
      if !it.readsValue {
        ParentFacts(t, id);
      }
      key := PathOf(t, it.tnode.value);
    }
    if !it.readsValue {
      var h := it.hnode.value;
      if t.nodes[h].parent.Some? {
        key := key + [t.nodes[h].ch];
      } else {
        RootPathEmpty(t, h);
      }
      var rest := t.nodes[h].table.KeyUnder(it.cursor, n);
      key := key + rest;
    }
  }

  // ---------------------------------------------------------------------------
  // The whole walk
  // ---------------------------------------------------------------------------

  /** `begin`: the first position, or the end of an empty map. */
  method First<V>(t: Trie<V>) returns (it: Iter, ghost y: Id)
    requires t.Valid()
    ensures it.AtEnd() ==> t.contents == map[]
    ensures !it.AtEnd() ==> t.Points(it, y, 0) && forall x, j :: Position(t, x, j) ==> !PosBefore(t, x, j, y, 0)
  {
    hide Tree, Stocked, Separate, Mirrored, Located, FirstUnder, Before, Stores;
    y := 0;
    if t.nb == 0 {
      return END_ITER, 0;
    }
    t.RootStep();
    RootParent(t);
    it, y := SetMostLeft(t, END_ITER, t.root.value);
    FirstOfAll(t, t.root.value, y);
  }

  lemma RootParent<V>(t: Trie<V>)
    requires t.Valid() && t.root.Some?
    ensures t.root.value in t.nodes && t.nodes[t.root.value].parent.None?
  {
    hide Up, Down, Represents, Stocked, Mirrored;
    NodeFacts(t, t.root.value);
  }

  lemma FirstOfAll<V>(t: Trie<V>, r: Id, y: Id)
    requires t.Valid() && r in t.nodes && r in t.path && t.path[r] == [] && FirstUnder(t.shapes, t.path, r, y)
    ensures forall x, j :: Position(t, x, j) ==> !PosBefore(t, x, j, y, 0)
  {
    hide Trie<V>.Valid, Linked, Less;
    SameIds(t);
    forall x | Stores(t.shapes, x)
      ensures !Before(t.shapes, t.path, x, y)
    {
      NodeFacts(t, x);
      if x == y {
        Irreflexive(t.path[x]);
      } else {
        assert Under(t.path, r, x);
        Asymmetric(t.path[y], t.path[x]);
      }
    }
  }

  /** The walk has come past this position. */
  ghost predicate Reached<V>(t: Trie<V>, it: Iter, id: Id, n: nat, x: Id, j: nat)
    reads t
  {
    it.AtEnd() || PosBefore(t, x, j, id, n)
  }

  /** The keys of all positions come past, each once. */
  ghost predicate Seen<V>(t: Trie<V>, keys: seq<Key>, it: Iter, id: Id, n: nat)
    reads t
  {
    && (forall x, j, k :: KeyIs(t, x, j, k) && Reached(t, it, id, n, x, j) ==> k in keys)
    && (forall k :: k in keys ==> exists x, j :: KeyIs(t, x, j, k) && Reached(t, it, id, n, x, j))
    && (forall i, j :: 0 <= i < j < |keys| ==> keys[i] != keys[j])
  }

  lemma SeenStep<V>(t: Trie<V>, keys: seq<Key>, it: Iter, id: Id, n: nat, key: Key, it': Iter, y: Id, m: nat)
    requires t.Valid() && !it.AtEnd() && Seen(t, keys, it, id, n) && KeyIs(t, id, n, key) && Follows(t, id, n, it', y, m)
    ensures Seen(t, keys + [key], it', y, m)
  {
    hide Trie<V>.Valid, Before, Position, Trie<V>.KeyAt, Trie<V>.Points;
    var more := keys + [key];
    assert key !in keys by {
      if key in keys {
        var x, j :| KeyIs(t, x, j, key) && Reached(t, it, id, n, x, j);
        OnePosition(t, x, j, id, n, key);
        NotBeforeSelf(t, id, n);
      }
    }
    forall x, j, k | KeyIs(t, x, j, k) && Reached(t, it', y, m, x, j)
      ensures k in more
    {
      if x == id && j == n {
        OnePositionKey(t, x, j, k, key);
      } else {
        assert Reached(t, it, id, n, x, j);
      }
    }
    forall k | k in more
      ensures exists x, j :: KeyIs(t, x, j, k) && Reached(t, it', y, m, x, j)
    {
      if k == key {
        assert Reached(t, it', y, m, id, n);
      } else {
        var x, j :| KeyIs(t, x, j, k) && Reached(t, it, id, n, x, j);
        assert Reached(t, it', y, m, x, j);
      }
    }
  }

  lemma OnePositionKey<V>(t: Trie<V>, x: Id, j: nat, k: Key, k': Key)
    requires KeyIs(t, x, j, k) && KeyIs(t, x, j, k')
    ensures k == k'
  {
  }

  lemma NotBeforeSelf<V>(t: Trie<V>, id: Id, n: nat)
    ensures !PosBefore(t, id, n, id, n)
  {
    hide Less;
    if id in t.path {
      Irreflexive(t.path[id]);
    }
  }

  /** Iterating from `begin` to `end` visits every stored key exactly once. */
  method Walk<V>(t: Trie<V>) returns (keys: seq<Key>)
    requires t.Valid()
    ensures forall k :: k in t.contents <==> k in keys
    ensures forall i, j :: 0 <= i < j < |keys| ==> keys[i] != keys[j]
  {
    hide Tree, Stocked, Separate, Mirrored, Located, Before, Follows, Seen, Position, KeyIs;
    keys := [];
    var it, id := First(t);
    ghost var n := 0;
    SeenFirst(t, it, id);
    while !it.AtEnd()
      invariant it.AtEnd() || t.Points(it, id, n)
      invariant Seen(t, keys, it, id, n)
      decreases |t.contents| - |keys|, if it.AtEnd() then 0 else 1
    {
      SeenCount(t, keys, it, id, n);
      var key := KeyOf(t, it, id, n);
      ghost var i, y, m := it, id, n;
      it, id, n := Next(t, it, id, n);
      FollowsPoints(t, y, m, it, id, n);
      SeenStep(t, keys, i, y, m, key, it, id, n);
      keys := keys + [key];
      SeenCount(t, keys, it, id, n);
    }
    SeenAll(t, keys, it, id, n);
  }

  lemma FollowsPoints<V>(t: Trie<V>, id: Id, n: nat, it: Iter, y: Id, k: nat)
    requires Follows(t, id, n, it, y, k)
    ensures it.AtEnd() || t.Points(it, y, k)
  {
    hide PosBefore, Position;
  }

  lemma SeenFirst<V>(t: Trie<V>, it: Iter, y: Id)
    requires t.Valid()
    requires it.AtEnd() ==> t.contents == map[]
    requires !it.AtEnd() ==> forall x, j :: Position(t, x, j) ==> !PosBefore(t, x, j, y, 0)
    ensures Seen(t, [], it, y, 0)
  {
    hide Trie<V>.Valid, Position, PosBefore;
    forall x, j, k | KeyIs(t, x, j, k) && Reached(t, it, y, 0, x, j)
      ensures false
    {
      KeyOwned(t, x, j, k);
    }
  }

  lemma SeenCount<V>(t: Trie<V>, keys: seq<Key>, it: Iter, id: Id, n: nat)
    requires t.Valid() && Seen(t, keys, it, id, n)
    ensures |keys| <= |t.contents|
  {
    hide Trie<V>.Valid, Position, PosBefore, KeyIs;
    forall k | k in keys
      ensures k in t.contents
    {
      var x, j :| KeyIs(t, x, j, k) && Reached(t, it, id, n, x, j);
      KeyOwned(t, x, j, k);
    }
    DistinctCount(keys, t.contents.Keys);
  }

  lemma {:induction false} DistinctCount(keys: seq<Key>, all: set<Key>)
    requires forall k :: k in keys ==> k in all
    requires forall i, j :: 0 <= i < j < |keys| ==> keys[i] != keys[j]
    ensures |keys| <= |all|
  {
    if keys != [] {
      var last := keys[|keys| - 1];
      DistinctCount(keys[..|keys| - 1], all - {last});
    }
  }

  lemma SeenAll<V>(t: Trie<V>, keys: seq<Key>, it: Iter, id: Id, n: nat)
    requires t.Valid() && Seen(t, keys, it, id, n) && it.AtEnd()
    ensures forall k :: k in t.contents <==> k in keys
    ensures forall i, j :: 0 <= i < j < |keys| ==> keys[i] != keys[j]
  {
    hide Trie<V>.Valid, Position, PosBefore, KeyIs;
    forall k | k in keys
      ensures k in t.contents
    {
      var x, j :| KeyIs(t, x, j, k) && Reached(t, it, id, n, x, j);
      KeyOwned(t, x, j, k);
    }
    forall k | k in t.contents
      ensures k in keys
    {
      var x, j := SomePosition(t, k);
      assert Reached(t, it, id, n, x, j);
    }
  }
}

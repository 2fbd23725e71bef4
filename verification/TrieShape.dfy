/**
 The shape of a HAT-trie. Nodes have addresses; every node records its parent
 and the character it hangs from, every inner node its children by character.
 Leaves hold the rest of their keys.

 `path` gives, for each node, the characters from the root down to it.
 */
module TrieShape {
  import opened Options
  import opened ArrayBucket

  type Id = nat

  datatype Shape<V> =
    | Branch(parent: Option<Id>, ch: byte, value: Option<V>, children: map<byte, Id>)
    | Leaf(parent: Option<Id>, ch: byte, keys: seq<Key>, vals: map<Key, V>)

  type Shapes<V> = map<Id, Shape<V>>

  type Paths = map<Id, Key>

  // ---------------------------------------------------------------------------
  // Links
  // ---------------------------------------------------------------------------

  /** The node hangs where it says it does. */
  ghost predicate Up<V>(ns: Shapes<V>, path: Paths, id: Id)
    requires id in ns
  {
    && id in path
    && match ns[id].parent
       case None => path[id] == []
       case Some(p) =>
         && p in ns && p in path && ns[p].Branch?
         && ns[id].ch in ns[p].children && ns[p].children[ns[id].ch] == id
         && path[id] == path[p] + [ns[id].ch]
  }

  /** The children of the node know it as their parent. */
  ghost predicate Down<V>(ns: Shapes<V>, id: Id)
    requires id in ns
  {
    ns[id].Branch? ==>
      forall c :: c in ns[id].children ==>
        var k := ns[id].children[c]; k in ns && ns[k].parent == Some(id) && ns[k].ch == c
  }

  ghost predicate Linked<V>(ns: Shapes<V>, path: Paths, root: Option<Id>) {
    && (forall id :: id in ns ==> Up(ns, path, id) && Down(ns, id))
    && (root.None? ==> forall id :: id !in ns)
    && (root.Some? ==> root.value in ns && ns[root.value].parent == None)
    && (forall id :: id in ns && ns[id].parent == None ==> root == Some(id))
  }

  /** No two nodes lie at the end of the same path. */
  lemma {:induction false} PathUnique<V>(ns: Shapes<V>, path: Paths, root: Option<Id>, a: Id, b: Id)
    requires Linked(ns, path, root) && a in ns && b in ns && path[a] == path[b]
    ensures a == b
    decreases |path[a]|
  {
    assert Up(ns, path, a) && Up(ns, path, b);
    if ns[a].parent.Some? && ns[b].parent.Some? {
      var p, q := ns[a].parent.value, ns[b].parent.value;
      LastStep(path[p], ns[a].ch, path[q], ns[b].ch);
      PathUnique(ns, path, root, p, q);
    }
  }

  lemma LastStep<T>(s: seq<T>, x: T, t: seq<T>, y: T)
    requires s + [x] == t + [y]
    ensures s == t && x == y
  {
    assert |s + [x]| == |t + [y]|;
    assert (s + [x])[..|s|] == s && (t + [y])[..|s|] == t;
    assert (s + [x])[|s|] == x && (t + [y])[|t|] == y;
  }

  /** The node on the path to `id` after `n` characters. */
  lemma {:induction false} Ancestor<V>(ns: Shapes<V>, path: Paths, root: Option<Id>, id: Id, n: nat) returns (a: Id)
    requires Linked(ns, path, root) && id in ns && n <= |path[id]|
    ensures a in ns && a in path && path[a] == path[id][..n]
    ensures n < |path[id]| ==> ns[a].Branch? && path[id][n] in ns[a].children
    decreases |path[id]| - n, |path[id]|
  {
    assert Up(ns, path, id);
    if n == |path[id]| {
      a := id;
      assert path[id][..n] == path[id];
    } else {
      var p := ns[id].parent.value;
      assert path[p] == path[id][..|path[p]|];
      if n == |path[p]| {
        a := p;
      } else {
        a := Ancestor(ns, path, root, p, n);
        assert path[p][..n] == path[id][..n];
      }
    }
  }

  /** Only the root has an empty path. */
  lemma RootPath<V>(ns: Shapes<V>, path: Paths, root: Option<Id>, id: Id)
    requires Linked(ns, path, root) && id in ns
    ensures path[id] == [] <==> root == Some(id)
  {
    assert Up(ns, path, id);
  }

  // ---------------------------------------------------------------------------
  // Contents
  // ---------------------------------------------------------------------------

  /** The node stores this key. */
  ghost predicate Owns<V>(ns: Shapes<V>, path: Paths, id: Id, k: Key) {
    && id in ns && id in path
    && match ns[id]
       case Branch(_, _, value, _) => value.Some? && path[id] == k
       case Leaf(_, _, _, vals) => path[id] <= k && k[|path[id]|..] in vals
  }

  ghost function OwnedValue<V>(ns: Shapes<V>, path: Paths, id: Id, k: Key): V
    requires Owns(ns, path, id, k)
  {
    match ns[id]
    case Branch(_, _, value, _) => value.value
    case Leaf(_, _, _, vals) => vals[k[|path[id]|..]]
  }

  ghost predicate Owned<V>(ns: Shapes<V>, path: Paths, k: Key) {
    exists id :: Owns(ns, path, id, k)
  }

  /** The nodes together store exactly this map. */
  ghost predicate Represents<V>(ns: Shapes<V>, path: Paths, m: map<Key, V>) {
    && (forall id, k :: Owns(ns, path, id, k) ==> k in m && m[k] == OwnedValue(ns, path, id, k))
    && (forall k :: k in m ==> Owned(ns, path, k))
  }

  /** A leaf that stores a key is not above another node on the way to the key. */
  lemma OwnerNotAbove<V>(ns: Shapes<V>, path: Paths, root: Option<Id>, cur: Id, k: Key, o: Id)
    requires Linked(ns, path, root) && cur in ns && cur in path && path[cur] <= k && Owns(ns, path, o, k)
    ensures |path[cur]| <= |path[o]|
  {
    hide Linked;
    var n := |path[o]|;
    if n < |path[cur]| {
      var a := Ancestor(ns, path, root, cur, n);
      assert path[cur][..n] == k[..n] == path[o];
      PathUnique(ns, path, root, a, o);
    }
  }

  /** A key that continues the path of a node is stored at that node or below it. */
  lemma OwnerBelow<V>(ns: Shapes<V>, path: Paths, root: Option<Id>, cur: Id, k: Key, o: Id)
    requires Linked(ns, path, root) && cur in ns && cur in path && path[cur] <= k && Owns(ns, path, o, k)
    ensures path[cur] <= path[o] <= k
    ensures ns[cur].Leaf? ==> o == cur
    ensures ns[cur].Branch? && |k| == |path[cur]| ==> o == cur
    ensures ns[cur].Branch? && |k| > |path[cur]| ==> o != cur && k[|path[cur]|] in ns[cur].children
  {
    hide Linked;
    var n := |path[cur]|;
    OwnerNotAbove(ns, path, root, cur, k, o);
    assert path[o][..n] == k[..n] == path[cur];
    if |path[o]| == n {
      assert path[o][..n] == path[o];
      PathUnique(ns, path, root, o, cur);
    } else {
      var a := Ancestor(ns, path, root, o, n);
      PathUnique(ns, path, root, a, cur);
    }
  }

  /** No key is stored in two nodes. */
  lemma OwnerUnique<V>(ns: Shapes<V>, path: Paths, root: Option<Id>, a: Id, b: Id, k: Key)
    requires Linked(ns, path, root) && Owns(ns, path, a, k) && Owns(ns, path, b, k)
    ensures a == b
  {
    OwnerBelow(ns, path, root, a, k, b);
  }

  lemma OwnsInMap<V>(ns: Shapes<V>, path: Paths, m: map<Key, V>, id: Id, k: Key)
    requires Represents(ns, path, m) && Owns(ns, path, id, k)
    ensures k in m && m[k] == OwnedValue(ns, path, id, k)
  {
    hide Owns, OwnedValue, Owned;
  }

  lemma OwnedBy<V>(ns: Shapes<V>, path: Paths, id: Id, k: Key)
    requires Owns(ns, path, id, k)
    ensures Owned(ns, path, k)
  {
    hide Owns;
  }

  lemma OwnerOf<V>(ns: Shapes<V>, path: Paths, m: map<Key, V>, k: Key) returns (id: Id)
    requires Represents(ns, path, m) && k in m
    ensures Owns(ns, path, id, k) && m[k] == OwnedValue(ns, path, id, k)
  {
    hide Owns, OwnedValue;
    assert Owned(ns, path, k);
    id :| Owns(ns, path, id, k);
  }

  lemma StoresExactly<V>(ms: Shapes<V>, path': Paths, m: map<Key, V>)
    requires forall x, k :: Owns(ms, path', x, k) ==> k in m && m[k] == OwnedValue(ms, path', x, k)
    requires forall k :: k in m ==> Owned(ms, path', k)
    ensures Represents(ms, path', m)
  {
    hide Owns, OwnedValue, Owned;
  }

  // ---------------------------------------------------------------------------
  // No empty nodes
  // ---------------------------------------------------------------------------

  /** The leaf lists its keys, each once. */
  ghost predicate Listed<V>(keys: seq<Key>, vals: map<Key, V>) {
    && |keys| == |vals|
    && (forall k :: k in vals <==> k in keys)
    && (forall i, j :: 0 <= i < j < |keys| ==> keys[i] != keys[j])
  }

  predicate Empty<V>(s: Shape<V>) {
    match s
    case Branch(_, _, value, children) => value.None? && |children| == 0
    case Leaf(_, _, keys, _) => keys == []
  }

  /** Every inner node has a value or a child; every leaf holds up to `burst` keys. */
  ghost predicate Stocked<V>(ns: Shapes<V>, burst: nat) {
    forall id :: id in ns ==>
      && !Empty(ns[id])
      && (ns[id].Leaf? ==> Listed(ns[id].keys, ns[id].vals) && |ns[id].keys| <= burst)
  }

  // ---------------------------------------------------------------------------
  // Changes that keep the links
  // ---------------------------------------------------------------------------

  /** Only the contents of one node change. */
  ghost predicate SameLinks<V>(s: Shape<V>, t: Shape<V>) {
    && s.parent == t.parent && s.ch == t.ch
    && (s.Branch? <==> t.Branch?) && (s.Branch? ==> s.children == t.children)
  }

  lemma Links<V>(ns: Shapes<V>, path: Paths, root: Option<Id>, id: Id)
    requires Linked(ns, path, root) && id in ns
    ensures Up(ns, path, id) && Down(ns, id) && id in path
  {
    hide Down;
  }

  lemma ContentChangeLinks<V>(ns: Shapes<V>, path: Paths, root: Option<Id>, id: Id, t: Shape<V>, x: Id)
    requires Linked(ns, path, root) && id in ns && x in ns && SameLinks(ns[id], t)
    ensures Up(ns[id := t], path, x) && Down(ns[id := t], x)
  {
    hide Linked;
    Links(ns, path, root, x);
  }

  lemma ContentChangeLinked<V>(ns: Shapes<V>, path: Paths, root: Option<Id>, id: Id, t: Shape<V>)
    requires Linked(ns, path, root) && id in ns && SameLinks(ns[id], t)
    ensures Linked(ns[id := t], path, root)
  {
    hide Up, Down;
    forall x | x in ns
      ensures Up(ns[id := t], path, x) && Down(ns[id := t], x)
    {
      ContentChangeLinks(ns, path, root, id, t, x);
    }
  }

  /** What the map must become when only keys that continue `front` change. */
  ghost predicate Rewritten<V>(m: map<Key, V>, m': map<Key, V>, front: Key, vals: map<Key, V>) {
    && (forall k :: k in m' <==> if front <= k then k[|front|..] in vals else k in m)
    && (forall k :: k in m' ==> m'[k] == if front <= k then vals[k[|front|..]] else m[k])
  }

  /** A leaf takes new keys: only keys that continue its path are affected. */
  lemma LeafChange<V>(ns: Shapes<V>, path: Paths, root: Option<Id>, m: map<Key, V>, id: Id, t: Shape<V>, m': map<Key, V>)
    requires Linked(ns, path, root) && Represents(ns, path, m) && id in ns && id in path
    requires ns[id].Leaf? && SameLinks(ns[id], t) && Rewritten(m, m', path[id], t.vals)
    ensures Linked(ns[id := t], path, root) && Represents(ns[id := t], path, m')
  {
    hide Linked;
    ContentChangeLinked(ns, path, root, id, t);
    var ms := ns[id := t];
    forall x, k | Owns(ms, path, x, k)
      ensures k in m' && m'[k] == OwnedValue(ms, path, x, k)
    {
      if x != id {
        assert Owns(ns, path, x, k);
        if path[id] <= k {
          OwnerBelow(ns, path, root, id, k, x);
        }
      }
    }
    forall k | k in m'
      ensures Owned(ms, path, k)
    {
      LeafChangeOwned(ns, path, m, id, t, m', k);
    }
  }

  lemma LeafChangeOwned<V>(ns: Shapes<V>, path: Paths, m: map<Key, V>, id: Id, t: Shape<V>, m': map<Key, V>, k: Key)
    requires Represents(ns, path, m) && id in ns && id in path && ns[id].Leaf? && t.Leaf?
    requires Rewritten(m, m', path[id], t.vals) && k in m'
    ensures Owned(ns[id := t], path, k)
  {
    if path[id] <= k {
      assert Owns(ns[id := t], path, id, k);
    } else {
      assert Owned(ns, path, k);
      var x :| Owns(ns, path, x, k);
      assert Owns(ns[id := t], path, x, k);
    }
  }

  /** The keys of the map that continue the path of a leaf are the keys of the leaf. */
  lemma LeafContents<V>(ns: Shapes<V>, path: Paths, root: Option<Id>, m: map<Key, V>, id: Id)
    requires Linked(ns, path, root) && Represents(ns, path, m) && id in ns && id in path && ns[id].Leaf?
    ensures Rewritten(m, m, path[id], ns[id].vals)
  {
    hide Linked;
    forall k | path[id] <= k
      ensures k in m <==> k[|path[id]|..] in ns[id].vals
      ensures k in m ==> m[k] == ns[id].vals[k[|path[id]|..]]
    {
      if k in m {
        var o := OwnerOf(ns, path, m, k);
        OwnerBelow(ns, path, root, id, k, o);
      } else {
        assert !Owns(ns, path, id, k);
      }
    }
  }

  lemma RewrittenPut<V>(m: map<Key, V>, front: Key, vals: map<Key, V>, rest: Key, v: V)
    requires Rewritten(m, m, front, vals)
    ensures Rewritten(m, m[front + rest := v], front, vals[rest := v])
  {
    assert (front + rest)[|front|..] == rest;
    assert forall k: Key :: front <= k && k[|front|..] == rest ==> k == front + rest;
  }

  lemma RewrittenDrop<V>(m: map<Key, V>, front: Key, vals: map<Key, V>, rest: Key)
    requires Rewritten(m, m, front, vals)
    ensures Rewritten(m, m - {front + rest}, front, vals - {rest})
  {
    assert (front + rest)[|front|..] == rest;
    assert forall k: Key :: front <= k && k[|front|..] == rest ==> k == front + rest;
  }

  /** The value of an inner node comes or goes. */
  lemma ValueChange<V>(ns: Shapes<V>, path: Paths, root: Option<Id>, m: map<Key, V>, id: Id, value: Option<V>, m': map<Key, V>)
    requires Linked(ns, path, root) && Represents(ns, path, m) && id in ns && id in path && ns[id].Branch?
    requires m' == if value.Some? then m[path[id] := value.value] else m - {path[id]}
    ensures Linked(ns[id := ns[id].(value := value)], path, root)
    ensures Represents(ns[id := ns[id].(value := value)], path, m')
  {
    hide Linked;
    var ms := ns[id := ns[id].(value := value)];
    ContentChangeLinked(ns, path, root, id, ns[id].(value := value));
    forall x, k | Owns(ms, path, x, k)
      ensures k in m' && m'[k] == OwnedValue(ms, path, x, k)
    {
      if x != id {
        assert Owns(ns, path, x, k);
        if k == path[id] {
          OwnerBelow(ns, path, root, id, k, x);
        }
      }
    }
    forall k | k in m'
      ensures Owned(ms, path, k)
    {
      if k == path[id] {
        assert Owns(ms, path, id, k);
      } else {
        assert Owned(ns, path, k);
        var x :| Owns(ns, path, x, k);
        assert Owns(ms, path, x, k);
      }
    }
  }

  // ---------------------------------------------------------------------------
  // A new leaf
  // ---------------------------------------------------------------------------

  function WithChild<V>(s: Shape<V>, c: byte, id: Id): (t: Shape<V>)
    requires s.Branch?
  {
    s.(children := s.children[c := id])
  }

  /** A leaf is hung from an inner node that had no child for its character. */
  ghost predicate Hung<V>(ns: Shapes<V>, path: Paths, ms: Shapes<V>, path': Paths, p: Id, id: Id, leaf: Shape<V>) {
    && p in ns && p in path && ns[p].Branch? && id !in ns
    && leaf.Leaf? && leaf.parent == Some(p) && leaf.ch !in ns[p].children
    && ms == ns[p := WithChild(ns[p], leaf.ch, id)][id := leaf]
    && path' == path[id := path[p] + [leaf.ch]]
  }

  lemma HungLinks<V>(ns: Shapes<V>, path: Paths, root: Option<Id>, ms: Shapes<V>, path': Paths, p: Id, id: Id, leaf: Shape<V>, x: Id)
    requires Linked(ns, path, root) && Hung(ns, path, ms, path', p, id, leaf) && x in ms
    ensures Up(ms, path', x) && Down(ms, x)
  {
    hide Linked;
    Links(ns, path, root, p);
    if x != id {
      Links(ns, path, root, x);
    }
  }

  lemma HungOthers<V>(ns: Shapes<V>, path: Paths, ms: Shapes<V>, path': Paths, p: Id, id: Id, leaf: Shape<V>, x: Id, k: Key)
    requires Hung(ns, path, ms, path', p, id, leaf) && x != id
    ensures Owns(ms, path', x, k) <==> Owns(ns, path, x, k)
    ensures Owns(ns, path, x, k) ==> OwnedValue(ms, path', x, k) == OwnedValue(ns, path, x, k)
  {
  }

  lemma LeafHung<V>(ns: Shapes<V>, path: Paths, root: Option<Id>, m: map<Key, V>, ms: Shapes<V>, path': Paths,
                    p: Id, id: Id, leaf: Shape<V>, m': map<Key, V>)
    requires Linked(ns, path, root) && Represents(ns, path, m) && Hung(ns, path, ms, path', p, id, leaf)
    requires Rewritten(m, m', path[p] + [leaf.ch], leaf.vals)
    ensures Linked(ms, path', root) && Represents(ms, path', m')
  {
    HungLinked(ns, path, root, ms, path', p, id, leaf);
    hide *;
    forall x, k | Owns(ms, path', x, k)
      ensures k in m' && m'[k] == OwnedValue(ms, path', x, k)
    {
      HungOwns(ns, path, root, m, ms, path', p, id, leaf, m', x, k);
    }
    forall k | k in m'
      ensures Owned(ms, path', k)
    {
      HungOwned(ns, path, m, ms, path', p, id, leaf, m', k);
    }
    StoresExactly(ms, path', m');
  }

  lemma HungLinked<V>(ns: Shapes<V>, path: Paths, root: Option<Id>, ms: Shapes<V>, path': Paths, p: Id, id: Id, leaf: Shape<V>)
    requires Linked(ns, path, root) && Hung(ns, path, ms, path', p, id, leaf)
    ensures Linked(ms, path', root)
  {
    hide Up, Down;
    forall x | x in ms
      ensures Up(ms, path', x) && Down(ms, x)
    {
      HungLinks(ns, path, root, ms, path', p, id, leaf, x);
    }
  }

  lemma HungOwns<V>(ns: Shapes<V>, path: Paths, root: Option<Id>, m: map<Key, V>, ms: Shapes<V>, path': Paths,
                    p: Id, id: Id, leaf: Shape<V>, m': map<Key, V>, x: Id, k: Key)
    requires Linked(ns, path, root) && Represents(ns, path, m) && Hung(ns, path, ms, path', p, id, leaf)
    requires Rewritten(m, m', path[p] + [leaf.ch], leaf.vals) && Owns(ms, path', x, k)
    ensures k in m' && m'[k] == OwnedValue(ms, path', x, k)
  {
    hide Linked;
    if x != id {
      HungOthers(ns, path, ms, path', p, id, leaf, x, k);
      if path[p] + [leaf.ch] <= k {
        assert k[|path[p]|] == leaf.ch && path[p] <= k;
        OwnerBelow(ns, path, root, p, k, x);
      }
    }
  }

  lemma HungOwned<V>(ns: Shapes<V>, path: Paths, m: map<Key, V>, ms: Shapes<V>, path': Paths,
                     p: Id, id: Id, leaf: Shape<V>, m': map<Key, V>, k: Key)
    requires Represents(ns, path, m) && Hung(ns, path, ms, path', p, id, leaf)
    requires Rewritten(m, m', path[p] + [leaf.ch], leaf.vals) && k in m'
    ensures Owned(ms, path', k)
  {
    if path[p] + [leaf.ch] <= k {
      assert Owns(ms, path', id, k);
    } else {
      assert Owned(ns, path, k);
      var x :| Owns(ns, path, x, k);
      HungOthers(ns, path, ms, path', p, id, leaf, x, k);
    }
  }

  // ---------------------------------------------------------------------------
  // Burst
  // ---------------------------------------------------------------------------

  /** The address of the new child for a character, next to that of the new node. */
  function KidId(b: Id, c: byte): Id {
    b + 1 + c as nat
  }

  /** The keys of a leaf by first character: `leaves[c]` holds what follows `c`. */
  ghost predicate Split<V>(vals: map<Key, V>, value: Option<V>, leaves: map<byte, map<Key, V>>) {
    && ([] in vals <==> value.Some?) && (value.Some? ==> vals[[]] == value.value)
    && (forall k :: k in vals && k != [] ==> k[0] in leaves && k[1..] in leaves[k[0]] && leaves[k[0]][k[1..]] == vals[k])
    && (forall c, r :: c in leaves && r in leaves[c] ==> [c] + r in vals)
  }

  /** A parent that pointed to the old leaf points to the new node. */
  function Redirected<V>(s: Shape<V>, ch: byte, b: Id): Shape<V> {
    if s.Branch? then WithChild(s, ch, b) else s
  }

  ghost predicate Burst<V>(ns: Shapes<V>, path: Paths, ms: Shapes<V>, path': Paths, l: Id, b: Id,
                           value: Option<V>, kids: map<byte, Shape<V>>)
  {
    && l in ns && l in path && ns[l].Leaf?
    && (forall x :: x in ns ==> x < b)
    && (forall c :: c in kids ==> kids[c].Leaf? && kids[c].parent == Some(b) && kids[c].ch == c)
    && (forall x :: x in ms ==> x == b || (x in ns && x != l) || exists c :: c in kids && x == KidId(b, c))
    && (forall x :: x in ns && x != l ==>
          x in ms && ms[x] == if ns[l].parent == Some(x) then Redirected(ns[x], ns[l].ch, b) else ns[x])
    && b in ms && ms[b] == Branch(ns[l].parent, ns[l].ch, value, map c | c in kids :: KidId(b, c))
    && (forall c :: c in kids ==> KidId(b, c) in ms && ms[KidId(b, c)] == kids[c])
    && (forall x :: x in ns && x in path ==> x in path' && path'[x] == path[x])
    && b in path' && path'[b] == path[l]
    && (forall c :: c in kids ==> KidId(b, c) in path' && path'[KidId(b, c)] == path[l] + [c])
  }

  /** The root moves with a bursting root. */
  function BurstRoot<V>(ns: Shapes<V>, root: Option<Id>, l: Id, b: Id): Option<Id>
    requires l in ns
  {
    if ns[l].parent.None? then Some(b) else root
  }

  lemma BurstLinks<V>(ns: Shapes<V>, path: Paths, root: Option<Id>, ms: Shapes<V>, path': Paths, l: Id, b: Id,
                      value: Option<V>, kids: map<byte, Shape<V>>, x: Id)
    requires Linked(ns, path, root) && Burst(ns, path, ms, path', l, b, value, kids) && x in ms
    ensures Up(ms, path', x)
  {
    hide Linked, Down;
    Links(ns, path, root, l);
    if x in ns && x != l {
      Links(ns, path, root, x);
    }
  }

  lemma BurstLinksDown<V>(ns: Shapes<V>, path: Paths, root: Option<Id>, ms: Shapes<V>, path': Paths, l: Id, b: Id,
                          value: Option<V>, kids: map<byte, Shape<V>>, x: Id)
    requires Linked(ns, path, root) && Burst(ns, path, ms, path', l, b, value, kids) && x in ms
    ensures Down(ms, x)
  {
    hide Linked;
    Links(ns, path, root, l);
    if x in ns && x != l {
      Links(ns, path, root, x);
    }
  }

  lemma BurstLinked<V>(ns: Shapes<V>, path: Paths, root: Option<Id>, ms: Shapes<V>, path': Paths, l: Id, b: Id,
                       value: Option<V>, kids: map<byte, Shape<V>>)
    requires Linked(ns, path, root) && Burst(ns, path, ms, path', l, b, value, kids)
    ensures Linked(ms, path', BurstRoot(ns, root, l, b))
  {
    hide Up, Down;
    forall x | x in ms
      ensures Up(ms, path', x) && Down(ms, x)
    {
      BurstLinks(ns, path, root, ms, path', l, b, value, kids, x);
      BurstLinksDown(ns, path, root, ms, path', l, b, value, kids, x);
    }
  }

  ghost function ValsOf<V>(kids: map<byte, Shape<V>>): map<byte, map<Key, V>>
    requires forall c :: c in kids ==> kids[c].Leaf?
  {
    map c | c in kids :: kids[c].vals
  }

  /** A key of a new child was a key of the burst leaf. */
  lemma BurstKidOwns<V>(ns: Shapes<V>, path: Paths, l: Id, value: Option<V>, leaves: map<byte, map<Key, V>>, c: byte, k: Key)
    requires l in ns && l in path && ns[l].Leaf? && Split(ns[l].vals, value, leaves)
    requires path[l] + [c] <= k && c in leaves && k[|path[l]| + 1..] in leaves[c]
    ensures Owns(ns, path, l, k) && OwnedValue(ns, path, l, k) == leaves[c][k[|path[l]| + 1..]]
  {
    var r := k[|path[l]| + 1..];
    assert k[|path[l]|..] == [c] + r;
    assert ([c] + r)[1..] == r;
  }

  lemma BurstOwns<V>(ns: Shapes<V>, path: Paths, ms: Shapes<V>, path': Paths, l: Id, b: Id,
                     value: Option<V>, kids: map<byte, Shape<V>>, x: Id, k: Key) returns (o: Id)
    requires Burst(ns, path, ms, path', l, b, value, kids) && Split(ns[l].vals, value, ValsOf(kids))
    requires forall id :: id in ns ==> id in path
    requires Owns(ms, path', x, k)
    ensures Owns(ns, path, o, k) && OwnedValue(ns, path, o, k) == OwnedValue(ms, path', x, k)
  {
    if x in ns && x != l {
      o := x;
    } else {
      o := l;
      if x == b {
        assert k[|path[l]|..] == [];
      } else {
        var c :| c in kids && x == KidId(b, c);
        assert ValsOf(kids)[c] == kids[c].vals;
        BurstKidOwns(ns, path, l, value, ValsOf(kids), c, k);
      }
    }
  }

  lemma BurstOwned<V>(ns: Shapes<V>, path: Paths, ms: Shapes<V>, path': Paths, l: Id, b: Id,
                      value: Option<V>, kids: map<byte, Shape<V>>, x: Id, k: Key)
    requires Burst(ns, path, ms, path', l, b, value, kids) && Split(ns[l].vals, value, ValsOf(kids))
    requires Owns(ns, path, x, k)
    ensures Owned(ms, path', k)
  {
    if x != l {
      assert Owns(ms, path', x, k);
    } else {
      var s := k[|path[l]|..];
      if s == [] {
        assert k == path[l];
        assert Owns(ms, path', b, k);
      } else {
        var c := s[0];
        assert path[l] + [c] <= k && k[|path[l]| + 1..] == s[1..];
        assert c in ValsOf(kids);
        assert Owns(ms, path', KidId(b, c), k);
      }
    }
  }

  /** A burst stores the same map. */
  lemma BurstRepresents<V>(ns: Shapes<V>, path: Paths, root: Option<Id>, m: map<Key, V>, ms: Shapes<V>, path': Paths,
                           l: Id, b: Id, value: Option<V>, kids: map<byte, Shape<V>>)
    requires Linked(ns, path, root) && Represents(ns, path, m)
    requires Burst(ns, path, ms, path', l, b, value, kids) && Split(ns[l].vals, value, ValsOf(kids))
    ensures Linked(ms, path', BurstRoot(ns, root, l, b)) && Represents(ms, path', m)
  {
    BurstLinked(ns, path, root, ms, path', l, b, value, kids);
    AllInPath(ns, path, root);
    hide *;
    forall x, k | Owns(ms, path', x, k)
      ensures k in m && m[k] == OwnedValue(ms, path', x, k)
    {
      var o := BurstOwns(ns, path, ms, path', l, b, value, kids, x, k);
      OwnsInMap(ns, path, m, o, k);
    }
    forall k | k in m
      ensures Owned(ms, path', k)
    {
      var x := OwnerOf(ns, path, m, k);
      BurstOwned(ns, path, ms, path', l, b, value, kids, x, k);
    }
    StoresExactly(ms, path', m);
  }

  lemma AllInPath<V>(ns: Shapes<V>, path: Paths, root: Option<Id>)
    requires Linked(ns, path, root)
    ensures forall id :: id in ns ==> id in path
  {
    hide Linked;
    forall id | id in ns
      ensures id in path
    {
      Links(ns, path, root, id);
    }
  }

  // ---------------------------------------------------------------------------
  // Pruning
  // ---------------------------------------------------------------------------

  /** A node without children that stores nothing. */
  ghost predicate Bare<V>(ns: Shapes<V>, e: Id) {
    e in ns && if ns[e].Branch? then ns[e].value.None? && ns[e].children == map[] else ns[e].vals == map[]
  }

  function WithoutChild<V>(s: Shape<V>, c: byte): Shape<V>
    requires s.Branch?
  {
    s.(children := s.children - {c})
  }

  ghost predicate Dropped<V>(ns: Shapes<V>, ms: Shapes<V>, p: Id, e: Id) {
    && Bare(ns, e) && ns[e].parent == Some(p) && p in ns && ns[p].Branch? && p != e
    && ms == ns[p := WithoutChild(ns[p], ns[e].ch)] - {e}
  }

  lemma DroppedLinks<V>(ns: Shapes<V>, path: Paths, root: Option<Id>, ms: Shapes<V>, p: Id, e: Id, x: Id)
    requires Linked(ns, path, root) && Dropped(ns, ms, p, e) && x in ms
    ensures Up(ms, path, x) && Down(ms, x)
  {
    hide Linked;
    Links(ns, path, root, e);
    Links(ns, path, root, x);
  }

  lemma DroppedLinked<V>(ns: Shapes<V>, path: Paths, root: Option<Id>, ms: Shapes<V>, p: Id, e: Id)
    requires Linked(ns, path, root) && Dropped(ns, ms, p, e)
    ensures Linked(ms, path, root)
  {
    hide Up, Down;
    forall x | x in ms
      ensures Up(ms, path, x) && Down(ms, x)
    {
      DroppedLinks(ns, path, root, ms, p, e, x);
    }
  }

  lemma DroppedOwns<V>(ns: Shapes<V>, path: Paths, ms: Shapes<V>, p: Id, e: Id, x: Id, k: Key)
    requires Dropped(ns, ms, p, e)
    ensures Owns(ns, path, x, k) <==> Owns(ms, path, x, k)
    ensures Owns(ns, path, x, k) ==> OwnedValue(ns, path, x, k) == OwnedValue(ms, path, x, k)
  {
  }

  /** An empty node is taken off a parent that is not empty without it. */
  lemma DroppedKeeps<V>(ns: Shapes<V>, path: Paths, root: Option<Id>, m: map<Key, V>, ms: Shapes<V>, p: Id, e: Id)
    requires Linked(ns, path, root) && Represents(ns, path, m) && Dropped(ns, ms, p, e)
    ensures Linked(ms, path, root) && Represents(ms, path, m)
  {
    DroppedLinked(ns, path, root, ms, p, e);
    hide *;
    forall x, k | Owns(ms, path, x, k)
      ensures k in m && m[k] == OwnedValue(ms, path, x, k)
    {
      DroppedOwns(ns, path, ms, p, e, x, k);
      OwnsInMap(ns, path, m, x, k);
    }
    forall k | k in m
      ensures Owned(ms, path, k)
    {
      var x := OwnerOf(ns, path, m, k);
      DroppedOwns(ns, path, ms, p, e, x, k);
      OwnedBy(ms, path, x, k);
    }
    StoresExactly(ms, path, m);
  }

  /** An empty node takes the place of a parent that has nothing else. */
  ghost predicate Lifted<V>(ns: Shapes<V>, path: Paths, ms: Shapes<V>, path': Paths, g: Id, p: Id, e: Id) {
    && Bare(ns, e) && e in path && ns[e].parent == Some(p) && p in ns && p in path && p != e
    && ns[p].Branch? && ns[p].value.None? && ns[p].children == map[ns[e].ch := e]
    && ns[p].parent == Some(g) && g in ns && ns[g].Branch? && g != p && g != e
    && ms == ns[g := WithChild(ns[g], ns[p].ch, e)][e := ns[e].(parent := Some(g), ch := ns[p].ch)] - {p}
    && path' == path[e := path[p]]
  }

  lemma LiftedUp<V>(ns: Shapes<V>, path: Paths, root: Option<Id>, ms: Shapes<V>, path': Paths, g: Id, p: Id, e: Id, x: Id)
    requires Linked(ns, path, root) && Lifted(ns, path, ms, path', g, p, e) && x in ms
    ensures Up(ms, path', x)
  {
    hide Linked, Down;
    Links(ns, path, root, e);
    Links(ns, path, root, p);
    Links(ns, path, root, x);
  }

  lemma LiftedDown<V>(ns: Shapes<V>, path: Paths, root: Option<Id>, ms: Shapes<V>, path': Paths, g: Id, p: Id, e: Id, x: Id)
    requires Linked(ns, path, root) && Lifted(ns, path, ms, path', g, p, e) && x in ms
    ensures Down(ms, x)
  {
    hide Linked;
    Links(ns, path, root, p);
    Links(ns, path, root, x);
  }

  lemma LiftedOwns<V>(ns: Shapes<V>, path: Paths, ms: Shapes<V>, path': Paths, g: Id, p: Id, e: Id, x: Id, k: Key)
    requires Lifted(ns, path, ms, path', g, p, e)
    ensures Owns(ns, path, x, k) <==> Owns(ms, path', x, k)
    ensures Owns(ns, path, x, k) ==> OwnedValue(ns, path, x, k) == OwnedValue(ms, path', x, k)
  {
  }

  lemma LiftedLinked<V>(ns: Shapes<V>, path: Paths, root: Option<Id>, ms: Shapes<V>, path': Paths, g: Id, p: Id, e: Id)
    requires Linked(ns, path, root) && Lifted(ns, path, ms, path', g, p, e)
    ensures Linked(ms, path', root)
  {
    hide Up, Down;
    forall x | x in ms
      ensures Up(ms, path', x) && Down(ms, x)
    {
      LiftedUp(ns, path, root, ms, path', g, p, e, x);
      LiftedDown(ns, path, root, ms, path', g, p, e, x);
    }
  }

  lemma LiftedKeeps<V>(ns: Shapes<V>, path: Paths, root: Option<Id>, m: map<Key, V>, ms: Shapes<V>, path': Paths, g: Id, p: Id, e: Id)
    requires Linked(ns, path, root) && Represents(ns, path, m) && Lifted(ns, path, ms, path', g, p, e)
    ensures Linked(ms, path', root) && Represents(ms, path', m)
  {
    LiftedLinked(ns, path, root, ms, path', g, p, e);
    hide *;
    forall x, k | Owns(ms, path', x, k)
      ensures k in m && m[k] == OwnedValue(ms, path', x, k)
    {
      LiftedOwns(ns, path, ms, path', g, p, e, x, k);
      OwnsInMap(ns, path, m, x, k);
    }
    forall k | k in m
      ensures Owned(ms, path', k)
    {
      var x := OwnerOf(ns, path, m, k);
      LiftedOwns(ns, path, ms, path', g, p, e, x, k);
      OwnedBy(ms, path', x, k);
    }
    StoresExactly(ms, path', m);
  }

  /** An empty root is the only node, and the map is empty. */
  lemma BareRoot<V>(ns: Shapes<V>, path: Paths, root: Option<Id>, m: map<Key, V>, r: Id)
    requires Linked(ns, path, root) && Represents(ns, path, m) && Bare(ns, r) && ns[r].parent.None?
    ensures m == map[]
  {
    Links(ns, path, root, r);
    hide Linked;
    forall k | k in m
      ensures false
    {
      assert Owned(ns, path, k);
      var x :| Owns(ns, path, x, k);
      OwnerBelow(ns, path, root, r, k, x);
    }
  }

  /** A root with nothing but an empty child: the map is empty. */
  lemma BareBelowRoot<V>(ns: Shapes<V>, path: Paths, root: Option<Id>, m: map<Key, V>, r: Id, e: Id)
    requires Linked(ns, path, root) && Represents(ns, path, m) && Bare(ns, e)
    requires r in ns && ns[r].Branch? && ns[r].value.None? && ns[r].children == map[ns[e].ch := e] && ns[r].parent.None?
    ensures m == map[]
  {
    Links(ns, path, root, r);
    Links(ns, path, root, e);
    hide Linked;
    forall k | k in m
      ensures false
    {
      assert Owned(ns, path, k);
      var x :| Owns(ns, path, x, k);
      OwnerBelow(ns, path, root, r, k, x);
      assert path[e] <= k;
      OwnerBelow(ns, path, root, e, k, x);
    }
  }
}

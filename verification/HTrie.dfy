/**
 The HAT-trie: a trie whose leaves are array-hash tables.

 A node's address is a number and the tree is the map from addresses to nodes,
 which the operations change; `next` is an address from which all are free.
 */
module HTrie {
  import opened Options
  import opened ArrayBucket
  import opened GrowthPolicy
  import opened TableContent
  import opened TableCursor
  import opened ArrayHash
  import opened TrieShape
  import opened TrieNodes
  import opened TrieRefusal

  /** An iterator: the trie node, the hash node and the position in its table, and whether it reads the trie node's value. */
  datatype Iter = Iter(tnode: Option<Id>, hnode: Option<Id>, cursor: Cursor, readsValue: bool) {
    /** `operator==` with the end iterator. */
    predicate AtEnd() {
      tnode.None? && hnode.None? && !readsValue
    }
  }

  const END_ITER := Iter(None, None, End, false)

  datatype Inserted = InsertedAt(it: Iter, added: bool) | LengthError

  class Trie<V> {
    const hash: Key -> nat
    const maxLoad: real
    const burst: nat
    var root: Option<Id>
    var nodes: map<Id, Node<V>>
    var nb: nat
    var next: Id

    ghost var shapes: Shapes<V>
    ghost var path: Paths
    ghost var contents: map<Key, V>

    ghost predicate Valid()
      reads this, Tables(nodes)
    {
      && Mirrors(nodes, shapes, hash) && Separate(nodes, next)
      && Tree(shapes, path, root, contents)
      && Stocked(shapes, burst)
      && nb == |contents|
      && burst >= MIN_BURST_THRESHOLD && maxLoad > 0.0
    }

    /** An empty map; the burst threshold is never below its minimum. */
    constructor (hash: Key -> nat, maxLoad: real, burst: nat)
      requires maxLoad > 0.0
      ensures Valid() && contents == map[] && Tables(nodes) == {}
      ensures this.burst == (if burst < MIN_BURST_THRESHOLD then MIN_BURST_THRESHOLD else burst) && this.maxLoad == maxLoad
    {
      this.hash := hash;
      this.maxLoad := maxLoad;
      this.burst := if burst < MIN_BURST_THRESHOLD then MIN_BURST_THRESHOLD else burst;
      root, nodes, nb, next := None, map[], 0, 0;
      shapes, path, contents := map[], map[], map[];
    }

    // -------------------------------------------------------------------------
    // Positions
    // -------------------------------------------------------------------------

    /** The iterator stands on the key of rank `n` in node `id`. */
    ghost predicate Points(it: Iter, id: Id, n: nat)
      reads this, Tables(nodes)
    {
      && id in nodes && id in shapes
      && match nodes[id]
         case TrieNode(_, _, value, _) => it.readsValue && it.tnode == Some(id) && value.Some? && n == 0
         case HashNode(p, _, t) =>
           !it.readsValue && it.tnode == p && it.hnode == Some(id) && LeafAt(t, it.cursor, n)
    }

    /** The key of rank `n` in node `id`. */
    ghost function KeyAt(id: Id, n: nat): Key
      requires id in shapes && id in path && (shapes[id].Leaf? ==> n < |shapes[id].keys|)
      reads this
    {
      if shapes[id].Branch? then path[id] else path[id] + shapes[id].keys[n]
    }

    /** The iterator stands on this key. */
    ghost predicate PointsTo(it: Iter, id: Id, n: nat, key: Key)
      reads this, Tables(nodes)
    {
      && Points(it, id, n) && id in path && (shapes[id].Leaf? ==> n < |shapes[id].keys|)
      && KeyAt(id, n) == key
    }

    lemma PointsInside(it: Iter, id: Id, n: nat)
      requires Valid() && Points(it, id, n)
      ensures id in path && (shapes[id].Leaf? ==> n < |shapes[id].keys|)
      ensures Owns(shapes, path, id, KeyAt(id, n)) && KeyAt(id, n) in contents
    {
      hide Linked, Stocked, Flat, Located;
      Links(shapes, path, root, id);
      assert Mirrored(nodes[id], shapes[id], hash);
      if nodes[id].HashNode? {
        var t := nodes[id].table;
        LocatedEntry(t.content, it.cursor, n);
        t.OrderLists();
        assert KeyAt(id, n)[|path[id]|..] == t.Order()[n];
      }
    }

    /** What an insertion does to the map: an existing value is kept and reported. */
    ghost predicate Outcome(was: map<Key, V>, key: Key, v: V, r: Inserted)
      reads this, Tables(nodes)
    {
      match r
      case LengthError => contents == was
      case InsertedAt(it, added) =>
        && added == (key !in was)
        && contents == (if added then was[key := v] else was)
        && exists id, n :: PointsTo(it, id, n, key)
    }

    // -------------------------------------------------------------------------
    // Lookup
    // -------------------------------------------------------------------------

    /** `find_in_hash_node`. */
    method FindInHashNode(id: Id, rest: Key, ghost key: Key) returns (it: Iter, ghost n: nat)
      requires Valid() && id in nodes && id in path && nodes[id].HashNode? && key == path[id] + rest
      ensures key !in contents <==> it.AtEnd()
      ensures key in contents ==> PointsTo(it, id, n, key)
    {
      hide Linked, Stocked, Flat, Located, Table<V>.Valid;
      var t := nodes[id].table;
      assert Mirrored(nodes[id], shapes[id], hash);
      var cur, k := t.Find(rest);
      n := k;
      assert key[|path[id]|..] == rest;
      if key in contents {
        var o := OwnerOf(shapes, path, contents, key);
        OwnerBelow(shapes, path, root, id, key, o);
      } else {
        assert !Owns(shapes, path, id, key);
      }
      if cur.At? {
        it := Iter(nodes[id].parent, Some(id), cur, false);
      } else {
        it := END_ITER;
      }
    }

    lemma NoChildNoKey(cur: Id, k: Key)
      requires Valid() && cur in nodes && cur in path && path[cur] < k && nodes[cur].TrieNode?
      requires k[|path[cur]|] !in nodes[cur].children
      ensures k !in contents
    {
      hide Tree, Stocked;
      MirroredBranch(nodes[cur], shapes[cur], hash);
      NoChild(shapes, path, root, contents, cur, k);
    }

    /** The path of an inner node is stored exactly when the node has a value. */
    lemma PathStored(cur: Id)
      requires Valid() && cur in nodes && cur in path && nodes[cur].TrieNode?
      ensures path[cur] in contents <==> nodes[cur].value.Some?
      ensures nodes[cur].value.Some? ==> contents[path[cur]] == nodes[cur].value.value
    {
      hide Linked, Stocked;
      assert Mirrored(nodes[cur], shapes[cur], hash);
      if path[cur] in contents {
        var o := OwnerOf(shapes, path, contents, path[cur]);
        OwnerBelow(shapes, path, root, cur, path[cur], o);
      }
      if nodes[cur].value.Some? {
        OwnsInMap(shapes, path, contents, cur, path[cur]);
      }
    }

    /** The child for a character is one character further down. */
    lemma ChildStep(cur: Id, c: byte)
      requires Valid() && cur in nodes && cur in path && nodes[cur].TrieNode? && c in nodes[cur].children
      ensures nodes[cur].children[c] in nodes && nodes[cur].children[c] in path
      ensures path[nodes[cur].children[c]] == path[cur] + [c]
    {
      hide Linked, Represents, Stocked;
      assert Mirrored(nodes[cur], shapes[cur], hash);
      Links(shapes, path, root, cur);
      Links(shapes, path, root, nodes[cur].children[c]);
    }

    lemma RootStep()
      requires Valid()
      ensures root.None? ==> contents == map[]
      ensures root.Some? ==> root.value in nodes && root.value in path && path[root.value] == []
    {
      hide Stocked, Up, Down;
      if root.None? {
        forall k | k in contents
          ensures false
        {
          var o := OwnerOf(shapes, path, contents, k);
        }
      } else {
        RootPath(shapes, path, root, root.value);
        Links(shapes, path, root, root.value);
      }
    }

    /** `find`: an iterator to the key, or the end. */
    method Find(key: Key) returns (it: Iter, ghost id: Id, ghost n: nat)
      requires Valid()
      ensures it.AtEnd() <==> key !in contents
      ensures key in contents ==> PointsTo(it, id, n, key)
    {
      hide Tree, Stocked, Separate, Mirrored, Located;
      RootStep();
      id, n := 0, 0;
      if root.None? {
        return END_ITER, 0, 0;
      }
      var cur := root.value;
      var ikey := 0;
      while ikey < |key|
        invariant Valid() && ikey <= |key| && cur in nodes && cur in path && path[cur] == key[..ikey]
      {
        if nodes[cur].TrieNode? {
          if key[ikey] !in nodes[cur].children {
            NoChildNoKey(cur, key);
            return END_ITER, 0, 0;
          }
          ChildStep(cur, key[ikey]);
          assert key[..ikey] + [key[ikey]] == key[..ikey + 1];
          cur := nodes[cur].children[key[ikey]];
        } else {
          assert key == key[..ikey] + key[ikey..];
          it, n := FindInHashNode(cur, key[ikey..], key);
          return it, cur, n;
        }
        ikey := ikey + 1;
      }
      assert key[..ikey] == key;
      if nodes[cur].TrieNode? {
        PathStored(cur);
        id := cur;
        it := if nodes[cur].value.Some? then Iter(Some(cur), None, End, true) else END_ITER;
        assert it.readsValue ==> PointsTo(it, cur, 0, key) by { MirroredBranch(nodes[cur], shapes[cur], hash); }
      } else {
        assert key == key + [];
        it, n := FindInHashNode(cur, [], key);
        id := cur;
      }
    }

    /** The iterator is on the longest stored prefix among those shorter than `bound`, or at the end if none is stored. */
    ghost predicate Best(value: Key, bound: nat, it: Iter, id: Id, n: nat, len: nat)
      requires bound <= |value| + 1
      reads this, Tables(nodes)
    {
      if it.AtEnd() then forall j :: 0 <= j < bound ==> value[..j] !in contents
      else
        && len < bound && PointsTo(it, id, n, value[..len]) && value[..len] in contents
        && forall j :: len < j < bound ==> value[..j] !in contents
    }

    /** `longest_prefix`: an iterator to the longest stored prefix, and the end exactly when no prefix is stored. */
    method LongestPrefix(value: Key) returns (it: Iter, ghost id: Id, ghost n: nat, ghost len: nat)
      requires Valid()
      ensures Best(value, |value| + 1, it, id, n, len)
    {
      hide Tree, Stocked, Separate, Mirrored, Located;
      RootStep();
      it, id, n, len := END_ITER, 0, 0, 0;
      if root.None? {
        return;
      }
      var cur := root.value;
      var i := 0;
      while i < |value|
        invariant Valid() && i <= |value| && cur in nodes && cur in path && path[cur] == value[..i]
        invariant Best(value, i, it, id, n, len)
      {
        if nodes[cur].TrieNode? {
          it, id, n, len := ValueOrElse(value, i, cur, it, id, n, len);
          if value[i] !in nodes[cur].children {
            forall j | i < j <= |value|
              ensures value[..j] !in contents
            {
              assert value[..j][..i] == value[..i];
              NoChildNoKey(cur, value[..j]);
            }
            return;
          }
          ChildStep(cur, value[i]);
          assert value[..i] + [value[i]] == value[..i + 1];
          cur := nodes[cur].children[value[i]];
        } else {
          it, id, n, len := LongestInHashNode(value, i, cur, it, id, n, len);
          return;
        }
        i := i + 1;
      }
      if nodes[cur].TrieNode? {
        it, id, n, len := ValueOrElse(value, i, cur, it, id, n, len);
      } else {
        it, id, n, len := LongestInHashNode(value, i, cur, it, id, n, len);
      }
    }

    /** A trie node with a value is a longer prefix than any before it. */
    method ValueOrElse(value: Key, i: nat, cur: Id, it0: Iter, ghost id0: Id, ghost n0: nat, ghost len0: nat)
      returns (it: Iter, ghost id: Id, ghost n: nat, ghost len: nat)
      requires Valid() && i <= |value| && cur in nodes && cur in path && path[cur] == value[..i] && nodes[cur].TrieNode?
      requires Best(value, i, it0, id0, n0, len0)
      ensures Best(value, i + 1, it, id, n, len)
    {
      hide Tree, Stocked, Separate, Mirrored, Located;
      PathStored(cur);
      MirroredBranch(nodes[cur], shapes[cur], hash);
      if nodes[cur].value.Some? {
        it, id, n, len := Iter(Some(cur), None, End, true), cur, 0, i;
      } else {
        it, id, n, len := it0, id0, n0, len0;
      }
    }

    /** In a hash node every rest of the value is tried, the longest first and the empty one last. */
    method LongestInHashNode(value: Key, from: nat, cur: Id, it0: Iter, ghost id0: Id, ghost n0: nat, ghost len0: nat)
      returns (it: Iter, ghost id: Id, ghost n: nat, ghost len: nat)
      requires Valid() && from <= |value| && cur in nodes && cur in path && path[cur] == value[..from] && nodes[cur].HashNode?
      requires Best(value, from, it0, id0, n0, len0)
      ensures Best(value, |value| + 1, it, id, n, len)
    {
      hide Tree, Stocked, Separate, Mirrored, Located;
      var i := from;
      while i <= |value|
        invariant Valid() && from <= i <= |value| + 1
        invariant Best(value, from, it0, id0, n0, len0)
        invariant forall j :: from + |value| - i < j <= |value| ==> value[..j] !in contents
      {
        len := from + |value| - i;
        var rest := value[from..from + (|value| - i)];
        assert value[..len] == value[..from] + rest;
        it, n := FindInHashNode(cur, rest, value[..len]);
        id := cur;
        if !it.AtEnd() {
          return;
        }
        i := i + 1;
      }
      it, id, n, len := it0, id0, n0, len0;
    }

    /** The value under an iterator. */
    method ValueOf(it: Iter, ghost id: Id, ghost n: nat, ghost key: Key) returns (v: V)
      requires Valid() && PointsTo(it, id, n, key)
      ensures key in contents && v == contents[key]
    {
      hide Linked, Stocked, Separate, Located, Table<V>.Valid, Table<V>.Order;
      PointsInside(it, id, n);
      if it.readsValue {
        v := nodes[it.tnode.value].value.value;
        MirroredBranch(nodes[id], shapes[id], hash);
      } else {
        MirroredLeaf(nodes[id], shapes[id], hash);
        assert key[|path[id]|..] == shapes[id].keys[n];
        v := nodes[it.hnode.value].table.Value(it.cursor, n);
      }
    }

    // -------------------------------------------------------------------------
    // Insertion
    // -------------------------------------------------------------------------

    /** The table of a hash node takes a key; the shape follows. */
    method EmplaceAt(id: Id, rest: Key, v: V) returns (e: Emplaced)
      requires Mirrors(nodes, shapes, hash) && Separate(nodes, next) && id in nodes && nodes[id].HashNode?
      modifies this`shapes, nodes[id].table
      ensures Mirrors(nodes, shapes, hash) && shapes == old(shapes)[id := LeafShape(nodes[id])]
      ensures EmplacedInto(old(LeafShape(nodes[id])), LeafShape(nodes[id]), rest, v, e)
      ensures e.Placed? ==> exists n :: 0 <= n < |shapes[id].keys| && shapes[id].keys[n] == rest && LeafAt(nodes[id].table, e.at, n)
    {
      hide Separate, Mirrored, Table<V>.Valid, Table<V>.Order, Located, Listed;
      var t := nodes[id].table;
      MirrorsAt(nodes, shapes, hash, id);
      MirroredLeaf(nodes[id], shapes[id], hash);
      MirrorsDrop(nodes, shapes, hash, id);
      OtherTables(nodes, next, id);
      LeafListed(t);
      e := t.Emplace(rest, v);
      LeafListed(t);
      MirroredLeaf(nodes[id], LeafShape(nodes[id]), hash);
      MirrorsAgain(nodes, shapes, hash, id, LeafShape(nodes[id]));
      if e.Placed? {
        ghost var n :| 0 <= n < |t.Order()| && t.Order()[n] == rest && Located(t.content, e.at, n);
        assert LeafAt(t, e.at, n);
      }
      shapes := shapes[id := LeafShape(nodes[id])];
    }

    /** The cursor stands on this key, of rank `n`, in the table of a hash node. */
    ghost predicate AtRest(id: Id, rest: Key, at: Cursor, n: nat)
      reads this, Tables(nodes)
    {
      && id in nodes && id in shapes && nodes[id].HashNode? && shapes[id].Leaf?
      && n < |shapes[id].keys| && shapes[id].keys[n] == rest && LeafAt(nodes[id].table, at, n)
    }

    /** The table of a hash node takes a key; the map follows. */
    method PutInTable(id: Id, rest: Key, v: V, ghost key: Key) returns (e: Emplaced, ghost n: nat)
      requires Valid() && id in nodes && id in path && nodes[id].HashNode? && key == path[id] + rest
      requires nodes[id].table.nb < burst
      modifies this, nodes[id].table
      ensures Valid() && nodes == old(nodes) && root == old(root) && path == old(path)
      ensures e.Placed? ==> e.added == (key !in old(contents))
      ensures contents == if e.Placed? && e.added then old(contents)[key := v] else old(contents)
      ensures e.Placed? ==> AtRest(id, rest, e.at, n)
      ensures e.LengthError? <==> key !in old(contents) && (|rest| > MAX_KEY_SIZE || |old(nodes[id].table.model)| == MAX_VALUES)
    {
      hide Tree, Stocked, Separate, Mirrored, Table<V>.Valid, Table<V>.Order, Located, Listed;
      MirroredLeaf(nodes[id], shapes[id], hash);
      InLeaf(shapes, path, root, contents, id, rest, key);
      StockedAt(shapes, burst, id);
      LeafListed(nodes[id].table);
      ghost var was := shapes;
      e := EmplaceAt(id, rest, v);
      ghost var added := e.Placed? && e.added;
      PutKeeps(was, path, root, contents, burst, id, shapes[id], rest, v, if added then contents[key := v] else contents);
      if e.Placed? {
        n :| 0 <= n < |shapes[id].keys| && shapes[id].keys[n] == rest && LeafAt(nodes[id].table, e.at, n);
        if e.added {
          nb, contents := nb + 1, contents[key := v];
        }
      } else {
        n := 0;
      }
    }

    /** `insert_in_hash_node` without a burst. */
    method PutInHashNode(id: Id, rest: Key, v: V, ghost key: Key) returns (r: Inserted)
      requires Valid() && id in nodes && id in path && nodes[id].HashNode? && key == path[id] + rest
      requires nodes[id].table.nb < burst
      modifies this, nodes[id].table
      ensures Valid() && nodes == old(nodes) && root == old(root)
      ensures Outcome(old(contents), key, v, r)
      ensures r.LengthError? <==> key !in old(contents) && (|rest| > MAX_KEY_SIZE || |old(nodes[id].table.model)| == MAX_VALUES)
    {
      hide Tree, Stocked, Separate, Mirrored, Table<V>.Valid, Table<V>.Order, Located, Listed;
      var e, n := PutInTable(id, rest, v, key);
      if e.LengthError? {
        r := Inserted.LengthError;
      } else {
        var it := Iter(nodes[id].parent, Some(id), e.at, false);
        assert PointsTo(it, id, n, key);
        r := InsertedAt(it, e.added);
      }
    }

    /** A new hash node's table with its first key. */
    method FirstTable(rest: Key, v: V) returns (t: Table<V>, at: Cursor)
      requires |rest| <= MAX_KEY_SIZE
      ensures fresh(t) && t !in Tables(nodes) && t.Valid() && t.hash == hash
      ensures t.model == map[rest := v] && t.Order() == [rest] && LeafAt(t, at, 0)
    {
      hide Table<V>.Valid, Located, LeastPowerAbove;
      var mask, count := NewPolicy(DEFAULT_INIT_BUCKETS);
      t := new Table<V>(hash, mask.value, count, maxLoad);
      var e := t.Emplace(rest, v);
      at := e.at;
      t.OrderLists();
      assert t.Order()[0] == rest;
    }

    /** `set_child` with a new hash node for a character that had no child. */
    method AddLeaf(cur: Id, c: byte, t: Table<V>, ghost rest: Key, ghost v: V, ghost key: Key) returns (id: Id)
      requires Valid() && cur in nodes && cur in path && nodes[cur].TrieNode? && c !in nodes[cur].children
      requires key == path[cur] + [c] + rest
      requires t !in Tables(nodes) && t.Valid() && t.hash == hash && t.model == map[rest := v] && t.Order() == [rest]
      modifies this
      ensures Valid() && Tables(nodes) <= old(Tables(nodes)) + {t} && root == old(root)
      ensures key !in old(contents) && contents == old(contents)[key := v]
      ensures id in nodes && nodes[id] == HashNode(Some(cur), c, t) && id in path && path[id] + rest == key
    {
      hide Tree, Stocked, Separate, Mirrors, Mirrored, Tables, Table<V>.Valid, Table<V>.Order, Listed;
      MirrorsAt(nodes, shapes, hash, cur);
      MirrorsAt(nodes, shapes, hash, next);
      MirroredBranch(nodes[cur], shapes[cur], hash);
      id := next;
      var leaf := HashNode(Some(cur), c, t);
      var parent := nodes[cur].(children := nodes[cur].children[c := id]);
      ghost var shape, above := LeafShape(leaf), WithChild(shapes[cur], c, id);
      LeafListed(t);
      SeparateTrie(nodes, next, cur, parent);
      SeparateLeaf(nodes[cur := parent], next, leaf);
      HangKeeps(shapes, path, root, contents, burst, cur, id, shape, rest, v, key);
      MirroredLeaf(leaf, shape, hash);
      MirroredBranch(parent, above, hash);
      MirrorsPut(nodes, shapes, hash, cur, parent, above);
      MirrorsPut(nodes[cur := parent], shapes[cur := above], hash, id, leaf, shape);
      nodes, next, nb, shapes, path, contents :=
        nodes[cur := parent][id := leaf], id + 1, nb + 1,
        shapes[cur := above][id := shape], path[id := path[cur] + [c]], contents[key := v];
    }

    /** `insert_impl` where the trie node has no child for the next character. */
    method HangLeaf(cur: Id, c: byte, rest: Key, v: V, ghost key: Key) returns (r: Inserted)
      requires Valid() && cur in nodes && cur in path && nodes[cur].TrieNode? && c !in nodes[cur].children
      requires key == path[cur] + [c] + rest && |rest| <= MAX_KEY_SIZE
      modifies this
      ensures Valid() && fresh(Tables(nodes) - old(Tables(nodes))) && root == old(root)
      ensures Outcome(old(contents), key, v, r) && r.InsertedAt? && r.added
    {
      hide Tree, Stocked, Separate, Tables, Table<V>.Valid, Table<V>.Order, Located;
      var t, at := FirstTable(rest, v);
      var id := AddLeaf(cur, c, t, rest, v, key);
      var it := Iter(Some(cur), Some(id), at, false);
      assert Mirrored(nodes[id], shapes[id], hash);
      assert PointsTo(it, id, 0, key);
      r := InsertedAt(it, true);
    }

    /** The value of an inner node without one. */
    method SetValue(cur: Id, v: V) returns (r: Inserted)
      requires Valid() && cur in nodes && cur in path && nodes[cur].TrieNode?
      modifies this
      ensures Valid() && Tables(nodes) == old(Tables(nodes)) && root == old(root)
      ensures r.InsertedAt? && Outcome(old(contents), old(path[cur]), v, r)
    {
      hide Tree, Stocked, Separate, Mirrored, Tables, Table<V>.Valid, Table<V>.Order, Located, Listed;
      MirroredBranch(nodes[cur], shapes[cur], hash);
      PathStored(cur);
      var it := Iter(Some(cur), None, End, true);
      if nodes[cur].value.Some? {
        assert PointsTo(it, cur, 0, path[cur]);
        return InsertedAt(it, false);
      }
      SetValueKeeps(shapes, path, root, contents, burst, cur, v);
      var node := nodes[cur].(value := Some(v));
      MirroredBranch(node, shapes[cur].(value := Some(v)), hash);
      SeparateTrie(nodes, next, cur, node);
      nodes, nb, shapes, contents :=
        nodes[cur := node], nb + 1, shapes[cur := shapes[cur].(value := Some(v))], contents[path[cur] := v];
      assert PointsTo(it, cur, 0, path[cur]);
      r := InsertedAt(it, true);
    }

    /** A first hash node becomes the root. */
    method SetRoot(t: Table<V>, ghost key: Key, ghost v: V) returns (id: Id)
      requires Valid() && root.None?
      requires t.Valid() && t.hash == hash && t.model == map[key := v] && t.Order() == [key]
      modifies this
      ensures Valid() && Tables(nodes) <= {t} && old(contents) == map[] && contents == map[key := v]
      ensures root == Some(id) && id in nodes && nodes[id] == HashNode(None, 0, t) && id in path && path[id] == []
    {
      hide Tree, Stocked, Separate, Mirrors, Mirrored, Tables, Table<V>.Valid, Table<V>.Order, Located, Listed;
      RootStep();
      NoNodes(shapes, path, root, contents);
      id := next;
      var leaf := HashNode(None, 0, t);
      LeafListed(t);
      PlantKeeps<V>(id, LeafShape(leaf), burst);
      MirroredLeaf(leaf, LeafShape(leaf), hash);
      OneNode(id, leaf, LeafShape(leaf), hash);
      nodes, root, next, nb, shapes, path, contents :=
        map[id := leaf], Some(id), id + 1, 1, map[id := LeafShape(leaf)], map[id := []], map[key := v];
    }

    /** The first key of an empty map. */
    method PlantRoot(key: Key, v: V) returns (r: Inserted)
      requires Valid() && root.None? && |key| <= MAX_KEY_SIZE
      modifies this
      ensures Valid() && fresh(Tables(nodes) - old(Tables(nodes)))
      ensures Outcome(old(contents), key, v, r) && r.InsertedAt? && r.added
      ensures root.Some? && root.value in nodes && nodes[root.value].HashNode?
    {
      hide Tree, Stocked, Separate, Tables, Table<V>.Valid, Table<V>.Order, Located;
      var t, at := FirstTable(key, v);
      var id := SetRoot(t, key, v);
      var it := Iter(None, Some(id), at, false);
      assert Mirrored(nodes[id], shapes[id], hash);
      assert PointsTo(it, id, 0, key);
      r := InsertedAt(it, true);
    }

    // -------------------------------------------------------------------------
    // Burst
    // -------------------------------------------------------------------------

    /** `get_first_char_count`: how many keys start with each character. */
    method FirstCharCount(t: Table<V>) returns (count: seq<nat>)
      requires t.Valid()
      ensures |count| == 0x100 && Tallied(count, t.Order())
    {
      hide Table<V>.Valid, Located, Table<V>.Order;
      count := seq(0x100, _ => 0);
      ghost var n, order := 0, t.Order();
      var cur := t.First();
      while cur.At?
        invariant n <= |order| && order == t.Order() && t.Valid()
        invariant Located(t.content, cur, n) && (cur.At? <==> n < |order|)
        invariant |count| == 0x100 && forall c :: 0 <= c < 0x100 ==> count[c] == Starting(order[..n], c)
        decreases |order| - n
      {
        var k := t.KeyUnder(cur, n);
        assert order[..n + 1][..n] == order[..n];
        if |k| > 0 {
          var i := k[0] as int;
          count := count[i := count[i] + 1];
        }
        cur := t.Advance(cur, n);
        n := n + 1;
      }
      assert order[..n] == order;
    }

    /** `get_hash_node_for_char`: the child for a character, made when it is first needed. */
    method KidFor(kids: map<byte, Table<V>>, c: byte, count: nat, ghost leaves: map<byte, map<Key, V>>) returns (t: Option<Table<V>>)
      requires maxLoad > 0.0 && Kids(kids, leaves, hash)
      ensures t.None? <==> c !in kids && TooBig(count, maxLoad)
      ensures t.Some? ==> t.value.Valid() && t.value.hash == hash && t.value.model == ValsAt(leaves, c)
      ensures t.Some? && c in kids ==> t.value == kids[c]
      ensures t.Some? && c !in kids ==> fresh(t.value)
      ensures Kids(kids, leaves, hash)
    {
      hide Table<V>.Valid;
      if c in kids {
        t := Some(kids[c]);
      } else {
        var wanted := Ceiling((count + DEFAULT_INIT_BUCKETS / 2) as real / maxLoad);
        CeilingAbove((count + DEFAULT_INIT_BUCKETS / 2) as real / maxLoad, MAX_BUCKETS);
        var mask, n := NewPolicy(wanted);
        if mask.None? {
          return None;
        }
        if wanted > 0 {
          RoundedFits(wanted, n);
        }
        if n > MAX_VECTOR_SIZE {
          return None;
        }
        var made := new Table<V>(hash, mask.value, n, maxLoad);
        t := Some(made);
      }
    }

    /** A child takes one more key. */
    method AddToKid(kids0: map<byte, Table<V>>, c: byte, t: Table<V>, rest: Key, v: V, ghost leaves0: map<byte, map<Key, V>>)
      returns (kids: map<byte, Table<V>>, ghost leaves: map<byte, map<Key, V>>)
      requires Kids(kids0, leaves0, hash) && t.Valid() && t.hash == hash && t.model == ValsAt(leaves0, c)
      requires if c in kids0 then t == kids0[c] else t !in kids0.Values
      requires rest !in t.model && |rest| <= MAX_KEY_SIZE && |t.model| < MAX_VALUES
      modifies t
      ensures leaves == leaves0[c := ValsAt(leaves0, c)[rest := v]] && kids == kids0[c := t]
      ensures Kids(kids, leaves, hash) && kids.Values <= kids0.Values + {t}
    {
      hide Table<V>.Valid, Table<V>.Order, Located;
      assert KidsBut(kids0, leaves0, hash, c, t);
      var e := t.Emplace(rest, v);
      kids := kids0[c := t];
      leaves := leaves0[c := ValsAt(leaves0, c)[rest := v]];
      KidsWith(kids0, leaves0, hash, c, t, kids, leaves);
    }

    /** A key of a burst goes to the child for its first character. */
    method BurstInto(c: byte, rest: Key, v: V, count: seq<nat>, kids0: map<byte, Table<V>>, ghost leaves0: map<byte, map<Key, V>>)
      returns (ok: bool, kids: map<byte, Table<V>>, ghost leaves: map<byte, map<Key, V>>)
      requires maxLoad > 0.0 && |count| == 0x100 && Kids(kids0, leaves0, hash) && Roomy(kids0.Keys, count, maxLoad)
      requires rest !in ValsAt(leaves0, c) && |rest| <= MAX_KEY_SIZE && |ValsAt(leaves0, c)| < MAX_VALUES
      modifies kids0.Values
      ensures !ok ==> TooBig(count[c as int], maxLoad)
      ensures ok ==> leaves == leaves0[c := ValsAt(leaves0, c)[rest := v]] && Roomy(kids.Keys, count, maxLoad)
      ensures ok ==> Kids(kids, leaves, hash) && fresh(kids.Values - kids0.Values)
    {
      hide Table<V>.Valid, Table<V>.Order, Kids, TooBig, ValsAt;
      ok, kids, leaves := true, kids0, leaves0;
      var kid := KidFor(kids0, c, count[c as int], leaves0);
      if kid.None? {
        return false, kids0, leaves0;
      }
      kids, leaves := AddToKid(kids0, c, kid.value, rest, v, leaves0);
    }

    /** One key of a burst: a value of the new trie node, or a shorter key of one of its children. */
    method BurstOne(t: Table<V>, cur: Cursor, count: seq<nat>, value0: Option<V>, kids0: map<byte, Table<V>>,
                    ghost leaves0: map<byte, map<Key, V>>, ghost done: map<Key, V>, ghost n: nat)
      returns (ok: bool, value: Option<V>, kids: map<byte, Table<V>>, ghost leaves: map<byte, map<Key, V>>)
      requires t.Valid() && LeafAt(t, cur, n) && maxLoad > 0.0 && |count| == 0x100
      requires Split(done, value0, leaves0) && Kids(kids0, leaves0, hash) && t !in kids0.Values
      requires Roomy(kids0.Keys, count, maxLoad)
      requires n < |t.Order()| && t.Order()[n] in t.model && t.Order()[n] !in done && |done| < MAX_VALUES
      modifies kids0.Values
      ensures !ok ==> t.Order()[n] != [] && TooBig(count[t.Order()[n][0] as int], maxLoad)
      ensures ok ==> Split(done[t.Order()[n] := t.model[t.Order()[n]]], value, leaves)
      ensures ok ==> Kids(kids, leaves, hash) && fresh(kids.Values - kids0.Values) && t !in kids.Values
      ensures ok ==> Roomy(kids.Keys, count, maxLoad)
    {
      hide Table<V>.Valid, Table<V>.Order, Located, Split, Kids, TooBig, Roomy, ValsAt;
      ok, value, kids, leaves := true, value0, kids0, leaves0;
      var k := t.KeyUnder(cur, n);
      var v := t.Value(cur, n);
      SplitPut(done, value0, leaves0, k, v);
      if |k| == 0 {
        value := Some(v);
      } else {
        SplitCount(done, value0, leaves0, k[0]);
        ok, kids, leaves := BurstInto(k[0], k[1..], v, count, kids0, leaves0);
      }
    }

    /** `burst`: the keys of a table by first character; fails exactly if a new table would be too large. */
    method BurstTable(t: Table<V>)
      returns (ok: bool, value: Option<V>, kids: map<byte, Table<V>>, ghost leaves: map<byte, map<Key, V>>)
      requires t.Valid() && maxLoad > 0.0
      ensures ok <==> !Overflows(t.model, maxLoad)
      ensures ok ==> Split(t.model, value, leaves) && Kids(kids, leaves, hash) && fresh(kids.Values)
    {
      hide Table<V>.Valid, Table<V>.Order, Located, Split, Kids, Restricted, Listed, Roomy, TooBig, Overflows, Tallied;
      ok := true;
      var count := FirstCharCount(t);
      value, kids, leaves := None, map[], map[];
      ghost var n, order := 0, t.Order();
      LeafListed(t);
      var cur := t.First();
      NoKids<V>(hash);
      RoomyNone(count, maxLoad);
      ghost var done := Restricted(t.model, order, 0);
      RestrictedNone(t.model, order);
      while cur.At?
        invariant t.Valid() && order == t.Order() && n <= |order|
        invariant Located(t.content, cur, n) && (cur.At? <==> n < |order|)
        invariant done == Restricted(t.model, order, n) && |done| == n
        invariant Split(done, value, leaves) && Kids(kids, leaves, hash) && fresh(kids.Values) && t !in kids.Values
        invariant Roomy(kids.Keys, count, maxLoad)
        decreases |order| - n
      {
        RestrictedNext(t.model, order, n);
        ok, value, kids, leaves := BurstOne(t, cur, count, value, kids, leaves, done, n);
        if !ok {
          OverflowsAt(order, t.model, count, maxLoad, order[n]);
          return;
        }
        done := done[order[n] := t.model[order[n]]];
        cur := t.Advance(cur, n);
        n := n + 1;
      }
      RestrictedAll(t.model, order);
      KidsKeys(kids, leaves, hash);
      RoomForAll(order, t.model, value, leaves, count, maxLoad);
    }

    /** A hash node gives way to the trie node its burst made. */
    method AttachBurst(l: Id, value: Option<V>, kids: map<byte, Table<V>>, ghost leaves: map<byte, map<Key, V>>, ghost key: Key)
      returns (b: Id)
      requires Valid() && l in nodes && l in path && nodes[l].HashNode? && kids.Values !! Tables(nodes)
      requires Split(nodes[l].table.model, value, leaves) && Kids(kids, leaves, hash) && path[l] <= key
      modifies this
      ensures Valid() && contents == old(contents) && Tables(nodes) <= old(Tables(nodes)) + kids.Values
      ensures b in nodes && nodes[b].TrieNode? && b in path && path[b] == old(path[l])
      ensures Refusal(shapes, path, key, burst, maxLoad) <==>
              RefusedBelow(old(nodes[l].table.model), key[|old(path[l])|..], burst, maxLoad)
    {
      hide Tree, Stocked, Separate, Mirrored, Tables, Table<V>.Valid, Table<V>.Order;
      hide Listed, Split, Kids, KidShapes, KidLeaves, BurstNodes, BurstShapes, BurstPaths, Refusal, RefusedBelow;
      MirroredLeaf(nodes[l], shapes[l], hash);
      b := next;
      SeparateBelow(nodes, next);
      ghost var kidShapes := KidLeaves(kids, b);
      KidLeavesShaped(kids, leaves, hash, b);
      BurstMirrors(nodes, shapes, hash, l, b, value, kids, leaves);
      BurstSeparate(nodes, next, hash, l, value, kids, leaves);
      ghost var ns, ps := BurstShapes(shapes, l, b, value, kidShapes), BurstPaths(path, l, b, kidShapes);
      BurstKeeps(shapes, path, root, contents, burst, l, b, value, kidShapes, leaves);
      BurstRefusal(shapes, path, root, contents, l, b, value, kidShapes, leaves, key, burst, maxLoad);
      if nodes[l].parent.None? {
        root := Some(b);
      }
      BurstNodeAt(nodes, l, b, value, kids, BurstNodes(nodes, l, b, value, kids), b);
      BurstPathAt(path, l, b, kidShapes);
      nodes, next, shapes, path := BurstNodes(nodes, l, b, value, kids), b + 0x101, ns, ps;
    }

    // -------------------------------------------------------------------------
    // The whole insertion
    // -------------------------------------------------------------------------

    /** What every part of an insertion leaves: a valid trie, new tables only, and the map with the key. */
    twostate predicate InsertDone(key: Key, v: V, r: Inserted)
      reads this, Tables(nodes)
    {
      && Valid() && fresh(Tables(nodes) - old(Tables(nodes)))
      && Outcome(old(contents), key, v, r)
      && maxLoad > 0.0 && (r.LengthError? <==> old(Refusal(shapes, path, key, burst, maxLoad)))
    }

    /** The hash node on the way of a key decides whether the key is refused. */
    lemma LeafRefusal(id: Id, key: Key)
      requires Valid() && id in nodes && id in path && nodes[id].HashNode? && path[id] <= key
      ensures Refusal(shapes, path, key, burst, maxLoad) <==>
              RefusedBy(nodes[id].table.model, key[|path[id]|..], burst, maxLoad)
      ensures key in contents <==> key[|path[id]|..] in nodes[id].table.model
    {
      hide Linked, Represents, Stocked, Separate, Mirrored, Refusal, RefusedBy, Table<V>.Valid, Table<V>.Order;
      MirroredLeaf(nodes[id], shapes[id], hash);
      RefusalAtLeaf(shapes, path, root, key, burst, maxLoad, id);
      InLeaf(shapes, path, root, contents, id, key[|path[id]|..], key);
    }

    /** Nothing is refused where no hash node is on the way of the key. */
    lemma BranchRefusal(cur: Id, key: Key)
      requires Valid() && cur in nodes && cur in path && nodes[cur].TrieNode? && path[cur] <= key
      requires |path[cur]| < |key| ==> key[|path[cur]|] !in nodes[cur].children
      ensures !Refusal(shapes, path, key, burst, maxLoad)
    {
      hide Linked, Represents, Stocked, Separate, Mirrored, Refusal, Table<V>.Valid, Table<V>.Order;
      MirroredBranch(nodes[cur], shapes[cur], hash);
      NoRefusalAt(shapes, path, root, cur, key, burst, maxLoad);
    }

    /** A full hash node bursts, unless one of the new tables would be too big. */
    method BurstLeaf(id: Id, ghost key: Key) returns (ok: bool, b: Id)
      requires Valid() && id in nodes && id in path && nodes[id].HashNode? && path[id] <= key
      modifies this
      ensures Valid() && fresh(Tables(nodes) - old(Tables(nodes))) && contents == old(contents)
      ensures ok <==> !Overflows(old(nodes[id].table.model), maxLoad)
      ensures ok ==> b in nodes && nodes[b].TrieNode? && b in path && path[b] == old(path[id])
      ensures ok ==> (Refusal(shapes, path, key, burst, maxLoad) <==>
                      RefusedBelow(old(nodes[id].table.model), key[|old(path[id])|..], burst, maxLoad))
    {
      hide Tree, Stocked, Separate, Mirrored, Table<V>.Valid, Table<V>.Order, Split, Kids;
      hide Refusal, RefusedBelow, Overflows;
      MirroredLeaf(nodes[id], shapes[id], hash);
      var done, value, kids, leaves := BurstTable(nodes[id].table);
      ok, b := done, 0;
      if ok {
        b := AttachBurst(id, value, kids, leaves, key);
      }
    }

    /** `insert_in_hash_node`: a full hash node bursts first, and the insertion goes on below the new trie node. */
    method InsertInHashNode(id: Id, from: nat, key: Key, v: V) returns (r: Inserted)
      requires Valid() && id in nodes && id in path && nodes[id].HashNode?
      requires from <= |key| <= MAX_KEY_SIZE && path[id] == key[..from]
      modifies this, Tables(nodes)
      ensures InsertDone(key, v, r)
      decreases |key| - from, 1
    {
      hide Tree, Stocked, Separate, Mirrored, Table<V>.Valid, Table<V>.Order, Located, Listed;
      hide Refusal, RefusedBelow, Overflows;
      MirroredLeaf(nodes[id], shapes[id], hash);
      assert key == key[..from] + key[from..];
      LeafListed(nodes[id].table);
      LeafRefusal(id, key);
      if nodes[id].table.nb >= burst {
        var ok, b := BurstLeaf(id, key);
        if ok {
          r := InsertFrom(b, from, key, v);
        } else {
          r := Inserted.LengthError;
        }
      } else {
        r := PutInHashNode(id, key[from..], v, key);
      }
    }

    /** `insert_impl`: down the trie, character by character. */
    method InsertFrom(start: Id, from: nat, key: Key, v: V) returns (r: Inserted)
      requires Valid() && start in nodes && start in path && from <= |key| <= MAX_KEY_SIZE && path[start] == key[..from]
      modifies this, Tables(nodes)
      ensures InsertDone(key, v, r)
      decreases |key| - from, if nodes[start].HashNode? then 2 else 0
    {
      hide Tree, Stocked, Separate, Mirrored, Located, Refusal;
      var cur := start;
      var i := from;
      while i < |key|
        invariant from <= i <= |key| && cur in nodes && cur in path && path[cur] == key[..i]
        invariant i == from ==> cur == start
        modifies {}
      {
        if nodes[cur].HashNode? || key[i] !in nodes[cur].children {
          break;
        }
        ChildStep(cur, key[i]);
        assert key[..i] + [key[i]] == key[..i + 1];
        cur := nodes[cur].children[key[i]];
        i := i + 1;
      }
      if nodes[cur].HashNode? {
        r := InsertInHashNode(cur, i, key, v);
      } else if i < |key| {
        BranchRefusal(cur, key);
        assert key == key[..i] + [key[i]] + key[i + 1..];
        r := HangLeaf(cur, key[i], key[i + 1..], v, key);
      } else {
        assert key[..i] == key;
        BranchRefusal(cur, key);
        r := SetValue(cur, v);
      }
    }

    /** `insert`. */
    method Insert(key: Key, v: V) returns (r: Inserted)
      requires Valid()
      modifies this, Tables(nodes)
      ensures Valid() && fresh(Tables(nodes) - old(Tables(nodes)))
      ensures |key| > MAX_KEY_SIZE ==> r.LengthError? && contents == old(contents)
      ensures |key| <= MAX_KEY_SIZE ==> InsertDone(key, v, r)
    {
      hide Tree, Stocked, Separate, Mirrored, Located, Refusal;
      if |key| > MAX_KEY_SIZE {
        return Inserted.LengthError;
      }
      if root.None? {
        RootStep();
        NoNodes(shapes, path, root, contents);
        EmptyRefusal(shapes, path, key, burst, maxLoad);
        r := PlantRoot(key, v);
      } else {
        RootStep();
        r := InsertFrom(root.value, 0, key, v);
      }
    }
  }
}

/**
 The order in which a HAT-trie is walked: a node before its descendants, and
 siblings by character.
 */
module TrieOrder {
  import opened Options
  import opened ArrayBucket
  import opened TrieShape

  // ---------------------------------------------------------------------------
  // Lexicographic order of paths
  // ---------------------------------------------------------------------------

  /** The paths agree up to `n`, where the first ends or has the smaller character. */
  predicate LessAt(a: Key, b: Key, n: nat) {
    n <= |a| && n < |b| && a[..n] == b[..n] && (n == |a| || a[n] < b[n])
  }

  ghost predicate Less(a: Key, b: Key) {
    exists n :: LessAt(a, b, n)
  }

  lemma Agree(a: Key, b: Key, n: nat, i: nat)
    requires n <= |a| && n <= |b| && a[..n] == b[..n] && i < n
    ensures a[i] == b[i]
  {
    assert a[..n][i] == b[..n][i];
  }

  lemma NotBoth(a: Key, b: Key, n: nat, m: nat)
    requires LessAt(a, b, n)
    ensures !LessAt(b, a, m)
  {
    if LessAt(b, a, m) {
      if n < m {
        Agree(b, a, m, n);
      } else if m < n {
        Agree(a, b, n, m);
      }
    }
  }

  lemma Asymmetric(a: Key, b: Key)
    requires Less(a, b)
    ensures !Less(b, a)
  {
    hide LessAt;
    var n :| LessAt(a, b, n);
    forall m
      ensures !LessAt(b, a, m)
    {
      NotBoth(a, b, n, m);
    }
  }

  /** A proper prefix comes first. */
  lemma PrefixLess(q: Key, a: Key)
    requires q < a
    ensures Less(q, a) && !Less(a, q)
  {
    assert LessAt(q, a, |q|);
    Asymmetric(q, a);
  }

  lemma Irreflexive(a: Key)
    ensures !Less(a, a)
  {
    if Less(a, a) {
      Asymmetric(a, a);
    }
  }

  /** Where two paths part, the characters decide. */
  lemma PartLess(q: Key, a: Key, b: Key)
    requires q < a && q < b && a[|q|] < b[|q|]
    ensures Less(a, b) && !Less(b, a)
  {
    assert LessAt(a, b, |q|);
    Asymmetric(a, b);
  }

  lemma OutsideAt(q: Key, a: Key, b: Key, c: Key, n: nat)
    requires !(q <= a) && q <= b && q <= c && LessAt(a, b, n)
    ensures LessAt(a, c, n)
  {
    if n < |q| {
      assert b[..n] == q[..n] == c[..n];
      assert n < |c| && c[n] == q[n] == b[n];
    }
  }

  /** A path outside a subtree compares the same with all of the subtree. */
  lemma Outside(q: Key, a: Key, b: Key, c: Key)
    requires !(q <= a) && q <= b && q <= c
    ensures Less(a, b) <==> Less(a, c)
  {
    if Less(a, b) {
      var n :| LessAt(a, b, n);
      OutsideAt(q, a, b, c, n);
    }
    if Less(a, c) {
      var n :| LessAt(a, c, n);
      OutsideAt(q, a, c, b, n);
    }
  }

  // ---------------------------------------------------------------------------
  // Nodes in order
  // ---------------------------------------------------------------------------

  /** The node stores a key itself. */
  ghost predicate Stores<V>(ns: Shapes<V>, x: Id) {
    x in ns && match ns[x]
               case Branch(_, _, value, _) => value.Some?
               case Leaf(_, _, keys, _) => keys != []
  }

  ghost predicate Before<V>(ns: Shapes<V>, path: Paths, x: Id, y: Id) {
    x in path && y in path && Less(path[x], path[y])
  }

  /** The node lies in the subtree of `s`. */
  ghost predicate Under(path: Paths, s: Id, x: Id) {
    s in path && x in path && path[s] <= path[x]
  }

  /** The first storing node of a subtree. */
  ghost predicate FirstUnder<V>(ns: Shapes<V>, path: Paths, s: Id, y: Id) {
    && Stores(ns, y) && Under(path, s, y)
    && forall x :: Stores(ns, x) && Under(path, s, x) && x != y ==> Before(ns, path, y, x)
  }

  /** The node is in or before the subtree of `c`. */
  ghost predicate Passed<V>(ns: Shapes<V>, path: Paths, c: Id, x: Id) {
    Before(ns, path, x, c) || Under(path, c, x)
  }

  ghost predicate LeastChild(children: map<byte, Id>, c: byte) {
    c in children && forall d :: d in children ==> c <= d
  }

  ghost predicate NextSibling(children: map<byte, Id>, c: byte, d: byte) {
    d in children && d > c && forall e :: e in children && e > c ==> d <= e
  }

  /** Below an inner node, the next character leads to a child. */
  lemma StepDown<V>(ns: Shapes<V>, path: Paths, root: Option<Id>, p: Id, x: Id)
    requires Linked(ns, path, root) && p in ns && x in ns && Under(path, p, x) && x != p
    ensures ns[p].Branch? && path[p] < path[x] && path[x][|path[p]|] in ns[p].children
    ensures Under(path, ns[p].children[path[x][|path[p]|]], x)
  {
    hide Linked;
    var n := |path[p]|;
    if |path[x]| == n {
      assert path[x] == path[p];
      PathUnique(ns, path, root, x, p);
    }
    var a := Ancestor(ns, path, root, x, n);
    assert path[a] == path[p];
    PathUnique(ns, path, root, a, p);
    Links(ns, path, root, p);
    Links(ns, path, root, ns[p].children[path[x][n]]);
  }

  lemma ChildPath<V>(ns: Shapes<V>, path: Paths, root: Option<Id>, p: Id, c: byte)
    requires Linked(ns, path, root) && p in ns && ns[p].Branch? && c in ns[p].children
    ensures ns[p].children[c] in ns && ns[p].children[c] in path && p in path
    ensures path[ns[p].children[c]] == path[p] + [c] && ns[ns[p].children[c]].parent == Some(p) && ns[ns[p].children[c]].ch == c
  {
    hide Linked;
    Links(ns, path, root, p);
    Links(ns, path, root, ns[p].children[c]);
  }

  /** A node that stores a key comes before everything else in its subtree. */
  lemma FirstIsSelf<V>(ns: Shapes<V>, path: Paths, root: Option<Id>, s: Id)
    requires Linked(ns, path, root) && Stores(ns, s)
    ensures FirstUnder(ns, path, s, s)
  {
    hide Linked, Less;
    Links(ns, path, root, s);
    forall x | Stores(ns, x) && Under(path, s, x) && x != s
      ensures Before(ns, path, s, x)
    {
      StepDown(ns, path, root, s, x);
      PrefixLess(path[s], path[x]);
    }
  }

  /** Without a value of its own, a node's first key is that of its first child. */
  lemma FirstOfChild<V>(ns: Shapes<V>, path: Paths, root: Option<Id>, s: Id, c: byte, y: Id)
    requires Linked(ns, path, root) && s in ns && ns[s].Branch? && ns[s].value.None? && LeastChild(ns[s].children, c)
    requires FirstUnder(ns, path, ns[s].children[c], y)
    ensures FirstUnder(ns, path, s, y)
  {
    hide Linked, Less;
    ChildPath(ns, path, root, s, c);
    forall x | Stores(ns, x) && Under(path, s, x) && x != y
      ensures Before(ns, path, y, x)
    {
      StepDown(ns, path, root, s, x);
      var d := path[x][|path[s]|];
      ChildPath(ns, path, root, s, d);
      if d != c {
        assert path[y][|path[s]|] == c;
        PartLess(path[s], path[y], path[x]);
      }
    }
  }

  /** From the value of an inner node the walk goes on with its first child. */
  lemma AfterValue<V>(ns: Shapes<V>, path: Paths, root: Option<Id>, s: Id, c: byte, y: Id, x: Id)
    requires Linked(ns, path, root) && s in ns && ns[s].Branch? && LeastChild(ns[s].children, c)
    requires FirstUnder(ns, path, ns[s].children[c], y) && Stores(ns, x)
    ensures Before(ns, path, x, y) <==> Before(ns, path, x, s) || x == s
  {
    hide Linked, Less;
    ChildPath(ns, path, root, s, c);
    Links(ns, path, root, x);
    if !Under(path, s, x) {
      Outside(path[s], path[x], path[y], path[s]);
    } else if x == s {
      PrefixLess(path[s], path[y]);
    } else {
      StepDown(ns, path, root, s, x);
      PrefixLess(path[s], path[x]);
      NotBeforeFirst(ns, path, root, s, c, y, x);
    }
  }

  /** Nothing under a node comes before the first key of its least child. */
  lemma NotBeforeFirst<V>(ns: Shapes<V>, path: Paths, root: Option<Id>, s: Id, c: byte, y: Id, x: Id)
    requires Linked(ns, path, root) && s in ns && ns[s].Branch? && c in ns[s].children
    requires FirstUnder(ns, path, ns[s].children[c], y) && Stores(ns, x) && Under(path, s, x)
    requires path[s] < path[x] && path[x][|path[s]|] >= c
    ensures !Before(ns, path, x, y)
  {
    hide Linked, Less;
    ChildPath(ns, path, root, s, c);
    StepDown(ns, path, root, s, x);
    var d := path[x][|path[s]|];
    assert path[y][|path[s]|] == c;
    if d > c {
      PartLess(path[s], path[y], path[x]);
    } else if x == y {
      Irreflexive(path[x]);
    } else {
      Asymmetric(path[y], path[x]);
    }
  }

  /** After the subtree of a child comes the first key of its next sibling. */
  lemma AfterSibling<V>(ns: Shapes<V>, path: Paths, root: Option<Id>, p: Id, c: byte, d: byte, y: Id, x: Id)
    requires Linked(ns, path, root) && p in ns && ns[p].Branch? && c in ns[p].children && NextSibling(ns[p].children, c, d)
    requires FirstUnder(ns, path, ns[p].children[d], y) && Stores(ns, x)
    ensures Before(ns, path, x, y) <==> Passed(ns, path, ns[p].children[c], x)
  {
    hide Linked, Less, FirstUnder;
    FirstInside(ns, path, ns[p].children[d], y);
    var k := ns[p].children[c];
    ChildPath(ns, path, root, p, c);
    ChildPath(ns, path, root, p, d);
    Links(ns, path, root, x);
    if !Under(path, p, x) {
      Outside(path[p], path[x], path[y], path[k]);
      assert !Under(path, k, x);
    } else if x == p {
      PrefixLess(path[p], path[y]);
      PrefixLess(path[p], path[k]);
    } else {
      StepDown(ns, path, root, p, x);
      var e := path[x][|path[p]|];
      ChildPath(ns, path, root, p, e);
      assert path[y][|path[p]|] == d;
      if e < c {
        PartLess(path[p], path[x], path[y]);
        PartLess(path[p], path[x], path[k]);
      } else if e == c {
        PartLess(path[p], path[x], path[y]);
      } else {
        PartLess(path[p], path[k], path[x]);
        NotBeforeFirst(ns, path, root, p, d, y, x);
      }
    }
  }

  lemma FirstInside<V>(ns: Shapes<V>, path: Paths, s: Id, y: Id)
    requires FirstUnder(ns, path, s, y)
    ensures Stores(ns, y) && Under(path, s, y) && y in ns
  {
  }

  /** A child without a next sibling ends the subtree of its parent. */
  lemma EndOfParent<V>(ns: Shapes<V>, path: Paths, root: Option<Id>, p: Id, c: byte, x: Id)
    requires Linked(ns, path, root) && p in ns && ns[p].Branch? && c in ns[p].children
    requires forall e :: e in ns[p].children ==> e <= c
    requires Stores(ns, x)
    ensures Passed(ns, path, ns[p].children[c], x) <==> Passed(ns, path, p, x)
  {
    hide Linked, Less;
    var k := ns[p].children[c];
    ChildPath(ns, path, root, p, c);
    Links(ns, path, root, x);
    if !Under(path, p, x) {
      Outside(path[p], path[x], path[k], path[p]);
      assert !Under(path, k, x);
    } else if x == p {
      PrefixLess(path[p], path[k]);
    } else {
      StepDown(ns, path, root, p, x);
      if path[x][|path[p]|] < c {
        PartLess(path[p], path[x], path[k]);
      }
    }
  }

  /** The subtree of the root is everything. */
  lemma RootPassed<V>(ns: Shapes<V>, path: Paths, root: Option<Id>, r: Id, x: Id)
    requires Linked(ns, path, root) && r in ns && ns[r].parent.None? && x in ns
    ensures Passed(ns, path, r, x)
  {
    Links(ns, path, root, r);
    Links(ns, path, root, x);
  }

  /** The subtree of a node without children is the node. */
  lemma AloneUnder<V>(ns: Shapes<V>, path: Paths, root: Option<Id>, s: Id, x: Id)
    requires Linked(ns, path, root) && s in ns && x in ns && (ns[s].Branch? ==> forall c :: c !in ns[s].children)
    ensures Passed(ns, path, s, x) <==> Before(ns, path, x, s) || x == s
  {
    hide Linked, Less;
    Links(ns, path, root, s);
    if Under(path, s, x) && x != s {
      StepDown(ns, path, root, s, x);
    }
  }
}

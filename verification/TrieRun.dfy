/**
 Whole runs of a HAT-trie: every sequence of operations answers as a finite map
 would, whatever bursts, rehashes, compactions and prunings it sets off.
 */
module TrieRun {
  import opened Options
  import opened ArrayBucket
  import opened ArrayHash
  import opened TrieShape
  import opened TrieNodes
  import opened TrieRefusal
  import opened HTrie
  import opened TrieWalk
  import opened TrieErase

  datatype Op<V> =
    | Put(key: Key, value: V)
    | Get(key: Key)
    | Take(key: Key)
    | Longest(query: Key)
    | Wipe

  datatype Answer<V> =
    | Added(added: bool)
    | TooLong
    | Refused
    | Found(value: Option<V>)
    | Taken(count: nat)
    | Best(length: Option<nat>, value: Option<V>)
    | Wiped

  /** The length of the longest prefix of `q`, up to `n` characters, that is a key. */
  function LongestKey<V>(m: map<Key, V>, q: Key, n: nat): (r: Option<nat>)
    requires n <= |q|
    ensures r.None? <==> forall j :: 0 <= j <= n ==> q[..j] !in m
    ensures r.Some? ==> r.value <= n && q[..r.value] in m && forall j :: r.value < j <= n ==> q[..j] !in m
  {
    if q[..n] in m then Some(n) else if n == 0 then None else LongestKey(m, q, n - 1)
  }

  function Lookup<V>(m: map<Key, V>, k: Key): Option<V> {
    if k in m then Some(m[k]) else None
  }

  /** What a finite map does. */
  function After<V>(m: map<Key, V>, op: Op<V>): map<Key, V> {
    match op
    case Put(k, v) => if k in m || |k| > MAX_KEY_SIZE then m else m[k := v]
    case Take(k) => m - {k}
    case Wipe => map[]
    case _ => m
  }

  /** What a finite map answers. */
  function AnswerOf<V>(m: map<Key, V>, op: Op<V>): Answer<V> {
    match op
    case Put(k, v) => if |k| > MAX_KEY_SIZE then TooLong else Added(k !in m)
    case Get(k) => Found(Lookup(m, k))
    case Take(k) => Taken(if k in m then 1 else 0)
    case Longest(q) =>
      var n := LongestKey(m, q, |q|);
      Best(n, if n.Some? then Some(m[q[..n.value]]) else None)
    case Wipe => Wiped
  }

  function AnswersOf<V>(m: map<Key, V>, ops: seq<Op<V>>): seq<Answer<V>>
    decreases |ops|
  {
    if ops == [] then [] else [AnswerOf(m, ops[0])] + AnswersOf(After(m, ops[0]), ops[1..])
  }

  /** The map after the first `n` operations, where a refused one changes nothing. */
  function MapAfter<V>(ops: seq<Op<V>>, answers: seq<Answer<V>>, n: nat): map<Key, V>
    requires n <= |ops| && n <= |answers|
  {
    if n == 0 then map[]
    else
      var m := MapAfter(ops, answers, n - 1);
      if answers[n - 1].Refused? then m else After(m, ops[n - 1])
  }

  /** Every answer is that of a finite map, except that an insertion may be refused. */
  ghost predicate Conforms<V>(ops: seq<Op<V>>, answers: seq<Answer<V>>) {
    && |answers| == |ops|
    && forall n :: 0 <= n < |ops| ==>
         if answers[n].Refused? then ops[n].Put? else answers[n] == AnswerOf(MapAfter(ops, answers, n), ops[n])
  }

  lemma {:induction false} MapAfterMore<V>(ops: seq<Op<V>>, answers: seq<Answer<V>>, a: Answer<V>, n: nat)
    requires n <= |ops| && n <= |answers|
    ensures MapAfter(ops, answers + [a], n) == MapAfter(ops, answers, n)
  {
    if n > 0 {
      MapAfterMore(ops, answers, a, n - 1);
    }
  }

  lemma {:induction false} MapAfterPrefix<V>(ops: seq<Op<V>>, k: nat, answers: seq<Answer<V>>, n: nat)
    requires n <= k <= |ops| && n <= |answers|
    ensures MapAfter(ops[..k], answers, n) == MapAfter(ops, answers, n)
  {
    if n > 0 {
      MapAfterPrefix(ops, k, answers, n - 1);
    }
  }

  lemma RunStart<V>(ops: seq<Op<V>>, answers: seq<Answer<V>>)
    ensures Conforms(ops[..0], []) && MapAfter(ops, answers, 0) == map[]
  {
  }

  lemma MapAfterStep<V>(ops: seq<Op<V>>, answers: seq<Answer<V>>, a: Answer<V>)
    requires |answers| < |ops|
    ensures MapAfter(ops, answers + [a], |answers| + 1) ==
            var m := MapAfter(ops, answers, |answers|); if a.Refused? then m else After(m, ops[|answers|])
  {
    hide After;
    MapAfterMore(ops, answers, a, |answers|);
  }

  lemma ConformsMore<V>(ops: seq<Op<V>>, answers: seq<Answer<V>>, a: Answer<V>)
    requires |answers| < |ops| && Conforms(ops[..|answers|], answers)
    requires if a.Refused? then ops[|answers|].Put? else a == AnswerOf(MapAfter(ops, answers, |answers|), ops[|answers|])
    ensures Conforms(ops[..|answers| + 1], answers + [a])
  {
    hide AnswerOf, MapAfter;
    var k, more := |answers|, answers + [a];
    forall n | 0 <= n <= k
      ensures if more[n].Refused? then ops[n].Put? else more[n] == AnswerOf(MapAfter(ops[..k + 1], more, n), ops[n])
    {
      MapAfterPrefix(ops, k + 1, more, n);
      MapAfterMore(ops, answers, a, n);
      MapAfterPrefix(ops, k, answers, n);
    }
  }

  /** Without refusals the answers are those of the map throughout. */
  lemma {:induction false} NeverRefusedAnswers<V>(ops: seq<Op<V>>, answers: seq<Answer<V>>, n: nat)
    requires Conforms(ops, answers) && n <= |ops| && forall i :: 0 <= i < |answers| ==> !answers[i].Refused?
    ensures answers[n..] == AnswersOf(MapAfter(ops, answers, n), ops[n..])
    decreases |ops| - n
  {
    hide AnswerOf, After;
    if n < |ops| {
      NeverRefusedAnswers(ops, answers, n + 1);
      assert ops[n..][0] == ops[n] && ops[n..][1..] == ops[n + 1..];
      assert answers[n..] == [answers[n]] + answers[n + 1..];
      assert !answers[n].Refused?;
    }
  }

  /** With a threshold of at most 65535 and a load factor of at least 0.1 nothing is refused. */
  lemma NoRefusal<V>(t: Trie<V>, key: Key)
    requires t.Valid() && t.burst <= MAX_VALUES && t.maxLoad >= 0.1
    ensures !Refusal(t.shapes, t.path, key, t.burst, t.maxLoad)
  {
    hide Linked, Represents, Stocked, Separate, Mirrored, RefusedBy;
    forall id | LeafFor(t.shapes, t.path, key, id)
      ensures !RefusedAt(t.shapes, t.path, key, t.burst, t.maxLoad, id)
    {
      StockedAt(t.shapes, t.burst, id);
      ListedSize(t.shapes[id].keys, t.shapes[id].vals);
      NeverRefused(t.shapes[id].vals, key[|t.path[id]|..], t.burst, t.maxLoad);
    }
  }

  /** `longest_prefix` with the value found. */
  method LongestValue<V>(t: Trie<V>, q: Key) returns (length: Option<nat>, value: Option<V>)
    requires t.Valid()
    ensures length == LongestKey(t.contents, q, |q|)
    ensures value == if length.Some? then Some(t.contents[q[..length.value]]) else None
  {
    hide Tree, Stocked, Separate, Mirrored, Trie<V>.KeyAt;
    var it, id, n, len := t.LongestPrefix(q);
    if it.AtEnd() {
      length, value := None, None;
    } else {
      var v := t.ValueOf(it, id, n, q[..len]);
      var key := KeyOf(t, it, id, n);
      length, value := Some(|key|), Some(v);
    }
  }

  /** `insert` with its answer. */
  method PutKey<V>(t: Trie<V>, k: Key, v: V) returns (a: Answer<V>)
    requires t.Valid()
    modifies t, Tables(t.nodes)
    ensures t.Valid() && fresh(Tables(t.nodes) - old(Tables(t.nodes)))
    ensures a.Refused? <==> |k| <= MAX_KEY_SIZE && old(Refusal(t.shapes, t.path, k, t.burst, t.maxLoad))
    ensures a.Refused? ==> t.contents == old(t.contents)
    ensures !a.Refused? ==> a == AnswerOf(old(t.contents), Put(k, v)) && t.contents == After(old(t.contents), Put(k, v))
  {
    hide Tree, Stocked, Separate, Mirrored, Trie<V>.PointsTo, Refusal;
    var r := t.Insert(k, v);
    a := if r.InsertedAt? then Added(r.added) else if |k| > MAX_KEY_SIZE then TooLong else Refused;
  }

  /**
   One operation of the trie answers as the map does and becomes what the map
   becomes; an insertion may be refused instead, which leaves the map as it is.
   */
  method Step<V>(t: Trie<V>, op: Op<V>) returns (a: Answer<V>)
    requires t.Valid()
    modifies t, Tables(t.nodes)
    ensures t.Valid() && fresh(Tables(t.nodes) - old(Tables(t.nodes)))
    ensures a.Refused? <==>
            op.Put? && |op.key| <= MAX_KEY_SIZE && old(Refusal(t.shapes, t.path, op.key, t.burst, t.maxLoad))
    ensures a.Refused? ==> t.contents == old(t.contents)
    ensures !a.Refused? ==> a == AnswerOf(old(t.contents), op) && t.contents == After(old(t.contents), op)
  {
    hide Tree, Stocked, Separate, Mirrored, Trie<V>.PointsTo, Refusal;
    match op
    case Put(k, v) =>
      a := PutKey(t, k, v);
    case Get(k) =>
      var it, id, n := t.Find(k);
      if it.AtEnd() {
        a := Found(None);
      } else {
        var v := t.ValueOf(it, id, n, k);
        a := Found(Some(v));
      }
    case Take(k) =>
      var count := EraseByKey(t, k);
      a := Taken(count);
    case Longest(q) =>
      var length, value := LongestValue(t, q);
      a := Best(length, value);
    case Wipe =>
      Clear(t);
      a := Wiped;
  }

  /**
   A run on an empty trie gives, operation by operation, the answers of a finite
   map on which refused insertions did nothing; with a threshold of at most 65535
   and a load factor of at least 0.1 none is refused.
   */
  method Run<V>(hash: Key -> nat, maxLoad: real, burst: nat, ops: seq<Op<V>>) returns (answers: seq<Answer<V>>)
    requires maxLoad > 0.0
    ensures Conforms(ops, answers)
    ensures maxLoad >= 0.1 && burst <= MAX_VALUES ==> answers == AnswersOf(map[], ops)
  {
    hide Trie<V>.Valid, AnswerOf, After, Refusal, Conforms, MapAfter;
    RunStart(ops, []);
    var t := new Trie<V>(hash, maxLoad, burst);
    answers := [];
    while |answers| < |ops|
      invariant |answers| <= |ops| && t.Valid() && fresh(t) && fresh(Tables(t.nodes))
      invariant t.contents == MapAfter(ops, answers, |answers|)
      invariant Conforms(ops[..|answers|], answers)
      invariant maxLoad >= 0.1 && burst <= MAX_VALUES ==> forall i :: 0 <= i < |answers| ==> !answers[i].Refused?
    {
      var n := |answers|;
      if maxLoad >= 0.1 && burst <= MAX_VALUES && ops[n].Put? {
        NoRefusal(t, ops[n].key);
      }
      var a := Step(t, ops[n]);
      MapAfterStep(ops, answers, a);
      ConformsMore(ops, answers, a);
      answers := answers + [a];
    }
    assert ops[..|answers|] == ops;
    if maxLoad >= 0.1 && burst <= MAX_VALUES {
      RunStart(ops, answers);
      NeverRefusedAnswers(ops, answers, 0);
      assert answers[0..] == answers && ops[0..] == ops;
    }
  }
}

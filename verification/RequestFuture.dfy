/**
 The future that `request` of the request box returns. The call first hands its
 message to the pool and then asks for the future by the number of its action, and
 both completions and other calls can come between the two.
 */
module RequestFuture {
  import opened Options
  import opened RequestBox
  import RP = RequestPool
  import RR = RequestResult

  /**
   The box and its callers. `newest` is the action noted last by `async_prep`,
   `took` the action of each request, and `futures` what each call that has
   returned got: the number of a promise, or an exception.
   */
  datatype Caller<M> = Caller(box: Box<M>, newest: Option<nat>, took: seq<nat>, futures: map<nat, Option<nat>>)

  datatype Call<M> =
    | Inside(e: Event<M>)    // a step of the box; `Ask` is the first half of `request`
    | Fetch(k: nat)          // its second half, `getFuture`, in the call that made request `k`

  function Begin<M>(): Caller<M> {
    Caller(Start(), None, [], map[])
  }

  predicate CanDo<M>(s: Caller<M>, c: Call<M>) {
    match c
    case Inside(e) => Enabled(s.box, e)
    case Fetch(k) => k < |s.took| && k !in s.futures
  }

  /** What `getFuture` gives. */
  function Gets<M>(s: Caller<M>, k: nat): Option<nat>
    requires k < |s.took|
  {
    var a := s.took[k];
    if s.newest != Some(a) || a !in s.box.pending then None else Some(s.box.pending[a].number)
  }

  function Do<M>(s: Caller<M>, c: Call<M>): Caller<M>
    requires CanDo(s, c)
  {
    match c
    case Inside(e) =>
      var a := RP.Chosen(s.box.pool);
      s.(box := Step(s.box, e),
         newest := if e.Ask? then Some(a) else s.newest,
         took := if e.Ask? && !e.empty then s.took + [a] else s.took)
    case Fetch(k) =>
      s.(futures := s.futures[k := Gets(s, k)], newest := if Gets(s, k).Some? then None else s.newest)
  }

  /** The calls can happen one after the other, from the beginning. */
  ghost predicate Possible<M>(calls: seq<Call<M>>)
    decreases |calls|, 0
  {
    calls == [] ||
    (Possible(calls[..|calls| - 1]) && CanDo(After(calls[..|calls| - 1]), calls[|calls| - 1]))
  }

  /** The state they lead to. */
  ghost function After<M>(calls: seq<Call<M>>): Caller<M>
    requires Possible(calls)
    decreases |calls|, 1
  {
    if calls == [] then Begin() else Do(After(calls[..|calls| - 1]), calls[|calls| - 1])
  }

  lemma LastCall<M>(calls: seq<Call<M>>)
    requires Possible(calls)
    ensures calls == [] ==> After(calls) == Begin()
    ensures calls != [] ==>
              var init, c := calls[..|calls| - 1], calls[|calls| - 1];
              Possible(init) && CanDo(After(init), c) && After(calls) == Do(After(init), c)
  {
    hide CanDo, Do;
  }

  /** The steps of the box. */
  function Steps<M>(calls: seq<Call<M>>): seq<Event<M>> {
    if calls == [] then []
    else
      var last := calls[|calls| - 1];
      Steps(calls[..|calls| - 1]) + if last.Inside? then [last.e] else []
  }

  lemma {:induction false} BoxRun<M>(calls: seq<Call<M>>)
    requires Possible(calls)
    ensures Legal(Steps(calls)) && StateAfter(Steps(calls)) == After(calls).box
    decreases |calls|
  {
    hide Possible, After, Legal, StateAfter, Step, Enabled;
    LastCall(calls);
    if calls == [] {
      NoSteps<M>();
    } else {
      var init, c := calls[..|calls| - 1], calls[|calls| - 1];
      BoxRun(init);
      if c.Inside? {
        OneMore(Steps(init), c.e);
      } else {
        assert Steps(init) + [] == Steps(init);
      }
    }
  }

  lemma NoSteps<M>()
    ensures Legal<M>([]) && StateAfter<M>([]) == Start()
  {
  }

  lemma OneMore<M>(events: seq<Event<M>>, e: Event<M>)
    requires Legal(events) && Enabled(StateAfter(events), e)
    ensures Legal(events + [e]) && StateAfter(events + [e]) == Step(StateAfter(events), e)
  {
    hide Enabled, Step;
    assert (events + [e])[..|events|] == events;
  }

  // ---------------------------------------------------------------------------
  // What every step keeps
  // ---------------------------------------------------------------------------

  /** Request `k` has not ended. */
  predicate Outstanding<M>(s: Caller<M>, k: nat) {
    && k < |s.took| && k in s.box.pool.requests && s.box.pool.requests[k] == RP.Open(s.took[k])
    && s.took[k] in s.box.pool.actions && s.box.pool.actions[s.took[k]].phase != RP.Told(true)
  }

  /** A request is served by the action it took. */
  ghost predicate Tracked<M>(s: Caller<M>) {
    && |s.took| == |s.box.promised| == s.box.pool.started
    && forall k :: 0 <= k < |s.took| && k in s.box.pool.requests && s.box.pool.requests[k].Open? ==>
         s.box.pool.requests[k] == RP.Open(s.took[k])
  }

  /** The last call of `request` is the one that made request `k`, and no call with the same action has had its future since. */
  ghost predicate Unclaimed<M>(calls: seq<Call<M>>, k: nat)
    requires Possible(calls)
  {
    calls != [] &&
    var init, last := calls[..|calls| - 1], calls[|calls| - 1];
    match last
    case Fetch(j) => Unclaimed(init, k) && k < |After(init).took| && After(init).took[j] != After(init).took[k]
    case Inside(e) => if e.Ask? then !e.empty && k == |After(init).took| else Unclaimed(init, k)
  }

  lemma StepTracked<M>(s: Caller<M>, c: Call<M>)
    requires Inv(s.box) && Tracked(s) && CanDo(s, c)
    ensures Tracked(Do(s, c))
  {
    hide RP.Partition, RP.Bounded, RP.ToldOnce, RP.States, RP.Served, Once, Matched, Apart, Kept, RP.Chosen;
  }

  /** While request `k` is outstanding, its action is noted as the newest one just if `u` says so. */
  ghost predicate NewestIs<M>(s: Caller<M>, k: nat, u: bool) {
    Outstanding(s, k) ==> (s.newest == Some(s.took[k]) <==> u)
  }

  /** The action of an outstanding request is in use and has its entry. */
  lemma OutstandingFacts<M>(s: Caller<M>, k: nat)
    requires Inv(s.box) && Outstanding(s, k)
    ensures s.took[k] in s.box.pool.active && s.took[k] in s.box.pending && RP.Chosen(s.box.pool) != s.took[k]
    ensures k < |s.box.promised| && s.box.pending[s.took[k]].number == s.box.promised[k]
  {
    hide RP.Bounded, RP.ToldOnce, Once, Apart;
    RP.ChosenIdle(s.box.pool);
  }

  lemma AskNewest<M>(s: Caller<M>, empty: bool, k: nat, u: bool)
    requires Inv(s.box) && Tracked(s) && NewestIs(s, k, u)
    ensures NewestIs(Do(s, Inside(Ask(empty))), k, !empty && k == |s.took|)
  {
    hide Inv, RP.Chosen, OwnPromise, Prepared;
    var t := Do(s, Inside(Ask(empty)));
    if Outstanding(t, k) && k < |s.took| {
      AskOthers(s, empty, k);
      OutstandingFacts(s, k);
    }
  }

  /** A request leaves the outstanding ones alone. */
  lemma AskOthers<M>(s: Caller<M>, empty: bool, k: nat)
    requires Inv(s.box) && Tracked(s) && k < |s.took| && Outstanding(Do(s, Inside(Ask(empty))), k)
    ensures Outstanding(s, k)
  {
    hide RP.Bounded, RP.ToldOnce, Once, Apart, Kept, OwnPromise, Prepared;
    RP.ChosenIdle(s.box.pool);
  }

  lemma InsideNewest<M>(s: Caller<M>, e: Event<M>, k: nat, u: bool)
    requires Inv(s.box) && CanDo(s, Inside(e)) && !e.Ask? && NewestIs(s, k, u)
    ensures NewestIs(Do(s, Inside(e)), k, u)
  {
    hide RP.Bounded, RP.ToldOnce, Once, Apart, Kept, Told;
  }

  lemma FetchNewest<M>(s: Caller<M>, j: nat, k: nat, u: bool)
    requires Inv(s.box) && CanDo(s, Fetch(j)) && NewestIs(s, k, u)
    ensures NewestIs(Do(s, Fetch(j)), k, u && k < |s.took| && s.took[j] != s.took[k])
  {
    hide Inv;
    if Outstanding(s, k) {
      OutstandingFacts(s, k);
    }
  }

  lemma StepNewest<M>(s: Caller<M>, c: Call<M>, k: nat, u: bool)
    requires Inv(s.box) && Tracked(s) && CanDo(s, c) && NewestIs(s, k, u)
    ensures NewestIs(Do(s, c), k,
                     match c
                     case Fetch(j) => u && k < |s.took| && s.took[j] != s.took[k]
                     case Inside(e) => if e.Ask? then !e.empty && k == |s.took| else u)
  {
    hide Inv, Tracked, Do, NewestIs;
    match c
    case Fetch(j) => FetchNewest(s, j, k, u);
    case Inside(e) =>
      if e.Ask? {
        AskNewest(s, e.empty, k, u);
      } else {
        InsideNewest(s, e, k, u);
      }
  }

  lemma {:induction false} NewestInRun<M>(calls: seq<Call<M>>, k: nat)
    requires Possible(calls)
    ensures Inv(After(calls).box) && Tracked(After(calls)) && NewestIs(After(calls), k, Unclaimed(calls, k))
    decreases |calls|
  {
    hide Possible, After, CanDo, Do, Inv, Tracked, NewestIs, Legal, StateAfter;
    LastCall(calls);
    BoxRun(calls);
    RunKeepsInv(Steps(calls));
    if calls == [] {
      AtBegin<M>(k);
    } else {
      var init, c := calls[..|calls| - 1], calls[|calls| - 1];
      NewestInRun(init, k);
      StepTracked(After(init), c);
      StepNewest(After(init), c, k, Unclaimed(init, k));
    }
  }

  lemma AtBegin<M>(k: nat)
    ensures Tracked(Begin<M>()) && NewestIs(Begin<M>(), k, false)
  {
  }

  /** An entry holds the promise of request `k` only while the request is outstanding. */
  lemma OwnEntry<M>(s: Caller<M>, k: nat)
    requires Inv(s.box) && Tracked(s) && k < |s.took|
    requires s.took[k] in s.box.pending && s.box.pending[s.took[k]].number == s.box.promised[k]
    ensures Outstanding(s, k)
  {
    hide RP.Bounded, RP.ToldOnce, Once;
    var a := s.took[k];
    assert a in s.box.pool.actions;
    assert a in s.box.pool.active || a in s.box.pool.idle;
  }

  /** A request is outstanding exactly as long as its operations have not decided it. */
  lemma OutstandingIff<M>(calls: seq<Call<M>>, k: nat)
    requires Possible(calls) && k < |After(calls).took|
    ensures Legal(Steps(calls))
    ensures Outstanding(After(calls), k) <==> RR.Verdict(RR.Completions(Steps(calls), k)).None?
  {
    hide Possible, After, Legal, StateAfter, RR.Completions;
    hide RP.Partition, RP.Bounded, RP.ToldOnce, RP.States, Once, Matched, Apart, Kept;
    BoxRun(calls);
    NewestInRun(calls, k);
    RR.ResultInRun(Steps(calls), k);
  }

  // ---------------------------------------------------------------------------
  // Main results
  // ---------------------------------------------------------------------------

  /**
   `request` returns the future of its own request exactly if, when it asks for it,
   no other call of `request` came in between, no other call took it away, and
   the request has not ended yet.
   */
  lemma {:induction false} FutureIff<M>(calls: seq<Call<M>>, k: nat)
    requires Possible(calls) && CanDo(After(calls), Fetch(k))
    ensures Legal(Steps(calls)) && k < |After(calls).box.promised|
    ensures Gets(After(calls), k) == Some(After(calls).box.promised[k]) <==>
            Unclaimed(calls, k) && RR.Verdict(RR.Completions(Steps(calls), k)).None?
  {
    hide Possible, After, Legal, StateAfter, RR.Completions, RR.Verdict, Unclaimed, Inv;
    NewestInRun(calls, k);
    OutstandingIff(calls, k);
    var s := After(calls);
    if Outstanding(s, k) {
      OutstandingFacts(s, k);
    } else if Gets(s, k) == Some(s.box.promised[k]) {
      OwnEntry(s, k);
    }
  }

  lemma Then<M>(calls: seq<Call<M>>, c: Call<M>) returns (more: seq<Call<M>>)
    requires Possible(calls) && CanDo(After(calls), c)
    ensures more == calls + [c] && Possible(more) && After(more) == Do(After(calls), c)
  {
    hide CanDo, Do;
    more := calls + [c];
    assert more[..|calls|] == calls;
  }

  lemma NoCalls<M>()
    ensures Possible<M>([]) && After<M>([]) == Begin()
  {
  }

  /** A request that fails before the call asks for its future: the promise is set, and the call throws. */
  lemma LateExample<M>(m: M) returns (calls: seq<Call<M>>)
    ensures calls == [Inside(Ask(false)), Inside(Callback(0, 5, m)), Fetch(0)] && Possible(calls)
    ensures var s := After(calls); s.futures == map[0 := None] && s.box.fulfilled == [Fulfilled(0, Failure(5, false))]
  {
    hide Possible, After;
    NoCalls<M>();
    calls := [];
    calls := Then(calls, Inside(Ask(false)));
    calls := Then(calls, Inside(Callback(0, 5, m)));
    calls := Then(calls, Fetch(0));
  }

  /**
   A request that ends before its call asks for the future, and whose action a
   second request takes: the first call gets the future of the second request,
   and the second call throws.
   */
  lemma StolenExample<M>(m: M) returns (calls: seq<Call<M>>)
    ensures calls == [Inside(Ask(false)), Inside(Callback(0, 5, m)), Inside(Finish(0)), Inside(Ask(false)), Fetch(0), Fetch(1)]
    ensures Possible(calls)
    ensures var s := After(calls); s.box.promised == [0, 1] && s.futures == map[0 := Some(1), 1 := None]
  {
    hide Possible, After;
    calls := Recycled(m);
    calls := Then(calls, Fetch(0));
    calls := Then(calls, Fetch(1));
  }

  /** The second request takes the action of the first, which has ended. */
  lemma Recycled<M>(m: M) returns (calls: seq<Call<M>>)
    ensures calls == [Inside(Ask(false)), Inside(Callback(0, 5, m)), Inside(Finish(0)), Inside(Ask(false))] && Possible(calls)
    ensures var s := After(calls);
            && s.newest == Some(0) && s.took == [0, 0] && s.futures == map[]
            && s.box.promised == [0, 1] && s.box.pending == map[0 := Promise(1, false)]
  {
    hide Possible, After;
    NoCalls<M>();
    calls := [];
    calls := Then(calls, Inside(Ask(false)));
    calls := Then(calls, Inside(Callback(0, 5, m)));
    calls := Then(calls, Inside(Finish(0)));
    calls := Then(calls, Inside(Ask(false)));
  }
}

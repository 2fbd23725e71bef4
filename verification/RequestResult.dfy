/**
 What a promise of the request box is set to, read off the events: the reply that
 its own request received, or the first error it met.
 */
module RequestResult {
  import opened Options
  import opened RequestBox
  import RP = RequestPool
  import RF = RequestFate

  /** The run as the pool sees it. */
  function PoolEvents<M>(events: seq<Event<M>>): (r: seq<RP.Event>)
    ensures |r| == |events|
  {
    if events == [] then [] else PoolEvents(events[..|events| - 1]) + [PoolEvent(events[|events| - 1])]
  }

  lemma {:induction false} PoolRun<M>(events: seq<Event<M>>)
    requires Legal(events)
    ensures RP.Legal(PoolEvents(events)) && RP.StateAfter(PoolEvents(events)) == StateAfter(events).pool
    decreases |events|
  {
    hide RP.Step, RP.Enabled, Prepared, Told;
    if events != [] {
      var init, e := events[..|events| - 1], events[|events| - 1];
      PoolRun(init);
      assert PoolEvents(events)[..|events| - 1] == PoolEvents(init);
    }
  }

  /** How an AIO operation ended, and the message it has then. */
  datatype Completion<M> = Completion(error: int, msg: M)

  /** How the operations of request `k` ended, in order. */
  ghost function Completions<M>(events: seq<Event<M>>, k: nat): seq<Completion<M>>
    requires Legal(events)
  {
    if events == [] then []
    else
      var init, e := events[..|events| - 1], events[|events| - 1];
      PoolRun(init);
      Completions(init, k) +
      if e.Callback? && RF.Serving(PoolEvents(init), e.a) == Some(k) then [Completion(e.error, e.msg)] else []
  }

  /** What they make of the request: the reply that the second one brought, or the first error. */
  function Verdict<M>(c: seq<Completion<M>>): Option<Result<M>> {
    if c == [] then None
    else if c[0].error != 0 then Some(Failure(c[0].error, false))
    else if |c| == 1 then None
    else if c[1].error != 0 then Some(Failure(c[1].error, true))
    else Some(Value(c[1].msg))
  }

  predicate Stage<M>(s: Box<M>, k: nat, c: seq<Completion<M>>) {
    if k !in s.pool.requests then c == []
    else
      match s.pool.requests[k]
      case Over => Verdict(c).Some?
      case Open(a) =>
        && a in s.pool.actions
        && match s.pool.actions[a].phase
           case Quiet => false
           case Flying =>
             if s.pool.actions[a].state == RP.Sending then c == [] else |c| == 1 && c[0].error == 0
           case Told(false) => |c| == 1 && c[0].error == 0
           case Told(true) => Verdict(c).Some?
  }

  /** The promise of request `k` was set to what its operations make of it. */
  ghost predicate Answered<M>(s: Box<M>, k: nat, c: seq<Completion<M>>) {
    && |s.fulfilled| == |s.pool.finals|
    && (forall i :: 0 <= i < |s.pool.finals| && s.pool.finals[i].serial == k ==> Verdict(c) == Some(s.fulfilled[i].result))
    && (Verdict(c).Some? ==> exists i :: 0 <= i < |s.pool.finals| && s.pool.finals[i].serial == k)
  }

  /** A promise is marked as sent just while its request waits for the reply. */
  ghost predicate SentNoted<M>(s: Box<M>) {
    forall a :: a in s.pending && a in s.pool.actions ==>
      (s.pending[a].sent <==> s.pool.actions[a].state == RP.Receiving || s.pool.actions[a].phase == RP.Told(false))
  }

  /** An action whose AIO is in use: its request, its promise, and nobody else's. */
  lemma InUse<M>(s: Box<M>, a: nat, k: nat)
    requires Inv(s) && a in s.pool.actions && s.pool.actions[a].phase != RP.Quiet
    ensures var x, reqs := s.pool.actions[a], s.pool.requests;
            && x.state != RP.Idle && (x.phase == RP.Told(false) ==> x.state == RP.Sending)
            && x.serial in reqs && reqs[x.serial] == RP.Open(a)
            && (a in s.pending <==> x.phase != RP.Told(true))
            && (k in reqs && k != x.serial && reqs[k].Open? ==> reqs[k].action != a)
            && |s.fulfilled| == |s.pool.finals|
  {
    hide RP.Bounded, RP.ToldOnce, Once, Apart;
  }

  /** The action that a request takes is in no use. */
  lemma Taken<M>(s: Box<M>, k: nat)
    requires Inv(s)
    ensures var a, p := RP.Chosen(s.pool), s.pool;
            && (a in p.actions ==> p.actions[a].phase == RP.Quiet && p.actions[a].state == RP.Idle)
            && (a in s.pending ==> a in p.actions)
            && p.total !in p.actions && p.total !in s.pending && p.started !in p.requests
            && (k in p.requests && p.requests[k].Open? ==> p.requests[k].action != a)
  {
    hide RP.Bounded, RP.ToldOnce, Once, Apart, Kept;
    RP.ChosenIdle(s.pool);
  }

  lemma AskSent<M>(s: Box<M>, empty: bool)
    requires Inv(s) && SentNoted(s)
    ensures SentNoted(Step(s, Ask(empty)))
  {
    hide Inv;
    Taken(s, 0);
  }

  lemma CallbackSent<M>(s: Box<M>, a: nat, error: int, msg: M)
    requires Inv(s) && Enabled(s, Callback(a, error, msg)) && SentNoted(s)
    ensures SentNoted(Step(s, Callback(a, error, msg)))
  {
    hide Inv;
    InUse(s, a, 0);
  }

  lemma FinishSent<M>(s: Box<M>, a: nat)
    requires Inv(s) && Enabled(s, Finish(a)) && SentNoted(s)
    ensures SentNoted(Step(s, Finish(a)))
  {
    hide Inv;
    InUse(s, a, 0);
  }

  lemma StepSent<M>(s: Box<M>, e: Event<M>)
    requires Inv(s) && Enabled(s, e) && SentNoted(s)
    ensures SentNoted(Step(s, e))
  {
    hide Inv, Step, SentNoted;
    match e
    case Ask(empty) => AskSent(s, empty);
    case Callback(a, error, msg) => CallbackSent(s, a, error, msg);
    case Finish(a) => FinishSent(s, a);
  }

  lemma CallbackStage<M>(s: Box<M>, a: nat, error: int, msg: M, c: seq<Completion<M>>)
    requires Inv(s) && Enabled(s, Callback(a, error, msg)) && Stage(s, s.pool.actions[a].serial, c)
    ensures Stage(Step(s, Callback(a, error, msg)), s.pool.actions[a].serial, c + [Completion(error, msg)])
  {
    hide Inv, Told;
    InUse(s, a, 0);
  }

  lemma CallbackAnswered<M>(s: Box<M>, a: nat, error: int, msg: M, c: seq<Completion<M>>)
    requires Inv(s) && Enabled(s, Callback(a, error, msg)) && SentNoted(s)
    requires Stage(s, s.pool.actions[a].serial, c) && Answered(s, s.pool.actions[a].serial, c)
    ensures Answered(Step(s, Callback(a, error, msg)), s.pool.actions[a].serial, c + [Completion(error, msg)])
  {
    hide Inv;
    InUse(s, a, 0);
    var t := Step(s, Callback(a, error, msg));
    assert t.pool.finals == s.pool.finals || t.pool.finals[|s.pool.finals|].serial == s.pool.actions[a].serial;
  }

  /** The completions that a step adds to those of request `k`. */
  function Adds<M>(s: Box<M>, e: Event<M>, k: nat): seq<Completion<M>> {
    if e.Callback? && e.a in s.pool.actions && s.pool.actions[e.a].serial == k then [Completion(e.error, e.msg)] else []
  }

  lemma AskStage<M>(s: Box<M>, empty: bool, k: nat, c: seq<Completion<M>>)
    requires Inv(s) && Stage(s, k, c)
    ensures Stage(Step(s, Ask(empty)), k, c)
  {
    hide Inv, Verdict, Prepared, OwnPromise;
    Taken(s, k);
  }

  lemma FinishStage<M>(s: Box<M>, a: nat, k: nat, c: seq<Completion<M>>)
    requires Inv(s) && Enabled(s, Finish(a)) && Stage(s, k, c)
    ensures Stage(Step(s, Finish(a)), k, c)
  {
    hide Inv, Verdict;
    InUse(s, a, k);
  }

  lemma OtherStage<M>(s: Box<M>, a: nat, error: int, msg: M, k: nat, c: seq<Completion<M>>)
    requires Inv(s) && Enabled(s, Callback(a, error, msg)) && Stage(s, k, c) && s.pool.actions[a].serial != k
    ensures Stage(Step(s, Callback(a, error, msg)), k, c)
  {
    hide Inv, Verdict, Told;
    InUse(s, a, k);
  }

  lemma OtherAnswered<M>(s: Box<M>, e: Event<M>, k: nat, c: seq<Completion<M>>)
    requires Inv(s) && Enabled(s, e) && Answered(s, k, c)
    requires e.Callback? ==> s.pool.actions[e.a].serial != k
    ensures Answered(Step(s, e), k, c)
  {
    hide Inv, Verdict;
    if e.Callback? {
      InUse(s, e.a, k);
    }
    var t := Step(s, e);
    assert s.pool.finals <= t.pool.finals && s.fulfilled <= t.fulfilled;
  }

  lemma StepStage<M>(s: Box<M>, e: Event<M>, k: nat, c: seq<Completion<M>>)
    requires Inv(s) && Enabled(s, e) && SentNoted(s) && Stage(s, k, c) && Answered(s, k, c)
    ensures Stage(Step(s, e), k, c + Adds(s, e, k)) && Answered(Step(s, e), k, c + Adds(s, e, k))
  {
    hide Inv, Step, SentNoted, Stage, Answered;
    if e.Callback? && s.pool.actions[e.a].serial == k {
      CallbackStage(s, e.a, e.error, e.msg, c);
      CallbackAnswered(s, e.a, e.error, e.msg, c);
    } else {
      assert c + [] == c;
      OtherAnswered(s, e, k, c);
      match e
      case Ask(empty) => AskStage(s, empty, k, c);
      case Callback(a, error, msg) => OtherStage(s, a, error, msg, k, c);
      case Finish(a) => FinishStage(s, a, k, c);
    }
  }

  lemma RunEnd<M>(events: seq<Event<M>>)
    requires Legal(events)
    ensures events == [] ==> StateAfter(events) == Start()
    ensures events != [] ==>
              var init, e := events[..|events| - 1], events[|events| - 1];
              Legal(init) && Enabled(StateAfter(init), e) && StateAfter(events) == Step(StateAfter(init), e)
  {
    hide Enabled, Step;
  }

  lemma AtStart<M>(k: nat)
    ensures SentNoted(Start<M>()) && Stage(Start<M>(), k, []) && Answered(Start<M>(), k, [])
  {
  }

  /** The completion of an operation falls to the request that its action serves. */
  lemma AddsLast<M>(events: seq<Event<M>>, k: nat)
    requires Legal(events) && events != []
    ensures var init := events[..|events| - 1];
            Legal(init) && Completions(events, k) == Completions(init, k) + Adds(StateAfter(init), events[|events| - 1], k)
  {
    hide Legal, StateAfter, Step, Inv, RF.Serving, PoolEvents, RP.Legal, RP.StateAfter;
    RunEnd(events);
    var init, e := events[..|events| - 1], events[|events| - 1];
    PoolRun(init);
    RunKeepsInv(init);
    if e.Callback? {
      RF.AssignedInRun(PoolEvents(init), e.a);
      InUse(StateAfter(init), e.a, k);
      PoolActive(StateAfter(init), e.a);
    }
  }

  lemma PoolActive<M>(s: Box<M>, a: nat)
    requires Inv(s) && a in s.pool.actions && s.pool.actions[a].phase != RP.Quiet
    ensures a in s.pool.active
  {
    hide Once, Matched, Kept, Apart;
  }

  lemma {:induction false} ResultInRun<M>(events: seq<Event<M>>, k: nat)
    requires Legal(events)
    ensures var s, c := StateAfter(events), Completions(events, k);
            SentNoted(s) && Stage(s, k, c) && Answered(s, k, c)
    decreases |events|
  {
    hide Legal, StateAfter, Step, Enabled, Inv, SentNoted, Stage, Answered, Adds;
    RunEnd(events);
    if events == [] {
      AtStart<M>(k);
    } else {
      var init, e := events[..|events| - 1], events[|events| - 1];
      ResultInRun(init, k);
      RunKeepsInv(init);
      AddsLast(events, k);
      StepStage(StateAfter(init), e, k, Completions(init, k));
      StepSent(StateAfter(init), e);
    }
  }

  // ---------------------------------------------------------------------------
  // Main result
  // ---------------------------------------------------------------------------

  /** The promise of request `k` was set to this, by the i-th end reported. */
  ghost predicate SetTo<M>(s: Box<M>, i: nat, k: nat, r: Result<M>) {
    && i < |s.fulfilled| == |s.pool.finals| && s.pool.finals[i].serial == k < |s.promised|
    && s.fulfilled[i] == Fulfilled(s.promised[k], r)
  }

  /**
   The promise of a request is set exactly when an operation failed or the reply
   came, to the error of the first failure, with whether the send had completed
   by then, or to the message of the second completion.
   */
  lemma {:induction false} PromiseGets<M>(events: seq<Event<M>>, k: nat, r: Result<M>)
    requires Legal(events)
    ensures Verdict(Completions(events, k)) == Some(r) <==> exists i: nat :: SetTo(StateAfter(events), i, k, r)
  {
    hide Legal, StateAfter, Completions, Stage, SentNoted, Verdict, RP.Inv, Once, Matched, Apart;
    ResultInRun(events, k);
    RunKeepsInv(events);
    var s := StateAfter(events);
    if Verdict(Completions(events, k)) == Some(r) {
      var i :| 0 <= i < |s.pool.finals| && s.pool.finals[i].serial == k;
      assert SetTo(s, i, k, r);
    }
  }
}

/**
 The box around a request communicator: every request leaves a promise, found
 again by the number of the action that carries it.
 */
module RequestBox {
  import RP = RequestPool

  /** A promise and whether its request is known to be sent. */
  datatype Promise = Promise(number: nat, sent: bool)

  /** What a promise is set to: the reply, or an exception that says whether the request had been sent. */
  datatype Result<M> = Value(reply: M) | Failure(error: int, sent: bool)

  datatype Fulfilled<M> = Fulfilled(number: nat, result: Result<M>)

  /**
   `pending` are the promises still to be set, `fulfilled` those set, in order.
   `declined` says that the last request had an empty message, which the pool
   declines after the box has made its entry. `promised` lists, by the number of
   the request, the promise that its own `request` made or found.
   */
  datatype Box<M> = Box(
    pool: RP.Pool,
    pending: map<nat, Promise>,
    created: nat,
    fulfilled: seq<Fulfilled<M>>,
    declined: bool,
    promised: seq<nat>)

  datatype Event<M> =
    | Ask(empty: bool)
    | Callback(a: nat, error: int, msg: M)    // the AIO has completed; no error is zero
    | Finish(a: nat)

  function Start<M>(): Box<M> {
    Box(RP.Start(), map[], 0, [], false, [])
  }

  /** The pool's view of an event. */
  function PoolEvent<M>(e: Event<M>): RP.Event {
    match e
    case Ask(empty) => RP.Ask(empty)
    case Callback(a, error, _) => RP.Callback(a, error == 0)
    case Finish(a) => RP.Finish(a)
  }

  predicate Enabled<M>(s: Box<M>, e: Event<M>) {
    RP.Enabled(s.pool, PoolEvent(e))
  }

  /** `async_prep`: an entry that is already there stays. */
  function Prepared<M>(s: Box<M>): Box<M> {
    var a := RP.Chosen(s.pool);
    if a in s.pending then s else s.(pending := s.pending[a := Promise(s.created, false)], created := s.created + 1)
  }

  /** The promise that a request made now would get. */
  function OwnPromise<M>(s: Box<M>): nat {
    var a := RP.Chosen(s.pool);
    if a in s.pending then s.pending[a].number else s.created
  }

  /** The promise is set and forgotten. */
  function Settled<M>(s: Box<M>, a: nat, r: Result<M>): Box<M> {
    if a in s.pending then s.(pending := s.pending - {a}, fulfilled := s.fulfilled + [Fulfilled(s.pending[a].number, r)]) else s
  }

  /** `async_sent`. */
  function Noted<M>(s: Box<M>, a: nat): Box<M> {
    if a in s.pending then s.(pending := s.pending[a := s.pending[a].(sent := true)]) else s
  }

  /** What the delegate does when the AIO of an action has completed: `async_error`, `async_sent` or `async_recv`. */
  function Told<M>(s: Box<M>, a: nat, error: int, msg: M): Box<M>
    requires a in s.pool.actions
  {
    if error != 0 then Settled(s, a, Failure(error, a in s.pending && s.pending[a].sent))
    else if s.pool.actions[a].state == RP.Sending then Noted(s, a)
    else Settled(s, a, Value(msg))
  }

  function Step<M>(s: Box<M>, e: Event<M>): Box<M>
    requires Enabled(s, e)
  {
    var pool := RP.Step(s.pool, PoolEvent(e));
    match e
    case Ask(empty) =>
      Prepared(s).(pool := pool, declined := empty, promised := if empty then s.promised else s.promised + [OwnPromise(s)])
    case Callback(a, error, msg) => Told(s, a, error, msg).(pool := pool)
    case Finish(_) => s.(pool := pool)
  }

  /** The events can happen one after the other, from the start. */
  ghost predicate Legal<M>(events: seq<Event<M>>)
    decreases |events|, 0
  {
    events == [] ||
    (Legal(events[..|events| - 1]) && Enabled(StateAfter(events[..|events| - 1]), events[|events| - 1]))
  }

  /** The state they lead to. */
  ghost function StateAfter<M>(events: seq<Event<M>>): Box<M>
    requires Legal(events)
    decreases |events|, 1
  {
    if events == [] then Start() else Step(StateAfter(events[..|events| - 1]), events[|events| - 1])
  }

  // ---------------------------------------------------------------------------
  // What every step keeps
  // ---------------------------------------------------------------------------

  /** No promise is pending twice, fulfilled twice, or both. */
  ghost predicate Once<M>(s: Box<M>) {
    && (forall a :: a in s.pending ==> s.pending[a].number < s.created)
    && (forall a, i :: a in s.pending && 0 <= i < |s.fulfilled| ==> s.pending[a].number != s.fulfilled[i].number)
    && (forall a, b :: a in s.pending && b in s.pending && a != b ==> s.pending[a].number != s.pending[b].number)
    && (forall i :: 0 <= i < |s.fulfilled| ==> s.fulfilled[i].number < s.created)
    && (forall i, j :: 0 <= i < j < |s.fulfilled| ==> s.fulfilled[i].number != s.fulfilled[j].number)
  }

  /** An action that has not ended has its entry; one that has ended has none, but for the one declined last. */
  ghost predicate Matched<M>(s: Box<M>) {
    && (forall a :: a in s.pending ==> a in s.pool.actions)
    && (forall a :: a in s.pool.actions && a in s.pool.active ==>
          (a in s.pending <==> s.pool.actions[a].phase != RP.Told(true)))
    && (forall a :: a in s.pool.idle ==> (a in s.pending <==> s.declined && a == s.pool.idle[0]))
    && (s.declined ==> s.pool.idle != [])
  }

  /** An action that has not ended holds the promise of its request, and a request that has ended has set it. */
  ghost predicate Kept<M>(s: Box<M>) {
    && |s.promised| == s.pool.started
    && (forall a :: a in s.pool.actions && a in s.pool.active && a in s.pending ==>
          s.pool.actions[a].serial < |s.promised| && s.pending[a].number == s.promised[s.pool.actions[a].serial])
    && |s.fulfilled| == |s.pool.finals|
    && (forall i :: 0 <= i < |s.pool.finals| ==>
          s.pool.finals[i].serial < |s.promised| && s.fulfilled[i].number == s.promised[s.pool.finals[i].serial])
  }

  /** No two requests have the same promise. */
  ghost predicate Apart<M>(s: Box<M>) {
    && (forall i :: 0 <= i < |s.promised| ==> s.promised[i] < s.created)
    && (forall i, j :: 0 <= i < j < |s.promised| ==> s.promised[i] != s.promised[j])
    && (s.declined && s.pool.idle != [] && s.pool.idle[0] in s.pending ==> s.pending[s.pool.idle[0]].number !in s.promised)
  }

  ghost predicate Inv<M>(s: Box<M>) {
    RP.Inv(s.pool) && Once(s) && Matched(s) && Kept(s) && Apart(s)
  }

  /** The box after a step, but for the pool. */
  function BeforePool<M>(s: Box<M>, e: Event<M>): Box<M>
    requires Enabled(s, e)
  {
    match e
    case Ask(_) => Prepared(s)
    case Callback(a, error, msg) => Told(s, a, error, msg)
    case Finish(_) => s
  }

  lemma OnceAlike<M>(s: Box<M>, t: Box<M>)
    requires Once(s) && t.pending == s.pending && t.created == s.created && t.fulfilled == s.fulfilled
    ensures Once(t)
  {
  }

  lemma PreparedOnce<M>(s: Box<M>)
    requires Once(s)
    ensures Once(Prepared(s))
  {
  }

  lemma SettledOnce<M>(s: Box<M>, a: nat, r: Result<M>)
    requires Once(s)
    ensures Once(Settled(s, a, r))
  {
  }

  lemma NotedOnce<M>(s: Box<M>, a: nat)
    requires Once(s)
    ensures Once(Noted(s, a))
  {
  }

  lemma StepOnce<M>(s: Box<M>, e: Event<M>)
    requires Once(s) && Enabled(s, e)
    ensures Once(Step(s, e))
  {
    hide RP.Step, Once, Prepared, Settled, Noted;
    match e {
      case Ask(_) => PreparedOnce(s);
      case Callback(a, error, msg) =>
        SettledOnce(s, a, Failure(error, a in s.pending && s.pending[a].sent));
        SettledOnce(s, a, Value(msg));
        NotedOnce(s, a);
      case Finish(_) =>
    }
    OnceAlike(BeforePool(s, e), Step(s, e));
  }

  lemma AskMatched<M>(s: Box<M>, empty: bool)
    requires RP.Partition(s.pool) && Matched(s)
    ensures Matched(Step(s, Ask(empty)))
  {
    var p := s.pool;
    if p.idle != [] {
      assert p.idle == [p.idle[0]] + p.idle[1..];
      assert p.idle[0] in p.idle && p.idle[0] !in p.idle[1..];
      assert forall a :: a in p.idle[1..] ==> a in p.idle;
    }
  }

  lemma CallbackMatched<M>(s: Box<M>, a: nat, error: int, msg: M)
    requires RP.Partition(s.pool) && RP.States(s.pool) && Matched(s) && Enabled(s, Callback(a, error, msg))
    ensures Matched(Step(s, Callback(a, error, msg)))
  {
    assert a in s.pool.active && a !in s.pool.idle;
  }

  lemma FinishMatched<M>(s: Box<M>, a: nat)
    requires RP.Partition(s.pool) && RP.States(s.pool) && Matched(s) && Enabled(s, Finish(a))
    ensures Matched(Step(s, Finish(a)))
  {
    assert a in s.pool.active && a !in s.pool.idle;
  }

  lemma AskKept<M>(s: Box<M>, empty: bool)
    requires RP.Partition(s.pool) && Kept(s)
    ensures Kept(Step(s, Ask(empty)))
  {
    RP.ChosenIdle(s.pool);
  }

  lemma AskApart<M>(s: Box<M>, empty: bool)
    requires RP.Partition(s.pool) && Once(s) && Matched(s) && Apart(s)
    ensures Apart(Step(s, Ask(empty)))
  {
    hide RP.Partition, Once, Matched, Apart;
    OwnIsNew(s);
    PromisedApart(s, empty);
  }

  /** The promise of a new request is nobody else's. */
  lemma OwnIsNew<M>(s: Box<M>)
    requires RP.Partition(s.pool) && Once(s) && Matched(s) && Apart(s)
    ensures OwnPromise(s) !in s.promised && OwnPromise(s) < Prepared(s).created
  {
    if s.pool.idle != [] {
      assert s.pool.idle[0] in s.pool.idle;
    }
  }

  lemma PromisedApart<M>(s: Box<M>, empty: bool)
    requires Apart(s) && OwnPromise(s) !in s.promised && OwnPromise(s) < Prepared(s).created
    ensures Apart(Step(s, Ask(empty)))
  {
    var t := Step(s, Ask(empty));
    if empty {
      assert t.pool.idle[0] == RP.Chosen(s.pool) && t.pending[t.pool.idle[0]].number == OwnPromise(s);
    }
  }

  lemma CallbackKept<M>(s: Box<M>, a: nat, error: int, msg: M)
    requires RP.Partition(s.pool) && RP.States(s.pool) && Matched(s) && Kept(s) && Enabled(s, Callback(a, error, msg))
    ensures Kept(Step(s, Callback(a, error, msg)))
  {
    hide RP.Partition, RP.States, Matched;
    CallbackActive(s, a, error, msg);
  }

  lemma CallbackActive<M>(s: Box<M>, a: nat, error: int, msg: M)
    requires RP.Partition(s.pool) && RP.States(s.pool) && Matched(s) && Enabled(s, Callback(a, error, msg))
    ensures a in s.pool.active && a in s.pending
  {
  }

  lemma CallbackApart<M>(s: Box<M>, a: nat, error: int, msg: M)
    requires RP.Partition(s.pool) && RP.States(s.pool) && Apart(s) && Enabled(s, Callback(a, error, msg))
    ensures Apart(Step(s, Callback(a, error, msg)))
  {
    if s.pool.idle != [] {
      assert s.pool.idle[0] in s.pool.idle;
    }
  }

  lemma FinishKept<M>(s: Box<M>, a: nat)
    requires Kept(s) && Enabled(s, Finish(a))
    ensures Kept(Step(s, Finish(a)))
  {
  }

  /** A callback that ends puts its action behind the declined one. */
  lemma FinishApart<M>(s: Box<M>, a: nat)
    requires Matched(s) && Apart(s) && Enabled(s, Finish(a))
    ensures Apart(Step(s, Finish(a)))
  {
  }

  lemma StepKeepsInv<M>(s: Box<M>, e: Event<M>)
    requires Inv(s) && Enabled(s, e)
    ensures Inv(Step(s, e))
  {
    hide RP.Inv, RP.Step, Once, Matched, Kept, Apart;
    RP.StepKeepsInv(s.pool, PoolEvent(e));
    StepOnce(s, e);
    PoolFacts(s.pool);
    match e
    case Ask(empty) =>
      AskMatched(s, empty);
      AskKept(s, empty);
      AskApart(s, empty);
    case Callback(a, error, msg) =>
      CallbackMatched(s, a, error, msg);
      CallbackKept(s, a, error, msg);
      CallbackApart(s, a, error, msg);
    case Finish(a) =>
      FinishMatched(s, a);
      FinishKept(s, a);
      FinishApart(s, a);
  }

  lemma PoolFacts(p: RP.Pool)
    requires RP.Inv(p)
    ensures RP.Partition(p) && RP.States(p)
  {
  }

  lemma {:induction false} RunKeepsInv<M>(events: seq<Event<M>>)
    requires Legal(events)
    ensures Inv(StateAfter(events))
    decreases |events|
  {
    hide Step, Enabled, RP.Inv;
    if events == [] {
      RP.StartInv();
    } else {
      var init := events[..|events| - 1];
      RunKeepsInv(init);
      StepKeepsInv(StateAfter(init), events[|events| - 1]);
    }
  }

  // ---------------------------------------------------------------------------
  // Main results
  // ---------------------------------------------------------------------------

  /** No promise is ever set twice. */
  lemma {:induction false} SetOnce<M>(events: seq<Event<M>>, i: nat, j: nat)
    requires Legal(events)
    ensures var f := StateAfter(events).fulfilled; i < j < |f| ==> f[i].number != f[j].number
  {
    hide Legal, StateAfter, RP.Inv, Matched, Kept, Apart;
    RunKeepsInv(events);
  }

  /** The end of a request sets the promise that its own `request` made or found, and no two requests share one. */
  lemma {:induction false} EndSetsOwn<M>(events: seq<Event<M>>, i: nat, j: nat)
    requires Legal(events)
    ensures var s := StateAfter(events);
            && |s.fulfilled| == |s.pool.finals| && |s.promised| == s.pool.started
            && (i < |s.fulfilled| ==>
                  s.pool.finals[i].serial < |s.promised| && s.fulfilled[i].number == s.promised[s.pool.finals[i].serial])
            && (i < j < |s.promised| ==> s.promised[i] != s.promised[j])
  {
    hide Legal, StateAfter, RP.Inv, Matched, Once;
    RunKeepsInv(events);
  }

  /** The last request was declined. */
  predicate LastDeclined<M>(events: seq<Event<M>>) {
    events != [] &&
    var last := events[|events| - 1];
    if last.Ask? then last.empty else LastDeclined(events[..|events| - 1])
  }

  /** A new request finds an entry under its number exactly when the request before it was declined. */
  lemma {:induction false} StaleIff<M>(events: seq<Event<M>>)
    requires Legal(events)
    ensures RP.Chosen(StateAfter(events).pool) in StateAfter(events).pending <==> LastDeclined(events)
  {
    hide Legal, StateAfter, Inv;
    RunKeepsInv(events);
    DeclinedIff(events);
    ChosenPending(StateAfter(events));
  }

  lemma ChosenPending<M>(s: Box<M>)
    requires Inv(s)
    ensures RP.Chosen(s.pool) in s.pending <==> s.declined
  {
    hide RP.Served, RP.Bounded, RP.ToldOnce;
    if s.pool.idle != [] {
      assert s.pool.idle[0] in s.pool.idle;
    }
  }

  lemma {:induction false} DeclinedIff<M>(events: seq<Event<M>>)
    requires Legal(events)
    ensures StateAfter(events).declined <==> LastDeclined(events)
    decreases |events|
  {
    hide RP.Step, RP.Enabled;
    if events != [] {
      DeclinedIff(events[..|events| - 1]);
    }
  }

  /** After one declined request the next one finds its entry. */
  lemma StaleExample<M>()
    ensures Legal<M>([Ask(true)])
    ensures var s := StateAfter<M>([Ask(true)]);
            RP.Chosen(s.pool) in s.pending && s.created == 1 && OwnPromise(s) == 0
  {
    var events: seq<Event<M>> := [Ask(true)];
    assert events[..0] == [];
    assert Legal(events[..0]);
    assert LastDeclined(events);
    StaleIff(events);
  }
}

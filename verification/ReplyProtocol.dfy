/**
 The reply side of a query: contexts go from receiving to unresponded, through
 the hands of a responder into the outbox and on to the one send operation.

 A context is its number, which may be used again once the context is gone.
 Queries are counted as they are received; an item in the outbox remembers
 which query its context belongs to.
 */
module ReplyProtocol {
  import opened Options
  import SQ = SendQueue

  type Ctx = nat

  /** A received query on its context. */
  datatype Query = Query(ctx: Ctx, serial: nat)

  /** A response on its way: the query's context and the message. */
  datatype Item<M> = Item(query: Query, msg: M)

  /**
   `receiving` is the context armed for the next query, `unresponded` the
   queries nobody has claimed, `claimed` the items of `respondTo` calls between
   the claim and the outbox, `out` the outbox and its send operation.
   `received` lists the contexts of all queries.
   */
  datatype Reply<M> = Reply(
    receiving: seq<Ctx>,
    unresponded: seq<Query>,
    claimed: seq<Item<M>>,
    out: SQ.Loop<Item<M>>,
    received: seq<Ctx>)

  datatype Event<M> =
    | Arm(ctx: Ctx)                     // `make_ctx` and `ctx.recv`
    | Received                          // a query arrives: the context is pickled
    | ReceiveFailed                     // the receive ends with an error: no further one
    | Claim(i: nat, msg: M)             // `respondTo` with a message finds the query in `unresponded`
    | Reject(ctx: Ctx)                  // `respondTo` with a message does not find it
    | Ignore(ctx: Ctx)                  // `respondTo` with an empty message, or without a handler
    | Enqueue(j: nat)                   // `outbox.produce`
    | Out(e: SQ.Event<Item<M>>)         // the send operation and its callback

  function Start<M>(): Reply<M> {
    Reply([], [], [], SQ.Start(), [])
  }

  function CtxsOf(qs: seq<Query>): (r: seq<Ctx>)
    ensures |r| == |qs|
  {
    seq(|qs|, i requires 0 <= i < |qs| => qs[i].ctx)
  }

  function QueriesOf<M>(items: seq<Item<M>>): (r: seq<Query>)
    ensures |r| == |items|
  {
    seq(|items|, i requires 0 <= i < |items| => items[i].query)
  }

  /** How often an element occurs. */
  function Count<T(==)>(s: seq<T>, x: T): nat {
    multiset(s)[x]
  }

  /** The items in the outbox. */
  function Waiting<M>(out: SQ.Loop<Item<M>>): seq<Item<M>> {
    SQ.Contents(out.queue.waiting)
  }

  /** How often the query is in the outbox, in the hands of a sender or in flight. */
  function Leaving<M>(out: SQ.Loop<Item<M>>, q: Query): nat {
    Count(QueriesOf(Waiting(out)), q) + Count(QueriesOf(out.held), q) + Count(QueriesOf(out.inFlight), q)
  }

  function LeavingOn<M>(out: SQ.Loop<Item<M>>, c: Ctx): nat {
    Count(CtxsOf(QueriesOf(Waiting(out))), c) + Count(CtxsOf(QueriesOf(out.held)), c) +
    Count(CtxsOf(QueriesOf(out.inFlight)), c)
  }

  /** In how many places the query is: unresponded, claimed, leaving or finished. */
  function Places<M>(s: Reply<M>, q: Query): nat {
    Count(s.unresponded, q) + Count(QueriesOf(s.claimed), q) + Leaving(s.out, q) + Count(QueriesOf(s.out.done), q)
  }

  /** How many use the context: the receive that waits, or a query that is not finished. */
  function Uses<M>(s: Reply<M>, c: Ctx): nat {
    Count(s.receiving, c) + Count(CtxsOf(s.unresponded), c) + Count(CtxsOf(QueriesOf(s.claimed)), c) + LeavingOn(s.out, c)
  }

  predicate Enabled<M>(s: Reply<M>, e: Event<M>) {
    match e
    case Arm(c) => s.receiving == [] && Uses(s, c) == 0
    case Received => |s.receiving| > 0
    case ReceiveFailed => |s.receiving| > 0
    case Claim(i, _) => i < |s.unresponded|
    case Reject(c) => c !in CtxsOf(s.unresponded)
    case Ignore(_) => true
    case Enqueue(j) => j < |s.claimed|
    case Out(x) => !x.Produce? && SQ.Enabled(s.out, x)
  }

  function Step<M>(s: Reply<M>, e: Event<M>): Reply<M>
    requires Enabled(s, e)
  {
    match e
    case Arm(c) => s.(receiving := [c])
    case Received =>
      var c := s.receiving[0];
      s.(receiving := [], unresponded := s.unresponded + [Query(c, |s.received|)], received := s.received + [c])
    case ReceiveFailed => s.(receiving := [])
    case Claim(i, m) =>
      s.(unresponded := SQ.Without(s.unresponded, i), claimed := s.claimed + [Item(s.unresponded[i], m)])
    case Reject(_) => s
    case Ignore(_) => s
    case Enqueue(j) =>
      s.(claimed := SQ.Without(s.claimed, j), out := SQ.Step(s.out, SQ.Produce(SQ.Full(s.claimed[j]))))
    case Out(x) => s.(out := SQ.Step(s.out, x))
  }

  /** The events can happen one after the other, from the start. */
  ghost predicate Legal<M>(events: seq<Event<M>>)
    decreases |events|, 0
  {
    events == [] ||
    (Legal(events[..|events| - 1]) && Enabled(StateAfter(events[..|events| - 1]), events[|events| - 1]))
  }

  /** The state they lead to. */
  ghost function StateAfter<M>(events: seq<Event<M>>): Reply<M>
    requires Legal(events)
    decreases |events|, 1
  {
    if events == [] then Start() else Step(StateAfter(events[..|events| - 1]), events[|events| - 1])
  }

  lemma LegalNone<M>()
    ensures Legal<M>([]) && StateAfter<M>([]) == Start()
  {
  }

  /** One event more. */
  lemma Extended<M>(events: seq<Event<M>>, e: Event<M>)
    requires Legal(events) && Enabled(StateAfter(events), e)
    ensures Legal(events + [e]) && StateAfter(events + [e]) == Step(StateAfter(events), e)
  {
    hide Enabled, Step;
    assert (events + [e])[..|events|] == events;
  }

  // ---------------------------------------------------------------------------
  // Moving between places
  // ---------------------------------------------------------------------------

  lemma CountAdded<T>(s: seq<T>, x: T, y: T)
    ensures Count(s + [x], y) == Count(s, y) + if x == y then 1 else 0
  {
  }

  lemma CountRemoved<T>(s: seq<T>, i: nat, y: T)
    requires i < |s|
    ensures Count(SQ.Without(s, i), y) == Count(s, y) - if s[i] == y then 1 else 0
  {
    assert s == s[..i] + [s[i]] + s[i + 1..];
  }

  lemma CtxsMove(qs: seq<Query>, q: Query, i: nat)
    ensures CtxsOf(qs + [q]) == CtxsOf(qs) + [q.ctx]
    ensures i < |qs| ==> CtxsOf(SQ.Without(qs, i)) == SQ.Without(CtxsOf(qs), i) && CtxsOf(qs)[i] == qs[i].ctx
  {
  }

  lemma QueriesMove<M>(items: seq<Item<M>>, it: Item<M>, i: nat)
    ensures QueriesOf(items + [it]) == QueriesOf(items) + [it.query]
    ensures i < |items| ==> QueriesOf(SQ.Without(items, i)) == SQ.Without(QueriesOf(items), i) && QueriesOf(items)[i] == items[i].query
  {
  }

  /** One more item in a list: its query and its context once more. */
  lemma Added<M>(items: seq<Item<M>>, it: Item<M>, q: Query, c: Ctx)
    ensures Count(QueriesOf(items + [it]), q) == Count(QueriesOf(items), q) + if it.query == q then 1 else 0
    ensures Count(CtxsOf(QueriesOf(items + [it])), c) == Count(CtxsOf(QueriesOf(items)), c) + if it.query.ctx == c then 1 else 0
  {
    QueriesMove(items, it, |items|);
    CtxsMove(QueriesOf(items), it.query, |items|);
    CountAdded(QueriesOf(items), it.query, q);
    CountAdded(CtxsOf(QueriesOf(items)), it.query.ctx, c);
  }

  lemma Removed<M>(items: seq<Item<M>>, i: nat, q: Query, c: Ctx)
    requires i < |items|
    ensures Count(QueriesOf(SQ.Without(items, i)), q) == Count(QueriesOf(items), q) - if items[i].query == q then 1 else 0
    ensures Count(CtxsOf(QueriesOf(SQ.Without(items, i))), c) ==
            Count(CtxsOf(QueriesOf(items)), c) - if items[i].query.ctx == c then 1 else 0
  {
    QueriesMove(items, items[i], i);
    CtxsMove(QueriesOf(items), items[i].query, i);
    CountRemoved(QueriesOf(items), i, q);
    CountRemoved(CtxsOf(QueriesOf(items)), i, c);
  }

  /** The message that an event of the send queue produces is about this item's query, or on its context. */
  predicate Brings<M>(e: SQ.Event<Item<M>>, q: Query) {
    e.Produce? && e.msg.Full? && e.msg.content.query == q
  }

  predicate BringsOn<M>(e: SQ.Event<Item<M>>, c: Ctx) {
    e.Produce? && e.msg.Full? && e.msg.content.query.ctx == c
  }

  /** The outbox and its send operation lose no query and hold none twice. */
  lemma OutMoves<M>(out: SQ.Loop<Item<M>>, e: SQ.Event<Item<M>>, q: Query, c: Ctx)
    requires SQ.Enabled(out, e)
    ensures Leaving(SQ.Step(out, e), q) + One(e.Complete? && out.inFlight[e.i].query == q) ==
            Leaving(out, q) + One(Brings(e, q))
    ensures LeavingOn(SQ.Step(out, e), c) + One(e.Complete? && out.inFlight[e.i].query.ctx == c) ==
            LeavingOn(out, c) + One(BringsOn(e, c))
    ensures Count(QueriesOf(SQ.Step(out, e).done), q) ==
            Count(QueriesOf(out.done), q) + One(e.Complete? && out.inFlight[e.i].query == q)
  {
    hide QueriesOf, CtxsOf, SQ.Without, SQ.Contents, Count;
    match e
    case Produce(m) =>
      SQ.ContentsNext(out.queue.waiting, m);
      if m.Full? {
        Added(Waiting(out), m.content, q, c);
        Added(out.held, m.content, q, c);
      } else {
        assert Waiting(out) + [] == Waiting(out);
      }
    case HandOff(i) =>
      Removed(out.held, i, q, c);
      Added(out.inFlight, out.held[i], q, c);
    case Complete(i, ok) =>
      Removed(out.inFlight, i, q, c);
      Added(out.done, out.inFlight[i], q, c);
    case Consume =>
      if out.queue.waiting != [] {
        WaitingNext(out.queue.waiting);
        if out.queue.waiting[0].Full? {
          FirstOut(Waiting(out));
          Removed(Waiting(out), 0, q, c);
          Added(out.held, out.queue.waiting[0].content, q, c);
        }
      }
  }

  /** What waits behind the first message. */
  lemma WaitingNext<M>(ms: seq<SQ.Msg<M>>)
    requires ms != []
    ensures ms[0].Full? ==> SQ.Contents(ms) == [ms[0].content] + SQ.Contents(ms[1..])
    ensures ms[0].Empty? ==> SQ.Contents(ms) == SQ.Contents(ms[1..])
  {
    assert ms == [ms[0]] + ms[1..];
    SQ.ContentsConcat([ms[0]], ms[1..]);
    SQ.ContentsNext([], ms[0]);
    assert [] + [ms[0]] == [ms[0]];
  }

  lemma FirstOut<T>(s: seq<T>)
    requires s != []
    ensures SQ.Without(s, 0) == s[1..]
  {
  }

  // ---------------------------------------------------------------------------
  // What every step keeps
  // ---------------------------------------------------------------------------

  /** A query that was received. */
  predicate Known(received: seq<Ctx>, q: Query) {
    q.serial < |received| && received[q.serial] == q.ctx
  }

  ghost predicate Inv<M>(s: Reply<M>) {
    && SQ.Inv(s.out)
    && |s.receiving| <= 1
    && (forall q :: Places(s, q) == One(Known(s.received, q)))
    && (forall c :: Uses(s, c) <= 1)
  }

  /** A step moves queries and contexts from place to place. */
  lemma StepMoves<M>(s: Reply<M>, e: Event<M>, q: Query, c: Ctx)
    requires Enabled(s, e) && |s.receiving| <= 1
    ensures Places(Step(s, e), q) == Places(s, q) + One(e.Received? && q == Query(s.receiving[0], |s.received|))
    ensures Uses(Step(s, e), c) <= Uses(s, c) + One(e.Arm? && e.ctx == c)
  {
    hide QueriesOf, CtxsOf, SQ.Without, Count, Leaving, LeavingOn, SQ.Step;
    match e
    case Arm(x) =>
      assert [] + [x] == [x];
      CountAdded([], x, c);
      CountNone(c);
    case Received =>
      var n := Query(s.receiving[0], |s.received|);
      assert s.receiving == [] + [n.ctx];
      CountAdded([], n.ctx, c);
      CountNone(c);
      CountAdded(s.unresponded, n, q);
      CtxsMove(s.unresponded, n, |s.unresponded|);
      CountAdded(CtxsOf(s.unresponded), n.ctx, c);
    case ReceiveFailed =>
      CountNone(c);
    case Claim(i, m) =>
      CountRemoved(s.unresponded, i, q);
      CtxsMove(s.unresponded, s.unresponded[i], i);
      CountRemoved(CtxsOf(s.unresponded), i, c);
      Added(s.claimed, Item(s.unresponded[i], m), q, c);
    case Reject(_) =>
    case Ignore(_) =>
    case Enqueue(j) =>
      Removed(s.claimed, j, q, c);
      OutMoves(s.out, SQ.Produce(SQ.Full(s.claimed[j])), q, c);
    case Out(x) =>
      OutMoves(s.out, x, q, c);
  }

  lemma CountNone(c: Ctx)
    ensures Count([], c) == 0
  {
  }

  lemma StepKeepsInv<M>(s: Reply<M>, e: Event<M>)
    requires Inv(s) && Enabled(s, e)
    ensures Inv(Step(s, e))
  {
    hide Places, Uses, SQ.Inv, SQ.Step;
    var t := Step(s, e);
    forall q
      ensures Places(t, q) == One(Known(t.received, q))
    {
      StepMoves(s, e, q, 0);
      assert Places(s, q) == One(Known(s.received, q));
    }
    forall c
      ensures Uses(t, c) <= 1
    {
      StepMoves(s, e, Query(0, 0), c);
      assert Uses(s, c) <= 1;
    }
    if e.Enqueue? {
      SQ.StepKeepsInv(s.out, SQ.Produce(SQ.Full(s.claimed[e.j])));
    } else if e.Out? {
      SQ.StepKeepsInv(s.out, e.e);
    }
  }

  lemma {:induction false} RunKeepsInv<M>(events: seq<Event<M>>)
    requires Legal(events)
    ensures Inv(StateAfter(events))
    decreases |events|
  {
    hide Inv, Step, Enabled;
    if events == [] {
      StartInv<M>();
    } else {
      var init := events[..|events| - 1];
      RunKeepsInv(init);
      StepKeepsInv(StateAfter(init), events[|events| - 1]);
    }
  }

  lemma StartInv<M>()
    ensures Inv(Start<M>())
  {
    hide Places, Uses, SQ.Inv, SQ.Start;
    var s := Start<M>();
    NothingSent<M>();
    forall q
      ensures Places(s, q) == 0
    {
      Nothing<M>(q, 0);
    }
    forall c
      ensures Uses(s, c) == 0
    {
      Nothing<M>(Query(0, 0), c);
    }
  }

  lemma NothingSent<M>()
    ensures SQ.Inv(SQ.Start<Item<M>>())
  {
  }

  lemma Nothing<M>(q: Query, c: Ctx)
    ensures Places(Start<M>(), q) == 0 && Uses(Start<M>(), c) == 0
  {
    assert QueriesOf<M>([]) == [];
    assert CtxsOf([]) == [];
  }

  // ---------------------------------------------------------------------------
  // Main results
  // ---------------------------------------------------------------------------

  /** In every run each received query is in exactly one place, and what is not a received query is nowhere. */
  lemma {:induction false} OnePlace<M>(events: seq<Event<M>>, q: Query)
    requires Legal(events)
    ensures Places(StateAfter(events), q) == if Known(StateAfter(events).received, q) then 1 else 0
  {
    hide Places, Legal, StateAfter;
    RunKeepsInv(events);
  }

  /** No context is in two places at once. */
  lemma {:induction false} OneUse<M>(events: seq<Event<M>>, c: Ctx)
    requires Legal(events)
    ensures Uses(StateAfter(events), c) <= 1
  {
    hide Places, Uses, Legal, StateAfter;
    RunKeepsInv(events);
  }

  /** Each query is answered at most once, on its own context, however many responders try. */
  lemma {:induction false} AnsweredOnce<M>(events: seq<Event<M>>, i: nat, j: nat)
    requires Legal(events)
    ensures var s := StateAfter(events);
            i < j < |s.out.sent| ==>
              && s.out.sent[i].query.serial != s.out.sent[j].query.serial
              && Known(s.received, s.out.sent[i].query) && Known(s.received, s.out.sent[j].query)
  {
    hide Places, Legal, StateAfter;
    RunKeepsInv(events);
    var s := StateAfter(events);
    if i < j < |s.out.sent| {
      SentInPlaces(s, i);
      SentInPlaces(s, j);
      OnePlace(events, s.out.sent[i].query);
      OnePlace(events, s.out.sent[j].query);
      if s.out.sent[i].query == s.out.sent[j].query {
        SentTwice(s, i, j);
      }
    }
  }

  /** What has been handed to the send operation is in flight or finished. */
  lemma SentBag<M>(s: Reply<M>)
    requires Inv(s)
    ensures QueriesOf(s.out.sent) == QueriesOf(s.out.done) + QueriesOf(s.out.inFlight)
  {
    assert QueriesOf(s.out.done + s.out.inFlight) == QueriesOf(s.out.done) + QueriesOf(s.out.inFlight);
  }

  lemma SentInPlaces<M>(s: Reply<M>, i: nat)
    requires Inv(s) && i < |s.out.sent|
    ensures Places(s, s.out.sent[i].query) > 0
  {
    SentBag(s);
    assert QueriesOf(s.out.sent)[i] == s.out.sent[i].query;
    assert s.out.sent[i].query in multiset(QueriesOf(s.out.sent));
  }

  lemma SentTwice<M>(s: Reply<M>, i: nat, j: nat)
    requires Inv(s) && i < j < |s.out.sent| && s.out.sent[i].query == s.out.sent[j].query
    ensures Places(s, s.out.sent[i].query) > 1
  {
    SentBag(s);
    var qs, q := QueriesOf(s.out.sent), s.out.sent[i].query;
    assert qs == qs[..i] + [q] + qs[i + 1..];
    assert qs[i + 1..][j - i - 1] == q;
    assert multiset(qs)[q] >= 2;
  }

  // ---------------------------------------------------------------------------
  // What is received and sent, from the events
  // ---------------------------------------------------------------------------

  /** The context armed last, until a query arrives on it or the receive fails. */
  function Armed<M>(events: seq<Event<M>>): seq<Ctx> {
    if events == [] then []
    else
      match events[|events| - 1]
      case Arm(c) => [c]
      case Received => []
      case ReceiveFailed => []
      case _ => Armed(events[..|events| - 1])
  }

  /** The contexts of the queries that arrived, in order: each the one armed last. */
  function Arrived<M>(events: seq<Event<M>>): seq<Ctx> {
    if events == [] then []
    else
      var init := events[..|events| - 1];
      Arrived(init) + if events[|events| - 1].Received? then Armed(init) else []
  }

  /** The queries are received on the contexts armed for them, in order. */
  lemma {:induction false} ReceivedAsArmed<M>(events: seq<Event<M>>)
    requires Legal(events)
    ensures StateAfter(events).received == Arrived(events) && StateAfter(events).receiving == Armed(events)
    ensures |Armed(events)| <= 1
    decreases |events|
  {
    hide Uses, SQ.Step, SQ.Enabled;
    if events != [] {
      ReceivedAsArmed(events[..|events| - 1]);
    }
  }

  /** The response that an event makes, and the one it puts into the outbox. */
  function Made<M>(s: Reply<M>, e: Event<M>): seq<Item<M>> {
    if e.Claim? && e.i < |s.unresponded| then [Item(s.unresponded[e.i], e.msg)] else []
  }

  function Posted<M>(s: Reply<M>, e: Event<M>): seq<Item<M>> {
    if e.Enqueue? && e.j < |s.claimed| then [s.claimed[e.j]] else []
  }

  /** The responses made, in order, and those put into the outbox. */
  ghost function Responses<M>(events: seq<Event<M>>): seq<Item<M>>
    requires Legal(events)
  {
    if events == [] then []
    else Responses(events[..|events| - 1]) + Made(StateAfter(events[..|events| - 1]), events[|events| - 1])
  }

  ghost function Posts<M>(events: seq<Event<M>>): seq<Item<M>>
    requires Legal(events)
  {
    if events == [] then []
    else Posts(events[..|events| - 1]) + Posted(StateAfter(events[..|events| - 1]), events[|events| - 1])
  }

  lemma WithoutBag<T>(s: seq<T>, i: nat)
    requires i < |s|
    ensures multiset(s) == multiset(SQ.Without(s, i)) + multiset{s[i]}
  {
    assert s == s[..i] + [s[i]] + s[i + 1..];
  }

  /** A claim brings its response into the claimed ones, and the outbox takes one from there. */
  lemma StepClaimed<M>(s: Reply<M>, e: Event<M>)
    requires Enabled(s, e)
    ensures multiset(Step(s, e).claimed) + multiset(Posted(s, e)) == multiset(s.claimed) + multiset(Made(s, e))
  {
    hide Uses, SQ.Enabled, SQ.Step, SQ.Without;
    match e
    case Claim(i, m) => BagOfBoth(s.claimed, Made(s, e));
    case Enqueue(j) => WithoutBag(s.claimed, j);
    case _ =>
  }

  lemma StepPosted<M>(s: Reply<M>, e: Event<M>)
    requires Enabled(s, e)
    ensures SQ.Contents(Step(s, e).out.produced) == SQ.Contents(s.out.produced) + Posted(s, e)
  {
    hide Uses, SQ.Enabled, SQ.Step, SQ.Contents, SQ.Without;
    assert SQ.Contents(s.out.produced) + [] == SQ.Contents(s.out.produced);
    match e
    case Enqueue(j) =>
      SQ.StepCounts(s.out, SQ.Produce(SQ.Full(s.claimed[j])));
      SQ.ContentsNext(s.out.produced, SQ.Full(s.claimed[j]));
    case Out(x) =>
      SQ.StepCounts(s.out, x);
      assert s.out.produced + [] == s.out.produced;
    case _ =>
  }

  /** What comes in on one side and goes out on the other. */
  lemma Balance<T>(a: multiset<T>, b: multiset<T>, c: multiset<T>, next: multiset<T>, posted: multiset<T>, made: multiset<T>)
    requires a + b == c && next + posted == a + made
    ensures next + (b + posted) == c + made
  {
    forall x
      ensures (next + (b + posted))[x] == (c + made)[x]
    {
      assert (a + b)[x] == c[x] && (next + posted)[x] == (a + made)[x];
    }
  }

  lemma {:induction false} PostsInRun<M>(events: seq<Event<M>>)
    requires Legal(events)
    ensures var s := StateAfter(events);
            && multiset(s.claimed) + multiset(Posts(events)) == multiset(Responses(events))
            && SQ.Contents(s.out.produced) == Posts(events)
    decreases |events|
  {
    hide Step, Enabled, Made, Posted, SQ.Contents;
    if events == [] {
      NothingPosted<M>();
    } else {
      var init, e := events[..|events| - 1], events[|events| - 1];
      var s, t := StateAfter(init), StateAfter(events);
      PostsInRun(init);
      StepClaimed(s, e);
      StepPosted(s, e);
      Balance(multiset(s.claimed), multiset(Posts(init)), multiset(Responses(init)),
              multiset(t.claimed), multiset(Posted(s, e)), multiset(Made(s, e)));
      BagOfBoth(Posts(init), Posted(s, e));
      BagOfBoth(Responses(init), Made(s, e));
    }
  }

  lemma BagOfBoth<T>(s: seq<T>, t: seq<T>)
    ensures multiset(s + t) == multiset(s) + multiset(t)
  {
  }

  lemma NothingPosted<M>()
    ensures Start<M>().claimed == [] && SQ.Contents(Start<M>().out.produced) == []
  {
  }

  /**
   Every response that leaves is one that a call of `respondTo` made, query and
   message together, each once, and in the order in which they came into the
   outbox; those not sent yet are in somebody's hands or wait.
   */
  lemma {:induction false} SentAsClaimed<M>(events: seq<Event<M>>)
    requires Legal(events)
    ensures var s := StateAfter(events);
            && s.out.sent + s.out.held + Waiting(s.out) == Posts(events)
            && multiset(s.claimed) + multiset(s.out.sent) + multiset(s.out.held) + multiset(Waiting(s.out)) ==
               multiset(Responses(events))
  {
    hide Legal, StateAfter, SQ.Legal, SQ.StateAfter, SQ.Contents;
    PostsInRun(events);
    OutRun(events);
    SQ.FirstInFirstOut(OutEvents(events));
  }

  // ---------------------------------------------------------------------------
  // The outbox on its own
  // ---------------------------------------------------------------------------

  /** What a step does to the send queue of the outbox. */
  function OutStep<M>(s: Reply<M>, e: Event<M>): (r: seq<SQ.Event<Item<M>>>)
    requires Enabled(s, e)
    ensures |r| <= 1
  {
    match e
    case Enqueue(j) => [SQ.Produce(SQ.Full(s.claimed[j]))]
    case Out(x) => [x]
    case _ => []
  }

  /** What a run does to it. */
  ghost function OutEvents<M>(events: seq<Event<M>>): seq<SQ.Event<Item<M>>>
    requires Legal(events)
  {
    if events == [] then []
    else
      var init, last := events[..|events| - 1], events[|events| - 1];
      OutEvents(init) + OutStep(StateAfter(init), last)
  }

  lemma StepOut<M>(s: Reply<M>, e: Event<M>)
    requires Enabled(s, e)
    ensures var x := OutStep(s, e);
            if x == [] then Step(s, e).out == s.out
            else SQ.Enabled(s.out, x[0]) && Step(s, e).out == SQ.Step(s.out, x[0])
    ensures var x := OutStep(s, e);
            x != [] ==> (x[0].Produce? ==> x[0].msg.Full?) && (SQ.Failed(x[0]) <==> e.Out? && SQ.Failed(e.e))
    ensures OutStep(s, e) == [] ==> !e.Out?
  {
    hide SQ.Step;
  }

  /** Some response did not get out. */
  predicate SomeFailed<M>(events: seq<Event<M>>) {
    exists i :: 0 <= i < |events| && events[i].Out? && SQ.Failed(events[i].e)
  }

  lemma FailedNext<M>(init: seq<Event<M>>, last: Event<M>)
    ensures SomeFailed(init + [last]) <==> SomeFailed(init) || (last.Out? && SQ.Failed(last.e))
  {
    var all := init + [last];
    if SomeFailed(init) {
      var i :| 0 <= i < |init| && init[i].Out? && SQ.Failed(init[i].e);
      assert all[i].Out? && SQ.Failed(all[i].e);
    }
    if last.Out? && SQ.Failed(last.e) {
      assert all[|init|].Out? && SQ.Failed(all[|init|].e);
    }
  }

  lemma QueueFailedNext<M>(init: seq<SQ.Event<M>>, last: SQ.Event<M>)
    ensures SQ.SomeFailed(init + [last]) <==> SQ.SomeFailed(init) || SQ.Failed(last)
  {
    var all := init + [last];
    if SQ.SomeFailed(init) {
      var i :| 0 <= i < |init| && SQ.Failed(init[i]);
      assert SQ.Failed(all[i]);
    }
    if SQ.Failed(last) {
      assert SQ.Failed(all[|init|]);
    }
  }

  /** The outbox goes through a run of the send queue in which no message is empty. */
  lemma {:induction false} OutRun<M>(events: seq<Event<M>>)
    requires Legal(events)
    ensures SQ.Legal(OutEvents(events)) && SQ.StateAfter(OutEvents(events)) == StateAfter(events).out
    ensures SQ.AllFull(OutEvents(events))
    ensures SQ.SomeFailed(OutEvents(events)) <==> SomeFailed(events)
    decreases |events|
  {
    hide SQ.Legal, SQ.StateAfter, SQ.Step, SQ.Enabled, SQ.Failed, SQ.SomeFailed, SomeFailed, Step, Enabled, OutStep;
    if events == [] {
      NoOutEvents<M>();
    } else {
      var init, last := events[..|events| - 1], events[|events| - 1];
      OutRun(init);
      assert events == init + [last];
      var x := OutStep(StateAfter(init), last);
      StepOut(StateAfter(init), last);
      FailedNext(init, last);
      if x == [] {
        assert OutEvents(events) == OutEvents(init);
      } else {
        assert x == [x[0]];
        SQ.Extended(OutEvents(init), x[0]);
        QueueFailedNext(OutEvents(init), x[0]);
      }
    }
  }

  lemma NoOutEvents<M>()
    ensures SQ.Legal<Item<M>>([]) && SQ.StateAfter<Item<M>>([]) == SQ.Start()
    ensures !SQ.SomeFailed<Item<M>>([]) && !SomeFailed<M>([])
  {
  }

  /** The outbox is busy with nobody sending exactly if some response did not get out; else what waits can leave. */
  lemma {:induction false} OutboxStuckIff<M>(events: seq<Event<M>>)
    requires Legal(events)
    ensures SQ.Stuck(StateAfter(events).out) <==> SomeFailed(events)
    ensures StateAfter(events).out.queue.waiting != [] && !SomeFailed(events) ==> SQ.Tokens(StateAfter(events).out) == 1
  {
    hide Legal, StateAfter, SQ.Legal, SQ.StateAfter, SomeFailed, SQ.SomeFailed;
    OutRun(events);
    SQ.StuckIff(OutEvents(events));
    SQ.ProducedFull(OutEvents(events));
  }
}

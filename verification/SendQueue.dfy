/**
 The send queue and the asynchronous send loop around it: any number of
 producers, one AIO operation, and a token, the busy flag, that says who may
 start it.
 */
module SendQueue {
  import opened Options

  /** A message, which may be empty: one that was never made, or has been moved away. */
  datatype Msg<M> = Empty | Full(content: M)

  /** The contents of the messages that are not empty, in order. */
  function Contents<M>(ms: seq<Msg<M>>): (r: seq<M>)
    ensures |r| <= |ms|
  {
    if ms == [] then []
    else
      var last := ms[|ms| - 1];
      Contents(ms[..|ms| - 1]) + if last.Full? then [last.content] else []
  }

  // ---------------------------------------------------------------------------
  // The queues, as their mutexes let them be seen
  // ---------------------------------------------------------------------------

  /** A send queue: what waits, and whether somebody is sending. */
  datatype Queue<M> = Queue(waiting: seq<M>, busy: bool)

  /** `produce`: the message waits behind a sender, else the producer is the sender now. */
  function Produced<M>(q: Queue<M>, m: M): Queue<M> {
    if q.busy then Queue(q.waiting + [m], true) else Queue(q.waiting, true)
  }

  /** `consume`: the next message leaves, or the sending ends. */
  function Consumed<M>(q: Queue<M>): Queue<M> {
    if q.waiting == [] then Queue([], false) else Queue(q.waiting[1..], q.busy)
  }

  class SendQueueMtx<M> {
    var deq: seq<M>
    var busy: bool

    function Value(): Queue<M>
      reads this
    {
      Queue(deq, busy)
    }

    constructor ()
      ensures Value() == Queue([], false)
    {
      deq, busy := [], false;
    }

    /** True if the message was queued; false if the caller has to send it. */
    method Produce(msg: M) returns (queued: bool)
      modifies this
      ensures Value() == Produced(old(Value()), msg) && queued == old(busy)
    {
      if busy {
        deq := deq + [msg];
        return true;
      }
      busy := true;
      queued := false;
    }

    /** The message to send next; `none` ends the sending. */
    method Consume() returns (none: bool, next: seq<M>)
      modifies this
      ensures Value() == Consumed(old(Value()))
      ensures none <==> old(deq) == []
      ensures next == if none then [] else [old(deq)[0]]
    {
      if |deq| == 0 {
        busy := false;
        return true, [];
      }
      none, next := false, [deq[0]];
      deq := deq[1..];
    }
  }

  /** The receive queue, first in first out. */
  class RecvQueueMtx<M> {
    var deq: seq<M>

    constructor ()
      ensures deq == []
    {
      deq := [];
    }

    method Push(msg: M)
      modifies this
      ensures deq == old(deq) + [msg]
    {
      deq := deq + [msg];
    }

    /** The oldest message, if there is one. */
    method Pull() returns (some: bool, msg: seq<M>)
      modifies this
      ensures some <==> old(deq) != []
      ensures if some then msg == [old(deq)[0]] && deq == old(deq)[1..] else msg == [] && unchanged(this)
    {
      if |deq| == 0 {
        return false, [];
      }
      some, msg := true, [deq[0]];
      deq := deq[1..];
    }
  }

  // ---------------------------------------------------------------------------
  // The loop
  // ---------------------------------------------------------------------------

  /**
   `held` are the messages of threads that have to start an operation,
   `inFlight` the operations started and not completed, `callbacks` the
   completions that succeeded and have not asked for the next message.
   `failures` counts the completions without success, `blanks` the empty messages
   whose turn came: no operation is started for them. `sent` and `done` list the
   messages of operations started and completed, `produced` those accepted, in
   the order of the queue's mutex.
   */
  datatype Loop<M> = Loop(
    queue: Queue<Msg<M>>,
    held: seq<M>,
    inFlight: seq<M>,
    callbacks: nat,
    failures: nat,
    blanks: nat,
    sent: seq<M>,
    done: seq<M>,
    produced: seq<Msg<M>>)

  datatype Event<M> =
    | Produce(msg: Msg<M>)     // `send_msg` up to the end of `async_prep`
    | HandOff(i: nat)          // `aio.set_msg` and `ctx.send`
    | Complete(i: nat, ok: bool) // the AIO ends; without success or a handler nothing follows
    | Consume                  // `async_sent` in the callback

  function Start<M>(): Loop<M> {
    Loop(Queue([], false), [], [], 0, 0, 0, [], [], [])
  }

  function Without<M>(s: seq<M>, i: nat): seq<M>
    requires i < |s|
  {
    s[..i] + s[i + 1..]
  }

  predicate Enabled<M>(s: Loop<M>, e: Event<M>) {
    match e
    case Produce(_) => true
    case HandOff(i) => i < |s.held|
    case Complete(i, _) => i < |s.inFlight|
    case Consume => s.callbacks > 0
  }

  /** The turn of a message has come: an operation is to be started for it, unless it is empty. */
  function Taken<M>(s: Loop<M>, m: Msg<M>): Loop<M> {
    if m.Full? then s.(held := s.held + [m.content]) else s.(blanks := s.blanks + 1)
  }

  function Step<M>(s: Loop<M>, e: Event<M>): Loop<M>
    requires Enabled(s, e)
  {
    match e
    case Produce(m) =>
      var t := s.(queue := Produced(s.queue, m), produced := s.produced + [m]);
      if s.queue.busy then t else Taken(t, m)
    case HandOff(i) =>
      s.(held := Without(s.held, i), inFlight := s.inFlight + [s.held[i]], sent := s.sent + [s.held[i]])
    case Complete(i, ok) =>
      s.(inFlight := Without(s.inFlight, i),
         done := s.done + [s.inFlight[i]],
         callbacks := if ok then s.callbacks + 1 else s.callbacks,
         failures := if ok then s.failures else s.failures + 1)
    case Consume =>
      var t := s.(queue := Consumed(s.queue), callbacks := s.callbacks - 1);
      if s.queue.waiting == [] then t else Taken(t, s.queue.waiting[0])
  }

  /** The events can happen one after the other, from the start. */
  ghost predicate Legal<M>(events: seq<Event<M>>)
    decreases |events|, 0
  {
    events == [] ||
    (Legal(events[..|events| - 1]) && Enabled(StateAfter(events[..|events| - 1]), events[|events| - 1]))
  }

  /** The state they lead to. */
  ghost function StateAfter<M>(events: seq<Event<M>>): Loop<M>
    requires Legal(events)
    decreases |events|, 1
  {
    if events == [] then Start() else Step(StateAfter(events[..|events| - 1]), events[|events| - 1])
  }

  /** How many can start an operation, or have one under way. */
  function Tokens<M>(s: Loop<M>): nat {
    |s.held| + |s.inFlight| + s.callbacks
  }

  /** The queue is busy with nobody sending. */
  predicate Stuck<M>(s: Loop<M>) {
    s.queue.busy && Tokens(s) == 0
  }

  /** The messages whose turn has come. */
  function Turned<M>(s: Loop<M>): seq<Msg<M>>
    requires |s.queue.waiting| <= |s.produced|
  {
    s.produced[..|s.produced| - |s.queue.waiting|]
  }

  predicate HasEmpty<M>(ms: seq<Msg<M>>) {
    exists i :: 0 <= i < |ms| && ms[i].Empty?
  }

  // ---------------------------------------------------------------------------
  // What every step keeps
  // ---------------------------------------------------------------------------

  ghost predicate Inv<M>(s: Loop<M>) {
    && Tokens(s) + s.failures + s.blanks == One(s.queue.busy)
    && (!s.queue.busy ==> s.queue.waiting == [])
    && s.sent == s.done + s.inFlight
    && |s.queue.waiting| <= |s.produced|
    && s.produced == Turned(s) + s.queue.waiting
    && Contents(Turned(s)) == s.sent + s.held
    && (s.blanks > 0 <==> HasEmpty(Turned(s)))
  }

  lemma ContentsNext<M>(ms: seq<Msg<M>>, m: Msg<M>)
    ensures Contents(ms + [m]) == Contents(ms) + if m.Full? then [m.content] else []
    ensures HasEmpty(ms + [m]) <==> HasEmpty(ms) || m.Empty?
  {
    assert (ms + [m])[..|ms|] == ms;
    if HasEmpty(ms) {
      var i :| 0 <= i < |ms| && ms[i].Empty?;
      assert (ms + [m])[i].Empty?;
    }
    if m.Empty? {
      assert (ms + [m])[|ms|].Empty?;
    }
  }

  lemma {:induction false} ContentsConcat<M>(ms: seq<Msg<M>>, ns: seq<Msg<M>>)
    ensures Contents(ms + ns) == Contents(ms) + Contents(ns)
  {
    if ns == [] {
      assert ms + ns == ms;
    } else {
      var init, last := ns[..|ns| - 1], ns[|ns| - 1];
      assert ms + ns == ms + init + [last] && ns == init + [last];
      ContentsConcat(ms, init);
      ContentsNext(ms + init, last);
      ContentsNext(init, last);
    }
  }

  /** A message that is produced while somebody is sending waits behind the others. */
  lemma ProduceWaits<M>(s: Loop<M>, m: Msg<M>)
    requires Inv(s) && s.queue.busy
    ensures Inv(Step(s, Produce(m))) && Turned(Step(s, Produce(m))) == Turned(s)
  {
    hide Contents, HasEmpty;
    var t := Step(s, Produce(m));
    assert t.produced == Turned(s) + t.queue.waiting;
    assert Turned(t) == Turned(s);
  }

  lemma ProduceTaken<M>(s: Loop<M>, m: Msg<M>)
    requires Inv(s) && !s.queue.busy
    ensures Inv(Step(s, Produce(m)))
  {
    hide Contents, HasEmpty;
    var t := Step(s, Produce(m));
    ContentsNext(Turned(s), m);
    assert Turned(t) == Turned(s) + [m];
  }

  lemma HandOffKeeps<M>(s: Loop<M>, i: nat)
    requires Inv(s) && Enabled(s, HandOff(i))
    ensures Inv(Step(s, HandOff(i)))
  {
    hide Contents, HasEmpty;
    assert i == 0 && s.inFlight == [] && s.held == [s.held[0]];
    assert Turned(Step(s, HandOff(i))) == Turned(s);
  }

  lemma CompleteKeeps<M>(s: Loop<M>, i: nat, ok: bool)
    requires Inv(s) && Enabled(s, Complete(i, ok))
    ensures Inv(Step(s, Complete(i, ok)))
  {
    hide Contents, HasEmpty;
    assert i == 0 && s.inFlight == [s.inFlight[0]];
    assert Turned(Step(s, Complete(i, ok))) == Turned(s);
  }

  lemma ConsumeLast<M>(s: Loop<M>)
    requires Inv(s) && Enabled(s, Consume) && s.queue.waiting == []
    ensures Inv(Step(s, Consume))
  {
    hide Contents, HasEmpty;
    assert Turned(Step(s, Consume)) == Turned(s);
  }

  lemma ConsumeNext<M>(s: Loop<M>, m: Msg<M>)
    requires Inv(s) && Enabled(s, Consume) && s.queue.waiting != [] && m == s.queue.waiting[0]
    ensures Inv(Step(s, Consume))
  {
    hide Contents, HasEmpty;
    var t := Step(s, Consume);
    var turned := Turned(s);
    assert s.held == [] && s.inFlight == [];
    ContentsNext(turned, m);
    NextTurn(s.produced, turned, s.queue.waiting);
    assert Turned(t) == turned + [m];
  }

  lemma NextTurn<T>(all: seq<T>, before: seq<T>, rest: seq<T>)
    requires all == before + rest && rest != []
    ensures all == before + [rest[0]] + rest[1..] && all[..|all| - |rest[1..]|] == before + [rest[0]]
  {
    assert rest == [rest[0]] + rest[1..];
  }

  lemma StepKeepsInv<M>(s: Loop<M>, e: Event<M>)
    requires Inv(s) && Enabled(s, e)
    ensures Inv(Step(s, e))
  {
    hide Inv, Step;
    match e
    case Produce(m) =>
      if s.queue.busy {
        ProduceWaits(s, m);
      } else {
        ProduceTaken(s, m);
      }
    case HandOff(i) => HandOffKeeps(s, i);
    case Complete(i, ok) => CompleteKeeps(s, i, ok);
    case Consume =>
      if s.queue.waiting == [] {
        ConsumeLast(s);
      } else {
        ConsumeNext(s, s.queue.waiting[0]);
      }
  }

  lemma StartInv<M>()
    ensures Inv(Start<M>())
  {
  }

  lemma {:induction false} RunKeepsInv<M>(events: seq<Event<M>>)
    requires Legal(events)
    ensures Inv(StateAfter(events))
    decreases |events|
  {
    hide Inv, Step, Enabled;
    if events == [] {
      StartInv<M>();
    } else {
      var init, last := events[..|events| - 1], events[|events| - 1];
      RunKeepsInv(init);
      StepKeepsInv(StateAfter(init), last);
    }
  }

  // ---------------------------------------------------------------------------
  // Main results
  // ---------------------------------------------------------------------------

  /**
   In every interleaving the messages that are not empty are handed over in the
   order produced, none lost and none twice.
   */
  lemma {:induction false} FirstInFirstOut<M>(events: seq<Event<M>>)
    requires Legal(events)
    ensures var s := StateAfter(events);
            && s.sent + s.held + Contents(s.queue.waiting) == Contents(s.produced)
            && s.done + s.inFlight == s.sent
            && |s.held| + |s.inFlight| <= 1
  {
    hide Legal, StateAfter, Contents, HasEmpty;
    RunKeepsInv(events);
    var s := StateAfter(events);
    ContentsConcat(Turned(s), s.queue.waiting);
  }

  /** The messages of the calls of `send_msg`, in order. */
  function Sends<M>(events: seq<Event<M>>): seq<Msg<M>> {
    if events == [] then []
    else
      var last := events[|events| - 1];
      Sends(events[..|events| - 1]) + if last.Produce? then [last.msg] else []
  }

  /** How many operations were started, and how many completed. */
  function Starts<M>(events: seq<Event<M>>): nat {
    if events == [] then 0 else Starts(events[..|events| - 1]) + One(events[|events| - 1].HandOff?)
  }

  function Ends<M>(events: seq<Event<M>>): nat {
    if events == [] then 0 else Ends(events[..|events| - 1]) + One(events[|events| - 1].Complete?)
  }

  lemma StepCounts<M>(s: Loop<M>, e: Event<M>)
    requires Enabled(s, e)
    ensures var t := Step(s, e);
            && t.produced == s.produced + (if e.Produce? then [e.msg] else [])
            && |t.sent| == |s.sent| + One(e.HandOff?) && |t.done| == |s.done| + One(e.Complete?)
  {
    assert s.produced + [] == s.produced;
  }

  lemma {:induction false} CountedFromEvents<M>(events: seq<Event<M>>)
    requires Legal(events)
    ensures var s := StateAfter(events);
            s.produced == Sends(events) && |s.sent| == Starts(events) && |s.done| == Ends(events)
    decreases |events|
  {
    hide Step, Enabled;
    if events == [] {
      AtStart<M>();
    } else {
      CountedFromEvents(events[..|events| - 1]);
      StepCounts(StateAfter(events[..|events| - 1]), events[|events| - 1]);
    }
  }

  lemma AtStart<M>()
    ensures var s := Start<M>(); s.produced == [] && s.sent == [] && s.done == []
  {
  }

  /** The i-th operation started or completed is for the i-th message sent that is not empty. */
  lemma {:induction false} SentInOrder<M>(events: seq<Event<M>>)
    requires Legal(events)
    ensures var s, ms := StateAfter(events), Contents(Sends(events));
            && Ends(events) <= Starts(events) <= Ends(events) + 1 && Starts(events) <= |ms|
            && s.sent == ms[..Starts(events)] && s.done == ms[..Ends(events)]
            && s.held + Contents(s.queue.waiting) == ms[Starts(events)..]
  {
    hide Legal, StateAfter, Contents, Sends, Starts, Ends;
    CountedFromEvents(events);
    FirstInFirstOut(events);
    var s, ms := StateAfter(events), Contents(Sends(events));
    assert ms == s.sent + (s.held + Contents(s.queue.waiting));
    assert s.done == s.sent[..|s.done|];
  }

  /** A completion that did not succeed. */
  predicate Failed<M>(e: Event<M>) {
    e.Complete? && !e.ok
  }

  predicate SomeFailed<M>(events: seq<Event<M>>) {
    exists i :: 0 <= i < |events| && Failed(events[i])
  }

  /**
   The queue is busy with nobody sending exactly if some completion did not
   succeed or the turn of an empty message came; and exactly then no step but a
   further message is possible while it is busy.
   */
  lemma {:induction false} StuckIff<M>(events: seq<Event<M>>)
    requires Legal(events)
    ensures var s := StateAfter(events);
            && |s.queue.waiting| <= |s.produced|
            && (Stuck(s) <==> SomeFailed(events) || HasEmpty(Turned(s)))
            && (s.queue.busy ==> (Stuck(s) <==> forall e :: Enabled(s, e) ==> e.Produce?))
            && (s.queue.waiting != [] ==> Stuck(s) || Tokens(s) == 1)
  {
    hide Legal, StateAfter, Contents, HasEmpty, SomeFailed;
    RunKeepsInv(events);
    CountFailures(events);
    Movable(StateAfter(events));
  }

  /** Somebody is sending exactly if some step other than a further message is possible. */
  lemma Movable<M>(s: Loop<M>)
    ensures Tokens(s) == 0 <==> forall e :: Enabled(s, e) ==> e.Produce?
    ensures Tokens(s) > 0 ==> Enabled(s, HandOff(0)) || Enabled(s, Complete(0, true)) || Enabled(s, Consume)
  {
    if Tokens(s) > 0 {
      assert Enabled(s, HandOff(0)) || Enabled(s, Complete(0, true)) || Enabled(s, Consume);
    }
  }

  lemma {:induction false} CountFailures<M>(events: seq<Event<M>>)
    requires Legal(events)
    ensures StateAfter(events).failures > 0 <==> SomeFailed(events)
    decreases |events|
  {
    if events != [] {
      var init, last := events[..|events| - 1], events[|events| - 1];
      CountFailures(init);
      if Failed(last) {
        assert Failed(events[|events| - 1]);
      } else if StateAfter(init).failures > 0 {
        var i :| 0 <= i < |init| && Failed(init[i]);
        assert Failed(events[i]);
      }
    }
  }

  /** No message of these events is empty. */
  predicate AllFull<M>(events: seq<Event<M>>) {
    forall i :: 0 <= i < |events| && events[i].Produce? ==> events[i].msg.Full?
  }

  lemma {:induction false} ProducedFull<M>(events: seq<Event<M>>)
    requires Legal(events) && AllFull(events)
    ensures !HasEmpty(StateAfter(events).produced)
    decreases |events|
  {
    hide Enabled, HasEmpty;
    if events == [] {
      NoneEmpty<M>();
    } else {
      var init, last := events[..|events| - 1], events[|events| - 1];
      ProducedFull(init);
      if last.Produce? {
        ContentsNext(StateAfter(init).produced, last.msg);
      }
    }
  }

  lemma NoneEmpty<M>()
    ensures !HasEmpty<M>([])
  {
  }

  /** With messages that are not empty and completions that succeed, a queued message always has its sender. */
  lemma {:induction false} NeverStuck<M>(events: seq<Event<M>>)
    requires Legal(events) && AllFull(events) && !SomeFailed(events)
    ensures !Stuck(StateAfter(events)) && (StateAfter(events).queue.waiting != [] ==> Tokens(StateAfter(events)) == 1)
  {
    hide Legal, StateAfter, SomeFailed;
    StuckIff(events);
    ProducedFull(events);
  }

  lemma StaysStuck<M>(s: Loop<M>, e: Event<M>)
    requires Inv(s) && Stuck(s) && Enabled(s, e)
    ensures Stuck(Step(s, e)) && Step(s, e).sent == s.sent
  {
  }

  /** A stuck queue stays stuck: nothing is handed over any more, whatever is produced. */
  lemma {:induction false} StuckForever<M>(events: seq<Event<M>>, n: nat)
    requires Legal(events) && n <= |events|
    ensures Legal(events[..n])
    ensures Stuck(StateAfter(events[..n])) ==>
              Stuck(StateAfter(events)) && StateAfter(events).sent == StateAfter(events[..n]).sent
    decreases |events|
  {
    hide Inv, Step, Enabled, Stuck;
    if n == |events| {
      assert events[..n] == events;
    } else {
      var init := events[..|events| - 1];
      StuckForever(init, n);
      assert init[..n] == events[..n];
      RunKeepsInv(init);
      if Stuck(StateAfter(init)) {
        StaysStuck(StateAfter(init), events[|events| - 1]);
      }
    }
  }

  /** One message sent without success, one more produced: it waits for ever. */
  lemma StuckExample()
    ensures var events := [Produce(Full(1)), HandOff(0), Complete(0, false), Produce(Full(2))];
            Legal(events) && StateAfter(events).queue.waiting == [Full(2)] && Stuck(StateAfter(events))
  {
    var e1: seq<Event<int>> := [Produce(Full(1))];
    var e2 := e1 + [HandOff(0)];
    var e3 := e2 + [Complete(0, false)];
    var e4 := e3 + [Produce(Full(2))];
    assert e1[..0] == [] && e2[..1] == e1 && e3[..2] == e2 && e4[..3] == e3;
    assert Legal(e1) && StateAfter(e1).held == [1];
    assert Legal(e2) && StateAfter(e2).inFlight == [1];
    assert Legal(e3);
    assert e4 == [Produce(Full(1)), HandOff(0), Complete(0, false), Produce(Full(2))];
  }

  /** An empty message on an idle queue: the message behind it waits for ever, with no operation ever started. */
  lemma EmptyExample()
    ensures var events := [Produce(Empty), Produce(Full(2))];
            && Legal(events) && !SomeFailed(events)
            && StateAfter(events).queue.waiting == [Full(2)] && Stuck(StateAfter(events))
  {
    var e1: seq<Event<int>> := [Produce(Empty)];
    var e2 := e1 + [Produce(Full(2))];
    assert e1[..0] == [] && e2[..1] == e1;
    assert Legal(e1) && StateAfter(e1).blanks == 1;
    assert e2 == [Produce(Empty), Produce(Full(2))];
  }

  /** Without a failed completion and with no empty message taken, a message that was produced can always get further. */
  lemma {:induction false} SomethingEnabled<M>(events: seq<Event<M>>)
    requires Legal(events)
    ensures var s := StateAfter(events);
            && |s.queue.waiting| <= |s.produced|
            && (Contents(s.produced) != s.done && !SomeFailed(events) && !HasEmpty(Turned(s)) ==>
                  Enabled(s, HandOff(0)) || Enabled(s, Complete(0, true)) || Enabled(s, Consume))
  {
    hide Legal, StateAfter, SomeFailed, HasEmpty, Contents;
    RunKeepsInv(events);
    StuckIff(events);
    Nothing<M>();
    ContentsConcat(Turned(StateAfter(events)), StateAfter(events).queue.waiting);
  }

  // ---------------------------------------------------------------------------
  // Everything can be sent
  // ---------------------------------------------------------------------------

  /** The messages before the first empty one. */
  function BeforeEmpty<M>(ms: seq<Msg<M>>): (r: seq<Msg<M>>)
    ensures r <= ms && !HasEmpty(r)
    ensures r == ms <==> !HasEmpty(ms)
  {
    if ms == [] || ms[0].Empty? then []
    else
      var rest := BeforeEmpty(ms[1..]);
      assert HasEmpty(ms[1..]) ==> HasEmpty(ms);
      assert ms == [ms[0]] + ms[1..];
      [ms[0]] + rest
  }

  /** These events produce nothing and all their completions succeed. */
  predicate Serving<M>(events: seq<Event<M>>) {
    forall i :: 0 <= i < |events| ==> !events[i].Produce? && !Failed(events[i])
  }

  ghost predicate LeadsTo<M>(events: seq<Event<M>>, more: seq<Event<M>>, t: Loop<M>) {
    Legal(events + more) && StateAfter(events + more) == t && Serving(more)
  }

  /** One event more. */
  lemma Extended<M>(events: seq<Event<M>>, e: Event<M>)
    requires Legal(events) && Enabled(StateAfter(events), e)
    ensures Legal(events + [e]) && StateAfter(events + [e]) == Step(StateAfter(events), e)
  {
    hide Enabled, Step;
    assert (events + [e])[..|events|] == events;
  }

  lemma LeadsFurther<M>(events: seq<Event<M>>, more: seq<Event<M>>, s: Loop<M>, e: Event<M>)
    requires LeadsTo(events, more, s) && Enabled(s, e) && !e.Produce? && !Failed(e)
    ensures LeadsTo(events, more + [e], Step(s, e))
  {
    hide Legal, StateAfter, Enabled, Step;
    Extended(events + more, e);
    assert events + (more + [e]) == events + more + [e];
  }

  /** What the message in hand and those that wait come to. */
  ghost predicate Served<M>(s: Loop<M>, t: Loop<M>) {
    && t.produced == s.produced && Tokens(t) == 0
    && (if HasEmpty(s.queue.waiting) then Stuck(t) else t.queue == Queue([], false))
    && t.done == s.done + s.inFlight + s.held + Contents(BeforeEmpty(s.queue.waiting))
  }

  /** The callback's turn: the message that waits first is taken, or the sending ends. */
  lemma ServeNext<M>(s: Loop<M>, u: Loop<M>, t: Loop<M>)
    requires Inv(s) && s.callbacks > 0 && u == Step(s, Consume)
    requires if Tokens(u) == 0 then t == u else Served(u, t)
    ensures Served(s, t)
  {
    hide Contents, HasEmpty, BeforeEmpty;
    assert s.held == [] && s.inFlight == [];
    var w := s.queue.waiting;
    if w == [] {
      NoneEmpty<M>();
      assert BeforeEmpty(w) == [] && Contents<M>([]) == [] by { Nothing<M>(); }
    } else {
      FirstWaiting(w);
    }
  }

  lemma Nothing<M>()
    ensures BeforeEmpty<M>([]) == [] && Contents<M>([]) == []
  {
  }

  lemma FirstWaiting<M>(w: seq<Msg<M>>)
    requires w != []
    ensures w[0].Empty? ==> HasEmpty(w) && Contents(BeforeEmpty(w)) == []
    ensures w[0].Full? ==> (HasEmpty(w) <==> HasEmpty(w[1..]))
    ensures w[0].Full? ==> Contents(BeforeEmpty(w)) == [w[0].content] + Contents(BeforeEmpty(w[1..]))
  {
    assert w == [w[0]] + w[1..];
    if w[0].Full? {
      ContentsConcat([w[0]], BeforeEmpty(w[1..]));
      assert Contents([w[0]]) == [w[0].content] by { ContentsNext([], w[0]); assert [] + [w[0]] == [w[0]]; }
      if HasEmpty(w) {
        var i :| 0 <= i < |w| && w[i].Empty?;
        assert w[1..][i - 1].Empty?;
      }
    }
  }

  /** How far a state is from being served. */
  function Work<M>(s: Loop<M>): nat {
    3 * |s.queue.waiting| + 3 * |s.held| + 2 * |s.inFlight| + s.callbacks
  }

  lemma {:induction false} Serve<M>(events: seq<Event<M>>, more: seq<Event<M>>, s: Loop<M>) returns (on: seq<Event<M>>, t: Loop<M>)
    requires LeadsTo(events, more, s) && Inv(s) && Tokens(s) > 0
    ensures LeadsTo(events, on, t) && Served(s, t)
    decreases Work(s)
  {
    hide LeadsTo, Inv, Served, Contents, HasEmpty, BeforeEmpty;
    var e: Event<M> := if s.held != [] then HandOff(0) else if s.inFlight != [] then Complete(0, true) else Consume;
    LeadsFurther(events, more, s, e);
    StepKeepsInv(s, e);
    var u := Step(s, e);
    if Tokens(u) == 0 {
      on, t := more + [e], u;
    } else {
      on, t := Serve(events, more + [e], u);
    }
    if e.Consume? {
      ServeNext(s, u, t);
    } else {
      ServedSame(s, e, u, t);
    }
  }

  lemma ServedSame<M>(s: Loop<M>, e: Event<M>, u: Loop<M>, t: Loop<M>)
    requires Inv(s) && Enabled(s, e) && (e == HandOff(0) || e == Complete(0, true)) && u == Step(s, e)
    requires Tokens(u) > 0 ==> Served(u, t)
    ensures Tokens(u) > 0 && Served(s, t)
  {
    hide Contents, HasEmpty, BeforeEmpty;
    assert e.HandOff? ==> s.held == [s.held[0]] && s.inFlight == [];
    assert e.Complete? ==> s.inFlight == [s.inFlight[0]] && s.held == [];
  }

  /**
   From wherever a queue that is not stuck has come, the steps of its own sender
   hand over and complete every message before the first empty one; then the
   queue is idle, or stuck at that empty message.
   */
  lemma {:induction false} Drains<M>(events: seq<Event<M>>) returns (more: seq<Event<M>>)
    requires Legal(events) && !Stuck(StateAfter(events))
    ensures Legal(events + more) && Serving(more)
    ensures var s, t := StateAfter(events), StateAfter(events + more);
            && t.produced == s.produced && t.done == Contents(BeforeEmpty(s.produced))
            && (if HasEmpty(s.produced) then Stuck(t) else t.queue == Queue([], false))
  {
    hide Legal, StateAfter, Inv, Contents, HasEmpty, BeforeEmpty;
    var s := StateAfter(events);
    RunKeepsInv(events);
    more := [];
    assert events + more == events;
    if Tokens(s) > 0 {
      var t;
      more, t := Serve(events, more, s);
    }
    DrainedAll(s, StateAfter(events + more));
  }

  lemma DrainedAll<M>(s: Loop<M>, t: Loop<M>)
    requires Inv(s) && !Stuck(s) && if Tokens(s) > 0 then Served(s, t) else t == s
    ensures t.done == Contents(BeforeEmpty(s.produced)) && t.produced == s.produced
    ensures if HasEmpty(s.produced) then Stuck(t) else t.queue == Queue([], false)
  {
    hide Contents, HasEmpty, BeforeEmpty;
    assert !HasEmpty(Turned(s));
    FullThen(Turned(s), s.queue.waiting);
    ContentsConcat(Turned(s), BeforeEmpty(s.queue.waiting));
    if Tokens(s) == 0 {
      Nothing<M>();
      NoneEmpty<M>();
    }
  }

  lemma FirstFull<M>(ms: seq<Msg<M>>)
    requires ms != [] && !HasEmpty(ms)
    ensures ms[0].Full? && !HasEmpty(ms[1..])
  {
    forall i | 0 <= i < |ms[1..]|
      ensures ms[1..][i].Full?
    {
      assert ms[i + 1].Full?;
    }
  }

  lemma FirstKept<M>(ms: seq<Msg<M>>)
    requires ms != [] && ms[0].Full?
    ensures BeforeEmpty(ms) == [ms[0]] + BeforeEmpty(ms[1..])
  {
    hide HasEmpty;
  }

  lemma {:induction false} FullThen<M>(ms: seq<Msg<M>>, ns: seq<Msg<M>>)
    requires !HasEmpty(ms)
    ensures BeforeEmpty(ms + ns) == ms + BeforeEmpty(ns) && (HasEmpty(ms + ns) <==> HasEmpty(ns))
  {
    hide Contents, HasEmpty, BeforeEmpty;
    if ms == [] {
      assert ms + ns == ns;
    } else {
      FirstFull(ms);
      FullThen(ms[1..], ns);
      FirstWaiting(ms + ns);
      FirstKept(ms + ns);
      assert (ms + ns)[1..] == ms[1..] + ns;
      assert ms == [ms[0]] + ms[1..];
      assert [ms[0]] + (ms[1..] + BeforeEmpty(ns)) == ms + BeforeEmpty(ns);
    }
  }

  /** With messages that are not empty and completions that succeed, every message produced can be completed. */
  lemma {:induction false} AllSent<M>(events: seq<Event<M>>) returns (more: seq<Event<M>>)
    requires Legal(events) && AllFull(events) && !SomeFailed(events)
    ensures Legal(events + more) && Serving(more)
    ensures StateAfter(events + more).done == Contents(StateAfter(events).produced)
    ensures StateAfter(events + more).queue == Queue([], false)
  {
    hide Legal, StateAfter, SomeFailed;
    NeverStuck(events);
    ProducedFull(events);
    more := Drains(events);
  }
}

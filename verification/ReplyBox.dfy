/**
 The box around a reply communicator: one query at a time, received, then
 responded to. The calls of the box interleave with the receive operation, which
 fills the inbox, and with the send operation, which empties the outbox.
 */
module ReplyBox {
  import opened Options
  import SQ = SendQueue
  import RP = ReplyProtocol

  /** The delegate's note of a query that has arrived. */
  datatype Pending<M> = Pending(query: RP.Query, msg: M)

  /** A query that was closed, with the message given as its response. */
  datatype Closing<M> = Closing(query: RP.Query, msg: SQ.Msg<M>)

  /**
   The box. `arriving` is the query between the receive operation and the inbox.
   `current` is the context of the query to answer, zero for none, and `open`
   that query. `responding` says that a response is between its claim and the
   outbox. `pulled` and `closings` list the queries received and closed.
   */
  datatype Box<M> = Box(
    reply: RP.Reply<M>,
    arriving: seq<Pending<M>>,
    inbox: seq<Pending<M>>,
    current: RP.Ctx,
    open: RP.Query,
    responding: bool,
    pulled: seq<RP.Query>,
    closings: seq<Closing<M>>)

  datatype Event<M> =
    | Arm(ctx: RP.Ctx)                        // a new context waits for a query
    | Arrive(query: M)                        // a query arrives and its context is noted
    | ReceiveFailed
    | Deliver                                 // the delegate's `async_recv`
    | Out(e: SQ.Event<RP.Item<M>>)            // the send operation and its callback
    | Receive(ready: bool)
    | Respond(ready: bool, msg: SQ.Msg<M>)    // `respond` up to the claim of the query
    | Enqueue                                 // the rest of it, from `outbox.produce` on

  /** How a call ends: an exception, nothing there, or done. */
  datatype Outcome = Closed | BadState | NotOutstanding | Nothing | Done

  function Start<M>(): Box<M> {
    Box(RP.Start(), [], [], 0, RP.Query(0, 0), false, [], [])
  }

  /** Where the context is noted. */
  function Find(qs: seq<RP.Query>, c: RP.Ctx): (r: Option<nat>)
    ensures r.None? <==> forall i :: 0 <= i < |qs| ==> qs[i].ctx != c
    ensures r.Some? ==> r.value < |qs| && qs[r.value].ctx == c
  {
    if qs == [] then None
    else if qs[|qs| - 1].ctx == c then Some(|qs| - 1)
    else Find(qs[..|qs| - 1], c)
  }

  predicate Enabled<M>(s: Box<M>, e: Event<M>) {
    match e
    case Arm(c) => c != 0 && s.arriving == [] && RP.Enabled(s.reply, RP.Arm(c))
    case Arrive(_) => RP.Enabled(s.reply, RP.Received)
    case ReceiveFailed => RP.Enabled(s.reply, RP.ReceiveFailed)
    case Deliver => s.arriving != []
    case Out(x) => RP.Enabled(s.reply, RP.Out(x))
    case Receive(_) => !s.responding
    case Respond(_, _) => !s.responding
    case Enqueue => s.responding && s.reply.claimed != []
  }

  function OutcomeOf<M>(s: Box<M>, e: Event<M>): Outcome {
    match e
    case Receive(ready) =>
      if !ready then Closed else if s.current != 0 then BadState else if s.inbox == [] then Nothing else Done
    case Respond(ready, msg) =>
      if !ready then Closed else if s.current == 0 then BadState
      else if msg.Full? && Find(s.reply.unresponded, s.current).None? then NotOutstanding else Done
    case _ => Nothing
  }

  /** The message that the call gives out. */
  function Answer<M>(s: Box<M>, e: Event<M>): seq<M> {
    if e.Receive? && OutcomeOf(s, e).Done? then [s.inbox[0].msg] else []
  }

  function Received<M>(s: Box<M>): Box<M>
    requires s.inbox != []
  {
    var q := s.inbox[0].query;
    s.(inbox := s.inbox[1..], current := q.ctx, open := q, pulled := s.pulled + [q])
  }

  /** An empty message closes the query at once; another one claims it first. */
  function Responded<M>(s: Box<M>, msg: SQ.Msg<M>): Box<M>
    requires msg.Full? ==> Find(s.reply.unresponded, s.current).Some?
  {
    if msg.Empty? then s.(current := 0, closings := s.closings + [Closing(s.open, msg)])
    else
      s.(reply := RP.Step(s.reply, RP.Claim(Find(s.reply.unresponded, s.current).value, msg.content)), responding := true)
  }

  function Step<M>(s: Box<M>, e: Event<M>): Box<M>
    requires Enabled(s, e)
  {
    match e
    case Arm(c) => s.(reply := RP.Step(s.reply, RP.Arm(c)))
    case Arrive(m) =>
      var q := RP.Query(s.reply.receiving[0], |s.reply.received|);
      s.(reply := RP.Step(s.reply, RP.Received), arriving := s.arriving + [Pending(q, m)])
    case ReceiveFailed => s.(reply := RP.Step(s.reply, RP.ReceiveFailed))
    case Deliver => s.(arriving := s.arriving[1..], inbox := s.inbox + [s.arriving[0]])
    case Out(x) => s.(reply := RP.Step(s.reply, RP.Out(x)))
    case Receive(_) => if OutcomeOf(s, e).Done? then Received(s) else s
    case Respond(_, msg) => if OutcomeOf(s, e).Done? then Responded(s, msg) else s
    case Enqueue =>
      s.(reply := RP.Step(s.reply, RP.Enqueue(0)), responding := false, current := 0,
         closings := s.closings + [Closing(s.open, SQ.Full(s.reply.claimed[0].msg))])
  }

  /** The events can happen one after the other, from the start. */
  ghost predicate Legal<M>(events: seq<Event<M>>)
    decreases |events|, 0
  {
    events == [] ||
    (Legal(events[..|events| - 1]) && Enabled(StateAfter(events[..|events| - 1]), events[|events| - 1]))
  }

  /** The state they lead to. */
  ghost function StateAfter<M>(events: seq<Event<M>>): Box<M>
    requires Legal(events)
    decreases |events|, 1
  {
    if events == [] then Start() else Step(StateAfter(events[..|events| - 1]), events[|events| - 1])
  }

  // ---------------------------------------------------------------------------
  // The class
  // ---------------------------------------------------------------------------

  /** A whole call of `respond` that nothing interrupts: the claim, the outbox, and the send operation if it is idle. */
  function RespondRun<M>(s: Box<M>, ready: bool, msg: SQ.Msg<M>): Box<M>
    requires Enabled(s, Respond(ready, msg)) && s.reply.claimed == []
  {
    var t := Step(s, Respond(ready, msg));
    if !t.responding then t
    else
      var u := Step(t, Enqueue);
      if s.reply.out.queue.busy then u else Step(u, Out(SQ.HandOff(|u.reply.out.held| - 1)))
  }

  /** What such a call does to the box, field by field. */
  lemma RespondParts<M>(s: Box<M>, ready: bool, msg: SQ.Msg<M>)
    requires Enabled(s, Respond(ready, msg)) && s.reply.claimed == []
    ensures !OutcomeOf(s, Respond(ready, msg)).Done? ==> RespondRun(s, ready, msg) == s
    ensures OutcomeOf(s, Respond(ready, msg)).Done? ==>
              var t := RespondRun(s, ready, msg);
              && t.current == 0 && t.inbox == s.inbox
              && if msg.Empty? then t.reply == s.reply
                 else
                   var i := Find(s.reply.unresponded, s.current).value;
                   && t.reply.unresponded == SQ.Without(s.reply.unresponded, i)
                   && t.reply.out.queue == SQ.Produced(s.reply.out.queue, SQ.Full(RP.Item(s.reply.unresponded[i], msg.content)))
  {
    hide Find;
  }

  class QueryBox<M> {
    const inbox: SQ.RecvQueueMtx<Pending<M>>
    const outbox: SQ.SendQueueMtx<SQ.Msg<RP.Item<M>>>
    var unresponded: seq<RP.Query>
    var current: RP.Ctx
    ghost var rest: Box<M>

    ghost function Value(): Box<M>
      reads this, inbox, outbox
    {
      rest.(inbox := inbox.deq, current := current,
            reply := rest.reply.(unresponded := unresponded, out := rest.reply.out.(queue := outbox.Value())))
    }

    /** No call of the box is under way. */
    ghost predicate Idle()
      reads this, inbox, outbox
    {
      !Value().responding && Value().reply.claimed == []
    }

    constructor ()
      ensures Value() == Start() && fresh(inbox) && fresh(outbox)
    {
      inbox := new SQ.RecvQueueMtx<Pending<M>>();
      outbox := new SQ.SendQueueMtx<SQ.Msg<RP.Item<M>>>();
      unresponded, current, rest := [], 0, Start();
    }

    /** The delegate's `async_recv`. */
    method Deliver(p: Pending<M>)
      requires Value().arriving != [] && p == Value().arriving[0]
      modifies this, inbox
      ensures Value() == Step(old(Value()), Event.Deliver)
    {
      rest := Step(Value(), Event.Deliver);
      inbox.Push(p);
    }

    method Receive(ready: bool) returns (r: Outcome, msg: seq<M>)
      requires Idle()
      modifies this, inbox
      ensures Value() == Step(old(Value()), Event.Receive(ready)) && r == OutcomeOf(old(Value()), Event.Receive(ready))
      ensures msg == Answer(old(Value()), Event.Receive(ready))
    {
      rest := Step(Value(), Event.Receive(ready));
      if !ready {
        return Closed, [];
      }
      if current != 0 {
        return BadState, [];
      }
      var some, front := inbox.Pull();
      if some {
        current := front[0].query.ctx;
        r, msg := Done, [front[0].msg];
      } else {
        r, msg := Nothing, [];
      }
    }

    /** `respondTo`: nothing for an empty message, else the query is claimed and its response goes out. */
    method RespondTo(ctx: RP.Ctx, msg: SQ.Msg<M>) returns (r: Outcome)
      modifies this`unresponded, outbox
      ensures r == if msg.Full? && Find(old(unresponded), ctx).None? then NotOutstanding else Done
      ensures if msg.Full? && r.Done? then
                var i := Find(old(unresponded), ctx).value;
                && unresponded == SQ.Without(old(unresponded), i)
                && outbox.Value() == SQ.Produced(old(outbox.Value()), SQ.Full(RP.Item(old(unresponded)[i], msg.content)))
              else unresponded == old(unresponded) && outbox.Value() == old(outbox.Value())
    {
      if msg.Empty? {
        return Done;
      }
      var i := Find(unresponded, ctx);
      if i.None? {
        return NotOutstanding;
      }
      var item := RP.Item(unresponded[i.value], msg.content);
      unresponded := SQ.Without(unresponded, i.value);
      var queued := outbox.Produce(SQ.Full(item));
      r := Done;
    }

    method Respond(ready: bool, msg: SQ.Msg<M>) returns (r: Outcome)
      requires Idle()
      modifies this, outbox
      ensures Value() == RespondRun(old(Value()), ready, msg)
      ensures r == OutcomeOf(old(Value()), Event.Respond(ready, msg))
    {
      hide Find, RespondRun;
      ghost var s := Value();
      RespondParts(s, ready, msg);
      if !ready {
        return Closed;
      }
      if current == 0 {
        return BadState;
      }
      r := RespondTo(current, msg);
      if r.NotOutstanding? {
        return;
      }
      current := 0;
      rest := RespondRun(s, ready, msg);
    }
  }

  // ---------------------------------------------------------------------------
  // What every step keeps
  // ---------------------------------------------------------------------------

  /** All queries received by the communicator, in order. */
  function AllQueries(received: seq<RP.Ctx>): (r: seq<RP.Query>)
    ensures |r| == |received| && forall i :: 0 <= i < |r| ==> r[i] == RP.Query(received[i], i)
  {
    seq(|received|, i requires 0 <= i < |received| => RP.Query(received[i], i))
  }

  function Queries<M>(ps: seq<Pending<M>>): (r: seq<RP.Query>)
    ensures |r| == |ps| && forall i :: 0 <= i < |r| ==> r[i] == ps[i].query
  {
    seq(|ps|, i requires 0 <= i < |ps| => ps[i].query)
  }

  function Ended<M>(cs: seq<Closing<M>>): (r: seq<RP.Query>)
    ensures |r| == |cs| && forall i :: 0 <= i < |r| ==> r[i] == cs[i].query
  {
    seq(|cs|, i requires 0 <= i < |cs| => cs[i].query)
  }

  /** The responses among the closings, in order. */
  function Responses<M>(cs: seq<Closing<M>>): seq<RP.Item<M>> {
    if cs == [] then []
    else
      var last := cs[|cs| - 1];
      Responses(cs[..|cs| - 1]) + if last.msg.Full? then [RP.Item(last.query, last.msg.content)] else []
  }

  /** The queries closed without a response. */
  function Silent<M>(cs: seq<Closing<M>>): seq<RP.Query> {
    if cs == [] then []
    else
      var last := cs[|cs| - 1];
      Silent(cs[..|cs| - 1]) + if last.msg.Empty? then [last.query] else []
  }

  lemma ClosingNext<M>(cs: seq<Closing<M>>, c: Closing<M>)
    ensures Responses(cs + [c]) == Responses(cs) + if c.msg.Full? then [RP.Item(c.query, c.msg.content)] else []
    ensures Silent(cs + [c]) == Silent(cs) + if c.msg.Empty? then [c.query] else []
    ensures Ended(cs + [c]) == Ended(cs) + [c.query]
  {
    assert (cs + [c])[..|cs|] == cs;
  }

  /** Queries are taken up and closed in the order received. */
  ghost predicate Ordered<M>(s: Box<M>) {
    && |s.arriving| <= 1 && (s.arriving != [] ==> s.reply.receiving == [])
    && AllQueries(s.reply.received) == s.pulled + Queries(s.inbox) + Queries(s.arriving)
    && s.pulled == Ended(s.closings) + if s.current == 0 then [] else [s.open]
  }

  ghost predicate NonZero(cs: seq<RP.Ctx>) {
    forall i :: 0 <= i < |cs| ==> cs[i] != 0
  }

  ghost predicate Opened<M>(s: Box<M>) {
    && (s.current != 0 ==> s.open.ctx == s.current)
    && NonZero(s.reply.received) && NonZero(s.reply.receiving)
    && (if s.responding then s.current != 0 && |s.reply.claimed| == 1 && s.reply.claimed[0].query == s.open
        else s.reply.claimed == [])
  }

  /** How often a query is noted as unresponded by the box's own account. */
  function Noted<M>(s: Box<M>, q: RP.Query): nat {
    RP.Count(Queries(s.inbox), q) + RP.Count(Queries(s.arriving), q)
    + One(s.current != 0 && !s.responding && q == s.open) + RP.Count(Silent(s.closings), q)
  }

  /** Noted as unresponded are just the queries on their way, the open one and those closed silently. */
  ghost predicate Accounted<M>(s: Box<M>) {
    forall q :: RP.Count(s.reply.unresponded, q) == Noted(s, q)
  }

  ghost predicate Recorded<M>(s: Box<M>) {
    SQ.Contents(s.reply.out.produced) == Responses(s.closings)
  }

  ghost predicate Inv<M>(s: Box<M>) {
    RP.Inv(s.reply) && Ordered(s) && Opened(s) && Accounted(s) && Recorded(s)
  }

  // ---------------------------------------------------------------------------
  // The claim finds the open query
  // ---------------------------------------------------------------------------

  lemma CountMember<T>(s: seq<T>, x: T)
    ensures RP.Count(s, x) > 0 <==> x in s
  {
  }

  lemma CountTwo<T>(s: seq<T>, i: nat, j: nat)
    requires i < |s| && j < |s| && i != j && s[i] == s[j]
    ensures RP.Count(s, s[i]) >= 2
  {
    var a, b := if i < j then i else j, if i < j then j else i;
    assert s == s[..a] + [s[a]] + s[a + 1..];
    assert s[a + 1..][b - a - 1] == s[b];
  }

  /** Two notes of one context are the same note. */
  lemma OneNote<M>(r: RP.Reply<M>, i: nat, j: nat)
    requires RP.Inv(r) && i < |r.unresponded| && j < |r.unresponded| && r.unresponded[i].ctx == r.unresponded[j].ctx
    ensures i == j
  {
    hide RP.Places, RP.LeavingOn;
    var cs, c := RP.CtxsOf(r.unresponded), r.unresponded[i].ctx;
    assert RP.Count(cs, c) <= RP.Uses(r, c) <= 1;
    if i != j {
      CountTwo(cs, i, j);
    }
  }

  lemma OpenNoted<M>(s: Box<M>)
    requires Inv(s) && s.current != 0 && !s.responding
    ensures Find(s.reply.unresponded, s.current).Some?
    ensures s.reply.unresponded[Find(s.reply.unresponded, s.current).value] == s.open
  {
    hide RP.Inv, Ordered, Recorded;
    assert RP.Count(s.reply.unresponded, s.open) == Noted(s, s.open);
    CountMember(s.reply.unresponded, s.open);
    var j :| 0 <= j < |s.reply.unresponded| && s.reply.unresponded[j] == s.open;
    OneNote(s.reply, Find(s.reply.unresponded, s.current).value, j);
  }

  // ---------------------------------------------------------------------------
  // Steps
  // ---------------------------------------------------------------------------

  /** Steps that only the communicator sees. */
  predicate Outside<M>(e: Event<M>) {
    e.Arm? || e.ReceiveFailed? || e.Out?
  }

  function ReplyEvent<M>(e: Event<M>): RP.Event<M>
    requires Outside(e)
  {
    match e
    case Arm(c) => RP.Arm(c)
    case ReceiveFailed => RP.ReceiveFailed
    case Out(x) => RP.Out(x)
  }

  lemma OutKeeps<M>(out: SQ.Loop<RP.Item<M>>, x: SQ.Event<RP.Item<M>>)
    requires SQ.Enabled(out, x) && !x.Produce?
    ensures SQ.Step(out, x).produced == out.produced
  {
  }

  lemma OutsideKeeps<M>(s: Box<M>, e: Event<M>)
    requires Inv(s) && Enabled(s, e) && Outside(e)
    ensures Inv(Step(s, e))
  {
    hide RP.Inv, AllQueries, Queries, Ended, Silent, Responses, SQ.Step, SQ.Enabled, RP.Uses, SQ.Contents, RP.Count;
    RP.StepKeepsInv(s.reply, ReplyEvent(e));
    if e.Out? {
      OutKeeps(s.reply.out, e.e);
    }
    var t := Step(s, e);
    forall q
      ensures RP.Count(t.reply.unresponded, q) == Noted(t, q)
    {
      assert RP.Count(s.reply.unresponded, q) == Noted(s, q);
    }
  }

  lemma ArriveKeeps<M>(s: Box<M>, m: M)
    requires Inv(s) && Enabled(s, Arrive(m))
    ensures Inv(Step(s, Arrive(m)))
  {
    hide RP.Inv, Silent, Responses, SQ.Contents, RP.Count;
    RP.StepKeepsInv(s.reply, RP.Received);
    ReceivingOne(s.reply);
    var t, q := Step(s, Arrive(m)), RP.Query(s.reply.receiving[0], |s.reply.received|);
    assert AllQueries(t.reply.received) == AllQueries(s.reply.received) + [q];
    assert Queries(s.arriving) == [] && Queries(t.arriving) == [q] == [] + [q];
    forall x
      ensures RP.Count(t.reply.unresponded, x) == Noted(t, x)
    {
      assert RP.Count(s.reply.unresponded, x) == Noted(s, x);
      RP.CountAdded(s.reply.unresponded, q, x);
      RP.CountAdded([], q, x);
    }
  }

  lemma ReceivingOne<M>(r: RP.Reply<M>)
    requires RP.Inv(r)
    ensures |r.receiving| <= 1
  {
    hide RP.Places, RP.Uses;
  }

  lemma DeliverOrdered<M>(s: Box<M>)
    requires Ordered(s) && s.arriving != []
    ensures var t, q := Step(s, Deliver), s.arriving[0].query;
            && Ordered(t) && Queries(s.arriving) == [q] && Queries(t.arriving) == []
            && Queries(t.inbox) == Queries(s.inbox) + [q]
  {
    hide AllQueries, Ended;
    var t, q := Step(s, Deliver), s.arriving[0].query;
    assert Queries(s.arriving) == [q] && Queries(t.arriving) == [];
    assert Queries(t.inbox) == Queries(s.inbox) + [q];
    assert s.pulled + Queries(s.inbox) + [q] == s.pulled + (Queries(s.inbox) + [q]) + [];
  }

  lemma DeliverKeeps<M>(s: Box<M>)
    requires Inv(s) && Enabled(s, Deliver)
    ensures Inv(Step(s, Deliver))
  {
    hide RP.Inv, Ordered, Queries, Silent, Responses, SQ.Contents, RP.Count;
    var t, q := Step(s, Deliver), s.arriving[0].query;
    DeliverOrdered(s);
    forall x
      ensures RP.Count(t.reply.unresponded, x) == Noted(t, x)
    {
      assert RP.Count(s.reply.unresponded, x) == Noted(s, x);
      RP.CountAdded(Queries(s.inbox), q, x);
      CountFirst(q, [], x);
      assert [q] + [] == [q];
      NoneCounted(x);
    }
  }

  lemma NoneCounted(q: RP.Query)
    ensures RP.Count([], q) == 0
  {
  }

  lemma ReceiveOrdered<M>(s: Box<M>)
    requires Ordered(s) && s.current == 0 && s.inbox != [] && s.inbox[0].query.ctx != 0
    ensures Ordered(Received(s)) && Queries(s.inbox) == [s.inbox[0].query] + Queries(Received(s).inbox)
  {
    hide AllQueries, Ended;
    var t, q := Received(s), s.inbox[0].query;
    assert Queries(s.inbox) == [q] + Queries(t.inbox);
    Regroup(s.pulled, q, Queries(t.inbox));
    assert Ended(s.closings) + [] == Ended(s.closings);
  }

  lemma Regroup<T>(a: seq<T>, x: T, b: seq<T>)
    ensures a + ([x] + b) == a + [x] + b
  {
  }

  lemma ReceiveKeeps<M>(s: Box<M>)
    requires Inv(s) && !s.responding && s.current == 0 && s.inbox != []
    ensures Inv(Received(s))
  {
    hide RP.Inv, Ordered, Queries, Silent, Responses, SQ.Contents, RP.Count;
    var t, q := Received(s), s.inbox[0].query;
    InboxNonZero(s);
    ReceiveOrdered(s);
    forall x
      ensures RP.Count(t.reply.unresponded, x) == Noted(t, x)
    {
      assert RP.Count(s.reply.unresponded, x) == Noted(s, x);
      CountFirst(q, Queries(t.inbox), x);
    }
  }

  lemma CountFirst(q: RP.Query, rest: seq<RP.Query>, x: RP.Query)
    ensures RP.Count([q] + rest, x) == RP.Count(rest, x) + One(q == x)
  {
  }

  lemma InboxNonZero<M>(s: Box<M>)
    requires Ordered(s) && Opened(s) && s.inbox != []
    ensures s.inbox[0].query.ctx != 0
  {
    var all, n := AllQueries(s.reply.received), |s.pulled|;
    assert all[n] == s.inbox[0].query;
    assert s.reply.received[n] != 0;
  }

  lemma SilentKeeps<M>(s: Box<M>)
    requires Inv(s) && !s.responding && s.current != 0
    ensures Inv(Responded(s, SQ.Empty))
  {
    hide RP.Inv, AllQueries, Queries, Ended, Silent, Responses, SQ.Contents, RP.Count;
    var t := Responded(s, SQ.Empty);
    ClosingNext(s.closings, Closing(s.open, SQ.Empty));
    assert Responses(s.closings) + [] == Responses(s.closings);
    assert Ended(t.closings) + [] == Ended(t.closings);
    forall x
      ensures RP.Count(t.reply.unresponded, x) == Noted(t, x)
    {
      assert RP.Count(s.reply.unresponded, x) == Noted(s, x);
      RP.CountAdded(Silent(s.closings), s.open, x);
    }
  }

  lemma ClaimKeeps<M>(s: Box<M>, m: M)
    requires Inv(s) && !s.responding && s.current != 0
    ensures Find(s.reply.unresponded, s.current).Some? && Inv(Responded(s, SQ.Full(m)))
  {
    OpenNoted(s);
    hide RP.Inv, AllQueries, Queries, Ended, Silent, Responses, SQ.Contents, RP.Count, Find, SQ.Without;
    var i := Find(s.reply.unresponded, s.current).value;
    RP.StepKeepsInv(s.reply, RP.Claim(i, m));
    var t := Responded(s, SQ.Full(m));
    forall x
      ensures RP.Count(t.reply.unresponded, x) == Noted(t, x)
    {
      assert RP.Count(s.reply.unresponded, x) == Noted(s, x);
      RP.CountRemoved(s.reply.unresponded, i, x);
    }
  }

  lemma EnqueueKeeps<M>(s: Box<M>)
    requires Inv(s) && Enabled(s, Enqueue)
    ensures Inv(Step(s, Enqueue))
  {
    hide RP.Inv, AllQueries, Queries, Ended, Silent, Responses, SQ.Contents, RP.Count;
    var t, m := Step(s, Enqueue), s.reply.claimed[0].msg;
    RP.StepKeepsInv(s.reply, RP.Enqueue(0));
    ClosingNext(s.closings, Closing(s.open, SQ.Full(m)));
    SQ.ContentsNext(s.reply.out.produced, SQ.Full(s.reply.claimed[0]));
    assert s.reply.claimed[0] == RP.Item(s.open, m);
    assert Ended(t.closings) + [] == Ended(t.closings) && Silent(s.closings) + [] == Silent(s.closings);
    forall x
      ensures RP.Count(t.reply.unresponded, x) == Noted(t, x)
    {
      assert RP.Count(s.reply.unresponded, x) == Noted(s, x);
    }
  }

  lemma StepKeepsInv<M>(s: Box<M>, e: Event<M>)
    requires Inv(s) && Enabled(s, e)
    ensures Inv(Step(s, e))
  {
    hide Inv, Received, Responded;
    match e
    case Arm(_) => OutsideKeeps(s, e);
    case Arrive(m) => ArriveKeeps(s, m);
    case ReceiveFailed => OutsideKeeps(s, e);
    case Deliver => DeliverKeeps(s);
    case Out(_) => OutsideKeeps(s, e);
    case Receive(_) =>
      if OutcomeOf(s, e).Done? {
        ReceiveKeeps(s);
      }
    case Respond(_, msg) =>
      if OutcomeOf(s, e).Done? {
        if msg.Empty? {
          SilentKeeps(s);
        } else {
          ClaimKeeps(s, msg.content);
        }
      }
    case Enqueue => EnqueueKeeps(s);
  }

  lemma StartInv<M>()
    ensures Inv(Start<M>())
  {
    RP.StartInv<M>();
    hide RP.Inv;
  }

  lemma {:induction false} RunKeepsInv<M>(events: seq<Event<M>>)
    requires Legal(events)
    ensures Inv(StateAfter(events))
    decreases |events|
  {
    hide Inv, Step, Enabled;
    if events == [] {
      StartInv<M>();
    } else {
      var init := events[..|events| - 1];
      RunKeepsInv(init);
      StepKeepsInv(StateAfter(init), events[|events| - 1]);
    }
  }

  // ---------------------------------------------------------------------------
  // Main results
  // ---------------------------------------------------------------------------

  /**
   In every interleaving the i-th query the box gives out and the i-th one it
   closes is the i-th one received on the socket, and at most one is open.
   */
  lemma {:induction false} Alternates<M>(events: seq<Event<M>>, i: nat)
    requires Legal(events)
    ensures var s := StateAfter(events);
            && |s.closings| <= |s.pulled| <= |s.closings| + 1 && |s.pulled| <= |s.reply.received|
            && (s.current == 0 <==> |s.pulled| == |s.closings|)
            && (i < |s.pulled| ==> s.pulled[i] == RP.Query(s.reply.received[i], i))
            && (i < |s.closings| ==> s.closings[i].query == RP.Query(s.reply.received[i], i))
            && (s.current != 0 ==> s.pulled[|s.closings|].ctx == s.current)
  {
    hide Legal, StateAfter, RP.Inv, Accounted, Recorded;
    RunKeepsInv(events);
    var s := StateAfter(events);
    var all := AllQueries(s.reply.received);
    assert |all| == |s.pulled| + |Queries(s.inbox)| + |Queries(s.arriving)|;
    if i < |s.pulled| {
      assert all[i] == s.pulled[i];
      if i < |s.closings| {
        assert s.pulled[i] == Ended(s.closings)[i];
      }
    }
  }

  /** The messages that arrived, in order. */
  function Arrivals<M>(events: seq<Event<M>>): seq<M> {
    if events == [] then []
    else
      var last := events[|events| - 1];
      Arrivals(events[..|events| - 1]) + if last.Arrive? then [last.query] else []
  }

  /** The messages that the calls of `receive` gave out, in order. */
  ghost function Given<M>(events: seq<Event<M>>): seq<M>
    requires Legal(events)
  {
    if events == [] then []
    else
      var init := events[..|events| - 1];
      Given(init) + Answer(StateAfter(init), events[|events| - 1])
  }

  function Messages<M>(ps: seq<Pending<M>>): seq<M> {
    seq(|ps|, i requires 0 <= i < |ps| => ps[i].msg)
  }

  lemma MessagesNext<M>(ps: seq<Pending<M>>, p: Pending<M>)
    ensures Messages(ps + [p]) == Messages(ps) + [p.msg]
  {
  }

  lemma MessagesFirst<M>(ps: seq<Pending<M>>)
    ensures ps == [] ==> Messages(ps) == []
    ensures ps != [] ==> Messages(ps) == [ps[0].msg] + Messages(ps[1..])
  {
  }

  /** What a step does to the two places where a message waits. */
  lemma StepParts<M>(s: Box<M>, e: Event<M>)
    requires Enabled(s, e)
    ensures var t := Step(s, e);
            && t.arriving == (if e.Arrive? then s.arriving + [Pending(RP.Query(s.reply.receiving[0], |s.reply.received|), e.query)]
                              else if e.Deliver? then s.arriving[1..] else s.arriving)
            && (e.Deliver? ==> t.inbox == s.inbox + [s.arriving[0]] && t.pulled == s.pulled && Answer(s, e) == [])
            && (e.Receive? && OutcomeOf(s, e).Done? ==>
                  && s.inbox != [] && t.inbox == s.inbox[1..] && |t.pulled| == |s.pulled| + 1
                  && Answer(s, e) == [s.inbox[0].msg])
            && (!e.Deliver? && !(e.Receive? && OutcomeOf(s, e).Done?) ==>
                  t.inbox == s.inbox && t.pulled == s.pulled && Answer(s, e) == [])
            && |t.reply.received| == |s.reply.received| + One(e.Arrive?)
  {
    hide RP.Uses, SQ.Step, SQ.Enabled, Find;
  }

  /** A step moves messages along: from arriving to the inbox, and from there to the caller. */
  lemma StepMessages<M>(s: Box<M>, e: Event<M>)
    requires Enabled(s, e) && |s.arriving| <= 1 && (e.Arrive? ==> s.arriving == [])
    ensures var t := Step(s, e);
            && Answer(s, e) + Messages(t.inbox) + Messages(t.arriving) ==
               Messages(s.inbox) + Messages(s.arriving) + (if e.Arrive? then [e.query] else [])
            && |t.pulled| == |s.pulled| + |Answer(s, e)| && |t.reply.received| == |s.reply.received| + One(e.Arrive?)
  {
    StepParts(s, e);
    assert e.Deliver? ==> s.arriving != [];
    hide *;
    if e.Arrive? {
      MessagesNext(s.arriving, Pending(RP.Query(s.reply.receiving[0], |s.reply.received|), e.query));
    } else if e.Deliver? {
      MessagesFirst(s.arriving);
      MessagesFirst(s.arriving[1..]);
      MessagesNext(s.inbox, s.arriving[0]);
    } else if e.Receive? && OutcomeOf(s, e).Done? {
      MessagesFirst(s.inbox);
    }
  }

  lemma {:induction false} MessagesAccounted<M>(events: seq<Event<M>>)
    requires Legal(events)
    ensures var s := StateAfter(events);
            && Given(events) + Messages(s.inbox) + Messages(s.arriving) == Arrivals(events)
            && |Given(events)| == |s.pulled| && |Arrivals(events)| == |s.reply.received|
    decreases |events|
  {
    hide Legal, StateAfter, Step, Enabled, Answer, Inv, Messages;
    RunEnd(events);
    if events == [] {
      NoMessages<M>();
    } else {
      var init, e := events[..|events| - 1], events[|events| - 1];
      MessagesAccounted(init);
      RunKeepsInv(init);
      ArrivingOne(StateAfter(init), e);
      StepMessages(StateAfter(init), e);
      var s, t := StateAfter(init), StateAfter(events);
      var more := if e.Arrive? then [e.query] else [];
      assert Given(events) + Messages(t.inbox) + Messages(t.arriving) ==
             Given(init) + (Answer(s, e) + Messages(t.inbox) + Messages(t.arriving));
      assert Given(init) + (Messages(s.inbox) + Messages(s.arriving) + more) ==
             Given(init) + Messages(s.inbox) + Messages(s.arriving) + more;
    }
  }

  lemma NoMessages<M>()
    ensures Messages(Start<M>().inbox) == [] && Messages(Start<M>().arriving) == [] && Start<M>().pulled == []
    ensures Start<M>().reply.received == []
  {
  }

  lemma ArrivingOne<M>(s: Box<M>, e: Event<M>)
    requires Inv(s) && Enabled(s, e)
    ensures |s.arriving| <= 1 && (e.Arrive? ==> s.arriving == [])
  {
    hide RP.Inv, Opened, Accounted, Recorded;
  }

  /** In every interleaving the i-th message given out is that of the i-th arrival, and so is the query opened with it. */
  lemma {:induction false} GivenInOrder<M>(events: seq<Event<M>>, i: nat)
    requires Legal(events)
    ensures var s := StateAfter(events);
            && |Given(events)| == |s.pulled| <= |Arrivals(events)| == |s.reply.received|
            && (i < |s.pulled| ==> Given(events)[i] == Arrivals(events)[i] && s.pulled[i] == RP.Query(s.reply.received[i], i))
  {
    hide Legal, StateAfter, Given, Arrivals;
    MessagesAccounted(events);
    Alternates(events, i);
  }

  /** What `receive` gives out next: the message of the first arrival not given out yet, with the query it came as. */
  lemma {:induction false} ReceiveGives<M>(events: seq<Event<M>>, ready: bool)
    requires Legal(events) && Enabled(StateAfter(events), Receive(ready))
    ensures var s, n := StateAfter(events), |StateAfter(events).pulled|;
            && (OutcomeOf(s, Receive(ready)).Done? ==>
                  && n < |Arrivals(events)| == |s.reply.received|
                  && Answer(s, Receive(ready)) == [Arrivals(events)[n]]
                  && Step(s, Receive(ready)).open == RP.Query(s.reply.received[n], n)
                  && Step(s, Receive(ready)).current == s.reply.received[n])
            && (!OutcomeOf(s, Receive(ready)).Done? ==> Answer(s, Receive(ready)) == [] && Step(s, Receive(ready)) == s)
  {
    hide Legal, StateAfter, Given, Arrivals;
    MessagesAccounted(events);
    var s, n := StateAfter(events), |StateAfter(events).pulled|;
    if OutcomeOf(s, Receive(ready)).Done? {
      assert Arrivals(events)[n] == Messages(s.inbox)[0];
      NextQuery(events, s);
    }
  }

  lemma NextQuery<M>(events: seq<Event<M>>, s: Box<M>)
    requires Legal(events) && s == StateAfter(events) && s.inbox != []
    ensures |s.pulled| < |s.reply.received| && s.inbox[0].query == RP.Query(s.reply.received[|s.pulled|], |s.pulled|)
  {
    hide Legal, StateAfter, RP.Inv, Opened, Accounted, Recorded;
    RunKeepsInv(events);
    var n := |s.pulled|;
    assert AllQueries(s.reply.received)[n] == Queries(s.inbox)[0];
  }

  /** The message with which a call of `respond` closes the open query, or claims it for that. */
  function Said<M>(s: Box<M>, e: Event<M>): seq<SQ.Msg<M>> {
    if e.Respond? && OutcomeOf(s, e).Done? then [e.msg] else []
  }

  /** The messages of all calls of `respond` that went through, in order. */
  ghost function Replies<M>(events: seq<Event<M>>): seq<SQ.Msg<M>>
    requires Legal(events)
  {
    if events == [] then []
    else Replies(events[..|events| - 1]) + Said(StateAfter(events[..|events| - 1]), events[|events| - 1])
  }

  function Texts<M>(cs: seq<Closing<M>>): (r: seq<SQ.Msg<M>>)
    ensures |r| == |cs| && forall i :: 0 <= i < |r| ==> r[i] == cs[i].msg
  {
    seq(|cs|, i requires 0 <= i < |cs| => cs[i].msg)
  }

  /** The response between its claim and the outbox. */
  function UnderWay<M>(s: Box<M>): seq<SQ.Msg<M>> {
    if s.responding && s.reply.claimed != [] then [SQ.Full(s.reply.claimed[0].msg)] else []
  }

  lemma StepTexts<M>(s: Box<M>, e: Event<M>)
    requires Enabled(s, e) && !(s.responding && s.reply.claimed == []) && (!s.responding ==> s.reply.claimed == [])
    ensures Texts(Step(s, e).closings) + UnderWay(Step(s, e)) == Texts(s.closings) + UnderWay(s) + Said(s, e)
  {
    hide RP.Uses, SQ.Step, SQ.Enabled, Find, RP.QueriesOf, RP.CtxsOf;
  }

  /** The i-th query received is closed by the i-th call of `respond` that went through, with its message. */
  lemma {:induction false} ClosedAsTold<M>(events: seq<Event<M>>)
    requires Legal(events)
    ensures var s := StateAfter(events);
            && Texts(s.closings) + UnderWay(s) == Replies(events)
            && Ended(s.closings) <= AllQueries(s.reply.received)
    decreases |events|
  {
    hide Legal, StateAfter, Step, Enabled, Said, UnderWay, Texts, RP.Inv, Opened, Accounted, Recorded;
    RunEnd(events);
    RunKeepsInv(events);
    if events == [] {
      NoTexts<M>();
    } else {
      var init, e := events[..|events| - 1], events[|events| - 1];
      ClosedAsTold(init);
      RunKeepsInv(init);
      ClaimedWhile(StateAfter(init));
      StepTexts(StateAfter(init), e);
    }
  }

  lemma NoTexts<M>()
    ensures Texts(Start<M>().closings) == [] && UnderWay(Start<M>()) == []
  {
  }

  lemma ClaimedWhile<M>(s: Box<M>)
    requires Inv(s)
    ensures !(s.responding && s.reply.claimed == []) && (!s.responding ==> s.reply.claimed == [])
  {
    hide RP.Inv, Ordered, Accounted, Recorded;
  }

  /** How many queries the delegate has put into the inbox. */
  function Delivered<M>(events: seq<Event<M>>): nat {
    if events == [] then 0 else Delivered(events[..|events| - 1]) + One(events[|events| - 1].Deliver?)
  }

  lemma {:induction false} InboxCounts<M>(events: seq<Event<M>>)
    requires Legal(events)
    ensures |StateAfter(events).inbox| + |StateAfter(events).pulled| == Delivered(events)
    decreases |events|
  {
    hide Legal, StateAfter, Step, Enabled, Answer;
    RunEnd(events);
    if events != [] {
      InboxCounts(events[..|events| - 1]);
      StepParts(StateAfter(events[..|events| - 1]), events[|events| - 1]);
    }
  }

  /**
   How a call of `receive` or `respond` ends, in every run: closed if the box is not
   ready, else refused by whether a query is open, that is, given out and not
   closed; else `receive` gives one out exactly if more were delivered than given
   out, and `respond` always goes through.
   */
  lemma {:induction false} CallEnds<M>(events: seq<Event<M>>, ready: bool, msg: SQ.Msg<M>)
    requires Legal(events) && Enabled(StateAfter(events), Receive(ready))
    ensures var s, given, closed := StateAfter(events), |Given(events)|, |Replies(events)|;
            && closed <= given <= closed + 1
            && OutcomeOf(s, Receive(ready)) ==
               (if !ready then Closed else if given > closed then BadState else if Delivered(events) > given then Done else Nothing)
            && OutcomeOf(s, Respond(ready, msg)) == (if !ready then Closed else if given == closed then BadState else Done)
  {
    hide Legal, StateAfter, Given, Replies, Delivered, Inv, Find, Texts, UnderWay;
    assert |Given(events)| == |StateAfter(events).pulled| by {
      MessagesAccounted(events);
    }
    InboxCounts(events);
    ClosedCount(events);
    NeverOutstanding(events, ready, msg);
  }

  /** As many queries were closed as calls of `respond` went through, and one more was given out just if one is open. */
  lemma ClosedCount<M>(events: seq<Event<M>>)
    requires Legal(events) && !StateAfter(events).responding
    ensures var s := StateAfter(events);
            |Replies(events)| == |s.closings| && |s.pulled| == |s.closings| + One(s.current != 0)
  {
    hide Legal, StateAfter, Replies, RP.Inv, Opened, Accounted, Recorded, Queries, AllQueries;
    ClosedAsTold(events);
    RunKeepsInv(events);
  }

  /** `respond` never meets the error that no query is outstanding. */
  lemma {:induction false} NeverOutstanding<M>(events: seq<Event<M>>, ready: bool, msg: SQ.Msg<M>)
    requires Legal(events) && Enabled(StateAfter(events), Respond(ready, msg))
    ensures OutcomeOf(StateAfter(events), Respond(ready, msg)) != NotOutstanding
  {
    hide Legal, StateAfter, Inv;
    RunKeepsInv(events);
    if StateAfter(events).current != 0 {
      OpenNoted(StateAfter(events));
    }
  }

  /**
   In every interleaving the outbox gets the responses of the closings that have
   one, in order, each on the context of its query, and hands them on in that
   order.
   */
  lemma {:induction false} RespondsInOrder<M>(events: seq<Event<M>>)
    requires Legal(events)
    ensures var s := StateAfter(events);
            && SQ.Contents(s.reply.out.produced) == Responses(s.closings)
            && s.reply.out.sent + s.reply.out.held + SQ.Contents(s.reply.out.queue.waiting) == Responses(s.closings)
  {
    hide Legal, StateAfter, SQ.Contents, Responses;
    RunKeepsInv(events);
    var out := StateAfter(events).reply.out;
    assert out.produced == SQ.Turned(out) + out.queue.waiting;
    SQ.ContentsConcat(SQ.Turned(out), out.queue.waiting);
  }

  /** A query closed without a response stays noted as unresponded, so its context is not used again. */
  lemma {:induction false} SilentStays<M>(events: seq<Event<M>>, i: nat)
    requires Legal(events) && i < |StateAfter(events).closings| && StateAfter(events).closings[i].msg.Empty?
    ensures var s := StateAfter(events);
            s.closings[i].query in s.reply.unresponded && RP.Uses(s.reply, s.closings[i].query.ctx) == 1
  {
    hide Legal, StateAfter, Ordered, Opened, Recorded, RP.LeavingOn, RP.Places;
    RunKeepsInv(events);
    var s := StateAfter(events);
    var q := s.closings[i].query;
    SilentMember(s.closings, i);
    CountMember(Silent(s.closings), q);
    assert RP.Count(s.reply.unresponded, q) == Noted(s, q);
    CountMember(s.reply.unresponded, q);
    var j :| 0 <= j < |s.reply.unresponded| && s.reply.unresponded[j] == q;
    var cs := RP.CtxsOf(s.reply.unresponded);
    assert cs[j] == q.ctx;
    CountMember(cs, q.ctx);
  }

  lemma {:induction false} SilentMember<M>(cs: seq<Closing<M>>, i: nat)
    requires i < |cs| && cs[i].msg.Empty?
    ensures cs[i].query in Silent(cs)
  {
    var init, last := cs[..|cs| - 1], cs[|cs| - 1];
    assert cs == init + [last];
    ClosingNext(init, last);
    if i < |init| {
      SilentMember(init, i);
    }
  }

  /** A response to this query is in the outbox or has left it. */
  ghost predicate Answered<M>(s: Box<M>, q: RP.Query) {
    exists j :: 0 <= j < |SQ.Contents(s.reply.out.produced)| && SQ.Contents(s.reply.out.produced)[j].query == q
  }

  lemma {:induction false} ResponseIff<M>(cs: seq<Closing<M>>, i: nat)
    requires i < |cs| && forall j :: 0 <= j < |cs| && j != i ==> cs[j].query != cs[i].query
    ensures (exists j :: 0 <= j < |Responses(cs)| && Responses(cs)[j].query == cs[i].query) <==> cs[i].msg.Full?
  {
    var init, last := cs[..|cs| - 1], cs[|cs| - 1];
    assert cs == init + [last];
    ClosingNext(init, last);
    if i < |init| {
      ResponseIff(init, i);
      if cs[i].msg.Full? {
        var j :| 0 <= j < |Responses(init)| && Responses(init)[j].query == cs[i].query;
        assert Responses(cs)[j].query == cs[i].query;
      }
    } else {
      NoResponse(init, last.query);
      if last.msg.Full? {
        assert Responses(cs)[|Responses(init)|].query == last.query;
      }
    }
  }

  lemma {:induction false} NoResponse<M>(cs: seq<Closing<M>>, q: RP.Query)
    requires forall j :: 0 <= j < |cs| ==> cs[j].query != q
    ensures forall j :: 0 <= j < |Responses(cs)| ==> Responses(cs)[j].query != q
  {
    if cs != [] {
      var init, last := cs[..|cs| - 1], cs[|cs| - 1];
      assert cs == init + [last];
      ClosingNext(init, last);
      NoResponse(init, q);
    }
  }

  /** The message of a response that is on its way to the outbox was given to `respond` while this query was open. */
  lemma {:induction false} RespondingSince<M>(events: seq<Event<M>>) returns (n: nat)
    requires Legal(events) && StateAfter(events).responding
    ensures n < |events| && Legal(events[..n])
    ensures |StateAfter(events).reply.claimed| == 1
    ensures events[n] == Respond(true, SQ.Full(StateAfter(events).reply.claimed[0].msg))
    ensures var s, t := StateAfter(events[..n]), StateAfter(events); s.closings == t.closings && s.open == t.open && s.current == t.current
    decreases |events|
  {
    hide Legal, StateAfter, Inv;
    RunEnd(events);
    var init, last := events[..|events| - 1], events[|events| - 1];
    RunKeepsInv(init);
    RunKeepsInv(events);
    OneClaimed(StateAfter(events));
    if StateAfter(init).responding {
      n := RespondingSince(init);
      assert init[..n] == events[..n];
      SameClaim(StateAfter(init), last);
    } else {
      n := |events| - 1;
      FreshClaim(StateAfter(init), last);
    }
  }

  lemma RunEnd<M>(events: seq<Event<M>>)
    requires Legal(events)
    ensures events == [] ==> StateAfter(events) == Start()
    ensures events != [] ==>
              && Legal(events[..|events| - 1]) && Enabled(StateAfter(events[..|events| - 1]), events[|events| - 1])
              && StateAfter(events) == Step(StateAfter(events[..|events| - 1]), events[|events| - 1])
  {
    hide Enabled, Step;
  }

  lemma OneClaimed<M>(s: Box<M>)
    requires Inv(s) && s.responding
    ensures |s.reply.claimed| == 1
  {
    hide RP.Inv, Ordered, Accounted, Recorded;
  }

  lemma SameClaim<M>(s: Box<M>, e: Event<M>)
    requires s.responding && Enabled(s, e) && Step(s, e).responding
    ensures var t := Step(s, e);
            t.reply.claimed == s.reply.claimed && t.closings == s.closings && t.open == s.open && t.current == s.current
  {
    hide SQ.Step;
  }

  lemma FreshClaim<M>(s: Box<M>, e: Event<M>)
    requires Inv(s) && !s.responding && Enabled(s, e) && Step(s, e).responding
    ensures var t := Step(s, e);
            && |t.reply.claimed| == 1 && e == Respond(true, SQ.Full(t.reply.claimed[0].msg))
            && t.closings == s.closings && t.open == s.open && t.current == s.current
  {
    hide RP.Inv, Ordered, Accounted, Recorded, SQ.Step;
  }

  lemma ClosingsGrow<M>(s: Box<M>, e: Event<M>)
    requires Enabled(s, e)
    ensures var t := Step(s, e);
            || t.closings == s.closings
            || (e == Respond(true, SQ.Empty) && !s.responding && s.current != 0 && t.closings == s.closings + [Closing(s.open, SQ.Empty)])
            || (e.Enqueue? && s.responding && s.reply.claimed != [] &&
                t.closings == s.closings + [Closing(s.open, SQ.Full(s.reply.claimed[0].msg))])
  {
    hide RP.Step;
  }

  /**
   In every interleaving each closing comes from one call of `respond`, made when
   the queries before were closed and this one was open; and a response to the
   query gets to the outbox exactly if the message of that call was not empty.
   */
  lemma {:induction false} ClosingIff<M>(events: seq<Event<M>>, i: nat) returns (n: nat)
    requires Legal(events) && i < |StateAfter(events).closings|
    ensures n < |events| && Legal(events[..n])
    ensures var s, t := StateAfter(events[..n]), StateAfter(events);
            && events[n] == Respond(true, t.closings[i].msg)
            && |s.closings| == i && s.open == t.closings[i].query && s.current == t.closings[i].query.ctx
            && (Answered(t, t.closings[i].query) <==> events[n].msg.Full?)
  {
    hide Legal, StateAfter;
    n := ClosingStep(events, i);
    RunKeepsInv(events);
    forall j | 0 <= j < |StateAfter(events).closings| && j != i
      ensures StateAfter(events).closings[j].query != StateAfter(events).closings[i].query
    {
      Alternates(events, i);
      Alternates(events, j);
    }
    ResponseIff(StateAfter(events).closings, i);
    RespondsInOrder(events);
    RunKeepsInv(events[..n]);
  }

  lemma {:induction false} ClosingStep<M>(events: seq<Event<M>>, i: nat) returns (n: nat)
    requires Legal(events) && i < |StateAfter(events).closings|
    ensures n < |events| && Legal(events[..n]) && events[n] == Respond(true, StateAfter(events).closings[i].msg)
    ensures var s, t := StateAfter(events[..n]), StateAfter(events);
            |s.closings| == i && s.open == t.closings[i].query && s.current != 0
    decreases |events|
  {
    hide Legal, StateAfter, Inv, Step, Enabled;
    RunEnd(events);
    StartEmpty<M>();
    var init, last := events[..|events| - 1], events[|events| - 1];
    ClosingsGrow(StateAfter(init), last);
    if i < |StateAfter(init).closings| {
      n := ClosingStep(init, i);
      assert init[..n] == events[..n];
    } else if last.Enqueue? {
      RunKeepsInv(init);
      CurrentClaimed(StateAfter(init));
      n := RespondingSince(init);
      assert init[..n] == events[..n];
    } else {
      n := |events| - 1;
    }
  }

  lemma StartEmpty<M>()
    ensures Start<M>().closings == []
  {
  }

  lemma CurrentClaimed<M>(s: Box<M>)
    requires Inv(s) && s.responding
    ensures s.current != 0
  {
    hide RP.Inv, Ordered, Accounted, Recorded;
  }

  /** One event more. */
  lemma Extended<M>(events: seq<Event<M>>, e: Event<M>)
    requires Legal(events) && Enabled(StateAfter(events), e)
    ensures Legal(events + [e]) && StateAfter(events + [e]) == Step(StateAfter(events), e)
  {
    hide Enabled, Step;
    assert (events + [e])[..|events|] == events;
  }

  lemma ArmFirst<M>(c: RP.Ctx)
    requires c != 0
    ensures Enabled(Start<M>(), Arm(c)) && Legal<M>([]) && StateAfter<M>([]) == Start()
  {
    hide RP.Places, RP.Uses;
    RP.Nothing<M>(RP.Query(0, 0), c);
  }

  /** A query is received and closed with an empty message: no response to it ever gets to the outbox. */
  lemma SilentExample<M>(m: M) returns (events: seq<Event<M>>)
    ensures Legal(events) && |events| == 5 && events[4] == Respond(true, SQ.Empty)
    ensures var s := StateAfter(events);
            && s.pulled == [RP.Query(7, 0)] && s.current == 0 && s.closings == [Closing(RP.Query(7, 0), SQ.Empty)]
            && s.reply.out.produced == [] && s.reply.unresponded == [RP.Query(7, 0)]
  {
    hide Legal, StateAfter, RP.Uses, Find;
    ArmFirst<M>(7);
    events := [];
    Extended(events, Arm(7));
    events := events + [Arm(7)];
    Extended(events, Arrive(m));
    events := events + [Arrive(m)];
    Extended(events, Deliver);
    events := events + [Deliver];
    Extended(events, Receive(true));
    events := events + [Receive(true)];
    Extended(events, Respond(true, SQ.Empty));
    events := events + [Respond(true, SQ.Empty)];
  }

  // ---------------------------------------------------------------------------
  // The communicator below
  // ---------------------------------------------------------------------------

  /** The communicator under a box goes through a run of its own protocol. */
  lemma {:induction false} ReplyRun<M>(events: seq<Event<M>>) returns (es: seq<RP.Event<M>>)
    requires Legal(events)
    ensures RP.Legal(es) && RP.StateAfter(es) == StateAfter(events).reply
    decreases |events|
  {
    hide Legal, StateAfter, RP.Legal, RP.StateAfter, RP.Step, RP.Enabled, Find;
    RunEnd(events);
    if events == [] {
      es := [];
      RP.LegalNone<M>();
    } else {
      var init, last := events[..|events| - 1], events[|events| - 1];
      es := ReplyRun(init);
      var x := BelowStep(StateAfter(init), last);
      if x != [] {
        RP.Extended(es, x[0]);
        es := es + [x[0]];
      }
    }
  }

  /** A step of the box makes at most one step of the communicator. */
  lemma BelowStep<M>(s: Box<M>, e: Event<M>) returns (x: seq<RP.Event<M>>)
    requires Enabled(s, e)
    ensures |x| <= 1
    ensures if x == [] then Step(s, e).reply == s.reply
            else RP.Enabled(s.reply, x[0]) && Step(s, e).reply == RP.Step(s.reply, x[0])
  {
    hide RP.Step, Find;
    match e
    case Arm(c) => x := [RP.Arm(c)];
    case Arrive(_) => x := [RP.Received];
    case ReceiveFailed => x := [RP.ReceiveFailed];
    case Out(y) => x := [RP.Out(y)];
    case Enqueue => x := [RP.Enqueue(0)];
    case Respond(_, msg) =>
      x := if OutcomeOf(s, e).Done? && msg.Full? then [RP.Claim(Find(s.reply.unresponded, s.current).value, msg.content)] else [];
    case _ => x := [];
  }
}

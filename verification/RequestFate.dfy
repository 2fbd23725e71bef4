/**
 How a request ends, read off the events: what fell to the action that serves it,
 from its `request` on, decides what the handler is told.
 */
module RequestFate {
  import opened Options
  import opened RequestPool

  /** What can fall to the action of a request: a completion with the handler there, one without it, or the end of the callback. */
  datatype Mark = Completed(ok: bool) | Alone | Finished

  /** The requests made so far that the handler did not decline. */
  function Asks(events: seq<Event>): nat {
    if events == [] then 0 else Asks(events[..|events| - 1]) + One(events[|events| - 1] == Ask(false))
  }

  /** The number of the request that took the action last. */
  ghost function Serving(events: seq<Event>, a: nat): Option<nat>
    requires Legal(events)
  {
    if events == [] then None
    else
      var init := events[..|events| - 1];
      if events[|events| - 1] == Ask(false) && Chosen(StateAfter(init)) == a then Some(Asks(init)) else Serving(init, a)
  }

  /** The action that an event concerns, and what it is for the request served there. */
  function Falls(e: Event): Option<(nat, Mark)> {
    match e
    case Ask(_) => None
    case Callback(a, ok) => Some((a, Completed(ok)))
    case CallbackAlone(a) => Some((a, Alone))
    case Finish(a) => Some((a, Finished))
  }

  /** What the last event is for request `k`. */
  ghost function Last(init: seq<Event>, e: Event, k: nat): seq<Mark>
    requires Legal(init)
  {
    if Falls(e).Some? && Serving(init, Falls(e).value.0) == Some(k) then [Falls(e).value.1] else []
  }

  /** All that fell to request `k`, in order. */
  ghost function History(events: seq<Event>, k: nat): seq<Mark>
    requires Legal(events)
  {
    if events == [] then []
    else
      var init := events[..|events| - 1];
      History(init, k) + Last(init, events[|events| - 1], k)
  }

  /** The send has completed, and its callback has ended by starting to receive. */
  const SENT: seq<Mark> := [Completed(true), Finished]

  /** The mark that ended the request: a completion that is not that of a successful send. */
  function End(h: seq<Mark>): Option<Mark> {
    if h == [] then None
    else if h[0] != Completed(true) then Some(h[0])
    else if |h| < 3 then None
    else Some(h[2])
  }

  /** The marks of a request that is served: its action's state and the phase of the AIO say how far it is. */
  predicate Under(state: ActionState, phase: Phase, h: seq<Mark>) {
    match phase
    case Quiet => false
    case Flying => (state == Sending && h == []) || (state == Receiving && h == SENT)
    case Told(false) => state == Sending && h == [Completed(true)]
    case Told(true) =>
      || (state == Sending && (h == [Completed(false)] || h == [Alone]))
      || (state == Receiving && (h == SENT + [Completed(true)] || h == SENT + [Completed(false)] || h == SENT + [Alone]))
  }

  predicate Concluded(h: seq<Mark>) {
    || h == [Completed(false), Finished] || h == [Alone, Finished]
    || h == SENT + [Completed(true), Finished] || h == SENT + [Completed(false), Finished] || h == SENT + [Alone, Finished]
  }

  predicate Stage(s: Pool, k: nat, h: seq<Mark>) {
    if k !in s.requests then h == []
    else
      match s.requests[k]
      case Open(a) => a in s.actions && Under(s.actions[a].state, s.actions[a].phase, h)
      case Over => Concluded(h)
  }

  /** What the handler was told about request `k`. */
  ghost predicate Reported(s: Pool, k: nat, h: seq<Mark>) {
    && (forall ok: bool :: Final(k, ok) in s.finals <==> End(h) == Some(Completed(ok)))
    && (k in s.dropped <==> End(h) == Some(Alone))
  }

  /** The action knows the request it serves. */
  ghost predicate Assigned(s: Pool, a: nat, served: Option<nat>) {
    && (served.Some? ==> a in s.actions && s.actions[a].serial == served.value < s.started)
    && (a in s.active && a in s.actions ==> served == Some(s.actions[a].serial))
    && (a !in s.active && served.Some? ==> served.value in s.requests && s.requests[served.value] == Over)
  }

  /** A run ends with a step from the run before it. */
  lemma {:induction false} Extended(events: seq<Event>)
    requires Legal(events) && events != []
    ensures var init, e := events[..|events| - 1], events[|events| - 1];
            Legal(init) && Enabled(StateAfter(init), e) && StateAfter(events) == Step(StateAfter(init), e)
  {
    hide Enabled, Step;
  }

  lemma AskAssigned(s: Pool, declined: bool, a: nat, served: Option<nat>)
    requires Chosen(s) !in s.active && (s.total in s.actions ==> s.idle != []) && Assigned(s, a, served)
    ensures Assigned(Asked(s, declined), a, if !declined && Chosen(s) == a then Some(s.started) else served)
  {
  }

  lemma StepAssigned(s: Pool, e: Event, a: nat, served: Option<nat>)
    requires Inv(s) && Enabled(s, e) && Assigned(s, a, served)
    ensures Assigned(Step(s, e), a, if e == Ask(false) && Chosen(s) == a then Some(s.started) else served)
  {
    hide Bounded, ToldOnce, Asked, Chosen, Inv;
    match e
    case Ask(declined) =>
      AskTakes(s);
      AskAssigned(s, declined, a, served);
    case Callback(b, _) => InUse(s, b, 0);
    case CallbackAlone(b) => InUse(s, b, 0);
    case Finish(b) => InUse(s, b, 0);
  }

  lemma AskTakes(s: Pool)
    requires Inv(s)
    ensures Chosen(s) !in s.active && s.total !in s.actions && (s.idle != [] ==> s.idle[0] in s.actions)
  {
    hide States, Served, Bounded, ToldOnce;
    ChosenIdle(s);
  }

  lemma {:induction false} AssignedInRun(events: seq<Event>, a: nat)
    requires Legal(events)
    ensures Asks(events) == StateAfter(events).started && Assigned(StateAfter(events), a, Serving(events, a))
    decreases |events|
  {
    hide Legal, StateAfter, Enabled, Step, Inv, Assigned;
    if events == [] {
      AtStart(a, 0);
    } else {
      Extended(events);
      var init, e := events[..|events| - 1], events[|events| - 1];
      AssignedInRun(init, a);
      RunKeepsInv(init);
      StepAssigned(StateAfter(init), e, a, Serving(init, a));
      StepStarted(StateAfter(init), e);
    }
  }

  lemma AtStart(a: nat, k: nat)
    ensures Legal([]) && StateAfter([]) == Start() && Start().started == 0
    ensures Assigned(Start(), a, None) && Stage(Start(), k, []) && Reported(Start(), k, [])
  {
  }

  lemma StepStarted(s: Pool, e: Event)
    requires Enabled(s, e)
    ensures Step(s, e).started == s.started + One(e == Ask(false))
  {
  }

  /** The request served by an action that is in use. */
  lemma InUse(s: Pool, a: nat, k: nat)
    requires Inv(s) && a in s.actions && s.actions[a].phase != Quiet
    ensures a in s.active && s.actions[a].serial in s.requests && s.requests[s.actions[a].serial] == Open(a)
    ensures k in s.requests && k != s.actions[a].serial && s.requests[k].Open? ==> s.requests[k].action != a
  {
    hide Bounded, ToldOnce;
  }

  /** The marks that a step adds to those of request `k`. */
  function Adds(s: Pool, e: Event, k: nat): seq<Mark> {
    if Falls(e).Some? && Falls(e).value.0 in s.actions && s.actions[Falls(e).value.0].serial == k then [Falls(e).value.1] else []
  }

  lemma StepOther(s: Pool, e: Event, k: nat, h: seq<Mark>)
    requires Inv(s) && Enabled(s, e) && Falls(e).Some? && s.actions[Falls(e).value.0].serial != k
    requires Stage(s, k, h) && Reported(s, k, h)
    ensures Stage(Step(s, e), k, h) && Reported(Step(s, e), k, h)
  {
    hide Inv, Under, Concluded, End;
    InUse(s, Falls(e).value.0, k);
  }

  lemma StepOwn(s: Pool, e: Event, k: nat, h: seq<Mark>)
    requires Inv(s) && Enabled(s, e) && Falls(e).Some? && s.actions[Falls(e).value.0].serial == k
    requires Stage(s, k, h) && Reported(s, k, h)
    ensures Stage(Step(s, e), k, h + Adds(s, e, k)) && Reported(Step(s, e), k, h + Adds(s, e, k))
  {
    hide Inv;
    InUse(s, Falls(e).value.0, k);
  }

  lemma AskStage(s: Pool, declined: bool, k: nat, h: seq<Mark>)
    requires Chosen(s) !in s.active && s.total !in s.actions && s.started !in s.requests && Stage(s, k, h)
    requires k in s.requests && s.requests[k].Open? ==> s.requests[k].action in s.active
    ensures Stage(Asked(s, declined), k, h)
  {
    hide Concluded;
  }

  lemma StepAsk(s: Pool, declined: bool, k: nat, h: seq<Mark>)
    requires Inv(s) && Stage(s, k, h) && Reported(s, k, h)
    ensures Stage(Asked(s, declined), k, h) && Reported(Asked(s, declined), k, h)
  {
    hide Partition, States, Bounded, ToldOnce, Under, Concluded, End, Chosen, Stage;
    AskTakes(s);
    AskStage(s, declined, k, h);
  }

  lemma StepFate(s: Pool, e: Event, k: nat, h: seq<Mark>)
    requires Inv(s) && Enabled(s, e) && Stage(s, k, h) && Reported(s, k, h)
    ensures Stage(Step(s, e), k, h + Adds(s, e, k)) && Reported(Step(s, e), k, h + Adds(s, e, k))
  {
    hide Inv, Stage, Reported;
    assert h + [] == h;
    if e.Ask? {
      StepAsk(s, e.declined, k, h);
    } else if s.actions[Falls(e).value.0].serial == k {
      StepOwn(s, e, k, h);
    } else {
      StepOther(s, e, k, h);
    }
  }

  /** An event that falls to a request falls to the one its action serves. */
  lemma AddsLast(init: seq<Event>, e: Event, k: nat)
    requires Legal(init) && Enabled(StateAfter(init), e)
    ensures Last(init, e, k) == Adds(StateAfter(init), e, k)
  {
    hide Legal, StateAfter, Inv, Serving;
    if Falls(e).Some? {
      var a := Falls(e).value.0;
      AssignedInRun(init, a);
      RunKeepsInv(init);
      InUse(StateAfter(init), a, k);
    }
  }

  lemma {:induction false} FateInRun(events: seq<Event>, k: nat)
    requires Legal(events)
    ensures Stage(StateAfter(events), k, History(events, k)) && Reported(StateAfter(events), k, History(events, k))
    decreases |events|
  {
    hide Legal, StateAfter, Enabled, Step, Inv, Stage, Reported, Last, Adds;
    if events == [] {
      AtStart(0, k);
    } else {
      Extended(events);
      var init, e := events[..|events| - 1], events[|events| - 1];
      FateInRun(init, k);
      RunKeepsInv(init);
      AddsLast(init, e, k);
      StepFate(StateAfter(init), e, k, History(init, k));
    }
  }

  // ---------------------------------------------------------------------------
  // Main results
  // ---------------------------------------------------------------------------

  /**
   A request succeeds exactly by two successful completions with the end of the
   first callback between them: the message is sent, then the reply received. It
   fails exactly if a completion failed, it is lost exactly if the handler was
   gone at one, and it is over exactly when the callback of that completion has ended.
   */
  lemma {:induction false} EndsBecause(events: seq<Event>, k: nat)
    requires Legal(events)
    ensures var s, h := StateAfter(events), History(events, k);
            && (Final(k, true) in s.finals <==> SENT + [Completed(true)] <= h)
            && (Final(k, false) in s.finals <==> Completed(false) in h)
            && (k in s.dropped <==> Alone in h)
            && (k < Asks(events) <==> k in s.requests)
            && (k >= Asks(events) ==> h == [])
            && (k in s.requests && s.requests[k].Over? <==>
                  exists m :: m != Finished && (h == SENT + [m] + [Finished] || (m != Completed(true) && h == [m] + [Finished])))
  {
    hide Legal, StateAfter, History, Asks, Partition, States, Bounded, ToldOnce;
    FateInRun(events, k);
    AssignedInRun(events, 0);
    RunKeepsInv(events);
    StageSays(StateAfter(events), k, History(events, k));
  }

  lemma StageSays(s: Pool, k: nat, h: seq<Mark>)
    requires Stage(s, k, h)
    ensures End(h) == Some(Completed(true)) <==> SENT + [Completed(true)] <= h
    ensures End(h) == Some(Completed(false)) <==> Completed(false) in h
    ensures End(h) == Some(Alone) <==> Alone in h
    ensures k in s.requests && s.requests[k].Over? <==>
              exists m :: m != Finished && (h == SENT + [m] + [Finished] || (m != Completed(true) && h == [m] + [Finished]))
  {
  }

  /**
   An action receives exactly between the end of the callback of its request's
   successful send and the end of the next one, sends exactly before the first
   of them, and is idle else.
   */
  lemma {:induction false} ReceivesAfterSend(events: seq<Event>, a: nat)
    requires Legal(events)
    ensures var s := StateAfter(events);
            && (a in s.actions && s.actions[a].state == Receiving <==>
                  && Serving(events, a).Some?
                  && var h := History(events, Serving(events, a).value); SENT <= h && Finished !in h[2..])
            && (a in s.actions && s.actions[a].state == Sending <==>
                  Serving(events, a).Some? && Finished !in History(events, Serving(events, a).value))
  {
    hide Legal, StateAfter, History, Serving, Partition, Bounded, ToldOnce;
    AssignedInRun(events, a);
    RunKeepsInv(events);
    if Serving(events, a).Some? {
      var k := Serving(events, a).value;
      FateInRun(events, k);
      ActionSays(StateAfter(events), a, k, History(events, k));
    }
  }

  lemma ActionSays(s: Pool, a: nat, k: nat, h: seq<Mark>)
    requires Inv(s) && Assigned(s, a, Some(k)) && Stage(s, k, h)
    ensures s.actions[a].state == Receiving <==> SENT <= h && Finished !in h[2..]
    ensures s.actions[a].state == Sending <==> Finished !in h
  {
    hide Bounded, ToldOnce, Partition;
    if a in s.active {
      assert s.requests[k] == Open(a);
      UnderSays(s.actions[a].state, s.actions[a].phase, h);
    } else {
      ConcludedSays(h);
    }
  }

  lemma UnderSays(state: ActionState, phase: Phase, h: seq<Mark>)
    requires Under(state, phase, h)
    ensures state == Receiving <==> SENT <= h && Finished !in h[2..]
    ensures state == Sending <==> Finished !in h
  {
  }

  lemma ConcludedSays(h: seq<Mark>)
    requires Concluded(h)
    ensures Finished in h && (SENT <= h ==> Finished in h[2..])
  {
    assert h[|h| - 1] == Finished;
    if SENT <= h {
      assert h[0] == SENT[0];
      assert h[2..][1] == Finished;
    }
  }

  /** A completed send is not yet the end of its request; the completed reply is. */
  lemma SentIsNotReceived()
    ensures var sent := [Ask(false), Callback(0, true)];
            && Legal(sent) && StateAfter(sent).finals == []
            && Legal(sent + [Finish(0)]) && StateAfter(sent + [Finish(0)]).actions[0].state == Receiving
            && Legal(sent + [Finish(0), Callback(0, true)])
            && StateAfter(sent + [Finish(0), Callback(0, true)]).finals == [Final(0, true)]
  {
    var e0, e1, e2, e3 := [Ask(false)], [Ask(false), Callback(0, true)],
      [Ask(false), Callback(0, true)] + [Finish(0)], [Ask(false), Callback(0, true)] + [Finish(0), Callback(0, true)];
    assert e0[..0] == [] && e1[..1] == e0 && e2[..2] == e1 && e3[..3] == e2;
    assert Legal([]) && Legal(e0) && Legal(e1) && Legal(e2);
  }
}

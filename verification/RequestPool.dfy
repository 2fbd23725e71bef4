/**
 The request side of a query: a pool of actions that are recycled, one AIO
 operation at a time each, and what the handler is told.

 Actions are numbered as they are allocated; the number stands for the action's
 context too, which it keeps for life.
 */
module RequestPool {
  datatype ActionState = Idle | Sending | Receiving

  /** Where an action's AIO is: unused, under way, or completed with the handler told and the mutex not yet taken. */
  datatype Phase = Quiet | Flying | Told(cleanup: bool)

  datatype Action = Action(state: ActionState, phase: Phase, serial: nat)

  /** A request: served by an action, or over. */
  datatype Request = Open(action: nat) | Over

  /** A final event: the number of the request and whether it succeeded. */
  datatype Final = Final(serial: nat, ok: bool)

  /**
   The pool. `requests` holds the requests that were started, `finals` what the
   handler was told about their end, `dropped` those that ended with the
   handler gone; `peak` is the largest number of active actions so far.
   */
  datatype Pool = Pool(
    total: nat,
    actions: map<nat, Action>,
    active: set<nat>,
    idle: seq<nat>,
    started: nat,
    requests: map<nat, Request>,
    finals: seq<Final>,
    dropped: set<nat>,
    peak: nat)

  datatype Event =
    | Ask(declined: bool)           // `request`; the handler may decline the message
    | Callback(a: nat, ok: bool)    // the AIO has completed; the handler is told
    | CallbackAlone(a: nat)         // the AIO has completed; the handler is gone
    | Finish(a: nat)                // the rest of the callback, under the mutex

  function Start(): Pool {
    Pool(0, map[], {}, [], 0, map[], [], {}, 0)
  }

  /** The action a request takes: the first idle one, or a new one. */
  function Chosen(s: Pool): nat {
    if s.idle == [] then s.total else s.idle[0]
  }

  predicate Enabled(s: Pool, e: Event) {
    match e
    case Ask(_) => true
    case Callback(a, _) => a in s.actions && s.actions[a].phase == Flying
    case CallbackAlone(a) => a in s.actions && s.actions[a].phase == Flying
    case Finish(a) => a in s.actions && s.actions[a].phase.Told?
  }

  function Max(a: nat, b: nat): nat {
    if a < b then b else a
  }

  function Asked(s: Pool, declined: bool): Pool {
    var a := Chosen(s);
    var rest := if s.idle == [] then [] else s.idle[1..];
    var t := if s.idle == [] then s.(total := a + 1, actions := s.actions[a := Action(Idle, Quiet, 0)]) else s;
    if declined then t.(idle := [a] + rest)
    else
      t.(actions := t.actions[a := Action(Sending, Flying, s.started)],
         active := s.active + {a},
         idle := rest,
         started := s.started + 1,
         requests := s.requests[s.started := Open(a)],
         peak := Max(s.peak, |s.active + {a}|))
  }

  function Step(s: Pool, e: Event): Pool
    requires Enabled(s, e)
  {
    match e
    case Ask(declined) => Asked(s, declined)
    case Callback(a, ok) =>
      var x := s.actions[a];
      if ok && x.state == Sending then s.(actions := s.actions[a := x.(phase := Told(false))])
      else s.(actions := s.actions[a := x.(phase := Told(true))], finals := s.finals + [Final(x.serial, ok)])
    case CallbackAlone(a) =>
      var x := s.actions[a];
      s.(actions := s.actions[a := x.(phase := Told(true))], dropped := s.dropped + {x.serial})
    case Finish(a) =>
      var x := s.actions[a];
      if x.phase.cleanup || x.state != Sending then
        s.(actions := s.actions[a := x.(state := Idle, phase := Quiet)],
           active := s.active - {a},
           idle := s.idle + [a],
           requests := s.requests[x.serial := Over])
      else s.(actions := s.actions[a := x.(state := Receiving, phase := Flying)])
  }

  /** The events can happen one after the other, from the start. */
  ghost predicate Legal(events: seq<Event>)
    decreases |events|, 0
  {
    events == [] ||
    (Legal(events[..|events| - 1]) && Enabled(StateAfter(events[..|events| - 1]), events[|events| - 1]))
  }

  /** The state they lead to. */
  ghost function StateAfter(events: seq<Event>): Pool
    requires Legal(events)
    decreases |events|, 1
  {
    if events == [] then Start() else Step(StateAfter(events[..|events| - 1]), events[|events| - 1])
  }

  // ---------------------------------------------------------------------------
  // What every step keeps
  // ---------------------------------------------------------------------------

  /** Every allocated action is either active or idle, and idle once. */
  ghost predicate Partition(s: Pool) {
    && (forall a: nat :: a in s.actions <==> a < s.total)
    && (forall a :: a in s.actions ==> (a in s.active <==> a !in s.idle))
    && (forall a :: a in s.active ==> a in s.actions)
    && (forall i :: 0 <= i < |s.idle| ==> s.idle[i] in s.actions)
    && (forall i, j :: 0 <= i < j < |s.idle| ==> s.idle[i] != s.idle[j])
    && |s.active| + |s.idle| == s.total
  }

  /** An action is active while its state is Sending or Receiving, and just then its AIO is in use. */
  ghost predicate States(s: Pool) {
    forall a :: a in s.actions ==>
      && (a in s.active <==> s.actions[a].state != Idle)
      && (a in s.active <==> s.actions[a].phase != Quiet)
      && (s.actions[a].phase == Told(false) ==> s.actions[a].state == Sending)
  }

  /** An active action serves an open request, and the open request knows it. */
  ghost predicate Served(s: Pool) {
    && (forall a :: a in s.actions && a in s.active ==>
          s.actions[a].serial in s.requests && s.requests[s.actions[a].serial] == Open(a))
    && (forall k :: k in s.requests && s.requests[k].Open? ==>
          s.requests[k].action in s.active && s.requests[k].action in s.actions &&
          s.actions[s.requests[k].action].serial == k)
    && (forall k: nat :: k in s.requests <==> k < s.started)
  }

  ghost predicate Bounded(s: Pool) {
    |s.active| <= s.peak && s.total <= s.peak + 1
  }

  /** How often the handler was told about the end of a request. */
  function Endings(finals: seq<Final>, k: nat): nat {
    if finals == [] then 0
    else Endings(finals[..|finals| - 1], k) + if finals[|finals| - 1].serial == k then 1 else 0
  }

  /** The handler has been told about the end of this request, or should have been had it lived. */
  predicate Ended(s: Pool, k: nat) {
    k in s.requests &&
    match s.requests[k]
    case Over => true
    case Open(a) => a in s.actions && s.actions[a].phase == Told(true)
  }

  /** The handler has heard of the end of request `k` if it ended and the handler lived, and then once. */
  ghost predicate ToldAbout(s: Pool, k: nat) {
    && (k in s.dropped ==> Ended(s, k))
    && Endings(s.finals, k) == if Ended(s, k) && k !in s.dropped then 1 else 0
  }

  /** The handler hears once of every request that ended, and of no other. */
  ghost predicate ToldOnce(s: Pool) {
    forall k: nat :: ToldAbout(s, k)
  }

  ghost predicate Inv(s: Pool) {
    Partition(s) && States(s) && Served(s) && Bounded(s) && ToldOnce(s)
  }

  lemma AskNewPartition(s: Pool, declined: bool)
    requires Partition(s) && s.idle == []
    ensures Partition(Asked(s, declined))
  {
    hide Partition;
    var t := Asked(s, declined);
    ChosenIdle(s);
    KeysAdded(s, declined);
    AddedPartition(s, t, declined);
  }

  lemma KeysAdded(s: Pool, declined: bool)
    requires s.idle == []
    ensures Asked(s, declined).actions.Keys == s.actions.Keys + {s.total}
    ensures declined ==> Asked(s, declined).idle == [s.total]
  {
  }

  /** A new action is there, idle or active. */
  lemma AddedPartition(s: Pool, t: Pool, declined: bool)
    requires Partition(s) && s.idle == [] && s.total !in s.active
    requires t.total == s.total + 1 && t.actions.Keys == s.actions.Keys + {s.total}
    requires if declined then t.active == s.active && t.idle == [s.total] else t.active == s.active + {s.total} && t.idle == []
    ensures Partition(t)
  {
    forall a: nat
      ensures a in t.actions <==> a < t.total
    {
      assert a in t.actions <==> a in s.actions || a == s.total;
    }
  }

  lemma AskAgainPartition(s: Pool, declined: bool)
    requires Partition(s) && s.idle != []
    ensures Partition(Asked(s, declined))
  {
    var a, rest := s.idle[0], s.idle[1..];
    assert s.idle == [a] + rest;
    if !declined {
      FirstIdle(s.idle);
      TakenPartition(s, Asked(s, declined), a, rest);
    }
  }

  lemma FirstIdle(idle: seq<nat>)
    requires idle != [] && forall i, j :: 0 <= i < j < |idle| ==> idle[i] != idle[j]
    ensures idle[0] in idle && idle[0] !in idle[1..]
    ensures forall b :: b in idle <==> b == idle[0] || b in idle[1..]
  {
    assert idle == [idle[0]] + idle[1..];
  }

  /** The first idle action becomes active. */
  lemma TakenPartition(s: Pool, t: Pool, a: nat, rest: seq<nat>)
    requires Partition(s) && s.idle == [a] + rest && a !in rest
    requires t.total == s.total && t.actions.Keys == s.actions.Keys && t.active == s.active + {a} && t.idle == rest
    ensures Partition(t)
  {
    assert s.idle[0] == a && forall i :: 0 <= i < |rest| ==> rest[i] == s.idle[i + 1];
    assert a in s.idle && a !in s.active;
    forall b | b in t.actions
      ensures b in t.active <==> b !in t.idle
    {
      assert b in s.actions && (b in s.idle <==> b == a || b in rest);
    }
  }

  lemma AskPartition(s: Pool, declined: bool)
    requires Partition(s)
    ensures Partition(Asked(s, declined))
  {
    hide Partition, Asked;
    if s.idle == [] {
      AskNewPartition(s, declined);
    } else {
      AskAgainPartition(s, declined);
    }
  }

  lemma FinishPartition(s: Pool, a: nat)
    requires Partition(s) && States(s) && Enabled(s, Finish(a))
    ensures Partition(Step(s, Finish(a)))
  {
  }

  lemma SamePartition(s: Pool, t: Pool)
    requires Partition(s) && t.total == s.total && t.actions.Keys == s.actions.Keys && t.active == s.active && t.idle == s.idle
    ensures Partition(t)
  {
  }

  lemma StepPartition(s: Pool, e: Event)
    requires Partition(s) && States(s) && Enabled(s, e)
    ensures Partition(Step(s, e)) && States(Step(s, e))
  {
    match e
    case Ask(declined) =>
      AskPartition(s, declined);
      AskStates(s, declined);
    case Callback(a, ok) => SamePartition(s, Step(s, e));
    case CallbackAlone(a) => SamePartition(s, Step(s, e));
    case Finish(a) =>
      FinishPartition(s, a);
  }

  lemma AskStates(s: Pool, declined: bool)
    requires Partition(s) && States(s)
    ensures States(Asked(s, declined))
  {
    ChosenIdle(s);
    hide Partition;
  }

  /** A request that was not declined is served by the action it took. */
  lemma AskServed(s: Pool, declined: bool)
    requires Chosen(s) !in s.active && Served(s)
    ensures Served(Asked(s, declined))
  {
    var t, a := Asked(s, declined), Chosen(s);
    forall k | k in t.requests && t.requests[k].Open?
      ensures t.requests[k].action in t.active && t.requests[k].action in t.actions
      ensures t.actions[t.requests[k].action].serial == k
    {
      if k in s.requests && k != s.started {
        assert s.requests[k].action in s.active && s.requests[k].action in s.actions;
      }
    }
    forall b | b in t.actions && b in t.active
      ensures t.actions[b].serial in t.requests && t.requests[t.actions[b].serial] == Open(b)
    {
      if b != a {
        assert b in s.actions && b in s.active && s.actions[b].serial < s.started;
      }
    }
  }

  lemma ChosenIdle(s: Pool)
    requires Partition(s)
    ensures Chosen(s) !in s.active
  {
    if s.idle != [] {
      assert s.idle[0] in s.idle;
    }
  }

  lemma SameServed(s: Pool, t: Pool)
    requires Served(s) && t.requests == s.requests && t.active == s.active && t.started == s.started
    requires t.actions.Keys == s.actions.Keys && forall a :: a in s.actions ==> t.actions[a].serial == s.actions[a].serial
    ensures Served(t)
  {
  }

  lemma StepServed(s: Pool, e: Event)
    requires Partition(s) && States(s) && Served(s) && Enabled(s, e)
    ensures Served(Step(s, e))
  {
    ChosenIdle(s);
    hide Partition, Asked, Chosen;
    match e
    case Ask(declined) => AskServed(s, declined);
    case Callback(a, ok) => SameServed(s, Step(s, e));
    case CallbackAlone(a) => SameServed(s, Step(s, e));
    case Finish(a) => FinishServed(s, a);
  }

  lemma FinishServed(s: Pool, a: nat)
    requires States(s) && Served(s) && Enabled(s, Finish(a))
    ensures Served(Step(s, Finish(a)))
  {
    assert s.requests[s.actions[a].serial] == Open(a);
  }

  lemma StepBounded(s: Pool, e: Event)
    requires Partition(s) && Bounded(s) && Enabled(s, e)
    ensures Bounded(Step(s, e))
  {
    match e
    case Ask(declined) => AskBounded(s, declined);
    case Callback(_, _) =>
    case CallbackAlone(_) =>
    case Finish(a) => FewerActive(s.active, a);
  }

  lemma FewerActive(active: set<nat>, a: nat)
    ensures |active - {a}| <= |active|
  {
  }

  /** A request adds an action to the pool only when all are active. */
  lemma AskBounded(s: Pool, declined: bool)
    requires Partition(s) && Bounded(s)
    ensures Bounded(Asked(s, declined))
  {
    PoolSize(s);
    hide Partition;
  }

  lemma PoolSize(s: Pool)
    requires Partition(s)
    ensures |s.active| + |s.idle| == s.total && Chosen(s) !in s.active
  {
    if s.idle != [] {
      assert s.idle[0] in s.idle;
    }
  }

  lemma EndingsAdd(finals: seq<Final>, f: Final, k: nat)
    ensures Endings(finals + [f], k) == Endings(finals, k) + if f.serial == k then 1 else 0
  {
    assert (finals + [f])[..|finals|] == finals;
  }

  lemma CallbackTold(s: Pool, a: nat, ok: bool, k: nat)
    requires States(s) && Served(s) && Enabled(s, Callback(a, ok)) && ToldAbout(s, k) && ToldAbout(s, s.actions[a].serial)
    ensures ToldAbout(Step(s, Callback(a, ok)), k)
  {
    assert s.requests[s.actions[a].serial] == Open(a);
    EndingsAdd(s.finals, Final(s.actions[a].serial, ok), k);
  }

  lemma AloneTold(s: Pool, a: nat, k: nat)
    requires States(s) && Served(s) && ToldAbout(s, k) && Enabled(s, CallbackAlone(a))
    ensures ToldAbout(Step(s, CallbackAlone(a)), k)
  {
    assert s.requests[s.actions[a].serial] == Open(a);
  }

  lemma FinishTold(s: Pool, a: nat, k: nat)
    requires States(s) && Served(s) && ToldAbout(s, k) && Enabled(s, Finish(a))
    ensures ToldAbout(Step(s, Finish(a)), k)
  {
    assert s.requests[s.actions[a].serial] == Open(a);
  }

  lemma AskTold(s: Pool, declined: bool, k: nat)
    requires Partition(s) && Served(s) && ToldAbout(s, k)
    ensures ToldAbout(Asked(s, declined), k)
  {
    hide Endings;
    if s.idle != [] {
      assert s.idle[0] in s.idle;
    }
    assert Chosen(s) !in s.active;
    assert k in s.requests ==> k != s.started;
  }

  lemma StepTold(s: Pool, e: Event, k: nat)
    requires Inv(s) && Enabled(s, e)
    ensures ToldAbout(Step(s, e), k)
  {
    hide Partition, States, Served, Bounded, Asked, Ended, Endings;
    assert ToldAbout(s, k);
    match e
    case Ask(declined) => AskTold(s, declined, k);
    case Callback(a, ok) =>
      assert ToldAbout(s, s.actions[a].serial);
      CallbackTold(s, a, ok, k);
    case CallbackAlone(a) => AloneTold(s, a, k);
    case Finish(a) => FinishTold(s, a, k);
  }

  lemma StepKeepsInv(s: Pool, e: Event)
    requires Inv(s) && Enabled(s, e)
    ensures Inv(Step(s, e))
  {
    hide Partition, States, Served, Bounded, Step, Enabled, Ended;
    StepPartition(s, e);
    StepServed(s, e);
    StepBounded(s, e);
    forall k: nat
      ensures ToldAbout(Step(s, e), k)
    {
      StepTold(s, e, k);
    }
  }

  lemma {:induction false} RunKeepsInv(events: seq<Event>)
    requires Legal(events)
    ensures Inv(StateAfter(events))
    decreases |events|
  {
    hide Step, Enabled, Inv;
    if events == [] {
      StartInv();
    } else {
      var init := events[..|events| - 1];
      RunKeepsInv(init);
      StepKeepsInv(StateAfter(init), events[|events| - 1]);
    }
  }

  lemma StartInv()
    ensures Inv(Start())
  {
  }

  // ---------------------------------------------------------------------------
  // Main results
  // ---------------------------------------------------------------------------

  /** Active and idle actions partition the pool, and an action is active just while it sends or receives. */
  lemma {:induction false} PoolPartition(events: seq<Event>, a: nat)
    requires Legal(events)
    ensures var s := StateAfter(events);
            && (a < s.total <==> a in s.active || a in s.idle)
            && !(a in s.active && a in s.idle)
            && (a in s.active ==> a in s.actions && s.actions[a].state != Idle)
            && (a in s.idle ==> a in s.actions && s.actions[a].state == Idle)
            && |s.active| + |s.idle| == s.total
  {
    hide Legal, StateAfter, Served, Bounded, ToldOnce;
    RunKeepsInv(events);
    var s := StateAfter(events);
    if a in s.idle {
      assert a in s.actions;
    }
  }

  /** The pool never holds more than the most requests ever outstanding and one being prepared. */
  lemma {:induction false} PoolBound(events: seq<Event>)
    requires Legal(events)
    ensures StateAfter(events).total <= StateAfter(events).peak + 1
    ensures PeakSeen(events)
  {
    hide Legal, StateAfter, PeakSeen, Partition, States, Served, ToldOnce;
    RunKeepsInv(events);
    PeakReached(events);
  }

  /** At some time this many actions were active. */
  ghost predicate PeakSeen(events: seq<Event>)
    requires Legal(events)
  {
    exists n :: 0 <= n <= |events| && Legal(events[..n]) && |StateAfter(events[..n]).active| == StateAfter(events).peak
  }

  lemma StepPeak(s: Pool, e: Event)
    requires Enabled(s, e)
    ensures Step(s, e).peak == s.peak || |Step(s, e).active| == Step(s, e).peak
  {
  }

  lemma {:induction false} PeakReached(events: seq<Event>)
    requires Legal(events)
    ensures PeakSeen(events)
    decreases |events|
  {
    hide Step, Enabled;
    if events == [] {
      assert events[..0] == [];
      assert Legal(events[..0]);
    } else {
      var init := events[..|events| - 1];
      PeakReached(init);
      StepPeak(StateAfter(init), events[|events| - 1]);
      if StateAfter(events).peak == StateAfter(init).peak {
        var n :| 0 <= n <= |init| && Legal(init[..n]) && |StateAfter(init[..n]).active| == StateAfter(init).peak;
        assert init[..n] == events[..n];
      } else {
        assert events[..|events|] == events;
        assert Legal(events[..|events|]);
      }
    }
  }

  /** With a live handler every request that is over was reported exactly once, as received or as failed. */
  lemma {:induction false} ReportedOnce(events: seq<Event>, k: nat)
    requires Legal(events)
    ensures var s := StateAfter(events);
            k < s.started && k !in s.dropped ==>
              && k in s.requests && Endings(s.finals, k) <= 1
              && (s.requests[k].Over? ==> Endings(s.finals, k) == 1)
  {
    hide Legal, StateAfter, Partition, States, Bounded;
    RunKeepsInv(events);
    assert ToldAbout(StateAfter(events), k);
  }

  // ---------------------------------------------------------------------------
  // Statistics
  // ---------------------------------------------------------------------------

  ghost function InState(s: Pool, st: ActionState): set<nat> {
    set a | a in s.active && a in s.actions && s.actions[a].state == st
  }

  lemma ActiveStates(s: Pool)
    requires Partition(s) && States(s)
    ensures forall a :: a in s.active ==> a in s.actions && (s.actions[a].state == Sending || s.actions[a].state == Receiving)
  {
  }

  /** `msgStats`: the active actions, counted by state; together they are all of them. */
  method MsgStats(s: Pool) returns (awaitingSend: nat, awaitingRecv: nat)
    requires Inv(s)
    ensures awaitingSend == |InState(s, Sending)| && awaitingRecv == |InState(s, Receiving)|
    ensures awaitingSend + awaitingRecv == |s.active|
  {
    hide Served, Bounded, ToldOnce, Partition, States;
    ActiveStates(s);
    awaitingSend, awaitingRecv := 0, 0;
    var left := s.active;
    ghost var sends, recvs: set<nat> := {}, {};
    while left != {}
      invariant left <= s.active
      invariant sends == InState(s, Sending) - left && recvs == InState(s, Receiving) - left
      invariant awaitingSend == |sends| && awaitingRecv == |recvs|
      invariant awaitingSend + awaitingRecv + |left| == |s.active|
      decreases |left|
    {
      var a :| a in left;
      if s.actions[a].state == Sending {
        awaitingSend := awaitingSend + 1;
        sends := sends + {a};
      } else if s.actions[a].state == Receiving {
        awaitingRecv := awaitingRecv + 1;
        recvs := recvs + {a};
      }
      left := left - {a};
    }
  }
}

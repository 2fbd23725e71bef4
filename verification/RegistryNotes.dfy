/**
 What the registry notes and holds, read off the events: which URI is noted for a
 pipe, which services have a route, and what the loss of a pipe does to them.
 */
module RegistryNotes {
  import opened Options
  import opened Registry

  /** The registrations, in order. */
  function Specs(events: seq<Event>): seq<NewRoute> {
    if events == [] then []
    else
      var last := events[|events| - 1];
      Specs(events[..|events| - 1]) + if last.Register? then [last.spec] else []
  }

  /** How many registrations the management thread has taken. */
  function Opens(events: seq<Event>): nat {
    if events == [] then 0 else Opens(events[..|events| - 1]) + One(events[|events| - 1].OpenOne?)
  }

  // ---------------------------------------------------------------------------
  // Registrations are taken in order
  // ---------------------------------------------------------------------------

  /** The queue is what has not been taken yet; each one taken was answered, but for one that ended the thread. */
  ghost predicate Queued(s: Reg, specs: seq<NewRoute>, opens: nat) {
    && opens <= |specs| && s.toOpen == specs[opens..]
    && |s.answers| + One(s.thread.Ended?) == opens
    && forall i :: 0 <= i < |s.answers| ==> s.answers[i].query == specs[i].query && s.answers[i].uri == specs[i].uri
  }

  lemma StepQueued(s: Reg, e: Event, specs: seq<NewRoute>, opens: nat)
    requires Queued(s, specs, opens) && Enabled(s, e)
    ensures Queued(Step(s, e), specs + (if e.Register? then [e.spec] else []), opens + One(e.OpenOne?))
  {
    if e.OpenOne? {
      assert specs + [] == specs && s.toOpen[0] == specs[opens] && s.toOpen[1..] == specs[opens + 1..];
    } else if e.Register? {
      assert (specs + [e.spec])[opens..] == specs[opens..] + [e.spec];
    } else {
      assert specs + [] == specs;
    }
  }

  /** The i-th answer is to the i-th registration, and the queue holds those not taken yet. */
  lemma {:induction false} TakenInOrder(events: seq<Event>)
    requires Legal(events)
    ensures Queued(StateAfter(events), Specs(events), Opens(events))
    decreases |events|
  {
    hide Legal, StateAfter, Step, Enabled;
    RunEnd(events);
    if events != [] {
      hide Queued;
      var init := events[..|events| - 1];
      TakenInOrder(init);
      StepQueued(StateAfter(init), events[|events| - 1], Specs(init), Opens(init));
    }
  }

  lemma {:induction false} OpensBefore(events: seq<Event>, m: nat)
    requires m <= |events|
    ensures Opens(events[..m]) <= Opens(events)
    ensures m < |events| && events[m].OpenOne? ==> Opens(events[..m]) < Opens(events)
    decreases |events|
  {
    if m == |events| {
      assert events[..m] == events;
    } else {
      var init := events[..|events| - 1];
      assert init[..m] == events[..m];
      OpensBefore(init, m);
    }
  }

  // ---------------------------------------------------------------------------
  // What an event of a run does
  // ---------------------------------------------------------------------------

  /** The answer that the thread gave at event `m`, if it took a registration there and answered it. */
  ghost function AnswerAt(events: seq<Event>, m: nat): Option<(NewRoute, StatusCode)>
    requires Legal(events) && m < |events|
  {
    var k, answers := Opens(events[..m]), StateAfter(events).answers;
    if events[m].OpenOne? && k < |answers| && k < |Specs(events)| then Some((Specs(events)[k], answers[k].status)) else None
  }

  /** Event `m` makes the registry forget the pipe: it goes, or its registration is refused. */
  ghost predicate Forgets(events: seq<Event>, m: nat, pipe: nat)
    requires Legal(events) && m < |events|
  {
    || events[m] == Disconnect(pipe)
    || (AnswerAt(events, m).Some? && AnswerAt(events, m).value.0.pipe == pipe && AnswerAt(events, m).value.1 != OK200)
  }

  /** Event `n` is a registration by the pipe that nothing has made the registry forget since. */
  ghost predicate Live(events: seq<Event>, n: nat, pipe: nat)
    requires Legal(events)
  {
    && n < |events| && events[n].Register? && events[n].spec.pipe == pipe
    && forall m: nat :: n < m < |events| ==> !Forgets(events, m, pipe)
  }

  /** The earliest such registration, and it is for this URI. */
  ghost predicate Earliest(events: seq<Event>, n: nat, pipe: nat, uri: Uri)
    requires Legal(events)
  {
    Live(events, n, pipe) && events[n].spec.uri == uri && forall m: nat :: m < n ==> !Live(events, m, pipe)
  }

  ghost predicate NoneLive(events: seq<Event>, pipe: nat)
    requires Legal(events)
  {
    forall n: nat :: !Live(events, n, pipe)
  }

  /** The pipe's earliest registration not since forgotten is for this URI. */
  ghost predicate Holds(events: seq<Event>, pipe: nat, uri: Uri)
    requires Legal(events)
  {
    exists n: nat :: Earliest(events, n, pipe, uri)
  }

  /** Event `m` puts a route for the service into the table. */
  ghost predicate Enrols(events: seq<Event>, m: nat, uri: Uri)
    requires Legal(events) && m < |events|
  {
    AnswerAt(events, m).Some? && AnswerAt(events, m).value.0.uri == uri && AnswerAt(events, m).value.1 == OK200
  }

  /** Event `m` is the loss of a pipe that holds the URI. */
  ghost predicate Drops(events: seq<Event>, m: nat, uri: Uri)
    requires Legal(events) && m < |events|
  {
    LegalPrefix(events, m);
    events[m].Disconnect? && Holds(events[..m], events[m].pipe, uri)
  }

  /** The service was enrolled, and no pipe that held it was lost since. */
  ghost predicate Enrolled(events: seq<Event>, uri: Uri)
    requires Legal(events)
  {
    exists m: nat :: m < |events| && Enrols(events, m, uri) && forall d: nat :: m < d < |events| ==> !Drops(events, d, uri)
  }

  // ---------------------------------------------------------------------------
  // One event more
  // ---------------------------------------------------------------------------

  /** A run that goes on has answered every registration taken. */
  lemma NotEnded(events: seq<Event>)
    requires Legal(events) && events != []
    ensures Legal(events[..|events| - 1]) && !StateAfter(events[..|events| - 1]).thread.Ended?
    ensures |StateAfter(events[..|events| - 1]).answers| == Opens(events[..|events| - 1])
  {
    hide Legal, StateAfter, Specs, Opens;
    RunEnd(events);
    TakenInOrder(events[..|events| - 1]);
  }

  /** An earlier event is what it was. */
  lemma AnswerStays(events: seq<Event>, m: nat)
    requires Legal(events) && m < |events| - 1
    ensures Legal(events[..|events| - 1]) && AnswerAt(events, m) == AnswerAt(events[..|events| - 1], m)
  {
    hide Legal, StateAfter, Step;
    RunEnd(events);
    var init, e := events[..|events| - 1], events[|events| - 1];
    NotEnded(events);
    AnswersGrow(StateAfter(init), e);
    assert init[..m] == events[..m];
    TakenInOrder(init);
    if init[m].OpenOne? {
      OpensBefore(init, m);
    }
  }

  /** What the last event answered. */
  lemma AnswerNow(events: seq<Event>)
    requires Legal(events) && events != []
    ensures var init, e := events[..|events| - 1], events[|events| - 1];
            && Legal(init) && Enabled(StateAfter(init), e)
            && var s, t, a := StateAfter(init), StateAfter(events), AnswerAt(events, |events| - 1);
               && (a.Some? <==> e.OpenOne? && |t.answers| == |s.answers| + 1)
               && (a.Some? ==> s.toOpen != [] && a.value == (s.toOpen[0], t.answers[|s.answers|].status))
  {
    hide Legal, StateAfter;
    RunEnd(events);
    NotEnded(events);
    var init := events[..|events| - 1];
    TakenInOrder(init);
    AnswersGrow(StateAfter(init), events[|events| - 1]);
  }

  /** A step notes a pipe by its first registration, and forgets it when it goes or is refused. */
  lemma StepNotes(s: Reg, e: Event, pipe: nat)
    requires Enabled(s, e)
    ensures var t := Step(s, e);
            var refused := e.OpenOne? && |t.answers| == |s.answers| + 1 && s.toOpen[0].pipe == pipe &&
                           t.answers[|s.answers|].status != OK200;
            if e == Disconnect(pipe) || refused then pipe !in t.pipes
            else if e.Register? && e.spec.pipe == pipe && pipe !in s.pipes then pipe in t.pipes && t.pipes[pipe] == e.spec.uri
            else (pipe in t.pipes <==> pipe in s.pipes) && (pipe in s.pipes ==> t.pipes[pipe] == s.pipes[pipe])
  {
  }

  /** Whether an earlier registration is live after one event more. */
  lemma LiveStep(events: seq<Event>, n: nat, pipe: nat)
    requires Legal(events) && events != []
    ensures Legal(events[..|events| - 1])
    ensures n < |events| - 1 ==>
              (Live(events, n, pipe) <==> Live(events[..|events| - 1], n, pipe) && !Forgets(events, |events| - 1, pipe))
    ensures n == |events| - 1 ==>
              (Live(events, n, pipe) <==> events[n].Register? && events[n].spec.pipe == pipe)
    ensures n >= |events| ==> !Live(events, n, pipe)
  {
    hide Legal, StateAfter, AnswerAt;
    RunEnd(events);
    var init := events[..|events| - 1];
    forall m: nat | m < |init|
      ensures Forgets(events, m, pipe) <==> Forgets(init, m, pipe)
    {
      AnswerStays(events, m);
    }
  }

  /** The note of a pipe is its earliest live registration, and it has none just if none is live. */
  ghost predicate NoteIs(events: seq<Event>, pipe: nat)
    requires Legal(events)
  {
    var s := StateAfter(events);
    if pipe in s.pipes then Holds(events, pipe, s.pipes[pipe]) else NoneLive(events, pipe)
  }

  /** A registration that was the earliest live one and is not forgotten is so still. */
  lemma EarliestStays(events: seq<Event>, n: nat, pipe: nat, uri: Uri)
    requires Legal(events) && events != [] && Legal(events[..|events| - 1])
    requires Earliest(events[..|events| - 1], n, pipe, uri) && !Forgets(events, |events| - 1, pipe)
    ensures Earliest(events, n, pipe, uri)
  {
    hide Legal, StateAfter, AnswerAt, Forgets;
    LiveStep(events, n, pipe);
    forall m: nat | m < n
      ensures !Live(events, m, pipe)
    {
      LiveStep(events, m, pipe);
    }
  }

  /** If none was live, one event more leaves at most itself. */
  lemma NoneBefore(events: seq<Event>, pipe: nat)
    requires Legal(events) && events != [] && Legal(events[..|events| - 1])
    requires Forgets(events, |events| - 1, pipe) || NoneLive(events[..|events| - 1], pipe)
    ensures var e := events[|events| - 1];
            if e.Register? && e.spec.pipe == pipe then Earliest(events, |events| - 1, pipe, e.spec.uri) else NoneLive(events, pipe)
  {
    hide Legal, StateAfter, AnswerAt, Live, Forgets;
    forall n: nat
      ensures n != |events| - 1 ==> !Live(events, n, pipe)
    {
      LiveStep(events, n, pipe);
    }
    LiveStep(events, |events| - 1, pipe);
  }

  lemma {:induction false} NoteInRun(events: seq<Event>, pipe: nat)
    requires Legal(events)
    ensures NoteIs(events, pipe)
    decreases |events|
  {
    hide Legal, StateAfter, AnswerAt, Earliest;
    RunEnd(events);
    if events != [] {
      NoteInRun(events[..|events| - 1], pipe);
      NoteStep(events, pipe);
    }
  }

  lemma NoteStep(events: seq<Event>, pipe: nat)
    requires Legal(events) && events != [] && Legal(events[..|events| - 1]) && NoteIs(events[..|events| - 1], pipe)
    ensures NoteIs(events, pipe)
  {
    hide Legal, StateAfter, AnswerAt, Earliest, Live, Enabled, Step;
    RunEnd(events);
    var init, e := events[..|events| - 1], events[|events| - 1];
    StepNotes(StateAfter(init), e, pipe);
    AnswerNow(events);
    if Forgets(events, |init|, pipe) || pipe !in StateAfter(init).pipes {
      NoneBefore(events, pipe);
    } else {
      var uri := StateAfter(init).pipes[pipe];
      var n: nat :| Earliest(init, n, pipe, uri);
      EarliestStays(events, n, pipe, uri);
    }
  }

  /** What a step does to the route of one service. */
  lemma StepRoute(s: Reg, e: Event, uri: Uri)
    requires Enabled(s, e)
    ensures var t := Step(s, e);
            if e.Disconnect? && e.pipe in s.pipes && s.pipes[e.pipe] == uri then uri !in t.table
            else if e.OpenOne? && |t.answers| == |s.answers| + 1 && s.toOpen[0].uri == uri &&
                    t.answers[|s.answers|].status == OK200 then uri in t.table
            else uri in t.table <==> uri in s.table
  {
  }

  lemma DropsStay(events: seq<Event>, m: nat, uri: Uri)
    requires Legal(events) && m < |events| - 1
    ensures Legal(events[..|events| - 1]) && (Drops(events, m, uri) <==> Drops(events[..|events| - 1], m, uri))
  {
    hide Legal, StateAfter, Holds;
    RunEnd(events);
    LegalPrefix(events, m);
    assert events[..|events| - 1][..m] == events[..m];
  }

  lemma EnrolledStep(events: seq<Event>, uri: Uri)
    requires Legal(events) && events != []
    ensures Legal(events[..|events| - 1])
    ensures Enrolled(events, uri) <==>
            Enrols(events, |events| - 1, uri) || (Enrolled(events[..|events| - 1], uri) && !Drops(events, |events| - 1, uri))
  {
    hide Legal, StateAfter, AnswerAt, Drops;
    RunEnd(events);
    var init := events[..|events| - 1];
    forall m: nat | m < |init|
      ensures Enrols(events, m, uri) <==> Enrols(init, m, uri)
      ensures Drops(events, m, uri) <==> Drops(init, m, uri)
    {
      AnswerStays(events, m);
      DropsStay(events, m, uri);
    }
    if Enrolled(init, uri) && !Drops(events, |init|, uri) {
      var m: nat :| m < |init| && Enrols(init, m, uri) && forall d: nat :: m < d < |init| ==> !Drops(init, d, uri);
      assert Enrols(events, m, uri);
    }
  }

  // ---------------------------------------------------------------------------
  // Main results
  // ---------------------------------------------------------------------------

  /** A pipe is noted with the URI of its earliest registration not since forgotten by a disconnect or a refusal. */
  lemma {:induction false} NotedIff(events: seq<Event>, pipe: nat, uri: Uri)
    requires Legal(events)
    ensures pipe in StateAfter(events).pipes && StateAfter(events).pipes[pipe] == uri <==> Holds(events, pipe, uri)
    ensures pipe in StateAfter(events).pipes <==> !NoneLive(events, pipe)
  {
    hide Legal, StateAfter, Live;
    NoteInRun(events, pipe);
    if Holds(events, pipe, uri) && pipe in StateAfter(events).pipes {
      var n: nat :| Earliest(events, n, pipe, uri);
      var m: nat :| Earliest(events, m, pipe, StateAfter(events).pipes[pipe]);
      assert n == m;
    }
  }

  /** A service has a route exactly if it was enrolled and no pipe that held it was lost since. */
  lemma {:induction false} RoutedIff(events: seq<Event>, uri: Uri)
    requires Legal(events)
    ensures uri in StateAfter(events).table <==> Enrolled(events, uri)
    decreases |events|
  {
    hide Legal, StateAfter, AnswerAt, Holds, Enrolled, Enabled, Step, NoneLive;
    RunEnd(events);
    if events == [] {
      assert !Enrolled(events, uri) by {
        NothingEnrolled(events, uri);
      }
    } else {
      var init, e := events[..|events| - 1], events[|events| - 1];
      RoutedIff(init, uri);
      EnrolledStep(events, uri);
      AnswerNow(events);
      StepRoute(StateAfter(init), e, uri);
      if e.Disconnect? {
        NotedIff(init, e.pipe, uri);
      }
    }
  }

  lemma NothingEnrolled(events: seq<Event>, uri: Uri)
    requires Legal(events) && events == []
    ensures !Enrolled(events, uri)
  {
  }

  /**
   The loss of a pipe, in every run: the service that it holds has no route
   afterwards. Its route, if there is one, waits to be closed, last in the queue,
   all others stay, and a waiting thread is notified. The pipe holds nothing then.
   */
  lemma {:induction false} LossOfPipe(events: seq<Event>, pipe: nat, uri: Uri)
    requires Legal(events) && Enabled(StateAfter(events), Disconnect(pipe)) && Holds(events, pipe, uri)
    ensures Legal(events + [Disconnect(pipe)]) && NoneLive(events + [Disconnect(pipe)], pipe)
    ensures var s, t := StateAfter(events), StateAfter(events + [Disconnect(pipe)]);
            && uri !in t.table
            && (forall u :: u != uri ==> (u in t.table <==> u in s.table) && (u in s.table ==> t.table[u] == s.table[u]))
            && t.toClose == s.toClose + (if uri in s.table then [s.table[uri]] else [])
            && (uri in s.table && s.thread.Waiting? ==> t.thread == Waiting(true))
            && (forall p :: p != pipe ==> (p in t.pipes <==> p in s.pipes) && (p in s.pipes ==> t.pipes[p] == s.pipes[p]))
            && t.toOpen == s.toOpen && t.answers == s.answers && t.reports == s.reports
  {
    hide Legal, StateAfter, Holds, NoneLive;
    NotedIff(events, pipe, uri);
    Extended(events, Disconnect(pipe));
    NotedIff(events + [Disconnect(pipe)], pipe, uri);
  }

  /** The loss of a pipe that holds nothing changes nothing. */
  lemma {:induction false} LossOfOther(events: seq<Event>, pipe: nat)
    requires Legal(events) && Enabled(StateAfter(events), Disconnect(pipe)) && NoneLive(events, pipe)
    ensures Legal(events + [Disconnect(pipe)]) && StateAfter(events + [Disconnect(pipe)]) == StateAfter(events)
  {
    hide Legal, StateAfter, Holds, NoneLive;
    NotedIff(events, pipe, []);
    Extended(events, Disconnect(pipe));
  }

  /** A route outlives the loss of a pipe exactly if the pipe does not hold its service. */
  lemma {:induction false} OutlivesIff(events: seq<Event>, pipe: nat, uri: Uri)
    requires Legal(events) && Enabled(StateAfter(events), Disconnect(pipe)) && uri in StateAfter(events).table
    ensures Legal(events + [Disconnect(pipe)])
    ensures uri in StateAfter(events + [Disconnect(pipe)]).table <==> !Holds(events, pipe, uri)
  {
    hide Legal, StateAfter, Holds, NoneLive;
    NotedIff(events, pipe, uri);
    Extended(events, Disconnect(pipe));
  }

  /** A service that is lost after it was enrolled: its route waits to be closed and the thread is notified. */
  lemma LossExample(uri: Uri) returns (events: seq<Event>)
    requires |uri| == 4
    ensures events == [Register(NewRoute(0, 7, uri)), Enter, Settle, OpenOne(Works), Settle, Disconnect(7)] && Legal(events)
    ensures var s := StateAfter(events);
            s.table == map[] && s.toClose == [Route(0, uri)] && s.pipes == map[] && s.thread == Waiting(true)
  {
    hide Legal, StateAfter;
    LegalNone();
    events := [];
    events := Then(events, Register(NewRoute(0, 7, uri)));
    events := Then(events, Enter);
    events := Then(events, Settle);
    events := Then(events, OpenOne(Works));
    events := Then(events, Settle);
    events := Then(events, Disconnect(7));
  }

  /** A pipe that goes while its registration is queued leaves a route that no pipe holds. */
  lemma OrphanExample(uri: Uri) returns (events: seq<Event>)
    requires |uri| == 4
    ensures events == [Register(NewRoute(0, 7, uri)), Disconnect(7), Enter, Settle, OpenOne(Works)] && Legal(events)
    ensures uri in StateAfter(events).table && forall p: nat :: NoneLive(events, p)
  {
    hide Legal, StateAfter, Holds, NoneLive;
    LegalNone();
    events := [];
    events := Then(events, Register(NewRoute(0, 7, uri)));
    events := Then(events, Disconnect(7));
    events := Then(events, Enter);
    events := Then(events, Settle);
    events := Then(events, OpenOne(Works));
    forall p: nat
      ensures NoneLive(events, p)
    {
      NotedIff(events, p, uri);
    }
  }

  /** Of two services that a pipe has enrolled, the second outlives it. */
  lemma SecondOutlives(uri: Uri, other: Uri) returns (events: seq<Event>)
    requires |uri| == 4 && |other| == 5
    ensures Legal(events) && events == [Register(NewRoute(0, 7, uri)), Register(NewRoute(1, 7, other)), Enter, Settle,
                                        OpenOne(Works), OpenOne(Works), Settle, Disconnect(7)]
    ensures var s := StateAfter(events);
            s.pipes == map[] && other in s.table && uri !in s.table
  {
    hide Legal, StateAfter;
    LegalNone();
    events := [];
    events := Then(events, Register(NewRoute(0, 7, uri)));
    events := Then(events, Register(NewRoute(1, 7, other)));
    events := Then(events, Enter);
    events := Then(events, Settle);
    events := Then(events, OpenOne(Works));
    events := Then(events, OpenOne(Works));
    events := Then(events, Settle);
    events := Then(events, Disconnect(7));
  }

  lemma Then(events: seq<Event>, e: Event) returns (more: seq<Event>)
    requires Legal(events) && Enabled(StateAfter(events), e)
    ensures more == events + [e] && Legal(more) && StateAfter(more) == Step(StateAfter(events), e)
  {
    hide Legal, StateAfter, Enabled, Step;
    Extended(events, e);
    more := events + [e];
  }

  // ---------------------------------------------------------------------------
  // What is published
  // ---------------------------------------------------------------------------

  function GoneIn(reports: seq<Report>): seq<Uri> {
    if reports == [] then []
    else
      var last := reports[|reports| - 1];
      GoneIn(reports[..|reports| - 1]) + if last.Gone? then [last.uri] else []
  }

  function CreatedIn(reports: seq<Report>): seq<Uri> {
    if reports == [] then []
    else
      var last := reports[|reports| - 1];
      CreatedIn(reports[..|reports| - 1]) + if last.Created? then [last.uri] else []
  }

  function EnrolledIn(answers: seq<Answer>): seq<Uri> {
    if answers == [] then []
    else
      var last := answers[|answers| - 1];
      EnrolledIn(answers[..|answers| - 1]) + if last.status == OK200 then [last.uri] else []
  }

  function Paths(routes: seq<Route>): (r: seq<Uri>)
    ensures |r| == |routes| && forall i :: 0 <= i < |r| ==> r[i] == routes[i].path
  {
    seq(|routes|, i requires 0 <= i < |routes| => routes[i].path)
  }

  /** The service whose route the event takes out of the table. */
  ghost function Loses(s: Reg, e: Event): seq<Uri> {
    if e.Disconnect? && e.pipe in s.pipes && s.pipes[e.pipe] in s.table then [s.pipes[e.pipe]] else []
  }

  /** The services that lost their route with a pipe, in order. */
  ghost function Lost(events: seq<Event>): seq<Uri>
    requires Legal(events)
  {
    if events == [] then []
    else Lost(events[..|events| - 1]) + Loses(StateAfter(events[..|events| - 1]), events[|events| - 1])
  }

  ghost predicate Published(s: Reg, lost: seq<Uri>) {
    GoneIn(s.reports) + Paths(s.toClose) == lost && CreatedIn(s.reports) == EnrolledIn(s.answers)
  }

  lemma NextReport(reports: seq<Report>, r: Report)
    ensures GoneIn(reports + [r]) == GoneIn(reports) + if r.Gone? then [r.uri] else []
    ensures CreatedIn(reports + [r]) == CreatedIn(reports) + if r.Created? then [r.uri] else []
  {
    assert (reports + [r])[..|reports|] == reports;
  }

  lemma NextAnswer(answers: seq<Answer>, a: Answer)
    ensures EnrolledIn(answers + [a]) == EnrolledIn(answers) + if a.status == OK200 then [a.uri] else []
  {
    assert (answers + [a])[..|answers|] == answers;
  }

  lemma ClosePublished(s: Reg, lost: seq<Uri>)
    requires s.toClose != [] && Published(s, lost)
    ensures Published(ClosedOne(s), lost)
  {
    hide GoneIn, CreatedIn, EnrolledIn, Paths;
    var path, rest := s.toClose[0].path, Paths(s.toClose[1..]);
    NextReport(s.reports, Gone(path));
    FirstPath(s.toClose);
    assert GoneIn(s.reports) + [path] + rest == GoneIn(s.reports) + ([path] + rest);
  }

  lemma FirstPath(routes: seq<Route>)
    requires routes != []
    ensures Paths(routes) == [routes[0].path] + Paths(routes[1..])
  {
  }

  lemma OpenPublished(s: Reg, dial: Dial, lost: seq<Uri>)
    requires s.toOpen != [] && Published(s, lost)
    ensures Published(OpenedOne(s, dial), lost)
  {
    hide GoneIn, CreatedIn, EnrolledIn, Paths;
    var spec, t := s.toOpen[0], OpenedOne(s, dial);
    if |t.answers| > |s.answers| {
      NextAnswer(s.answers, t.answers[|s.answers|]);
    }
    NextReport(s.reports, Created(spec.uri));
  }

  lemma LossPublished(s: Reg, pipe: nat, lost: seq<Uri>)
    requires Published(s, lost) && forall u :: u in s.table ==> s.table[u].path == u
    ensures Published(Disconnected(s, pipe), lost + Loses(s, Disconnect(pipe)))
  {
    hide GoneIn, CreatedIn, EnrolledIn;
    assert Paths(Disconnected(s, pipe).toClose) == Paths(s.toClose) + Loses(s, Disconnect(pipe));
  }

  lemma StepPublished(s: Reg, e: Event, lost: seq<Uri>)
    requires Enabled(s, e) && Published(s, lost) && forall u :: u in s.table ==> s.table[u].path == u
    ensures Published(Step(s, e), lost + Loses(s, e))
  {
    hide GoneIn, CreatedIn, EnrolledIn, Paths, Disconnected, ClosedOne, OpenedOne;
    assert lost + [] == lost;
    match e
    case CloseOne => ClosePublished(s, lost);
    case OpenOne(dial) => OpenPublished(s, dial, lost);
    case Disconnect(pipe) => LossPublished(s, pipe, lost);
    case _ =>
  }

  /**
   Services are published as gone in the order in which they lost their routes,
   those still to be closed being next, and as created in the order in which they
   were answered with success.
   */
  lemma {:induction false} PublishedInOrder(events: seq<Event>)
    requires Legal(events)
    ensures var s := StateAfter(events);
            GoneIn(s.reports) + Paths(s.toClose) == Lost(events) && CreatedIn(s.reports) == EnrolledIn(s.answers)
    decreases |events|
  {
    hide Legal, StateAfter, Step, Enabled, Inv, Loses;
    RunEnd(events);
    if events != [] {
      var init, e := events[..|events| - 1], events[|events| - 1];
      PublishedInOrder(init);
      RunKeepsInv(init);
      PathsOfTable(StateAfter(init));
      StepPublished(StateAfter(init), e, Lost(init));
    }
  }

  lemma PathsOfTable(s: Reg)
    requires Inv(s)
    ensures forall u :: u in s.table ==> s.table[u].path == u
  {
    hide Tidy, Reported, InOrder, Matched, ShortKeys, Awake, Routes;
    TablePaths(s);
  }

  /** The routes that the thread has taken from the close queue. */
  ghost function Closed(events: seq<Event>): set<Route>
    requires Legal(events)
  {
    if events == [] then {}
    else
      var init := events[..|events| - 1];
      Closed(init) + (if events[|events| - 1].CloseOne? then {StateAfter(init).toClose[0]} else {})
  }

  lemma StepDeleted(s: Reg, e: Event)
    requires Enabled(s, e)
    ensures Step(s, e).deleted == s.deleted + (if e.CloseOne? then {s.toClose[0]} else {})
  {
  }

  /**
   Deleted are exactly the routes taken from the close queue; whatever else was made
   and is in neither table nor queue is lost.
   */
  lemma {:induction false} DeletedAre(events: seq<Event>, r: Route)
    requires Legal(events)
    ensures StateAfter(events).deleted == Closed(events)
    ensures var s := StateAfter(events);
            r in s.lost <==> Places(s, r) == 1 && !InTable(s, r) && r !in s.toClose && r !in Closed(events)
    decreases |events|
  {
    hide Legal, StateAfter, Step, Enabled;
    RunEnd(events);
    OnePlace(events, r.number);
    if events != [] {
      DeletedAre(events[..|events| - 1], r);
      StepDeleted(StateAfter(events[..|events| - 1]), events[|events| - 1]);
    }
  }
}

/**
 The service registry: registrations and disconnects arrive on their own
 threads, a management thread opens and closes routes, and a mutex lets one of
 them at a time at the routing table and the two work queues.
 */
module Registry {
  import opened Options
  import opened ArrayBucket

  type Uri = Key

  /** A route is told apart by its number, counted as they are made. */
  datatype Route = Route(number: nat, path: Uri)

  datatype NewRoute = NewRoute(query: nat, pipe: nat, uri: Uri)

  datatype StatusCode = OK200 | Conflict409 | Unavailable503

  datatype Answer = Answer(query: nat, uri: Uri, status: StatusCode)

  datatype Report = Created(uri: Uri) | Gone(uri: Uri)

  /** Dialing the new service: it works, it fails, or the route cannot even be made. */
  datatype Dial = Works | Fails | CannotMake

  /**
   The management thread: not yet in its loop, in it with the mutex held, waiting
   for a notification, or ended by the length error of this registration, which
   nothing catches and which ends the process.
   */
  datatype Thread = Starting | Closing | Opening | Waiting(notified: bool) | Ended(spec: NewRoute)

  /**
   The registry. `made` counts the routes, `deleted` and `lost` are those
   deleted and those that were made but did not get or stay in the table;
   `asked`, `answers` and `reports` list registrations queued, replies sent and
   events published.
   */
  datatype Reg = Reg(
    table: map<Uri, Route>,
    toOpen: seq<NewRoute>,
    toClose: seq<Route>,
    pipes: map<nat, Uri>,
    thread: Thread,
    made: nat,
    deleted: set<Route>,
    lost: set<Route>,
    asked: seq<nat>,
    answers: seq<Answer>,
    reports: seq<Report>)

  datatype Event =
    | Register(spec: NewRoute)      // `async_recv` with a well-formed registration
    | Disconnect(pipe: nat)         // `pipeEvent` after a pipe is gone
    | Enter                         // the thread takes the mutex: at its start or after a wait
    | CloseOne
    | OpenOne(dial: Dial)
    | Settle                        // a work queue is found empty

  function Start(): Reg {
    Reg(map[], [], [], map[], Starting, 0, {}, {}, [], [], [])
  }

  /** Nobody else is at the registry while the management thread is in its loop. */
  predicate Free(s: Reg) {
    s.thread.Starting? || s.thread.Waiting?
  }

  predicate Enabled(s: Reg, e: Event) {
    match e
    case Register(_) => Free(s)
    case Disconnect(_) => Free(s)
    case Enter => Free(s)   // a wait may also end without a notification
    case CloseOne => s.thread.Closing? && s.toClose != []
    case OpenOne(_) => s.thread.Opening? && s.toOpen != []
    case Settle => (s.thread.Closing? && s.toClose == []) || (s.thread.Opening? && s.toOpen == [])
  }

  function Notified(t: Thread): Thread {
    if t.Waiting? then Waiting(true) else t
  }

  function Registered(s: Reg, spec: NewRoute): Reg {
    s.(pipes := if spec.pipe in s.pipes then s.pipes else s.pipes[spec.pipe := spec.uri],
       toOpen := s.toOpen + [spec],
       asked := s.asked + [spec.query],
       thread := Notified(s.thread))
  }

  function Disconnected(s: Reg, pipe: nat): Reg {
    if pipe !in s.pipes then s
    else
      var uri, t := s.pipes[pipe], s.(pipes := s.pipes - {pipe});
      if uri !in s.table then t
      else t.(table := s.table - {uri}, toClose := s.toClose + [s.table[uri]], thread := Notified(s.thread))
  }

  function ClosedOne(s: Reg): Reg
    requires s.toClose != []
  {
    var r := s.toClose[0];
    s.(toClose := s.toClose[1..], reports := s.reports + [Gone(r.path)], deleted := s.deleted + {r})
  }

  function OpenedOne(s: Reg, dial: Dial): Reg
    requires s.toOpen != []
  {
    var spec := s.toOpen[0];
    var t := s.(toOpen := s.toOpen[1..]);
    var r := Route(s.made, spec.uri);
    if spec.uri in s.table then
      t.(pipes := s.pipes - {spec.pipe}, answers := s.answers + [Answer(spec.query, spec.uri, Conflict409)])
    else if dial.CannotMake? then
      t.(pipes := s.pipes - {spec.pipe}, answers := s.answers + [Answer(spec.query, spec.uri, Unavailable503)])
    else if |spec.uri| > MAX_KEY_SIZE then
      t.(made := s.made + 1, lost := s.lost + {r}, thread := Ended(spec))
    else if dial.Works? then
      t.(table := s.table[spec.uri := r], made := s.made + 1,
         answers := s.answers + [Answer(spec.query, spec.uri, OK200)], reports := s.reports + [Created(spec.uri)])
    else
      t.(made := s.made + 1, lost := s.lost + {r}, pipes := s.pipes - {spec.pipe},
         answers := s.answers + [Answer(spec.query, spec.uri, Unavailable503)])
  }

  function Step(s: Reg, e: Event): Reg
    requires Enabled(s, e)
  {
    match e
    case Register(spec) => Registered(s, spec)
    case Disconnect(pipe) => Disconnected(s, pipe)
    case Enter => s.(thread := Closing)
    case CloseOne => ClosedOne(s)
    case OpenOne(dial) => OpenedOne(s, dial)
    case Settle => s.(thread := if s.thread.Closing? then Opening else Waiting(false))
  }

  /** The events can happen one after the other, from the start. */
  ghost predicate Legal(events: seq<Event>)
    decreases |events|, 0
  {
    events == [] ||
    (Legal(events[..|events| - 1]) && Enabled(StateAfter(events[..|events| - 1]), events[|events| - 1]))
  }

  /** The state they lead to. */
  ghost function StateAfter(events: seq<Event>): Reg
    requires Legal(events)
    decreases |events|, 1
  {
    if events == [] then Start() else Step(StateAfter(events[..|events| - 1]), events[|events| - 1])
  }

  // ---------------------------------------------------------------------------
  // Each route in one place
  // ---------------------------------------------------------------------------

  predicate InTable(s: Reg, r: Route) {
    r.path in s.table && s.table[r.path] == r
  }

  /** In how many places a route is. */
  function Places(s: Reg, r: Route): nat {
    One(InTable(s, r)) + multiset(s.toClose)[r] + One(r in s.deleted) + One(r in s.lost)
  }

  /** Made routes have the numbers below `made`, each once. */
  ghost predicate Routes(s: Reg) {
    && (forall u :: u in s.table ==> s.table[u].path == u)
    && (forall r :: Places(s, r) <= 1)
    && (forall r :: Places(s, r) == 1 ==> r.number < s.made)
    && (forall r, q :: Places(s, r) == 1 && Places(s, q) == 1 && r != q ==> r.number != q.number)
    && (forall k: nat :: k < s.made ==> Somewhere(s, k))
  }

  ghost predicate Somewhere(s: Reg, k: nat) {
    exists r: Route :: r.number == k && Places(s, r) == 1
  }

  // ---------------------------------------------------------------------------
  // Reports
  // ---------------------------------------------------------------------------

  /** The service is reported as there: it is in the table, or waits to be closed. */
  predicate Announced(s: Reg, uri: Uri) {
    uri in s.table || exists i :: 0 <= i < |s.toClose| && s.toClose[i].path == uri
  }

  /** The reports on one service, in order: true for created. */
  function History(reports: seq<Report>, uri: Uri): seq<bool> {
    if reports == [] then []
    else
      var last := reports[|reports| - 1];
      History(reports[..|reports| - 1], uri) + if last.uri == uri then [last.Created?] else []
  }

  /** Created, gone, created, gone, and so on. */
  predicate Alternates(h: seq<bool>) {
    forall i :: 0 <= i < |h| ==> h[i] == (i % 2 == 0)
  }

  ghost predicate Reported(s: Reg, uri: Uri) {
    var h := History(s.reports, uri);
    Alternates(h) && (Announced(s, uri) <==> |h| % 2 == 1)
  }

  /** At most one route per service is in the table or waits to be closed, and none waits while routes are opened. */
  ghost predicate Tidy(s: Reg) {
    && (forall i :: 0 <= i < |s.toClose| ==> s.toClose[i].path !in s.table)
    && (forall i, j :: 0 <= i < j < |s.toClose| ==> s.toClose[i].path != s.toClose[j].path)
    && (s.thread.Opening? ==> s.toClose == [])
  }

  // ---------------------------------------------------------------------------
  // Answers and wake-ups
  // ---------------------------------------------------------------------------

  function Asked(specs: seq<NewRoute>): (qs: seq<nat>)
    ensures |qs| == |specs|
  {
    seq(|specs|, i requires 0 <= i < |specs| => specs[i].query)
  }

  function Answered(answers: seq<Answer>): (qs: seq<nat>)
    ensures |qs| == |answers|
  {
    seq(|answers|, i requires 0 <= i < |answers| => answers[i].query)
  }

  /** The registration whose length error ended the thread gets no answer. */
  function Unanswered(t: Thread): seq<nat> {
    if t.Ended? then [t.spec.query] else []
  }

  /** How many registrations of a service were answered with success. */
  function Accepted(answers: seq<Answer>, uri: Uri): nat {
    if answers == [] then 0
    else
      var last := answers[|answers| - 1];
      Accepted(answers[..|answers| - 1], uri) + One(last.uri == uri && last.status == OK200)
  }

  /** How many reports of a service say that it was created. */
  function Creations(h: seq<bool>): nat {
    if h == [] then 0 else Creations(h[..|h| - 1]) + One(h[|h| - 1])
  }

  ghost predicate Matched(s: Reg, uri: Uri) {
    Accepted(s.answers, uri) == Creations(History(s.reports, uri))
  }

  /** The routing table takes no longer keys. */
  ghost predicate ShortKeys(s: Reg) {
    forall u :: u in s.table ==> |u| <= MAX_KEY_SIZE
  }

  ghost predicate Awake(s: Reg) {
    s.thread == Waiting(false) ==> s.toOpen == [] && s.toClose == []
  }

  /** Answers, the registration that ended the thread, and the queue are the registrations in order. */
  ghost predicate InOrder(s: Reg) {
    Answered(s.answers) + Unanswered(s.thread) + Asked(s.toOpen) == s.asked
  }

  ghost predicate Inv(s: Reg) {
    && Routes(s) && Tidy(s) && (forall u :: Reported(s, u))
    && InOrder(s) && (forall u :: Matched(s, u)) && ShortKeys(s)
    && Awake(s)
  }

  // ---------------------------------------------------------------------------
  // What every step keeps
  // ---------------------------------------------------------------------------

  /** The step makes this route. */
  predicate Makes(s: Reg, e: Event, r: Route) {
    e.OpenOne? && !e.dial.CannotMake? && s.toOpen != [] && s.toOpen[0].uri !in s.table && r == Route(s.made, s.toOpen[0].uri)
  }

  lemma DisconnectPlaces(s: Reg, pipe: nat, r: Route)
    requires forall u :: u in s.table ==> s.table[u].path == u
    ensures Places(Disconnected(s, pipe), r) == Places(s, r)
  {
  }

  lemma ClosePlaces(s: Reg, r: Route)
    requires s.toClose != [] && Places(s, r) <= 1
    ensures Places(ClosedOne(s), r) == Places(s, r)
  {
    assert s.toClose == [s.toClose[0]] + s.toClose[1..];
  }

  lemma OpenPlaces(s: Reg, dial: Dial, r: Route)
    requires s.toOpen != [] && (Makes(s, OpenOne(dial), r) ==> Places(s, r) == 0)
    ensures Places(OpenedOne(s, dial), r) == Places(s, r) + One(Makes(s, OpenOne(dial), r))
  {
  }

  /** A step moves routes from place to place, and makes at most one. */
  lemma StepPlaces(s: Reg, e: Event, r: Route)
    requires Enabled(s, e) && Places(s, r) <= 1 && (Makes(s, e, r) ==> Places(s, r) == 0)
    requires forall u :: u in s.table ==> s.table[u].path == u
    ensures Places(Step(s, e), r) == Places(s, r) + One(Makes(s, e, r))
  {
    hide Disconnected, ClosedOne, OpenedOne;
    match e
    case Register(spec) =>
    case Disconnect(pipe) => DisconnectPlaces(s, pipe, r);
    case Enter =>
    case CloseOne => ClosePlaces(s, r);
    case OpenOne(dial) => OpenPlaces(s, dial, r);
    case Settle =>
  }

  lemma StepRoutes(s: Reg, e: Event)
    requires Routes(s) && Enabled(s, e)
    ensures Routes(Step(s, e))
  {
    hide Places, Registered, ClosedOne;
    var t := Step(s, e);
    forall r
      ensures Places(t, r) == Places(s, r) + One(Makes(s, e, r)) && Places(t, r) <= 1
    {
      assert Places(s, r) <= 1;
      StepPlaces(s, e, r);
    }
    StepTable(s, e);
    forall k: nat | k < t.made
      ensures Somewhere(t, k)
    {
      if k < s.made {
        assert Somewhere(s, k);
        var r: Route :| r.number == k && Places(s, r) == 1;
        assert Places(t, r) == 1;
      } else {
        assert Places(t, Route(s.made, s.toOpen[0].uri)) == 1;
      }
    }
  }

  lemma StepTable(s: Reg, e: Event)
    requires Enabled(s, e) && forall u :: u in s.table ==> s.table[u].path == u
    ensures forall u :: u in Step(s, e).table ==> Step(s, e).table[u].path == u
    ensures Step(s, e).made == s.made + One(exists r :: Makes(s, e, r))
  {
    if e.OpenOne? && s.toOpen[0].uri !in s.table && !e.dial.CannotMake? {
      assert Makes(s, e, Route(s.made, s.toOpen[0].uri));
    }
  }

  lemma StepTidy(s: Reg, e: Event)
    requires Tidy(s) && Enabled(s, e) && forall u :: u in s.table ==> s.table[u].path == u
    ensures Tidy(Step(s, e))
  {
  }

  lemma HistoryNext(reports: seq<Report>, r: Report, uri: Uri)
    ensures History(reports + [r], uri) == History(reports, uri) + if r.uri == uri then [r.Created?] else []
  {
    assert (reports + [r])[..|reports|] == reports;
  }

  lemma DisconnectReported(s: Reg, pipe: nat, uri: Uri)
    requires (forall u :: u in s.table ==> s.table[u].path == u) && Reported(s, uri)
    ensures Reported(Disconnected(s, pipe), uri)
  {
    var t := Disconnected(s, pipe);
    if pipe in s.pipes && s.pipes[pipe] in s.table {
      assert t.toClose[|s.toClose|].path == s.pipes[pipe];
      if exists i :: 0 <= i < |s.toClose| && s.toClose[i].path == uri {
        var i :| 0 <= i < |s.toClose| && s.toClose[i].path == uri;
        assert t.toClose[i].path == uri;
      }
    }
  }

  lemma CloseReported(s: Reg, uri: Uri)
    requires Tidy(s) && s.toClose != [] && Reported(s, uri)
    ensures Reported(ClosedOne(s), uri)
  {
    var t, r := ClosedOne(s), s.toClose[0];
    HistoryNext(s.reports, Gone(r.path), uri);
    if r.path == uri {
      assert Announced(s, uri);
      assert !Announced(t, uri);
    } else if exists i :: 0 <= i < |s.toClose| && s.toClose[i].path == uri {
      var i :| 0 <= i < |s.toClose| && s.toClose[i].path == uri;
      assert t.toClose[i - 1].path == uri;
    }
  }

  lemma OpenReported(s: Reg, dial: Dial, uri: Uri)
    requires s.toClose == [] && s.toOpen != [] && Reported(s, uri)
    ensures Reported(OpenedOne(s, dial), uri)
  {
    hide History;
    HistoryNext(s.reports, Created(s.toOpen[0].uri), uri);
  }

  lemma StepReported(s: Reg, e: Event, uri: Uri)
    requires Routes(s) && Tidy(s) && Reported(s, uri) && Enabled(s, e)
    ensures Reported(Step(s, e), uri)
  {
    hide Reported, Disconnected, ClosedOne, OpenedOne, Places;
    match e
    case Register(spec) => SameReported(s, Registered(s, spec), uri);
    case Disconnect(pipe) => DisconnectReported(s, pipe, uri);
    case Enter => SameReported(s, Step(s, e), uri);
    case CloseOne => CloseReported(s, uri);
    case OpenOne(dial) => OpenReported(s, dial, uri);
    case Settle => SameReported(s, Step(s, e), uri);
  }

  lemma SameReported(s: Reg, t: Reg, uri: Uri)
    requires Reported(s, uri) && t.table == s.table && t.toClose == s.toClose && t.reports == s.reports
    ensures Reported(t, uri)
  {
  }

  lemma StepAnswers(s: Reg, e: Event)
    requires InOrder(s) && Enabled(s, e)
    ensures InOrder(Step(s, e))
  {
    var t := Step(s, e);
    if e.Register? {
      assert Asked(t.toOpen) == Asked(s.toOpen) + [e.spec.query];
    } else if e.OpenOne? {
      assert Asked(s.toOpen) == [s.toOpen[0].query] + Asked(t.toOpen);
      if !t.thread.Ended? {
        assert Answered(t.answers) == Answered(s.answers) + [s.toOpen[0].query];
      }
    }
  }

  lemma AcceptedNext(answers: seq<Answer>, a: Answer, uri: Uri)
    ensures Accepted(answers + [a], uri) == Accepted(answers, uri) + One(a.uri == uri && a.status == OK200)
  {
    assert (answers + [a])[..|answers|] == answers;
  }

  lemma CreationsNext(h: seq<bool>, b: bool)
    ensures Creations(h + [b]) == Creations(h) + One(b)
  {
    assert (h + [b])[..|h|] == h;
  }

  lemma StepMatched(s: Reg, e: Event, uri: Uri)
    requires Matched(s, uri) && Enabled(s, e)
    ensures Matched(Step(s, e), uri)
  {
    hide Accepted, Creations, History;
    var t, h := Step(s, e), History(s.reports, uri);
    if t.answers != s.answers {
      AcceptedNext(s.answers, t.answers[|s.answers|], uri);
    }
    if t.reports != s.reports {
      var r := t.reports[|s.reports|];
      HistoryNext(s.reports, r, uri);
      CreationsNext(h, r.Created?);
      assert h + [] == h;
    }
  }

  lemma StepAwake(s: Reg, e: Event)
    requires Awake(s) && Tidy(s) && Enabled(s, e)
    ensures Awake(Step(s, e))
  {
  }

  lemma StepShort(s: Reg, e: Event)
    requires ShortKeys(s) && Enabled(s, e)
    ensures ShortKeys(Step(s, e))
  {
  }

  lemma StepKeepsInv(s: Reg, e: Event)
    requires Inv(s) && Enabled(s, e)
    ensures Inv(Step(s, e))
  {
    hide Routes, Tidy, Reported, Awake, Step, Enabled, InOrder, Matched, ShortKeys;
    StepRoutes(s, e);
    TablePaths(s);
    StepTidy(s, e);
    forall u
      ensures Reported(Step(s, e), u)
    {
      StepReported(s, e, u);
    }
    forall u
      ensures Matched(Step(s, e), u)
    {
      StepMatched(s, e, u);
    }
    StepShort(s, e);
    StepAnswers(s, e);
    StepAwake(s, e);
  }

  lemma TablePaths(s: Reg)
    requires Routes(s)
    ensures forall u :: u in s.table ==> s.table[u].path == u
  {
    hide Places;
  }

  lemma StartInv()
    ensures Inv(Start())
  {
  }

  lemma {:induction false} RunKeepsInv(events: seq<Event>)
    requires Legal(events)
    ensures Inv(StateAfter(events))
    decreases |events|
  {
    hide Inv, Step, Enabled;
    if events == [] {
      StartInv();
    } else {
      var init := events[..|events| - 1];
      RunKeepsInv(init);
      StepKeepsInv(StateAfter(init), events[|events| - 1]);
    }
  }

  // ---------------------------------------------------------------------------
  // Main results
  // ---------------------------------------------------------------------------

  /** In every interleaving each route made is in exactly one of table, close queue, deleted and lost. */
  lemma {:induction false} OnePlace(events: seq<Event>, k: nat)
    requires Legal(events)
    ensures var s := StateAfter(events);
            && (k < s.made <==> Somewhere(s, k))
            && (forall r: Route, q: Route :: r.number == k == q.number && Places(s, r) > 0 && Places(s, q) > 0 ==> r == q)
            && (forall r :: Places(s, r) <= 1)
  {
    hide Legal, StateAfter, Places;
    RunKeepsInv(events);
  }

  /** What is in the table has not been deleted. */
  lemma {:induction false} NeverDeleted(events: seq<Event>, uri: Uri)
    requires Legal(events)
    ensures var s := StateAfter(events);
            uri in s.table ==>
              && s.table[uri].path == uri && s.table[uri] !in s.deleted
              && s.table[uri] !in s.lost && s.table[uri] !in s.toClose
  {
    hide Legal, StateAfter;
    RunKeepsInv(events);
    var s := StateAfter(events);
    if uri in s.table {
      assert Places(s, s.table[uri]) <= 1;
    }
  }

  /** The reports on every service strictly alternate, created first. */
  lemma {:induction false} ReportsAlternate(events: seq<Event>, uri: Uri)
    requires Legal(events)
    ensures var s := StateAfter(events);
            && Alternates(History(s.reports, uri))
            && (|History(s.reports, uri)| % 2 == 1 <==> Announced(s, uri))
  {
    hide Legal, StateAfter, Alternates, History, Announced, Routes, Tidy;
    RunKeepsInv(events);
    assert Reported(StateAfter(events), uri);
  }

  /**
   Registrations are answered once each, in the order they were queued, and all of
   them in turn exactly as long as the thread has not ended: then the one whose
   length error ended it is skipped.
   */
  lemma {:induction false} AnsweredInOrder(events: seq<Event>)
    requires Legal(events)
    ensures var s := StateAfter(events);
            && Answered(s.answers) + Unanswered(s.thread) + Asked(s.toOpen) == s.asked
            && (Answered(s.answers) + Asked(s.toOpen) == s.asked <==> !s.thread.Ended?)
  {
    hide Legal, StateAfter, Routes, Tidy, Reported, Matched;
    RunKeepsInv(events);
    var s := StateAfter(events);
    assert |Answered(s.answers) + Asked(s.toOpen)| + |Unanswered(s.thread)| == |s.asked|;
    assert !s.thread.Ended? ==> Answered(s.answers) + [] == Answered(s.answers);
  }

  /** No wake-up is lost: a thread that waits without a notification has nothing to do. */
  lemma {:induction false} NoLostWakeUp(events: seq<Event>)
    requires Legal(events)
    ensures var s := StateAfter(events);
            s.thread == Waiting(false) ==> s.toOpen == [] && s.toClose == [] && Answered(s.answers) == s.asked
  {
    hide Legal, StateAfter, Routes, Tidy, Reported, Matched;
    RunKeepsInv(events);
    assert Asked([]) == [];
  }

  lemma LegalPrefix(events: seq<Event>, n: nat)
    requires Legal(events) && n <= |events|
    ensures Legal(events[..n])
    ensures n < |events| ==> Enabled(StateAfter(events[..n]), events[n])
    decreases |events|
  {
    hide Enabled, Step;
    if n == |events| {
      assert events[..n] == events;
    } else {
      var init := events[..|events| - 1];
      LegalPrefix(init, n);
      assert init[..n] == events[..n];
    }
  }

  /**
   Every answer of a run was given in one step, to the registration first in the
   queue then: a conflict exactly if the service was in the table at that moment,
   success exactly if it was not and dialing worked, and 503 otherwise.
   */
  lemma {:induction false} AnswerIff(events: seq<Event>, i: nat) returns (n: nat)
    requires Legal(events) && i < |StateAfter(events).answers|
    ensures n < |events| && Legal(events[..n]) && events[n].OpenOne?
    ensures var s, dial, a := StateAfter(events[..n]), events[n].dial, StateAfter(events).answers[i];
            && |s.answers| == i && s.toOpen != [] && a.query == s.toOpen[0].query && a.uri == s.toOpen[0].uri
            && (a.status == Conflict409 <==> a.uri in s.table)
            && (a.status == OK200 <==> a.uri !in s.table && dial.Works?)
            && (a.status == OK200 ==> |a.uri| <= MAX_KEY_SIZE)
            && (|a.uri| > MAX_KEY_SIZE ==> dial.CannotMake?)
    decreases |events|
  {
    hide Legal, StateAfter;
    RunEnd(events);
    var init := events[..|events| - 1];
    var s, e := StateAfter(init), events[|events| - 1];
    if i < |s.answers| {
      AnswersGrow(s, e);
      n := AnswerIff(init, i);
      assert init[..n] == events[..n];
    } else {
      AnswersGrow(s, e);
      RunKeepsInv(init);
      n := |events| - 1;
    }
  }

  /** The last step of a run. */
  lemma RunEnd(events: seq<Event>)
    requires Legal(events)
    ensures events == [] ==> StateAfter(events) == Start()
    ensures events != [] ==>
              && Legal(events[..|events| - 1]) && Enabled(StateAfter(events[..|events| - 1]), events[|events| - 1])
              && StateAfter(events) == Step(StateAfter(events[..|events| - 1]), events[|events| - 1])
  {
    hide Enabled, Step;
  }

  lemma AnswersGrow(s: Reg, e: Event)
    requires Enabled(s, e)
    ensures var t := Step(s, e);
            && |s.answers| <= |t.answers| <= |s.answers| + 1
            && (forall i :: 0 <= i < |s.answers| ==> t.answers[i] == s.answers[i])
            && (|t.answers| > |s.answers| ==> e.OpenOne?)
  {
  }

  /** A service is reported as created as often as its registration was answered with success. */
  lemma {:induction false} AcceptedIsCreated(events: seq<Event>, uri: Uri)
    requires Legal(events)
    ensures Accepted(StateAfter(events).answers, uri) == Creations(History(StateAfter(events).reports, uri))
  {
    hide Legal, StateAfter, Routes, Tidy, Reported, History, Accepted, Creations;
    RunKeepsInv(events);
    assert Matched(StateAfter(events), uri);
  }

  // ---------------------------------------------------------------------------
  // The length error
  // ---------------------------------------------------------------------------

  /** The step takes a registration whose URI is too long for the routing table. */
  predicate TooLong(s: Reg, e: Event) {
    e.OpenOne? && !e.dial.CannotMake? && s.toOpen != [] && |s.toOpen[0].uri| > MAX_KEY_SIZE
  }

  /**
   The thread has ended exactly if the last step took a URI that is too long, and
   exactly then nothing can happen any more.
   */
  lemma {:induction false} EndedIff(events: seq<Event>)
    requires Legal(events)
    ensures StateAfter(events).thread.Ended? <==>
            events != [] && Legal(events[..|events| - 1]) && TooLong(StateAfter(events[..|events| - 1]), events[|events| - 1])
    ensures StateAfter(events).thread.Ended? <==> forall e :: !Enabled(StateAfter(events), e)
  {
    hide Legal, StateAfter, Routes, Tidy, Reported, Matched;
    RunEnd(events);
    var s := StateAfter(events);
    if events != [] {
      RunKeepsInv(events[..|events| - 1]);
    }
    if !s.thread.Ended? {
      assert Enabled(s, Enter) || Enabled(s, CloseOne) || Enabled(s, OpenOne(Works)) || Enabled(s, Settle);
    }
  }

  /** Every registration of these events fits the routing table. */
  ghost predicate AllFit(events: seq<Event>) {
    forall i :: 0 <= i < |events| && events[i].Register? ==> |events[i].spec.uri| <= MAX_KEY_SIZE
  }

  ghost predicate QueueFits(s: Reg) {
    forall i :: 0 <= i < |s.toOpen| ==> |s.toOpen[i].uri| <= MAX_KEY_SIZE
  }

  /** From a queue that fits, further registrations that fit never end the thread. */
  lemma {:induction false} FitsGoesOn(events: seq<Event>, n: nat)
    requires Legal(events) && n <= |events| && AllFit(events[n..])
    requires Legal(events[..n]) && QueueFits(StateAfter(events[..n])) && !StateAfter(events[..n]).thread.Ended?
    ensures QueueFits(StateAfter(events)) && !StateAfter(events).thread.Ended?
    decreases |events|
  {
    hide Legal, StateAfter;
    if n == |events| {
      assert events[..n] == events;
    } else {
      RunEnd(events);
      var init, last := events[..|events| - 1], events[|events| - 1];
      assert init[..n] == events[..n] && init[n..] == events[n..][..|init| - n];
      assert last == events[n..][|init| - n];
      FitsGoesOn(init, n);
      assert QueueFits(Step(StateAfter(init), last));
    }
  }

  /** With registrations that fit, the thread never ends. */
  lemma {:induction false} NeverEnds(events: seq<Event>)
    requires Legal(events) && AllFit(events)
    ensures !StateAfter(events).thread.Ended?
  {
    assert events[0..] == events && events[..0] == [];
    FitsGoesOn(events, 0);
  }

  /** One event more. */
  lemma Extended(events: seq<Event>, e: Event)
    requires Legal(events) && Enabled(StateAfter(events), e)
    ensures Legal(events + [e]) && StateAfter(events + [e]) == Step(StateAfter(events), e)
  {
    hide Enabled, Step;
    assert (events + [e])[..|events|] == events;
  }

  /** A registration with 65535 bytes is never answered: the thread ends with the route made and lost. */
  lemma EndedExample() returns (events: seq<Event>)
    ensures Legal(events) && |events| == 4 && events[0].Register? && |events[0].spec.uri| == MAX_KEY_SIZE + 1
    ensures var s := StateAfter(events); s.thread.Ended? && s.asked == [0] && s.answers == [] && s.made == 1 == |s.lost|
  {
    hide Legal, StateAfter;
    var uri: Uri := seq(MAX_KEY_SIZE + 1, _ => 97);
    LegalNone();
    events := [];
    Extended(events, Register(NewRoute(0, 0, uri)));
    events := events + [Register(NewRoute(0, 0, uri))];
    Extended(events, Enter);
    events := events + [Enter];
    Extended(events, Settle);
    events := events + [Settle];
    Extended(events, OpenOne(Works));
    events := events + [OpenOne(Works)];
  }

  lemma LegalNone()
    ensures Legal([]) && StateAfter([]) == Start()
  {
  }
}

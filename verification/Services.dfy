/**
 The registry's own methods, each proved to do what the steps of the protocol
 say, and the lookup of a route by the longest registered prefix.
 */
module Services {
  import opened Options
  import opened ArrayBucket
  import opened ArrayHash
  import opened TrieShape
  import opened TrieNodes
  import opened TrieRefusal
  import opened HTrie
  import opened TrieWalk
  import opened TrieErase
  import opened TrieRun
  import R = Registry
  import N = RegistryNotes

  // ---------------------------------------------------------------------------
  // A round of the management thread
  // ---------------------------------------------------------------------------

  function CloseAll(s: R.Reg): (t: R.Reg)
    ensures t.toClose == [] && t.toOpen == s.toOpen && t.thread == s.thread && t.table == s.table
    decreases |s.toClose|
  {
    if s.toClose == [] then s else CloseAll(R.ClosedOne(s))
  }

  /** The queue is worked off, up to a length error. */
  function OpenAll(s: R.Reg, dials: seq<R.Dial>): (t: R.Reg)
    requires |s.toOpen| <= |dials|
    ensures t.toClose == s.toClose && (t.thread.Ended? || (t.toOpen == [] && t.thread == s.thread))
    decreases |s.toOpen|
  {
    if s.toOpen == [] || s.thread.Ended? then s else OpenAll(R.OpenedOne(s, dials[0]), dials[1..])
  }

  function Waits(s: R.Reg): R.Reg {
    if s.thread.Ended? then s else s.(thread := R.Waiting(false))
  }

  /** From taking the mutex to the next wait, or to the end; `dials` are the outcomes of dialing. */
  function Round(s: R.Reg, dials: seq<R.Dial>): R.Reg
    requires |s.toOpen| <= |dials|
  {
    Waits(OpenAll(CloseAll(s.(thread := R.Closing)).(thread := R.Opening), dials))
  }

  /** No registration is among these events. */
  ghost predicate Quiet(events: seq<R.Event>) {
    forall i :: 0 <= i < |events| ==> !events[i].Register?
  }

  /** The events lead on to this state, without a registration among them. */
  ghost predicate LeadsTo(events: seq<R.Event>, more: seq<R.Event>, t: R.Reg) {
    R.Legal(events + more) && R.StateAfter(events + more) == t && Quiet(more)
  }

  lemma LeadsNowhere(events: seq<R.Event>)
    requires R.Legal(events)
    ensures LeadsTo(events, [], R.StateAfter(events))
  {
    assert events + [] == events;
  }

  lemma LeadsFurther(events: seq<R.Event>, more: seq<R.Event>, s: R.Reg, e: R.Event)
    requires LeadsTo(events, more, s) && R.Enabled(s, e) && !e.Register?
    ensures LeadsTo(events, more + [e], R.Step(s, e))
  {
    hide R.Legal, R.StateAfter, R.Enabled, R.Step;
    R.Extended(events + more, e);
    assert events + (more + [e]) == events + more + [e];
  }

  lemma {:induction false} CloseAllRun(events: seq<R.Event>, more: seq<R.Event>, s: R.Reg) returns (on: seq<R.Event>)
    requires LeadsTo(events, more, s) && s.thread == R.Closing
    ensures LeadsTo(events, on, CloseAll(s))
    decreases |s.toClose|
  {
    hide LeadsTo;
    on := more;
    if s.toClose != [] {
      LeadsFurther(events, more, s, R.CloseOne);
      on := CloseAllRun(events, more + [R.CloseOne], R.ClosedOne(s));
    }
  }

  lemma {:induction false} OpenAllRun(events: seq<R.Event>, more: seq<R.Event>, s: R.Reg, dials: seq<R.Dial>) returns (on: seq<R.Event>)
    requires LeadsTo(events, more, s) && (s.thread == R.Opening || s.thread.Ended?) && |s.toOpen| <= |dials|
    ensures LeadsTo(events, on, OpenAll(s, dials))
    decreases |s.toOpen|
  {
    hide LeadsTo;
    on := more;
    if s.toOpen != [] && !s.thread.Ended? {
      LeadsFurther(events, more, s, R.OpenOne(dials[0]));
      on := OpenAllRun(events, more + [R.OpenOne(dials[0])], R.OpenedOne(s, dials[0]), dials[1..]);
    }
  }

  /** Wherever the thread is in its loop, the steps up to where it has worked off both queues. */
  lemma WorkOff(events: seq<R.Event>, dials: seq<R.Dial>) returns (on: seq<R.Event>)
    requires R.Legal(events) && |R.StateAfter(events).toOpen| <= |dials| && !R.StateAfter(events).thread.Ended?
    ensures var s := R.StateAfter(events);
            LeadsTo(events, on, OpenAll(if s.thread.Opening? then s else CloseAll(s.(thread := R.Closing)).(thread := R.Opening), dials))
  {
    hide R.Legal, R.StateAfter, LeadsTo;
    var s := R.StateAfter(events);
    LeadsNowhere(events);
    on := [];
    if R.Free(s) {
      LeadsFurther(events, on, s, R.Enter);
      on := on + [R.Enter];
      s := s.(thread := R.Closing);
    }
    if s.thread.Closing? {
      on := CloseAllRun(events, on, s);
      s := CloseAll(s);
      LeadsFurther(events, on, s, R.Settle);
      on := on + [R.Settle];
      s := s.(thread := R.Opening);
    }
    on := OpenAllRun(events, on, s, dials);
  }

  /** A round is a run of the protocol's steps, and leaves nothing to do unless it ends the thread. */
  lemma RoundIsRun(events: seq<R.Event>, dials: seq<R.Dial>) returns (more: seq<R.Event>)
    requires R.Legal(events) && R.Free(R.StateAfter(events)) && |R.StateAfter(events).toOpen| <= |dials|
    ensures R.Legal(events + more) && R.StateAfter(events + more) == Round(R.StateAfter(events), dials)
    ensures var t := R.StateAfter(events + more);
            t.toClose == [] && (t.thread.Ended? || (t.toOpen == [] && t.thread == R.Waiting(false)))
  {
    hide R.Legal, R.StateAfter;
    more := WorkOff(events, dials);
    var t := R.StateAfter(events + more);
    if !t.thread.Ended? {
      LeadsFurther(events, more, t, R.Settle);
      more := more + [R.Settle];
    }
  }

  // ---------------------------------------------------------------------------
  // When the thread can end
  // ---------------------------------------------------------------------------

  /** With routes that can be made, a URI in the queue that is too long ends the thread. */
  lemma {:induction false} OpenAllEnds(s: R.Reg, dials: seq<R.Dial>)
    requires R.ShortKeys(s) && s.thread == R.Opening && |s.toOpen| <= |dials| && !R.QueueFits(s)
    requires forall i :: 0 <= i < |dials| ==> dials[i].Works?
    ensures OpenAll(s, dials).thread.Ended?
    decreases |s.toOpen|
  {
    var t := R.OpenedOne(s, dials[0]);
    if !t.thread.Ended? {
      R.StepShort(s, R.OpenOne(dials[0]));
      assert !R.QueueFits(t) by {
        var i :| 0 <= i < |s.toOpen| && |s.toOpen[i].uri| > MAX_KEY_SIZE;
        assert t.toOpen[i - 1] == s.toOpen[i];
      }
      OpenAllEnds(t, dials[1..]);
    }
  }

  /** The thread can end without a further URI that is too long exactly if there is one in the queue. */
  lemma {:induction false} CanEndIff(events: seq<R.Event>)
    requires R.Legal(events) && !R.StateAfter(events).thread.Ended?
    ensures R.QueueFits(R.StateAfter(events)) <==>
            forall more :: R.Legal(events + more) && R.AllFit(more) ==> !R.StateAfter(events + more).thread.Ended?
  {
    hide R.Legal, R.StateAfter, R.QueueFits, R.Inv;
    var s := R.StateAfter(events);
    if R.QueueFits(s) {
      forall more | R.Legal(events + more) && R.AllFit(more)
        ensures !R.StateAfter(events + more).thread.Ended?
      {
        assert (events + more)[..|events|] == events && (events + more)[|events|..] == more;
        R.FitsGoesOn(events + more, |events|);
      }
    } else {
      var dials := seq(|s.toOpen|, _ => R.Works);
      var more := WorkOff(events, dials);
      R.RunKeepsInv(events);
      Ending(s, dials);
      assert R.AllFit(more);
    }
  }

  lemma Ending(s: R.Reg, dials: seq<R.Dial>)
    requires R.Inv(s) && |s.toOpen| <= |dials| && !R.QueueFits(s) && forall i :: 0 <= i < |dials| ==> dials[i].Works?
    ensures !s.thread.Ended? ==>
              OpenAll(if s.thread.Opening? then s else CloseAll(s.(thread := R.Closing)).(thread := R.Opening), dials).thread.Ended?
  {
    if !s.thread.Ended? {
      OpenAllEnds(if s.thread.Opening? then s else CloseAll(s.(thread := R.Closing)).(thread := R.Opening), dials);
    }
  }

  // ---------------------------------------------------------------------------
  // The class
  // ---------------------------------------------------------------------------

  const BURST_THRESHOLD := 256
  const DEFAULT_MAX_LOAD := 8.0

  /** What becomes of a new route. */
  datatype Outcome = AlreadyThere | NotMade | Overlong | NotDialed | Established

  function OutcomeOf(taken: bool, length: nat, dial: R.Dial): Outcome {
    if taken then AlreadyThere
    else if dial.CannotMake? then NotMade
    else if length > MAX_KEY_SIZE then Overlong
    else if dial.Works? then Established else NotDialed
  }

  /** Everything but the table after an outcome. */
  function Recorded(s: R.Reg, spec: R.NewRoute, route: R.Route, o: Outcome): R.Reg
    requires s.toOpen != []
  {
    var t := s.(toOpen := s.toOpen[1..]);
    match o
    case AlreadyThere =>
      t.(pipes := s.pipes - {spec.pipe}, answers := s.answers + [R.Answer(spec.query, spec.uri, R.Conflict409)])
    case NotMade =>
      t.(pipes := s.pipes - {spec.pipe}, answers := s.answers + [R.Answer(spec.query, spec.uri, R.Unavailable503)])
    case Overlong => t.(made := s.made + 1, lost := s.lost + {route}, thread := R.Ended(spec))
    case NotDialed =>
      t.(made := s.made + 1, lost := s.lost + {route}, pipes := s.pipes - {spec.pipe},
         answers := s.answers + [R.Answer(spec.query, spec.uri, R.Unavailable503)])
    case Established =>
      t.(made := s.made + 1, answers := s.answers + [R.Answer(spec.query, spec.uri, R.OK200)],
         reports := s.reports + [R.Created(spec.uri)])
  }

  class Registrar {
    const routes: Trie<R.Route>
    var routeOpen: seq<R.NewRoute>
    var routeClose: seq<R.Route>
    var registrationMap: map<nat, R.Uri>
    var made: nat
    var answers: seq<R.Answer>
    var reports: seq<R.Report>
    ghost var thread: R.Thread
    ghost var deleted: set<R.Route>
    ghost var lost: set<R.Route>
    ghost var asked: seq<nat>

    /** The routing table is a trie whose settings never refuse a URI that is not too long. */
    ghost predicate Valid()
      reads this, routes, Tables(routes.nodes)
    {
      routes.Valid() && routes.burst <= MAX_VALUES && routes.maxLoad >= 0.1
    }

    ghost function Value(): R.Reg
      reads this, routes
    {
      R.Reg(routes.contents, routeOpen, routeClose, registrationMap, thread, made, deleted, lost, asked, answers, reports)
    }

    constructor (hash: Key -> nat)
      ensures Valid() && fresh(routes) && fresh(Tables(routes.nodes)) && Value() == R.Start()
    {
      routes := new Trie<R.Route>(hash, DEFAULT_MAX_LOAD, BURST_THRESHOLD);
      routeOpen, routeClose, registrationMap, made, answers, reports := [], [], map[], 0, [], [];
      thread, deleted, lost, asked := R.Starting, {}, {}, [];
    }

    /** `async_recv`, from where it takes the mutex. */
    method Register(spec: R.NewRoute)
      requires Valid()
      modifies this
      ensures Valid() && Value() == R.Registered(old(Value()), spec)
    {
      hide Tree, Stocked, Separate, Mirrored;
      if spec.pipe !in registrationMap {
        registrationMap := registrationMap[spec.pipe := spec.uri];
      }
      routeOpen := routeOpen + [spec];
      asked := asked + [spec.query];
      thread := R.Notified(thread);
    }

    /** `find` and `erase` by position: the route under a URI leaves the table. */
    method TakeRoute(uri: R.Uri) returns (route: Option<R.Route>)
      requires Valid()
      modifies routes, Tables(routes.nodes)
      ensures Valid() && Tables(routes.nodes) <= old(Tables(routes.nodes))
      ensures route == Lookup(old(routes.contents), uri) && routes.contents == old(routes.contents) - {uri}
    {
      hide Trie<R.Route>.Valid, Trie<R.Route>.KeyAt, SuccessorOf, Position;
      var it, id, n := routes.Find(uri);
      if it.AtEnd() {
        route := None;
        assert routes.contents - {uri} == routes.contents;
      } else {
        var r := routes.ValueOf(it, id, n, uri);
        route := Some(r);
        var next, y, k, y', k' := Erase(routes, it, id, n);
      }
    }

    /** `pipeEvent` of a pipe that is gone. */
    method PipeGone(pipe: nat)
      requires Valid()
      modifies this, routes, Tables(routes.nodes)
      ensures Valid() && Tables(routes.nodes) <= old(Tables(routes.nodes))
      ensures Value() == R.Disconnected(old(Value()), pipe)
      ensures pipe !in old(registrationMap) ==> Value() == old(Value())
      ensures pipe in old(registrationMap) ==>
                var uri, was := old(registrationMap[pipe]), old(routes.contents);
                && registrationMap == old(registrationMap) - {pipe} && routes.contents == was - {uri}
                && routeClose == old(routeClose) + (if uri in was then [was[uri]] else [])
    {
      hide Trie<R.Route>.Valid;
      if pipe !in registrationMap {
        return;
      }
      var path := registrationMap[pipe];
      registrationMap := registrationMap - {pipe};
      var route := TakeRoute(path);
      if route.Some? {
        routeClose := routeClose + [route.value];
        thread := R.Notified(thread);
      } else {
        assert routes.contents == old(routes.contents);
      }
    }

    /** One route of the close queue. */
    method CloseRoute()
      requires Valid() && |routeClose| > 0
      modifies this
      ensures Valid() && Value() == R.ClosedOne(old(Value()))
    {
      hide Tree, Stocked, Separate, Mirrored;
      var route := routeClose[0];
      routeClose := routeClose[1..];
      reports := reports + [R.Gone(route.path)];
      deleted := deleted + {route};
    }

    method CloseRoutes()
      requires Valid()
      modifies this
      ensures Valid() && Value() == CloseAll(old(Value()))
    {
      hide Trie<R.Route>.Valid;
      while |routeClose| > 0
        invariant Valid() && CloseAll(Value()) == CloseAll(old(Value()))
        decreases |routeClose|
      {
        CloseRoute();
      }
    }

    /** `emplace`: the new route is in the table, unless the URI is too long for it. */
    method AddRoute(uri: R.Uri, route: R.Route) returns (ok: bool)
      requires Valid() && uri !in routes.contents
      modifies routes, Tables(routes.nodes)
      ensures Valid() && fresh(Tables(routes.nodes) - old(Tables(routes.nodes)))
      ensures ok <==> |uri| <= MAX_KEY_SIZE
      ensures routes.contents == if ok then old(routes.contents)[uri := route] else old(routes.contents)
    {
      hide Trie<R.Route>.Valid, Trie<R.Route>.PointsTo, Refusal;
      NoRefusal(routes, uri);
      var r := routes.Insert(uri, route);
      ok := r.InsertedAt?;
    }

    /** The search for the URI and the `try` block: what becomes of a new route. */
    method Establish(uri: R.Uri, route: R.Route, dial: R.Dial) returns (o: Outcome)
      requires Valid()
      modifies routes, Tables(routes.nodes)
      ensures Valid() && fresh(Tables(routes.nodes) - old(Tables(routes.nodes)))
      ensures o == OutcomeOf(uri in old(routes.contents), |uri|, dial)
      ensures routes.contents == if o.Established? then old(routes.contents)[uri := route] else old(routes.contents)
    {
      hide Tree, Stocked, Separate, Mirrored, Trie<R.Route>.PointsTo;
      var it, id, n := routes.Find(uri);
      if !it.AtEnd() {
        return AlreadyThere;
      }
      o := NotMade;
      if !dial.CannotMake? {
        var ok := AddRoute(uri, route);
        if !ok {
          return Overlong;
        }
        if dial.Works? {
          return Established;
        }
        o := NotDialed;
      }
      var count := EraseByKey(routes, uri);
      assert routes.contents == old(routes.contents);
    }

    /** One registration from the queue; afterwards the thread has ended or goes on. */
    method OpenRoute(dial: R.Dial) returns (ended: bool)
      requires Valid() && |routeOpen| > 0 && !thread.Ended?
      modifies this, routes, Tables(routes.nodes)
      ensures Valid() && fresh(Tables(routes.nodes) - old(Tables(routes.nodes)))
      ensures Value() == R.OpenedOne(old(Value()), dial) && ended == thread.Ended?
    {
      hide Tree, Stocked, Separate, Mirrored;
      var spec, route := routeOpen[0], R.Route(made, routeOpen[0].uri);
      var o := Establish(spec.uri, route, dial);
      ended := o.Overlong?;
      Record(spec, route, o);
    }

    /** The counters, queues and replies after an outcome. */
    method Record(spec: R.NewRoute, route: R.Route, o: Outcome)
      requires |routeOpen| > 0
      modifies this
      ensures Value() == Recorded(old(Value()), spec, route, o)
    {
      routeOpen := routeOpen[1..];
      if !o.AlreadyThere? && !o.NotMade? {
        made := made + 1;
      }
      if o.Overlong? {
        lost, thread := lost + {route}, R.Ended(spec);
      } else if o.Established? {
        answers := answers + [R.Answer(spec.query, spec.uri, R.OK200)];
        reports := reports + [R.Created(spec.uri)];
      } else {
        lost := if o.NotDialed? then lost + {route} else lost;
        registrationMap := registrationMap - {spec.pipe};
        answers := answers + [R.Answer(spec.query, spec.uri, if o.AlreadyThere? then R.Conflict409 else R.Unavailable503)];
      }
    }

    method OpenRoutes(dials: seq<R.Dial>) returns (ended: bool)
      requires Valid() && |routeOpen| <= |dials| && !thread.Ended?
      modifies this, routes, Tables(routes.nodes)
      ensures Valid() && fresh(Tables(routes.nodes) - old(Tables(routes.nodes)))
      ensures Value() == OpenAll(old(Value()), dials) && ended == thread.Ended?
    {
      hide Trie<R.Route>.Valid, R.OpenedOne;
      var i := 0;
      ended := false;
      assert dials[0..] == dials;
      while |routeOpen| > 0 && !ended
        invariant Valid() && fresh(Tables(routes.nodes) - old(Tables(routes.nodes))) && ended == thread.Ended?
        invariant i <= |dials| && |routeOpen| <= |dials| - i
        invariant OpenAll(Value(), dials[i..]) == OpenAll(old(Value()), dials)
        decreases |routeOpen|
      {
        assert dials[i..][0] == dials[i] && dials[i..][1..] == dials[i + 1..];
        QueueShrinks(Value(), dials[i]);
        ended := OpenRoute(dials[i]);
        i := i + 1;
      }
    }

    /** One pass of `run_management_thread` through its loop. */
    method Manage(dials: seq<R.Dial>) returns (ended: bool)
      requires Valid() && R.Free(Value()) && |routeOpen| <= |dials|
      modifies this, routes, Tables(routes.nodes)
      ensures Valid() && fresh(Tables(routes.nodes) - old(Tables(routes.nodes)))
      ensures Value() == Round(old(Value()), dials) && ended == thread.Ended?
    {
      hide Trie<R.Route>.Valid, CloseAll, OpenAll;
      thread := R.Closing;
      CloseRoutes();
      thread := R.Opening;
      ended := OpenRoutes(dials);
      if !ended {
        thread := R.Waiting(false);
      }
    }

    /** Any step of the protocol. */
    method Do(e: R.Event)
      requires Valid() && R.Enabled(Value(), e)
      modifies this, routes, Tables(routes.nodes)
      ensures Valid() && fresh(Tables(routes.nodes) - old(Tables(routes.nodes)))
      ensures Value() == R.Step(old(Value()), e)
    {
      hide Trie<R.Route>.Valid, R.Registered, R.Disconnected, R.ClosedOne, R.OpenedOne;
      match e
      case Register(spec) => Register(spec);
      case Disconnect(pipe) => PipeGone(pipe);
      case Enter => thread := R.Closing;
      case CloseOne => CloseRoute();
      case OpenOne(dial) => var ended := OpenRoute(dial);
      case Settle => thread := if thread.Closing? then R.Opening else R.Waiting(false);
    }

    /** `route` in any run: the route of the longest registered prefix, which is in the table and not deleted. */
    method RouteFor(path: R.Uri, ghost events: seq<R.Event>) returns (r: Option<R.Route>)
      requires Valid() && R.Legal(events) && Value() == R.StateAfter(events)
      ensures r.None? <==> NoRoute(R.StateAfter(events).table, path)
      ensures r.Some? ==> LongestRoute(R.StateAfter(events).table, path, r.value)
      ensures r.Some? ==>
                var s := R.StateAfter(events);
                R.InTable(s, r.value) && r.value !in s.deleted && r.value !in s.lost && r.value !in s.toClose
      ensures r.None? <==> NoneEnrolled(events, path)
      ensures r.Some? ==> LongestEnrolled(events, path, r.value.path)
    {
      hide Trie<R.Route>.Valid, R.Legal, R.StateAfter, NoRoute;
      r := Route(routes, path);
      if r.Some? {
        ghost var n: nat :| LongestAt(routes.contents, path, n) && r.value == routes.contents[path[..n]];
        R.NeverDeleted(events, path[..n]);
        EnrolledPrefix(events, path, n);
      }
      NoRouteIff(events, path);
    }
  }

  lemma QueueShrinks(s: R.Reg, dial: R.Dial)
    requires s.toOpen != []
    ensures R.OpenedOne(s, dial).toOpen == s.toOpen[1..]
  {
  }

  /** The registrar goes through every legal run as the protocol does. */
  method RunAll(hash: Key -> nat, events: seq<R.Event>) returns (reg: Registrar)
    requires R.Legal(events)
    ensures fresh(reg) && reg.Valid() && reg.Value() == R.StateAfter(events)
  {
    hide Trie<R.Route>.Valid, R.Legal, R.StateAfter, R.Enabled, R.Step;
    reg := new Registrar(hash);
    var i := 0;
    R.LegalNone();
    assert events[..0] == [];
    while i < |events|
      invariant i <= |events| && fresh(reg) && fresh(reg.routes) && fresh(Tables(reg.routes.nodes)) && reg.Valid()
      invariant R.Legal(events[..i]) && reg.Value() == R.StateAfter(events[..i])
    {
      R.LegalPrefix(events, i);
      R.Extended(events[..i], events[i]);
      assert events[..i] + [events[i]] == events[..i + 1];
      reg.Do(events[i]);
      i := i + 1;
    }
    assert events[..i] == events;
  }

  // ---------------------------------------------------------------------------
  // Routing
  // ---------------------------------------------------------------------------

  datatype Status = OK | NotFound | ServiceUnavailable

  /** The prefix of this length is the longest one registered. */
  ghost predicate LongestAt(table: map<R.Uri, R.Route>, path: R.Uri, n: nat) {
    && n <= |path| && path[..n] in table
    && forall j :: n < j <= |path| ==> path[..j] !in table
  }

  /** This is the route registered under the longest prefix of the path. */
  ghost predicate LongestRoute(table: map<R.Uri, R.Route>, path: R.Uri, r: R.Route) {
    exists n: nat :: LongestAt(table, path, n) && r == table[path[..n]]
  }

  ghost predicate NoRoute(table: map<R.Uri, R.Route>, path: R.Uri) {
    forall j :: 0 <= j <= |path| ==> path[..j] !in table
  }

  /** No prefix of the path is enrolled, by the events. */
  ghost predicate NoneEnrolled(events: seq<R.Event>, path: R.Uri)
    requires R.Legal(events)
  {
    forall j :: 0 <= j <= |path| ==> !N.Enrolled(events, path[..j])
  }

  /** This URI is the longest prefix of the path that is enrolled, by the events. */
  ghost predicate LongestEnrolled(events: seq<R.Event>, path: R.Uri, uri: R.Uri)
    requires R.Legal(events)
  {
    uri <= path && N.Enrolled(events, uri) && forall j :: |uri| < j <= |path| ==> !N.Enrolled(events, path[..j])
  }

  lemma NoRouteIff(events: seq<R.Event>, path: R.Uri)
    requires R.Legal(events)
    ensures NoRoute(R.StateAfter(events).table, path) <==> NoneEnrolled(events, path)
  {
    hide R.Legal, R.StateAfter, N.Enrolled;
    forall j | 0 <= j <= |path|
      ensures path[..j] in R.StateAfter(events).table <==> N.Enrolled(events, path[..j])
    {
      N.RoutedIff(events, path[..j]);
    }
  }

  lemma EnrolledPrefix(events: seq<R.Event>, path: R.Uri, n: nat)
    requires R.Legal(events) && LongestAt(R.StateAfter(events).table, path, n)
    ensures LongestEnrolled(events, path, path[..n])
  {
    hide R.Legal, R.StateAfter, N.Enrolled;
    forall j | 0 <= j <= |path|
      ensures path[..j] in R.StateAfter(events).table <==> N.Enrolled(events, path[..j])
    {
      N.RoutedIff(events, path[..j]);
    }
  }

  /** `route`: the route registered under the longest prefix of the path. */
  method Route(table: Trie<R.Route>, path: R.Uri) returns (r: Option<R.Route>)
    requires table.Valid()
    ensures r.None? <==> NoRoute(table.contents, path)
    ensures r.Some? ==> LongestRoute(table.contents, path, r.value)
  {
    hide Trie<R.Route>.Valid;
    var length, value := LongestValue(table, path);
    r := value;
    if length.Some? {
      assert LongestAt(table.contents, path, length.value);
    }
  }

  /** `routePush` and `routeRequest`: not found exactly if no prefix is registered, else as sending to the route goes. */
  method RoutePush(table: Trie<R.Route>, path: R.Uri, sends: R.Route -> bool) returns (status: Status)
    requires table.Valid()
    ensures status == NotFound <==> NoRoute(table.contents, path)
    ensures status != NotFound ==> exists r :: LongestRoute(table.contents, path, r) && (status == OK <==> sends(r))
  {
    hide Trie<R.Route>.Valid;
    var r := Route(table, path);
    if r.None? {
      return NotFound;
    }
    status := if sends(r.value) then OK else ServiceUnavailable;
  }
}

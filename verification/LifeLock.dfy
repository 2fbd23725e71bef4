/**
 The life lock: an object hands out weak pointers to itself, and its destruction
 waits until every shared pointer made from them is gone.

 The steps are those of one thread that destroys the lock, perhaps after retiring
 it, and of any number of observers that lock weak pointers and release them; each
 step is one atomic action on the status word or on the reference count.
 */
module LifeLock {
  import opened Options

  datatype Status = Empty | Working | Retired | Expired

  /** How far the destroyer has come; `destroying` tells `destroy` from an earlier `retire`. */
  datatype Progress =
    | NotYet       // neither `retire` nor `destroy` has been called
    | Moved(destroying: bool)    // the lock's own reference has been moved out
    | Marked(destroying: bool)   // the status word says retired
    | Early        // an earlier `retire` has returned the reference to its caller
    | Waiting      // the reference is dropped; the status word is watched
    | Seen         // the status word was found expired
    | Returned     // `destroy` has returned

  /**
   `own` is the lock's reference, `moved` the destroyer's copy of it, `holders`
   the shared pointers of observers. `dying` says that the count has come to
   zero and the deleter has not yet stored its mark.
   */
  datatype Lock = Lock(status: Status, own: bool, moved: bool, holders: nat, dying: bool, progress: Progress)

  datatype Event =
    | WeakLock      // an observer locks a weak pointer
    | Release       // an observer drops a shared pointer
    | Delete        // the deleter stores `expired`
    | Move(destroying: bool)   // `_retire`: the reference is moved out
    | Mark          // `_retire`: `retired` is stored
    | Drop          // the reference that `retire` returned is discarded
    | HandOut       // the reference that `retire` returned is kept by its caller, as a holder
    | Enter         // `destroy` after an earlier `retire` looks at the status word
    | Watch         // `_await_expiration` loads the status word
    | Finalize      // `empty` is stored, and `destroy` returns

  function Start(): Lock {
    Lock(Working, true, false, 0, false, NotYet)
  }

  /** The reference count. */
  function Count(s: Lock): nat {
    One(s.own) + One(s.moved) + s.holders
  }

  predicate Enabled(s: Lock, e: Event) {
    match e
    case WeakLock => true
    case Release => s.holders > 0
    case Delete => s.dying
    case Move(_) => s.progress == NotYet
    case Mark => s.progress.Moved?
    case Drop => s.progress == Marked(true)
    case HandOut => s.progress == Marked(false)
    case Enter => s.progress == Early
    case Watch => s.progress == Waiting
    case Finalize => s.progress == Seen
  }

  /** Dropping the last reference calls the deleter. */
  function Dropped(s: Lock): Lock {
    if Count(s) == 0 then s.(dying := true) else s
  }

  function Step(s: Lock, e: Event): Lock
    requires Enabled(s, e)
  {
    match e
    case WeakLock => if Count(s) > 0 then s.(holders := s.holders + 1) else s
    case Release => Dropped(s.(holders := s.holders - 1))
    case Delete => s.(status := Expired, dying := false)
    case Move(destroying) => s.(own := false, moved := s.own, progress := Moved(destroying))
    case Mark => s.(status := if s.moved then Retired else s.status, progress := Marked(s.progress.destroying))
    case Drop => if s.moved then Dropped(s.(moved := false, progress := Waiting)) else s.(progress := Waiting)
    case HandOut => s.(moved := false, holders := s.holders + One(s.moved), progress := Early)
    case Enter => s.(progress := if s.status == Expired then Seen else Waiting)
    case Watch => if s.status == Expired then s.(progress := Seen) else s
    case Finalize => s.(status := Empty, progress := Returned)
  }

  /** The events can happen one after the other, from the start. */
  ghost predicate Legal(events: seq<Event>)
    decreases |events|, 0
  {
    events == [] ||
    (Legal(events[..|events| - 1]) && Enabled(StateAfter(events[..|events| - 1]), events[|events| - 1]))
  }

  /** The state they lead to. */
  ghost function StateAfter(events: seq<Event>): Lock
    requires Legal(events)
    decreases |events|, 1
  {
    if events == [] then Start() else Step(StateAfter(events[..|events| - 1]), events[|events| - 1])
  }

  /** Only observers hold references; the deleter comes after the last of them. */
  ghost predicate Unowned(s: Lock) {
    && !s.own && !s.moved
    && if s.holders > 0 then s.status == Retired && !s.dying
       else (s.dying && s.status == Retired) || (!s.dying && s.status == Expired)
  }

  /** What the state must be at each point of the destruction. */
  ghost predicate Inv(s: Lock) {
    match s.progress
    case NotYet => s.own && !s.moved && s.status == Working && !s.dying
    case Moved(_) => !s.own && s.moved && s.status == Working && !s.dying
    case Marked(_) => !s.own && s.moved && s.status == Retired && !s.dying
    case Early => Unowned(s)
    case Waiting => Unowned(s)
    case Seen => Count(s) == 0 && !s.dying && s.status == Expired
    case Returned => Count(s) == 0 && !s.dying && s.status == Empty
  }

  lemma WeakLockKeeps(s: Lock)
    requires Inv(s)
    ensures Inv(Step(s, WeakLock))
  {
  }

  lemma ReleaseKeeps(s: Lock)
    requires Inv(s) && s.holders > 0
    ensures Inv(Step(s, Release))
  {
  }

  lemma DeleteKeeps(s: Lock)
    requires Inv(s) && s.dying
    ensures Inv(Step(s, Delete)) && s.status == Retired
  {
  }

  lemma DestroyerKeeps(s: Lock, e: Event)
    requires Inv(s) && Enabled(s, e) && !e.WeakLock? && !e.Release? && !e.Delete?
    ensures Inv(Step(s, e))
  {
  }

  lemma StepKeepsInv(s: Lock, e: Event)
    requires Inv(s) && Enabled(s, e)
    ensures Inv(Step(s, e))
  {
    hide Inv, Step;
    match e
    case WeakLock => WeakLockKeeps(s);
    case Release => ReleaseKeeps(s);
    case Delete => DeleteKeeps(s);
    case _ => DestroyerKeeps(s, e);
  }

  lemma StepForward(s: Lock, e: Event)
    requires Inv(s) && Enabled(s, e)
    ensures Rank(s.status) <= Rank(Step(s, e).status)
  {
    if e.Delete? {
      DeleteKeeps(s);
    }
  }

  lemma StaysZero(s: Lock, e: Event)
    requires Enabled(s, e) && Count(s) == 0
    ensures Count(Step(s, e)) == 0
  {
  }

  lemma {:induction false} RunKeepsInv(events: seq<Event>)
    requires Legal(events)
    ensures Inv(StateAfter(events))
    decreases |events|
  {
    hide Inv, Step, Enabled;
    if events == [] {
      StartInv();
    } else {
      var init := events[..|events| - 1];
      RunKeepsInv(init);
      StepKeepsInv(StateAfter(init), events[|events| - 1]);
    }
  }

  lemma StartInv()
    ensures Inv(Start())
  {
  }

  /**
   `destroy` returns only when the last shared pointer is gone and the deleter is
   through, and so it is when it comes after an earlier `retire` whose reference
   is still held.
   */
  lemma {:induction false} ReturnsLast(events: seq<Event>)
    requires Legal(events)
    ensures var s := StateAfter(events);
            s.progress == Returned ==> Count(s) == 0 && !s.dying && s.status == Empty
  {
    hide Legal, StateAfter;
    RunKeepsInv(events);
  }

  /** The first events of a run are a run. */
  lemma {:induction false} Prefix(events: seq<Event>, n: nat)
    requires Legal(events) && n <= |events|
    ensures Legal(events[..n])
    decreases |events|
  {
    if n == |events| {
      assert events[..n] == events;
    } else {
      Prefix(events[..|events| - 1], n);
      assert events[..|events| - 1][..n] == events[..n];
    }
  }

  /** Once the count is zero no weak pointer can be locked any more; so none can after `destroy` has returned. */
  lemma {:induction false} NoLockAfter(events: seq<Event>, n: nat)
    requires Legal(events) && n <= |events|
    ensures Legal(events[..n])
    ensures Count(StateAfter(events[..n])) == 0 ==>
              Count(StateAfter(events)) == 0 && Step(StateAfter(events), WeakLock) == StateAfter(events)
    decreases |events|
  {
    Prefix(events, n);
    if n == |events| {
      assert events[..n] == events;
    } else {
      var init := events[..|events| - 1];
      NoLockAfter(init, n);
      assert init[..n] == events[..n];
      if Count(StateAfter(init)) == 0 {
        StaysZero(StateAfter(init), events[|events| - 1]);
      }
    }
  }

  /** The order of the status word: it never goes back, in particular never from expired to retired. */
  function Rank(s: Status): nat {
    match s
    case Working => 0
    case Retired => 1
    case Expired => 2
    case Empty => 3
  }

  lemma {:induction false} StatusForward(events: seq<Event>, n: nat)
    requires Legal(events) && n <= |events|
    ensures Legal(events[..n]) && Rank(StateAfter(events[..n]).status) <= Rank(StateAfter(events).status)
    decreases |events|
  {
    hide Inv, Step, Enabled, Rank;
    Prefix(events, n);
    if n == |events| {
      assert events[..n] == events;
    } else {
      var init := events[..|events| - 1];
      StatusForward(init, n);
      assert init[..n] == events[..n];
      RunKeepsInv(init);
      StepForward(StateAfter(init), events[|events| - 1]);
    }
  }

  /** While the destroyer waits, or the lock is retired early, the status word is retired or expired, so the wait is never refused. */
  lemma {:induction false} WaitIsValid(events: seq<Event>)
    requires Legal(events)
    ensures var s := StateAfter(events);
            s.progress == Waiting || s.progress == Early ==>
              && (s.status == Retired || s.status == Expired)
              && (s.status == Retired <==> s.holders > 0 || s.dying)
  {
    hide Legal, StateAfter;
    RunKeepsInv(events);
  }

  /** The deleter runs at most once. */
  lemma {:induction false} DeletedOnce(events: seq<Event>, n: nat)
    requires Legal(events) && n < |events| && events[n] == Delete
    ensures !Enabled(StateAfter(events), Delete)
  {
    Prefix(events, n + 1);
    Prefix(events, n);
    var e := events[..n + 1];
    assert e[..|e| - 1] == events[..n] && e[|e| - 1] == Delete;
    assert StateAfter(e).status == Expired;
    StatusForward(events, n + 1);
    RunKeepsInv(events);
  }

  /** The wait ends: with no holders left, the deleter's mark and one more look let `destroy` return. */
  lemma {:induction false} Progresses(events: seq<Event>)
    requires Legal(events)
    ensures var s := StateAfter(events);
            s.progress == Waiting && s.holders == 0 ==>
              var t := if s.dying then Step(s, Delete) else s;
              Enabled(t, Watch) && Enabled(Step(t, Watch), Finalize)
  {
    hide Legal, StateAfter;
    RunKeepsInv(events);
  }

  /** A run with an early `retire`: `destroy` waits for the reference it returned. */
  lemma EarlyExample()
    ensures Legal([Move(false), Mark, HandOut, Enter])
    ensures var s := StateAfter([Move(false), Mark, HandOut, Enter]);
            s.progress == Waiting && s.holders == 1 && s.status == Retired && Step(s, Watch) == s
  {
    var a, b, c, d := [Move(false)], [Move(false), Mark], [Move(false), Mark, HandOut], [Move(false), Mark, HandOut, Enter];
    assert a[..0] == [] && b[..1] == a && c[..2] == b && d[..3] == c;
    assert Legal(a[..0]);
    assert Legal(a);
    assert Legal(b);
    assert Legal(c);
  }

  // ---------------------------------------------------------------------------
  // The holders, counted from the events
  // ---------------------------------------------------------------------------

  /** The lock's own reference has neither been dropped nor handed out. */
  predicate Owned(events: seq<Event>) {
    Drop !in events && HandOut !in events
  }

  /** How many shared pointers observers hold: weak pointers locked while there was a reference, and one handed out, less releases. */
  function Held(events: seq<Event>): int {
    if events == [] then 0
    else
      var init := events[..|events| - 1];
      Held(init) +
      match events[|events| - 1]
      case WeakLock => One(Owned(init) || Held(init) > 0)
      case HandOut => 1
      case Release => -1
      case _ => 0
  }

  lemma StepHolders(s: Lock, e: Event, events: seq<Event>)
    requires Inv(s) && Enabled(s, e)
    requires s.holders == Held(events) && (s.own || s.moved <==> Owned(events))
    ensures Step(s, e).holders == Held(events + [e]) && (Step(s, e).own || Step(s, e).moved <==> Owned(events + [e]))
  {
    assert (events + [e])[..|events|] == events;
  }

  /** The holders are those, and a weak pointer can be locked just while the lock owns its reference or somebody holds one. */
  lemma {:induction false} HoldersCounted(events: seq<Event>)
    requires Legal(events)
    ensures var s := StateAfter(events);
            && s.holders == Held(events) && (s.own || s.moved <==> Owned(events))
            && Step(s, WeakLock) == s.(holders := Held(events) + One(Owned(events) || Held(events) > 0))
    decreases |events|
  {
    hide Inv, Enabled;
    if events != [] {
      var init, e := events[..|events| - 1], events[|events| - 1];
      HoldersCounted(init);
      RunKeepsInv(init);
      StepHolders(StateAfter(init), e, init);
      assert init + [e] == events;
    }
  }

  /** The status word gets past retired by the deleter's mark alone. */
  lemma StepMarks(s: Lock, e: Event)
    requires Inv(s) && Enabled(s, e)
    ensures Rank(Step(s, e).status) >= 2 <==> Rank(s.status) >= 2 || e == Delete
  {
    hide Inv, Rank, Count;
    PastRetired(s.status);
    PastRetired(Step(s, e).status);
    match e
    case Mark => NotYetMarked(s);
    case Finalize => SeenExpired(s);
    case _ =>
  }

  lemma PastRetired(st: Status)
    ensures Rank(st) >= 2 <==> st == Expired || st == Empty
  {
  }

  lemma NotYetMarked(s: Lock)
    requires Inv(s) && s.progress.Moved?
    ensures s.status == Working
  {
  }

  lemma SeenExpired(s: Lock)
    requires Inv(s) && s.progress == Seen
    ensures s.status == Expired
  {
  }

  lemma StepReturns(s: Lock, e: Event)
    requires Enabled(s, e)
    ensures Step(s, e).progress == Returned <==> s.progress == Returned || e == Finalize
  {
    hide Count;
  }

  lemma {:induction false} MarksInRun(events: seq<Event>)
    requires Legal(events)
    ensures Rank(StateAfter(events).status) >= 2 <==> Delete in events
    ensures StateAfter(events).progress == Returned <==> Finalize in events
    decreases |events|
  {
    hide Inv, Enabled, Step, Rank;
    if events == [] {
      assert Rank(Start().status) == 0 by {
        StartRank();
      }
    } else {
      var init, e := events[..|events| - 1], events[|events| - 1];
      MarksInRun(init);
      RunKeepsInv(init);
      StepMarks(StateAfter(init), e);
      StepReturns(StateAfter(init), e);
      assert events == init + [e];
    }
  }

  lemma StartRank()
    ensures Rank(Start().status) == 0
  {
  }

  /**
   The object is deleted exactly when the lock's reference and every holder are
   gone, once the deleter has had its turn, and `destroy` returns only after that.
   */
  lemma {:induction false} DeletedLast(events: seq<Event>)
    requires Legal(events)
    ensures Delete in events || Enabled(StateAfter(events), Delete) <==> !Owned(events) && Held(events) == 0
    ensures Delete in events ==> !Owned(events) && Held(events) == 0
    ensures Finalize in events ==> Delete in events
  {
    hide Legal, StateAfter, Held, Owned;
    RunKeepsInv(events);
    HoldersCounted(events);
    MarksInRun(events);
  }

  /** A `destroy` after an earlier `retire` goes on at once exactly if the object has been deleted, and else waits. */
  lemma {:induction false} EnterIff(events: seq<Event>)
    requires Legal(events) && Enabled(StateAfter(events), Enter)
    ensures var t := Step(StateAfter(events), Enter);
            && (Enabled(t, Finalize) <==> Delete in events)
            && (Enabled(t, Watch) <==> Delete !in events)
  {
    hide Legal, StateAfter;
    RunKeepsInv(events);
    MarksInRun(events);
  }
}

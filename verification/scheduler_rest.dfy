/**
 * When a worker's callback fiber is at rest at the head of its loop, and when an assertion about fiber states fails:
 * the exact conditions, whatever pops steal.
 */
module SchedulerRest {
  import opened Schedulers
  import opened SchedulerRuns
  import opened SchedulerFibers
  import opened Wrappers

  /** The fiber is in INIT and no one refers to it: not from outside, not in the queue, not any worker. */
  ghost predicate AtRest(w: World, c: nat) {
    c in w.fibers && w.fibers[c] == INIT && Unreferenced(w, c) && forall j :: j in w.workers ==> !HandIs(w, j, c)
  }

  /** A worker not busy with its callback fiber keeps it at rest. */
  ghost predicate Rests(w: World, i: nat)
    requires i in w.workers
  {
    var pc, cbFiber := w.workers[i].pc, w.workers[i].cbFiber;
    && (Hand(w, i).Some? ==> Hand(w, i).value in w.fibers)
    && (OnOwn(pc) ==> cbFiber == Some(pc.fiber))
    && (!OnOwn(pc) && cbFiber.Some? ==> AtRest(w, cbFiber.value))
    && (cbFiber.Some? ==> cbFiber.value in w.fibers)
  }

  /** Two workers have different callback fibers. */
  predicate CbApart(w: World, i: nat, j: nat) {
    i != j && i in w.workers && w.workers[i].cbFiber.Some? ==> !CbIs(w, j, w.workers[i].cbFiber.value)
  }

  ghost predicate Rest(w: World) {
    && Known(w)
    && (forall i :: i in w.workers ==> Rests(w, i))
    && (forall i, j :: i in w.workers && j in w.workers ==> CbApart(w, i, j))
  }

  /** A worker keeps for its next callback an ended fiber that someone else still has in hand or refers to. */
  ghost predicate Reuses(w: World, a: Action) {
    && a.Settle? && a.i in w.workers && w.workers[a.i].pc.Looked?
    && w.workers[a.i].pc.own && Ended(w.workers[a.i].pc.seen)
    && (!Unreferenced(w, w.workers[a.i].pc.fiber)
        || exists j :: j in w.workers && j != a.i && HandIs(w, j, w.workers[a.i].pc.fiber))
  }

  // ----- every step

  /** A fiber at rest stays so, and no hand takes it, unless it is the stepping worker's own. */
  lemma StaysAtRest(w: World, a: Action, i: nat, c: nat)
    requires Rest(w) && Enabled(w, a) && i in w.workers && CbIs(w, i, c) && AtRest(w, c)
    requires !(ByWorker(a) && a.i == i)
    ensures AtRest(Step(w, a), c)
  {
    hide Step, Enabled, Known, Unreferenced, HandIs, CbIs;
    ActorKnown(w, a);
    if ByWorker(a) {
      assert CbApart(w, i, a.i);
      NotCb(w, i, a.i, c);
    }
    StatesStay(w, a, c);
    ReferencesStay(w, a, c);
    var w' := Step(w, a);
    forall j | j in w'.workers
      ensures !HandIs(w', j, c)
    {
      StaysOutOfHand(w, a, j, c);
    }
  }

  lemma NotCb(w: World, i: nat, j: nat, c: nat)
    requires CbApart(w, i, j) && i != j && CbIs(w, i, c)
    ensures !CbIs(w, j, c)
  {
  }

  lemma StaysOutOfHand(w: World, a: Action, j: nat, c: nat)
    requires Enabled(w, a) && AtRest(w, c) && j in Step(w, a).workers
    requires ByWorker(a) && a.i == j ==> !CbIs(w, j, c)
    ensures !HandIs(Step(w, a), j, c)
  {
    hide Step, Enabled, HandIs, CbIs, InQueue;
    StepMoves(w, a);
    if ByWorker(a) && a.i == j {
      HandStep(w, a, c);
      if a.Pop? {
        PopQueued(w, a);
      }
      MadeNew(w, a);
    } else {
      OthersStay(w, a, j);
    }
  }

  lemma MadeNew(w: World, a: Action)
    requires Enabled(w, a)
    ensures a.Begin? ==> a.made !in w.fibers
    ensures ByWorker(a) ==> a.i in w.workers
  {
  }

  lemma OtherRests(w: World, a: Action, i: nat)
    requires Rest(w) && Enabled(w, a) && i in w.workers && !(ByWorker(a) && a.i == i)
    ensures i in Step(w, a).workers && Rests(Step(w, a), i)
  {
    hide Step, Enabled, Known, AtRest, CbApart;
    OthersStay(w, a, i);
    assert Rests(w, i);
    if Hand(w, i).Some? {
      FibersGrow(w, a, Hand(w, i).value);
    }
    var cbFiber := w.workers[i].cbFiber;
    if cbFiber.Some? {
      FibersGrow(w, a, cbFiber.value);
      if !OnOwn(w.workers[i].pc) {
        StaysAtRest(w, a, i, cbFiber.value);
      }
    }
  }

  // The worker that takes the step, by the step.

  lemma PopRests(w: World, a: Action)
    requires Rest(w) && Enabled(w, a) && a.Pop?
    ensures a.i in Step(w, a).workers && Rests(Step(w, a), a.i)
  {
    hide NothingFor, Stopping, CbApart;
    assert Rests(w, a.i);
    var c, e := w.workers[a.i].cbFiber, w.queue[a.k];
    if e.work.Fib? {
      assert InQueue(w, e.work.fiber);
    }
    if c.Some? {
      ReferencesStay(w, a, c.value);
      OthersOutOfHand(w, a, c.value);
    }
  }

  /** The other workers' hands do not change. */
  lemma OthersOutOfHand(w: World, a: Action, c: nat)
    requires Enabled(w, a) && ByWorker(a) && forall j :: j in w.workers && j != a.i ==> !HandIs(w, j, c)
    ensures forall j :: j in Step(w, a).workers && j != a.i ==> !HandIs(Step(w, a), j, c)
  {
    hide Step, Enabled, HandIs, CbIs;
    StepMoves(w, a);
    forall j | j in Step(w, a).workers && j != a.i
      ensures !HandIs(Step(w, a), j, c)
    {
      OthersStay(w, a, j);
    }
  }

  /** A callback begins on a fiber that is at rest, so the assertions in `reset` and `swapIn` hold. */
  lemma CallbackBegins(w: World, a: Action)
    requires Rest(w) && Enabled(w, a) && a.Begin? && w.workers[a.i].pc.entry.work.Cb?
    ensures !Step(w, a).aborted && a.i in Step(w, a).workers && Rests(Step(w, a), a.i)
  {
    hide First, NothingFor, Stopping, CbApart, InQueue;
    assert Rests(w, a.i);
  }

  lemma FiberBegins(w: World, a: Action)
    requires Rest(w) && Enabled(w, a) && a.Begin? && w.workers[a.i].pc.entry.work.Fib? && !Step(w, a).aborted
    ensures a.i in Step(w, a).workers && Rests(Step(w, a), a.i)
  {
    hide First, NothingFor, Stopping, CbApart, InQueue;
    assert Rests(w, a.i);
    SameReferences(w, Step(w, a));
    var c := w.workers[a.i].cbFiber;
    if c.Some? {
      OthersOutOfHand(w, a, c.value);
    }
  }

  lemma MiddleRests(w: World, a: Action)
    requires Rest(w) && Enabled(w, a)
    requires a.Yield? || a.Finish? || a.Decrement? || a.Look? || a.GoIdle? || a.ComeBack?
    ensures a.i in Step(w, a).workers && Rests(Step(w, a), a.i)
  {
    hide First, NothingFor, Stopping, CbApart, InQueue;
    assert Rests(w, a.i);
    SameReferences(w, Step(w, a));
    var c := w.workers[a.i].cbFiber;
    if c.Some? && !OnOwn(w.workers[a.i].pc) {
      OthersOutOfHand(w, a, c.value);
    }
  }

  /** Settling leaves the worker's callback fiber at rest, unless it reuses one that someone else has. */
  lemma SettleRests(w: World, a: Action)
    requires Rest(w) && Enabled(w, a) && a.Settle? && !Step(w, a).aborted
    ensures a.i in Step(w, a).workers && (Rests(Step(w, a), a.i) <==> !Reuses(w, a))
  {
    hide First, NothingFor, Stopping, CbApart, Known;
    assert Rests(w, a.i);
    var pc, c := w.workers[a.i].pc, w.workers[a.i].cbFiber;
    var w' := Step(w, a);
    if pc.own && Ended(pc.seen) {
      SettleOwn(w, a);
    } else if c.Some? && !pc.own {
      ReferencesStay(w, a, c.value);
      OthersOutOfHand(w, a, c.value);
    }
  }

  lemma SettleOwn(w: World, a: Action)
    requires Rest(w) && Enabled(w, a) && a.Settle? && !Step(w, a).aborted
    requires w.workers[a.i].pc.own && Ended(w.workers[a.i].pc.seen)
    ensures a.i in Step(w, a).workers && (Rests(Step(w, a), a.i) <==> !Reuses(w, a))
  {
    hide First, NothingFor, Stopping, CbApart, Known, InQueue;
    assert Rests(w, a.i);
    var f, w' := w.workers[a.i].pc.fiber, Step(w, a);
    SameReferences(w, w');
    StepMoves(w, a);
    forall j | j in w.workers && j != a.i
      ensures HandIs(w', j, f) <==> HandIs(w, j, f)
    {
      OthersStay(w, a, j);
    }
    if Reuses(w, a) && Unreferenced(w, f) {
      var j :| j in w.workers && j != a.i && HandIs(w, j, f);
      assert HandIs(w', j, f);
    }
  }

  lemma MoverRests(w: World, a: Action)
    requires Rest(w) && Enabled(w, a) && ByWorker(a) && !Step(w, a).aborted
    ensures a.i in Step(w, a).workers && (Rests(Step(w, a), a.i) <==> !Reuses(w, a))
  {
    hide Step, Rest, Rests;
    MadeNew(w, a);
    if a.Pop? {
      PopRests(w, a);
    } else if a.Begin? {
      BeginTask(w, a);
      if w.workers[a.i].pc.entry.work.Cb? {
        CallbackBegins(w, a);
      } else {
        FiberBegins(w, a);
      }
    } else if a.Settle? {
      SettleRests(w, a);
    } else {
      MiddleRests(w, a);
    }
  }

  lemma BeginTask(w: World, a: Action)
    requires Enabled(w, a) && a.Begin?
    ensures a.i in w.workers && w.workers[a.i].pc.Popped?
  {
  }

  lemma KnownStays(w: World, a: Action)
    requires Rest(w) && Enabled(w, a) && !Step(w, a).aborted
    ensures Known(Step(w, a))
  {
    hide Step, Enabled, CbApart, AtRest, InQueue;
    ActorKnown(w, a);
    var w' := Step(w, a);
    assert ByWorker(a) || Refers(a) ==> Rests(w, a.i);
    forall f | f in w'.slots
      ensures f in w'.fibers
    {
      SlotFrom(w, a, f);
      if f in w.fibers {
        FibersGrow(w, a, f);
      }
    }
    forall f | InQueue(w', f)
      ensures f in w'.fibers
    {
      QueueFrom(w, a, f);
      FibersGrow(w, a, f);
    }
  }

  /** Where a reference from outside comes from. */
  lemma SlotFrom(w: World, a: Action, f: nat)
    requires Enabled(w, a) && f in Step(w, a).slots
    ensures f in w.slots || (Refers(a) && HandIs(w, a.i, f)) || f in Step(w, a).fibers
  {
  }

  lemma CbsStay(w: World, a: Action, i: nat, j: nat)
    requires Rest(w) && Enabled(w, a) && i in w.workers && j in w.workers && i != j
    ensures CbApart(Step(w, a), i, j)
  {
    hide Step, Enabled, AtRest, Known, HandIs;
    ActorKnown(w, a);
    MadeNew(w, a);
    var w' := Step(w, a);
    assert CbApart(w, i, j) && CbApart(w, j, i) && Rests(w, i) && Rests(w, j);
    forall c | CbIs(w', i, c)
      ensures !CbIs(w', j, c)
    {
      CbFrom(w, a, i, c);
      CbFrom(w, a, j, c);
    }
  }

  lemma CbFrom(w: World, a: Action, i: nat, c: nat)
    requires Enabled(w, a) && i in w.workers
    ensures CbIs(Step(w, a), i, c) ==> CbIs(w, i, c) || (a.Begin? && a.i == i && c == a.made)
  {
    hide Step, Enabled;
    if ByWorker(a) && a.i == i {
      HandStep(w, a, c);
    } else {
      OthersStay(w, a, i);
    }
  }

  /** Short of an abort, every step keeps the callback fibers at rest, except exactly one that reuses a fiber. */
  lemma RestKeeps(w: World, a: Action)
    requires Rest(w) && Enabled(w, a) && !Step(w, a).aborted
    ensures Rest(Step(w, a)) <==> !Reuses(w, a)
  {
    hide Step, Enabled, Rests, Known, CbApart, Reuses;
    var w' := Step(w, a);
    StepMoves(w, a);
    KnownStays(w, a);
    ReusesSettles(w, a);
    if ByWorker(a) {
      MoverRests(w, a);
    }
    forall i | i in w'.workers && !(ByWorker(a) && a.i == i)
      ensures Rests(w', i)
    {
      OtherRests(w, a, i);
    }
    forall i, j | i in w'.workers && j in w'.workers
      ensures CbApart(w', i, j)
    {
      if i == j {
        CbApartSelf(w', i);
      } else {
        CbsStay(w, a, i, j);
      }
    }
  }

  lemma ReusesSettles(w: World, a: Action)
    ensures Reuses(w, a) ==> ByWorker(a)
  {
  }

  lemma CbApartSelf(w: World, i: nat)
    ensures CbApart(w, i, i)
  {
  }

  // ----- when an assertion fails

  /**
   * With the callback fibers at rest, a step fails an assertion exactly in one of three ways: a popped fiber is entered
   * while it is in EXEC; a running fiber registers an event while its state says it is not in EXEC; a worker resets its
   * ended callback fiber, the state of which someone has changed since the worker looked. No callback's beginning does.
   */
  lemma AbortsExactly(w: World, a: Action)
    requires Rest(w) && Enabled(w, a)
    ensures ByWorker(a) || Refers(a) ==> a.i in w.workers
    ensures Step(w, a).aborted <==>
      || (a.Begin? && exists f :: w.workers[a.i].pc.entry.work == Fib(f) && f in w.fibers && w.fibers[f] == EXEC)
      || (a.Register? && w.fibers[w.workers[a.i].pc.fiber] != EXEC)
      || (a.Settle? && w.workers[a.i].pc.own && Ended(w.workers[a.i].pc.seen)
          && !Ended(w.fibers[w.workers[a.i].pc.fiber]) && w.fibers[w.workers[a.i].pc.fiber] != INIT)
  {
    hide First, NothingFor, Stopping, CbApart, InQueue;
    ActorKnown(w, a);
    assert ByWorker(a) || Refers(a) ==> Rests(w, a.i);
  }

  // ----- runs

  /** At the head of its loop every worker's callback fiber is absent, or at rest and no other worker's. */
  ghost predicate HeadsAtRest(w: World) {
    forall i, c :: i in w.workers && w.workers[i].pc.Head? && CbIs(w, i, c) ==>
      AtRest(w, c) && forall j :: j in w.workers && j != i ==> !CbIs(w, j, c)
  }

  ghost predicate AlwaysAtRest(w: World, actions: seq<Action>)
    requires IsRun(w, actions)
    decreases |actions|
  {
    HeadsAtRest(w) && (actions == [] || AlwaysAtRest(Step(w, actions[0]), actions[1..]))
  }

  ghost predicate NoneReuses(w: World, actions: seq<Action>)
    requires IsRun(w, actions)
    decreases |actions|
  {
    actions == [] || (!Reuses(w, actions[0]) && NoneReuses(Step(w, actions[0]), actions[1..]))
  }

  lemma RestHeads(w: World)
    requires Rest(w)
    ensures HeadsAtRest(w)
  {
    hide Known, AtRest;
    forall i, c | i in w.workers && w.workers[i].pc.Head? && CbIs(w, i, c)
      ensures AtRest(w, c) && forall j :: j in w.workers && j != i ==> !CbIs(w, j, c)
    {
      assert Rests(w, i);
      forall j | j in w.workers && j != i
        ensures !CbIs(w, j, c)
      {
        assert CbApart(w, i, j);
      }
    }
  }

  /** A worker that reuses a fiber is at the head of its loop with a callback fiber that is not at rest. */
  lemma ReuseShows(w: World, a: Action)
    requires Rest(w) && Enabled(w, a) && !Step(w, a).aborted && Reuses(w, a)
    ensures !HeadsAtRest(Step(w, a))
  {
    hide First, NothingFor, Stopping, CbApart, Known, InQueue;
    assert Rests(w, a.i);
    var f, w' := w.workers[a.i].pc.fiber, Step(w, a);
    SameReferences(w, w');
    assert w'.workers[a.i].pc.Head? && CbIs(w', a.i, f);
    if Unreferenced(w, f) {
      var j :| j in w.workers && j != a.i && HandIs(w, j, f);
      OthersStay(w, a, j);
      assert HandIs(w', j, f);
    }
    assert !AtRest(w', f);
  }

  lemma AbortEnds(w: World, actions: seq<Action>)
    requires IsRun(w, actions) && w.aborted
    ensures Run(w, actions).aborted
  {
  }

  /**
   * In a run that fails no assertion, every worker's callback fiber is absent or at rest whenever the worker is at the
   * head of its loop, if and only if no worker ever keeps an ended fiber that someone else has in hand or refers to.
   */
  lemma {:induction false} AtRestExactly(w: World, actions: seq<Action>)
    requires Rest(w) && IsRun(w, actions) && !Run(w, actions).aborted
    ensures AlwaysAtRest(w, actions) <==> NoneReuses(w, actions)
    decreases |actions|
  {
    hide Step, Enabled, Rest, Reuses, HeadsAtRest;
    RestHeads(w);
    if actions != [] {
      var a := actions[0];
      if Step(w, a).aborted {
        AbortEnds(Step(w, a), actions[1..]);
      }
      RestKeeps(w, a);
      if Reuses(w, a) {
        ReuseShows(w, a);
      } else {
        AtRestExactly(Step(w, a), actions[1..]);
      }
    }
  }

  lemma InitialRest(threads: set<nat>)
    ensures Rest(Initial(threads))
  {
  }

  /**
   * At the head of the loop the callback fiber is absent, or it is in INIT and no one refers to it: not from outside,
   * not in the queue, not any other worker.
   */
  lemma HeadAtRest(w: World, i: nat, c: nat)
    requires Rest(w) && i in w.workers && w.workers[i].pc.Head? && CbIs(w, i, c)
    ensures c in w.fibers && w.fibers[c] == INIT && c !in w.slots && !InQueue(w, c)
    ensures forall j :: j in w.workers ==> !HandIs(w, j, c) && (j != i ==> !CbIs(w, j, c))
  {
    RestHeads(w);
  }

  /** Exclusive hands keep the callback fibers at rest. */
  lemma ExclusiveRests(w: World)
    requires Exclusive(w)
    ensures Rest(w)
  {
    hide Known;
    forall i | i in w.workers
      ensures Rests(w, i)
    {
      assert HandFits(w, i) && CbFits(w, i);
      var c := w.workers[i].cbFiber;
      if c.Some? && !OnOwn(w.workers[i].pc) {
        forall j | j in w.workers
          ensures !HandIs(w, j, c.value)
        {
          if j != i {
            NotOthers(w, i, j, c.value);
          }
        }
      }
    }
    forall i, j | i in w.workers && j in w.workers
      ensures CbApart(w, i, j)
    {
      assert Apart(w, i, j);
    }
  }

  // ----- particular runs of two workers

  /** The first worker reads that the fiber has parked. */
  lemma LetsGo(from: World, s: seq<Action>) returns (s': seq<Action>)
    requires Reaches(from, s, Two(Fiber(HOLD), Returned(7, true, 0), Some(7), Popped(SECOND), [], {}, 2, {}, 2))
    ensures s' == s + [Decrement(0), Look(0)]
    ensures Reaches(from, s', Two(Fiber(HOLD), Looked(7, true, HOLD), Some(7), Popped(SECOND), [], {}, 2, {0}, 1))
  {
    hide Reaches;
    var w := Two(Fiber(HOLD), Returned(7, true, 0), Some(7), Popped(SECOND), [], {}, 2, {}, 2);
    var w' := Two(Fiber(HOLD), After(7, true), Some(7), Popped(SECOND), [], {}, 2, {0}, 1);
    s' := Then(from, s, w, Decrement(0), w');
    s' := Then(from, s', w', Look(0), Two(Fiber(HOLD), Looked(7, true, HOLD), Some(7), Popped(SECOND), [], {}, 2, {0}, 1));
  }

  /** It lets the fiber go. */
  lemma LeavesIt(from: World, s: seq<Action>) returns (s': seq<Action>)
    requires Reaches(from, s, Two(Fiber(HOLD), Looked(7, true, HOLD), Some(7), Popped(SECOND), [], {}, 2, {0}, 1))
    ensures s' == s + [Settle(0)]
    ensures Reaches(from, s', Two(Fiber(HOLD), Head, None, Popped(SECOND), [], {}, 2, {0}, 1))
  {
    hide Reaches;
    var w := Two(Fiber(HOLD), Looked(7, true, HOLD), Some(7), Popped(SECOND), [], {}, 2, {0}, 1);
    s' := Then(from, s, w, Settle(0), Two(Fiber(HOLD), Head, None, Popped(SECOND), [], {}, 2, {0}, 1));
  }

  /** The second worker enters it. */
  lemma EntersLast(from: World, s: seq<Action>) returns (s': seq<Action>)
    requires Reaches(from, s, Two(Fiber(HOLD), Head, None, Popped(SECOND), [], {}, 2, {0}, 1))
    ensures s' == s + [Begin(1, 8)]
    ensures Reaches(from, s', Two(Fiber(EXEC), Head, None, Running(7, false, 1), [], {}, 2, {0}, 1))
  {
    hide Reaches;
    var w := Two(Fiber(HOLD), Head, None, Popped(SECOND), [], {}, 2, {0}, 1);
    s' := Then(from, s, w, Begin(1, 8), Two(Fiber(EXEC), Head, None, Running(7, false, 1), [], {}, 2, {0}, 1));
  }

  /** The fiber ends. */
  lemma EndsCounts(from: World, s: seq<Action>) returns (s': seq<Action>)
    requires Reaches(from, s, Two(Fiber(EXEC), Head, None, Running(7, false, 1), [], {}, 2, {0}, 1))
    ensures s' == s + [Finish(1, false), Decrement(1)]
    ensures Reaches(from, s', Two(Fiber(TERM), Head, None, After(7, false), [], {}, 2, {0, 1}, 0))
  {
    hide Reaches;
    var w := Two(Fiber(EXEC), Head, None, Running(7, false, 1), [], {}, 2, {0}, 1);
    var w' := Two(Fiber(TERM), Head, None, Returned(7, false, 1), [], {}, 2, {0}, 1);
    s' := Then(from, s, w, Finish(1, false), w');
    s' := Then(from, s', w', Decrement(1), Two(Fiber(TERM), Head, None, After(7, false), [], {}, 2, {0, 1}, 0));
  }

  /** The second worker drops it. */
  lemma Drops(from: World, s: seq<Action>) returns (s': seq<Action>)
    requires Reaches(from, s, Two(Fiber(TERM), Head, None, After(7, false), [], {}, 2, {0, 1}, 0))
    ensures s' == s + [Look(1), Settle(1)]
    ensures Reaches(from, s', Two(Fiber(TERM), Head, None, Head, [], {}, 2, {0, 1}, 0))
  {
    hide Reaches;
    var w := Two(Fiber(TERM), Head, None, After(7, false), [], {}, 2, {0, 1}, 0);
    var w' := Two(Fiber(TERM), Head, None, Looked(7, false, TERM), [], {}, 2, {0, 1}, 0);
    s' := Then(from, s, w, Look(1), w');
    s' := Then(from, s', w', Settle(1), Two(Fiber(TERM), Head, None, Head, [], {}, 2, {0, 1}, 0));
  }

  /** The second worker enters the fiber before the first has looked at it. */
  lemma EntersFirst(from: World, s: seq<Action>) returns (s': seq<Action>)
    requires Reaches(from, s, Two(Fiber(HOLD), Returned(7, true, 0), Some(7), Popped(SECOND), [], {}, 2, {}, 2))
    ensures s' == s + [Begin(1, 8), Decrement(0)]
    ensures Reaches(from, s', Two(Fiber(EXEC), After(7, true), Some(7), Running(7, false, 1), [], {}, 2, {0}, 1))
  {
    hide Reaches;
    var w := Two(Fiber(HOLD), Returned(7, true, 0), Some(7), Popped(SECOND), [], {}, 2, {}, 2);
    var w' := Two(Fiber(EXEC), Returned(7, true, 0), Some(7), Running(7, false, 1), [], {}, 2, {}, 2);
    s' := Then(from, s, w, Begin(1, 8), w');
    s' := Then(from, s', w', Decrement(0), Two(Fiber(EXEC), After(7, true), Some(7), Running(7, false, 1), [], {}, 2, {0}, 1));
  }

  /** The first worker reads EXEC. */
  lemma ReadsExec(from: World, s: seq<Action>) returns (s': seq<Action>)
    requires Reaches(from, s, Two(Fiber(EXEC), After(7, true), Some(7), Running(7, false, 1), [], {}, 2, {0}, 1))
    ensures s' == s + [Look(0)]
    ensures Reaches(from, s', Two(Fiber(EXEC), Looked(7, true, EXEC), Some(7), Running(7, false, 1), [], {}, 2, {0}, 1))
  {
    hide Reaches;
    var w := Two(Fiber(EXEC), After(7, true), Some(7), Running(7, false, 1), [], {}, 2, {0}, 1);
    s' := Then(from, s, w, Look(0), Two(Fiber(EXEC), Looked(7, true, EXEC), Some(7), Running(7, false, 1), [], {}, 2, {0}, 1));
  }

  /** It marks the running fiber as parked. */
  lemma Overwrites(from: World, s: seq<Action>) returns (s': seq<Action>)
    requires Reaches(from, s, Two(Fiber(EXEC), Looked(7, true, EXEC), Some(7), Running(7, false, 1), [], {}, 2, {0}, 1))
    ensures s' == s + [Settle(0)]
    ensures Reaches(from, s', Two(Fiber(HOLD), Head, None, Running(7, false, 1), [], {}, 2, {0}, 1))
  {
    hide Reaches;
    var w := Two(Fiber(EXEC), Looked(7, true, EXEC), Some(7), Running(7, false, 1), [], {}, 2, {0}, 1);
    s' := Then(from, s, w, Settle(0), Two(Fiber(HOLD), Head, None, Running(7, false, 1), [], {}, 2, {0}, 1));
  }

  /** The fiber resumed on the second worker waits once more, and the assertion in `addEvent` fails. */
  lemma Registers(from: World, s: seq<Action>) returns (s': seq<Action>, w: World)
    requires Reaches(from, s, Two(Fiber(HOLD), Head, None, Running(7, false, 1), [], {}, 2, {0}, 1))
    ensures s' == s + [Register(1)] && Reaches(from, s', w) && w.aborted
  {
    hide Reaches;
    var before := Two(Fiber(HOLD), Head, None, Running(7, false, 1), [], {}, 2, {0}, 1);
    w := before.(aborted := true);
    s' := Then(from, s, before, Register(1), w);
  }

  /** A steal can be harmless: this run pops a fiber that another worker holds, and leaves nothing behind. */
  lemma StealHarmless()
    ensures Reaches(Initial({0, 1}),
       [SubmitCallback(9, None), Pop(0, 0), Begin(0, 7), Register(0), Yield(0, false),
        SubmitFiber(7, None, false), Pop(1, 0),
        Decrement(0), Look(0), Settle(0), Begin(1, 8), Finish(1, false), Decrement(1), Look(1), Settle(1)],
       Two(Fiber(TERM), Head, None, Head, [], {}, 2, {0, 1}, 0))
    ensures Steals(Two(Fiber(HOLD), Returned(7, true, 0), Some(7), Head, [SECOND], {}, 2, {}, 1), Pop(1, 0))
  {
    hide Reaches;
    var from := Initial({0, 1});
    var s := Starts(from);
    s := Parks(from, s);
    s := Wakes(from, s);
    s := LetsGo(from, s);
    s := LeavesIt(from, s);
    s := EntersLast(from, s);
    s := EndsCounts(from, s);
    s := Drops(from, s);
    assert s ==
       [SubmitCallback(9, None), Pop(0, 0), Begin(0, 7), Register(0), Yield(0, false),
        SubmitFiber(7, None, false), Pop(1, 0),
        Decrement(0), Look(0), Settle(0), Begin(1, 8), Finish(1, false), Decrement(1), Look(1), Settle(1)];
    StealsHere();
  }

  lemma StealsHere()
    ensures Steals(Two(Fiber(HOLD), Returned(7, true, 0), Some(7), Head, [SECOND], {}, 2, {}, 1), Pop(1, 0))
  {
    var w := Two(Fiber(HOLD), Returned(7, true, 0), Some(7), Head, [SECOND], {}, 2, {}, 1);
    assert HandIs(w, 0, 7);
  }

  /**
   * The assertion in `addEvent` that the waiting fiber is in EXEC can fail: a fiber is woken and entered by the second
   * worker before the first, which it has left, marks it as parked; when it waits again it runs, but not in EXEC.
   */
  lemma RegisterFails() returns (w: World)
    ensures Reaches(Initial({0, 1}),
       [SubmitCallback(9, None), Pop(0, 0), Begin(0, 7), Register(0), Yield(0, false),
        SubmitFiber(7, None, false), Pop(1, 0),
        Begin(1, 8), Decrement(0), Look(0), Settle(0), Register(1)], w)
    ensures w.aborted
  {
    hide Reaches;
    var from := Initial({0, 1});
    var s := Starts(from);
    s := Parks(from, s);
    s := Wakes(from, s);
    s := EntersFirst(from, s);
    s := ReadsExec(from, s);
    s := Overwrites(from, s);
    s, w := Registers(from, s);
    assert s ==
       [SubmitCallback(9, None), Pop(0, 0), Begin(0, 7), Register(0), Yield(0, false),
        SubmitFiber(7, None, false), Pop(1, 0),
        Begin(1, 8), Decrement(0), Look(0), Settle(0), Register(1)];
  }
}

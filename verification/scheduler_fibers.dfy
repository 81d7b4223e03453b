/**
 * Who holds which fiber. As long as no worker pops a fiber that another worker has not let go of, a worker's callback
 * fiber is at rest whenever the worker is not running it, and no assertion about fiber states fails. What holds whatever
 * pops steal is in `scheduler_rest.dfy`.
 */
module SchedulerFibers {
  import opened Schedulers
  import opened SchedulerRuns
  import opened Wrappers

  /** The fiber a worker has in hand, from popping it until it is done with it. */
  function Hand(w: World, i: nat): Option<nat> {
    if i !in w.workers then None else
    match w.workers[i].pc
    case Popped(entry) => if entry.work.Fib? then Some(entry.work.fiber) else None
    case Running(f, _, _) => Some(f)
    case Returned(f, _, _) => Some(f)
    case After(f, _) => Some(f)
    case Looked(f, _, _) => Some(f)
    case _ => None
  }

  predicate HandIs(w: World, i: nat, f: nat) {
    Hand(w, i) == Some(f)
  }

  /** The worker is busy with its own callback fiber. */
  predicate OnOwn(pc: Pc) {
    (pc.Running? && pc.own) || (pc.Returned? && pc.own) || (pc.After? && pc.own) || (pc.Looked? && pc.own)
  }

  predicate CbIs(w: World, i: nat, c: nat) {
    i in w.workers && w.workers[i].cbFiber == Some(c)
  }

  predicate Unreferenced(w: World, f: nat) {
    f !in w.slots && !InQueue(w, f)
  }

  /** A pop of a fiber that another worker still has in hand. */
  predicate Steals(w: World, a: Action) {
    a.Pop? && a.k < |w.queue| && w.queue[a.k].work.Fib?
    && exists j :: j in w.workers && j != a.i && HandIs(w, j, w.queue[a.k].work.fiber)
  }

  /** Two workers have different fibers in hand and different callback fibers, and neither has the other's. */
  predicate Apart(w: World, i: nat, j: nat) {
    i != j ==>
      && (Hand(w, i).Some? ==> !HandIs(w, j, Hand(w, i).value))
      && (i in w.workers && w.workers[i].cbFiber.Some? ==>
            !CbIs(w, j, w.workers[i].cbFiber.value) && !HandIs(w, j, w.workers[i].cbFiber.value))
  }

  /** The state of the fiber a worker has in hand goes with where the worker is. */
  predicate HandFits(w: World, i: nat)
    requires i in w.workers
  {
    match w.workers[i].pc
    case Popped(entry) => entry.work.Fib? ==> entry.work.fiber in w.fibers && w.fibers[entry.work.fiber] != EXEC
    case Running(f, own, _) => f in w.fibers && w.fibers[f] == EXEC
    case Returned(f, own, _) => f in w.fibers && w.fibers[f] != EXEC && w.fibers[f] != INIT
    case After(f, own) => f in w.fibers && w.fibers[f] != EXEC && w.fibers[f] != INIT
    case Looked(f, own, seen) => f in w.fibers && w.fibers[f] == seen && seen != EXEC && seen != INIT
    case _ => true
  }

  /** A worker's callback fiber: in hand, and not referred to once it has ended; or at rest. */
  predicate CbFits(w: World, i: nat)
    requires i in w.workers
  {
    var pc, cbFiber := w.workers[i].pc, w.workers[i].cbFiber;
    && (OnOwn(pc) ==> cbFiber == Some(pc.fiber))
    && (OnOwn(pc) && pc.fiber in w.fibers && Ended(w.fibers[pc.fiber]) ==> Unreferenced(w, pc.fiber))
    && (!OnOwn(pc) && cbFiber.Some? ==>
          && cbFiber.value in w.fibers && w.fibers[cbFiber.value] == INIT
          && Unreferenced(w, cbFiber.value) && !HandIs(w, i, cbFiber.value))
  }

  /** References are to fibers there are. */
  ghost predicate Known(w: World) {
    && (forall f :: f in w.slots ==> f in w.fibers)
    && (forall f :: InQueue(w, f) ==> f in w.fibers)
  }

  ghost predicate Exclusive(w: World) {
    && !w.aborted && Known(w)
    && (forall i :: i in w.workers ==> HandFits(w, i) && CbFits(w, i))
    && (forall i, j :: i in w.workers && j in w.workers ==> Apart(w, i, j))
  }

  // ----- what a step changes

  /** A step changes the state only of the fiber its worker has in hand or for callbacks, or of a new one. */
  lemma StatesStay(w: World, a: Action, f: nat)
    requires Enabled(w, a) && f in w.fibers
    requires ByWorker(a) ==> !HandIs(w, a.i, f) && !CbIs(w, a.i, f)
    ensures f in Step(w, a).fibers && Step(w, a).fibers[f] == w.fibers[f]
  {
  }

  /** The step lets someone refer to the running fiber. */
  predicate Refers(a: Action) {
    a.Publish? || a.Register?
  }

  /** Where references to a fiber come from. */
  lemma ReferencesStay(w: World, a: Action, f: nat)
    requires Enabled(w, a) && Unreferenced(w, f) && f in w.fibers
    requires Refers(a) || a.Settle? ==> !HandIs(w, a.i, f)
    ensures Unreferenced(Step(w, a), f)
  {
    var w' := Step(w, a);
    forall k | 0 <= k < |w'.queue|
      ensures w'.queue[k].work != Fib(f)
    {
      if a.Pop? && k < |w'.queue| {
        assert w'.queue[k] == w.queue[if k < a.k then k else k + 1];
      } else if k < |w.queue| {
        assert w'.queue[k] == w.queue[k];
      }
    }
  }

  /** Where the fiber a worker has in hand, and its callback fiber, come from. */
  lemma HandStep(w: World, a: Action, f: nat)
    requires Enabled(w, a) && ByWorker(a)
    ensures HandIs(Step(w, a), a.i, f) ==>
      || HandIs(w, a.i, f) || CbIs(w, a.i, f)
      || (a.Pop? && a.k < |w.queue| && w.queue[a.k].work == Fib(f)) || (a.Begin? && f == a.made)
    ensures CbIs(Step(w, a), a.i, f) ==> CbIs(w, a.i, f) || (a.Begin? && f == a.made)
  {
  }

  lemma OthersStay(w: World, a: Action, i: nat)
    requires Enabled(w, a) && i in w.workers && !(ByWorker(a) && a.i == i)
    ensures i in Step(w, a).workers && Step(w, a).workers[i] == w.workers[i]
    ensures Hand(Step(w, a), i) == Hand(w, i)
    ensures forall f :: (HandIs(Step(w, a), i, f) <==> HandIs(w, i, f)) && (CbIs(Step(w, a), i, f) <==> CbIs(w, i, f))
  {
    StepMoves(w, a);
  }

  // ----- exclusive hands

  /** The fibers of one worker are not another's. */
  lemma NotOthers(w: World, i: nat, j: nat, f: nat)
    requires Exclusive(w) && i in w.workers && j in w.workers && i != j && (HandIs(w, i, f) || CbIs(w, i, f))
    ensures !HandIs(w, j, f) && !CbIs(w, j, f)
  {
    assert Apart(w, i, j) && Apart(w, j, i);
  }

  lemma OtherFits(w: World, a: Action, i: nat)
    requires Exclusive(w) && Enabled(w, a) && i in w.workers && !(ByWorker(a) && a.i == i)
    ensures i in Step(w, a).workers && HandFits(Step(w, a), i) && CbFits(Step(w, a), i)
  {
    hide Step, Enabled, Unreferenced, Known, Apart;
    OthersStay(w, a, i);
    ActorKnown(w, a);
    var pc, cbFiber := w.workers[i].pc, w.workers[i].cbFiber;
    assert HandFits(w, i) && CbFits(w, i);
    if Hand(w, i).Some? {
      Untouched(w, a, i, Hand(w, i).value);
    }
    if cbFiber.Some? {
      Untouched(w, a, i, cbFiber.value);
    }
  }

  lemma ActorKnown(w: World, a: Action)
    requires Enabled(w, a)
    ensures ByWorker(a) || Refers(a) ==> a.i in w.workers
    ensures Refers(a) ==> w.workers[a.i].pc.Running?
  {
  }

  /** Another's step leaves a worker's fibers alone. */
  lemma Untouched(w: World, a: Action, i: nat, f: nat)
    requires Exclusive(w) && Enabled(w, a) && i in w.workers && !(ByWorker(a) && a.i == i) && f in w.fibers
    requires HandIs(w, i, f) || CbIs(w, i, f)
    ensures f in Step(w, a).fibers && Step(w, a).fibers[f] == w.fibers[f]
    ensures Unreferenced(w, f) && !(Refers(a) && a.i == i && HandIs(w, i, f)) ==> Unreferenced(Step(w, a), f)
  {
    hide Step, Enabled, Unreferenced, HandFits, CbFits, HandIs, CbIs, Known;
    ActorKnown(w, a);
    if (ByWorker(a) || Refers(a)) && a.i != i {
      NotOthers(w, i, a.i, f);
    }
    StatesStay(w, a, f);
    if Unreferenced(w, f) && !(Refers(a) && a.i == i && HandIs(w, i, f)) {
      ReferencesStay(w, a, f);
    }
  }

  /** The worker that takes a step: popping. */
  lemma PopFits(w: World, a: Action)
    requires Exclusive(w) && Enabled(w, a) && a.Pop?
    ensures var w' := Step(w, a); a.i in w'.workers && HandFits(w', a.i) && CbFits(w', a.i) && !w'.aborted
  {
    hide Apart, NothingFor, Stopping;
    assert HandFits(w, a.i) && CbFits(w, a.i);
    var c := w.workers[a.i].cbFiber;
    var e := w.queue[a.k];
    if e.work.Fib? {
      assert InQueue(w, e.work.fiber);
    }
    if c.Some? {
      ReferencesStay(w, a, c.value);
    }
  }

  lemma SameReferences(w: World, w': World)
    requires w'.queue == w.queue && w'.slots == w.slots
    ensures forall f :: Unreferenced(w', f) <==> Unreferenced(w, f)
  {
    assert forall f :: InQueue(w', f) <==> InQueue(w, f);
  }

  /** Beginning a task: no assertion fails. */
  lemma BeginFits(w: World, a: Action)
    requires Exclusive(w) && Enabled(w, a) && a.Begin?
    ensures var w' := Step(w, a); a.i in w'.workers && HandFits(w', a.i) && CbFits(w', a.i) && !w'.aborted
  {
    hide Apart, First, NothingFor, Stopping, InQueue;
    assert HandFits(w, a.i) && CbFits(w, a.i);
    SameReferences(w, Step(w, a));
  }

  lemma MiddleFits(w: World, a: Action)
    requires Exclusive(w) && Enabled(w, a) && (a.Yield? || a.Finish? || a.Decrement? || a.Look? || a.GoIdle? || a.ComeBack?)
    ensures var w' := Step(w, a); a.i in w'.workers && HandFits(w', a.i) && CbFits(w', a.i) && !w'.aborted
  {
    hide Apart, First, NothingFor, Stopping, InQueue;
    assert HandFits(w, a.i) && CbFits(w, a.i);
    SameReferences(w, Step(w, a));
  }

  lemma SettleFits(w: World, a: Action)
    requires Exclusive(w) && Enabled(w, a) && a.Settle?
    ensures var w' := Step(w, a); a.i in w'.workers && HandFits(w', a.i) && CbFits(w', a.i) && !w'.aborted
  {
    hide Apart, First, NothingFor, Stopping, InQueue;
    assert HandFits(w, a.i) && CbFits(w, a.i);
    var c := w.workers[a.i].cbFiber;
    if w.workers[a.i].pc.seen != READY {
      SameReferences(w, Step(w, a));
    } else if c.Some? && !HandIs(w, a.i, c.value) {
      ReferencesStay(w, a, c.value);
    }
  }

  lemma StepFits(w: World, a: Action, i: nat)
    requires Exclusive(w) && Enabled(w, a) && i in Step(w, a).workers
    ensures HandFits(Step(w, a), i) && CbFits(Step(w, a), i)
  {
    hide Step, Enabled, Exclusive, HandFits, CbFits;
    StepMoves(w, a);
    if ByWorker(a) && a.i == i {
      if a.Pop? {
        PopFits(w, a);
      } else if a.Begin? {
        BeginFits(w, a);
      } else if a.Settle? {
        SettleFits(w, a);
      } else {
        MiddleFits(w, a);
      }
    } else {
      OtherFits(w, a, i);
    }
  }

  lemma NoAbort(w: World, a: Action)
    requires Exclusive(w) && Enabled(w, a)
    ensures !Step(w, a).aborted
  {
    hide Exclusive, HandFits, CbFits;
    if a.Begin? {
      BeginFits(w, a);
    } else if a.Settle? {
      SettleFits(w, a);
    } else if a.Register? {
      RunsInExec(w, a);
    } else {
      assert Exclusive(w) ==> !w.aborted by {
        NotAborted(w);
      }
    }
  }

  lemma RunsInExec(w: World, a: Action)
    requires Exclusive(w) && Enabled(w, a) && a.Register?
    ensures !Step(w, a).aborted
  {
    hide Apart, CbFits, Known;
    assert HandFits(w, a.i);
  }

  lemma NotAborted(w: World)
    ensures Exclusive(w) ==> !w.aborted
  {
  }

  // ----- the hands stay apart, unless a pop steals

  /** Two workers have no fiber in common. */
  predicate Clear(w: World, i: nat, j: nat, f: nat) {
    !((HandIs(w, i, f) || CbIs(w, i, f)) && (HandIs(w, j, f) || CbIs(w, j, f)))
  }

  lemma ApartClear(w: World, i: nat, j: nat)
    requires i in w.workers && j in w.workers && i != j
    ensures Apart(w, i, j) && Apart(w, j, i) <==> forall f :: Clear(w, i, j, f)
  {
    if !Apart(w, i, j) {
      if Hand(w, i).Some? && HandIs(w, j, Hand(w, i).value) {
        assert !Clear(w, i, j, Hand(w, i).value);
      } else {
        assert !Clear(w, i, j, w.workers[i].cbFiber.value);
      }
    }
    if !Apart(w, j, i) {
      if Hand(w, j).Some? && HandIs(w, i, Hand(w, j).value) {
        assert !Clear(w, i, j, Hand(w, j).value);
      } else {
        assert !Clear(w, i, j, w.workers[j].cbFiber.value);
      }
    }
  }

  /** A worker's fibers are ones there are, and one that is at rest is not in the queue. */
  lemma HasKnown(w: World, j: nat, f: nat)
    requires Exclusive(w) && j in w.workers && (HandIs(w, j, f) || CbIs(w, j, f))
    ensures f in w.fibers
    ensures HandIs(w, j, f) || !InQueue(w, f)
  {
    assert HandFits(w, j) && CbFits(w, j);
  }

  lemma ClearKept(w: World, a: Action, j: nat, f: nat)
    requires Exclusive(w) && Enabled(w, a) && ByWorker(a) && !Steals(w, a) && j in w.workers && j != a.i
    ensures Clear(Step(w, a), a.i, j, f)
  {
    hide Step, HandFits, CbFits, Known, HandIs, CbIs, InQueue;
    ActorKnown(w, a);
    OthersStay(w, a, j);
    HandStep(w, a, f);
    if HandIs(w, j, f) || CbIs(w, j, f) {
      HasKnown(w, j, f);
      if HandIs(w, a.i, f) || CbIs(w, a.i, f) {
        NotOthers(w, a.i, j, f);
      } else if a.Pop? {
        PopQueued(w, a);
      }
    }
  }

  lemma PopQueued(w: World, a: Action)
    requires Enabled(w, a) && a.Pop?
    ensures a.k < |w.queue| && (w.queue[a.k].work.Fib? ==> InQueue(w, w.queue[a.k].work.fiber))
  {
  }

  lemma ApartKept(w: World, a: Action, i: nat, j: nat)
    requires Exclusive(w) && Enabled(w, a) && !Steals(w, a) && i in w.workers && j in w.workers && i != j
    ensures Apart(Step(w, a), i, j)
  {
    hide Step, Enabled, Steals, HandFits, CbFits, Known, Clear, Apart;
    var w' := Step(w, a);
    OthersIn(w, a, i);
    OthersIn(w, a, j);
    ApartClear(w', i, j);
    ApartClear(w, i, j);
    forall f
      ensures Clear(w', i, j, f)
    {
      if ByWorker(a) && a.i == i {
        ClearKept(w, a, j, f);
      } else if ByWorker(a) && a.i == j {
        ClearKept(w, a, i, f);
        ClearBack(w', i, j, f);
      } else {
        ClearStays(w, a, i, j, f);
      }
    }
  }

  lemma OthersIn(w: World, a: Action, i: nat)
    requires Enabled(w, a) && i in w.workers
    ensures i in Step(w, a).workers
  {
    hide Step, Enabled;
    StepMoves(w, a);
  }

  lemma ClearBack(w: World, i: nat, j: nat, f: nat)
    ensures Clear(w, i, j, f) <==> Clear(w, j, i, f)
  {
  }

  lemma ClearStays(w: World, a: Action, i: nat, j: nat, f: nat)
    requires Enabled(w, a) && i in w.workers && j in w.workers && Clear(w, i, j, f)
    requires !(ByWorker(a) && (a.i == i || a.i == j))
    ensures Clear(Step(w, a), i, j, f)
  {
    hide Step, Enabled, HandIs, CbIs;
    OthersStay(w, a, i);
    OthersStay(w, a, j);
  }

  lemma KnownKept(w: World, a: Action)
    requires Exclusive(w) && Enabled(w, a)
    ensures Known(Step(w, a))
  {
    hide Apart, CbFits, First, NothingFor, Stopping;
    var w' := Step(w, a);
    forall f | f in w'.slots
      ensures f in w'.fibers
    {
      if Refers(a) {
        assert HandFits(w, a.i);
      }
    }
    forall f | InQueue(w', f)
      ensures f in w'.fibers
    {
      QueueKnown(w, a, f);
    }
  }

  lemma FibersGrow(w: World, a: Action, f: nat)
    requires Enabled(w, a) && f in w.fibers
    ensures f in Step(w, a).fibers
  {
  }

  /** A queued fiber was queued before, or comes from a reference or from the worker's hand. */
  lemma QueueFrom(w: World, a: Action, f: nat)
    requires Enabled(w, a) && !Step(w, a).aborted && InQueue(Step(w, a), f)
    ensures InQueue(w, f) || f in w.slots || (a.Settle? && HandIs(w, a.i, f))
  {
    hide Step, Enabled;
    var w' := Step(w, a);
    StepQueue(w, a);
    AppendedFrom(w, a, f);
    var k :| 0 <= k < |w'.queue| && w'.queue[k].work == Fib(f);
    if a.Pop? {
      assert w'.queue[k] == w.queue[if k < a.k then k else k + 1];
    } else if k < |w.queue| {
      assert w'.queue[k] == w.queue[k];
    } else {
      assert w'.queue[k] == Appended(w, a)[k - |w.queue|];
    }
  }

  lemma AppendedFrom(w: World, a: Action, f: nat)
    requires Enabled(w, a)
    ensures forall e :: e in Appended(w, a) && e.work == Fib(f) ==> f in w.slots || (a.Settle? && HandIs(w, a.i, f))
  {
  }

  lemma QueueKnown(w: World, a: Action, f: nat)
    requires Exclusive(w) && Enabled(w, a) && InQueue(Step(w, a), f)
    ensures f in Step(w, a).fibers
  {
    hide Step, Enabled, Apart, CbFits, InQueue;
    NoAbort(w, a);
    QueueFrom(w, a, f);
    ActorKnown(w, a);
    if a.Settle? && HandIs(w, a.i, f) {
      assert HandFits(w, a.i);
    }
    FibersGrow(w, a, f);
  }

  /** Every step keeps the hands exclusive, except exactly a pop that steals. */
  lemma ExclusiveKeeps(w: World, a: Action)
    requires Exclusive(w) && Enabled(w, a)
    ensures Exclusive(Step(w, a)) <==> !Steals(w, a)
  {
    hide Step, Enabled, HandFits, CbFits, Known, Apart;
    var w' := Step(w, a);
    if Steals(w, a) {
      StealBreaks(w, a);
    } else {
      NoAbort(w, a);
      KnownKept(w, a);
      StepMoves(w, a);
      forall i | i in w'.workers
        ensures HandFits(w', i) && CbFits(w', i)
      {
        StepFits(w, a, i);
      }
      forall i, j | i in w'.workers && j in w'.workers
        ensures Apart(w', i, j)
      {
        if i == j {
          ApartSelf(w', i);
        } else {
          ApartKept(w, a, i, j);
        }
      }
    }
  }

  lemma ApartSelf(w: World, i: nat)
    ensures Apart(w, i, i)
  {
  }

  lemma StealBreaks(w: World, a: Action)
    requires Exclusive(w) && Enabled(w, a) && Steals(w, a)
    ensures !Exclusive(Step(w, a))
  {
    hide First, NothingFor, Stopping, InQueue, CbFits, HandFits, Known;
    var f := w.queue[a.k].work.fiber;
    var j :| j in w.workers && j != a.i && HandIs(w, j, f);
    OthersStay(w, a, j);
    assert HandIs(Step(w, a), a.i, f) && HandIs(Step(w, a), j, f);
    assert !Apart(Step(w, a), a.i, j);
  }

  // ----- runs

  /** No step of the run steals. */
  ghost predicate NoneSteals(w: World, actions: seq<Action>)
    requires IsRun(w, actions)
    decreases |actions|
  {
    actions == [] || (!Steals(w, actions[0]) && NoneSteals(Step(w, actions[0]), actions[1..]))
  }

  ghost predicate AlwaysExclusive(w: World, actions: seq<Action>)
    requires IsRun(w, actions)
    decreases |actions|
  {
    Exclusive(w) && (actions == [] || AlwaysExclusive(Step(w, actions[0]), actions[1..]))
  }

  /** In a run the hands are always exclusive if and only if no step steals, and then no assertion about fiber states fails. */
  lemma {:induction false} RunsExclusive(w: World, actions: seq<Action>)
    requires Exclusive(w) && IsRun(w, actions)
    ensures AlwaysExclusive(w, actions) <==> NoneSteals(w, actions)
    ensures NoneSteals(w, actions) ==> Exclusive(Run(w, actions)) && !Run(w, actions).aborted
    decreases |actions|
  {
    hide Step, Enabled, Exclusive, Steals;
    if actions != [] {
      ExclusiveKeeps(w, actions[0]);
      if !Steals(w, actions[0]) {
        RunsExclusive(Step(w, actions[0]), actions[1..]);
      }
    } else {
      NotAborted(w);
    }
  }

  /**
   * With exclusive hands a worker acts on what the fiber itself last did: one that yielded ready is queued again, one
   * that parked stays parked, and one that ended is left alone or, if it is the worker's own, is put at rest.
   */
  lemma SettleHonours(w: World, i: nat)
    requires Exclusive(w) && Enabled(w, Settle(i))
    ensures var f, own := w.workers[i].pc.fiber, w.workers[i].pc.own; var w' := Step(w, Settle(i));
      && f in w.fibers && f in w'.fibers && !w'.aborted
      && (w.fibers[f] == READY ==> InQueue(w', f) && w'.fibers[f] == READY)
      && (w.fibers[f] == HOLD ==> w'.fibers[f] == HOLD && w'.queue == w.queue)
      && (Ended(w.fibers[f]) && !own ==> w'.fibers == w.fibers && w'.queue == w.queue)
      && (Ended(w.fibers[f]) && own ==> w'.fibers == w.fibers[f := INIT] && CbIs(w', i, f) && Unreferenced(w', f))
      && (w.fibers[f] == READY || w.fibers[f] == HOLD || Ended(w.fibers[f]))
  {
    hide Apart, First, NothingFor, Stopping;
    assert HandFits(w, i) && CbFits(w, i);
    var f := w.workers[i].pc.fiber;
    var w' := Step(w, Settle(i));
    if w.fibers[f] == READY {
      SettleRequeues(w, i);
    } else {
      SameReferences(w, w');
    }
  }

  lemma InitialExclusive(threads: set<nat>)
    ensures Exclusive(Initial(threads))
  {
  }

  /** One worker alone never steals. */
  lemma {:induction false} OneWorker(w: World, i: nat, actions: seq<Action>)
    requires w.workers.Keys == {i} && IsRun(w, actions)
    ensures NoneSteals(w, actions)
    decreases |actions|
  {
    hide Step, Enabled;
    if actions != [] {
      StepMoves(w, actions[0]);
      PopperIn(w, actions[0]);
      OneWorker(Step(w, actions[0]), i, actions[1..]);
    }
  }

  lemma PopperIn(w: World, a: Action)
    requires Enabled(w, a)
    ensures a.Pop? ==> a.i in w.workers
  {
  }

  // ----- two workers can steal

  /** Two workers, at `p` and `q`; the first may have fiber 7 as its callback fiber. */
  function Two(state: map<nat, State>, p: Pc, cb: Option<nat>, q: Pc, queue: seq<Entry>, slots: set<nat>,
               issued: nat, done: set<nat>, active: int): World {
    World(state, map[0 := Worker(p, cb, false), 1 := Worker(q, None, false)], queue, slots, issued, done, active, 0,
          false, false)
  }

  function Fiber(state: State): map<nat, State> {
    map[7 := state]
  }

  const FIRST := Entry(0, Cb(9), None)
  const SECOND := Entry(1, Fib(7), None)

  /** A callback is taken by the first worker, on a new callback fiber. */
  lemma Starts(from: World) returns (s: seq<Action>)
    requires from == Initial({0, 1})
    ensures s == [SubmitCallback(9, None), Pop(0, 0), Begin(0, 7)]
    ensures Reaches(from, s, Two(Fiber(EXEC), Running(7, true, 0), Some(7), Head, [], {}, 1, {}, 1))
  {
    hide Reaches;
    var w0 := Two(map[], Head, None, Head, [], {}, 0, {}, 0);
    assert from == w0;
    StartReached(from);
    var w1 := Two(map[], Head, None, Head, [FIRST], {}, 1, {}, 0);
    s := Then(from, [], w0, SubmitCallback(9, None), w1);
    var w2 := Two(map[], Popped(FIRST), None, Head, [], {}, 1, {}, 1);
    s := Then(from, s, w1, Pop(0, 0), w2);
    s := Then(from, s, w2, Begin(0, 7), Two(Fiber(EXEC), Running(7, true, 0), Some(7), Head, [], {}, 1, {}, 1));
  }

  /** It registers an event and parks. */
  lemma Parks(from: World, s: seq<Action>) returns (s': seq<Action>)
    requires Reaches(from, s, Two(Fiber(EXEC), Running(7, true, 0), Some(7), Head, [], {}, 1, {}, 1))
    ensures s' == s + [Register(0), Yield(0, false)]
    ensures Reaches(from, s', Two(Fiber(HOLD), Returned(7, true, 0), Some(7), Head, [], {7}, 1, {}, 1))
  {
    hide Reaches;
    var w := Two(Fiber(EXEC), Running(7, true, 0), Some(7), Head, [], {7}, 1, {}, 1);
    s' := Then(from, s, Two(Fiber(EXEC), Running(7, true, 0), Some(7), Head, [], {}, 1, {}, 1), Register(0), w);
    s' := Then(from, s', w, Yield(0, false), Two(Fiber(HOLD), Returned(7, true, 0), Some(7), Head, [], {7}, 1, {}, 1));
  }

  /** The fiber is woken, and popped by the second worker before the first lets go. */
  lemma Wakes(from: World, s: seq<Action>) returns (s': seq<Action>)
    requires Reaches(from, s, Two(Fiber(HOLD), Returned(7, true, 0), Some(7), Head, [], {7}, 1, {}, 1))
    ensures s' == s + [SubmitFiber(7, None, false), Pop(1, 0)]
    ensures Reaches(from, s', Two(Fiber(HOLD), Returned(7, true, 0), Some(7), Popped(SECOND), [], {}, 2, {}, 2))
  {
    hide Reaches;
    var w := Two(Fiber(HOLD), Returned(7, true, 0), Some(7), Head, [SECOND], {}, 2, {}, 1);
    s' := Then(from, s, Two(Fiber(HOLD), Returned(7, true, 0), Some(7), Head, [], {7}, 1, {}, 1), SubmitFiber(7, None, false), w);
    s' := Then(from, s', w, Pop(1, 0), Two(Fiber(HOLD), Returned(7, true, 0), Some(7), Popped(SECOND), [], {}, 2, {}, 2));
  }

  /** The second worker runs it to its end. */
  lemma RunsOut(from: World, s: seq<Action>) returns (s': seq<Action>)
    requires Reaches(from, s, Two(Fiber(HOLD), Returned(7, true, 0), Some(7), Popped(SECOND), [], {}, 2, {}, 2))
    ensures s' == s + [Begin(1, 8), Finish(1, false)]
    ensures Reaches(from, s', Two(Fiber(TERM), Returned(7, true, 0), Some(7), Returned(7, false, 1), [], {}, 2, {}, 2))
  {
    hide Reaches;
    var w := Two(Fiber(EXEC), Returned(7, true, 0), Some(7), Running(7, false, 1), [], {}, 2, {}, 2);
    s' := Then(from, s, Two(Fiber(HOLD), Returned(7, true, 0), Some(7), Popped(SECOND), [], {}, 2, {}, 2), Begin(1, 8), w);
    s' := Then(from, s', w, Finish(1, false), Two(Fiber(TERM), Returned(7, true, 0), Some(7), Returned(7, false, 1), [], {}, 2, {}, 2));
  }

  /** The first worker reads that it has ended. */
  lemma Reads(from: World, s: seq<Action>) returns (s': seq<Action>)
    requires Reaches(from, s, Two(Fiber(TERM), Returned(7, true, 0), Some(7), Returned(7, false, 1), [], {}, 2, {}, 2))
    ensures s' == s + [Decrement(0), Look(0)]
    ensures Reaches(from, s', Two(Fiber(TERM), Looked(7, true, TERM), Some(7), Returned(7, false, 1), [], {}, 2, {0}, 1))
  {
    hide Reaches;
    var w := Two(Fiber(TERM), After(7, true), Some(7), Returned(7, false, 1), [], {}, 2, {0}, 1);
    s' := Then(from, s, Two(Fiber(TERM), Returned(7, true, 0), Some(7), Returned(7, false, 1), [], {}, 2, {}, 2), Decrement(0), w);
    s' := Then(from, s', w, Look(0), Two(Fiber(TERM), Looked(7, true, TERM), Some(7), Returned(7, false, 1), [], {}, 2, {0}, 1));
  }

  /** The first worker resets it and keeps it. */
  lemma Resets(from: World, s: seq<Action>) returns (s': seq<Action>)
    requires Reaches(from, s, Two(Fiber(TERM), Looked(7, true, TERM), Some(7), Returned(7, false, 1), [], {}, 2, {0}, 1))
    ensures s' == s + [Settle(0), Decrement(1)]
    ensures Reaches(from, s', Two(Fiber(INIT), Head, Some(7), After(7, false), [], {}, 2, {0, 1}, 0))
  {
    hide Reaches;
    var w := Two(Fiber(INIT), Head, Some(7), Returned(7, false, 1), [], {}, 2, {0}, 1);
    s' := Then(from, s, Two(Fiber(TERM), Looked(7, true, TERM), Some(7), Returned(7, false, 1), [], {}, 2, {0}, 1), Settle(0), w);
    s' := Then(from, s', w, Decrement(1), Two(Fiber(INIT), Head, Some(7), After(7, false), [], {}, 2, {0, 1}, 0));
  }

  /** The second worker, still holding it, marks it as parked. */
  lemma Marks(from: World, s: seq<Action>) returns (s': seq<Action>)
    requires Reaches(from, s, Two(Fiber(INIT), Head, Some(7), After(7, false), [], {}, 2, {0, 1}, 0))
    ensures s' == s + [Look(1), Settle(1)]
    ensures Reaches(from, s', Two(Fiber(HOLD), Head, Some(7), Head, [], {}, 2, {0, 1}, 0))
  {
    hide Reaches;
    var w := Two(Fiber(INIT), Head, Some(7), Looked(7, false, INIT), [], {}, 2, {0, 1}, 0);
    s' := Then(from, s, Two(Fiber(INIT), Head, Some(7), After(7, false), [], {}, 2, {0, 1}, 0), Look(1), w);
    s' := Then(from, s', w, Settle(1), Two(Fiber(HOLD), Head, Some(7), Head, [], {}, 2, {0, 1}, 0));
  }

  const THIRD := Entry(2, Cb(9), None)

  /** The first worker takes the next callback. */
  lemma TakesNext(from: World, s: seq<Action>) returns (s': seq<Action>)
    requires Reaches(from, s, Two(Fiber(HOLD), Head, Some(7), Head, [], {}, 2, {0, 1}, 0))
    ensures s' == s + [SubmitCallback(9, None), Pop(0, 0)]
    ensures Reaches(from, s', Two(Fiber(HOLD), Popped(THIRD), Some(7), Head, [], {}, 3, {0, 1}, 1))
  {
    hide Reaches;
    var w := Two(Fiber(HOLD), Head, Some(7), Head, [THIRD], {}, 3, {0, 1}, 0);
    s' := Then(from, s, Two(Fiber(HOLD), Head, Some(7), Head, [], {}, 2, {0, 1}, 0), SubmitCallback(9, None), w);
    s' := Then(from, s', w, Pop(0, 0), Two(Fiber(HOLD), Popped(THIRD), Some(7), Head, [], {}, 3, {0, 1}, 1));
  }

  /** It finds the callback fiber not at rest, and the assertion in `reset` fails. */
  lemma Fails(from: World, s: seq<Action>) returns (s': seq<Action>, w: World)
    requires Reaches(from, s, Two(Fiber(HOLD), Popped(THIRD), Some(7), Head, [], {}, 3, {0, 1}, 1))
    ensures s' == s + [Begin(0, 8)] && Reaches(from, s', w) && w.aborted
  {
    hide Reaches;
    var before := Two(Fiber(HOLD), Popped(THIRD), Some(7), Head, [], {}, 3, {0, 1}, 1);
    w := before.(aborted := true);
    s' := Then(from, s, before, Begin(0, 8), w);
  }

  /**
   * With two workers a pop can steal. Then the callback fiber is not at rest at the head of the loop, and an assertion
   * fails.
   */
  lemma StealingFails() returns (w: World)
    ensures var actions :=
        [SubmitCallback(9, None), Pop(0, 0), Begin(0, 7), Register(0), Yield(0, false),
         SubmitFiber(7, None, false), Pop(1, 0), Begin(1, 8), Finish(1, false),
         Decrement(0), Look(0), Settle(0), Decrement(1), Look(1), Settle(1)];
      && Reaches(Initial({0, 1}), actions, Two(Fiber(HOLD), Head, Some(7), Head, [], {}, 2, {0, 1}, 0))
      && Reaches(Initial({0, 1}), actions + [SubmitCallback(9, None), Pop(0, 0), Begin(0, 8)], w) && w.aborted
  {
    hide Reaches;
    var from := Initial({0, 1});
    var s := Starts(from);
    s := Parks(from, s);
    s := Wakes(from, s);
    s := RunsOut(from, s);
    s := Reads(from, s);
    s := Resets(from, s);
    s := Marks(from, s);
    assert s == [SubmitCallback(9, None), Pop(0, 0), Begin(0, 7), Register(0), Yield(0, false),
                 SubmitFiber(7, None, false), Pop(1, 0), Begin(1, 8), Finish(1, false),
                 Decrement(0), Look(0), Settle(0), Decrement(1), Look(1), Settle(1)];
    var s' := TakesNext(from, s);
    s', w := Fails(from, s');
    assert s' == s + [SubmitCallback(9, None), Pop(0, 0), Begin(0, 8)];
  }
}

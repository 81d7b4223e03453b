/**
 * Who runs a fiber, whatever pops steal: exactly which step makes a running fiber's state wrong, so that another worker
 * can run it too; and exactly when a worker acts on what the fiber it has run last did.
 */
module SchedulerRunners {
  import opened Schedulers
  import opened SchedulerRuns
  import opened SchedulerFibers
  import opened Wrappers

  /** A running fiber is in EXEC, a fiber in EXEC is running, and no fiber runs on two workers. */
  ghost predicate OneRunner(w: World) {
    && ExecRun(w)
    && (forall i, f :: RunningOn(w, i, f) ==> f in w.fibers && w.fibers[f] == EXEC)
    && (forall i, j, f :: RunningOn(w, i, f) && RunningOn(w, j, f) ==> i == j)
  }

  /** A worker that has run the fiber earlier marks it as parked while it is running again. */
  predicate Marks(w: World, a: Action) {
    && a.Settle? && a.i in w.workers && w.workers[a.i].pc.Looked?
    && w.workers[a.i].pc.seen != READY && !Ended(w.workers[a.i].pc.seen)
    && w.workers[a.i].pc.fiber in w.fibers && w.fibers[w.workers[a.i].pc.fiber] == EXEC
  }

  /** Where a running fiber comes from. */
  lemma RunnerFrom(w: World, a: Action, i: nat, f: nat)
    requires Enabled(w, a) && RunningOn(Step(w, a), i, f)
    ensures RunningOn(w, i, f) || (a.Begin? && a.i == i && (f in w.fibers ==> w.fibers[f] != EXEC))
    ensures a.Yield? || a.Finish? ==> a.i != i
  {
    StepMoves(w, a);
  }

  /** Only being marked takes a fiber that goes on running out of EXEC. */
  lemma StaysInExec(w: World, a: Action, i: nat, f: nat)
    requires OneRunner(w) && Enabled(w, a) && RunningOn(w, i, f) && RunningOn(Step(w, a), i, f)
    requires !(Marks(w, a) && w.workers[a.i].pc.fiber == f)
    ensures f in Step(w, a).fibers && Step(w, a).fibers[f] == EXEC
  {
    hide ExecRun, First, NothingFor, Stopping, InQueue;
    if a.Yield? || a.Finish? {
      assert RunningOn(w, a.i, w.workers[a.i].pc.fiber);
    }
  }

  lemma BegunInExec(w: World, a: Action, i: nat, f: nat)
    requires Enabled(w, a) && !RunningOn(w, i, f) && RunningOn(Step(w, a), i, f)
    ensures f in Step(w, a).fibers && Step(w, a).fibers[f] == EXEC
  {
    hide First, NothingFor, Stopping, InQueue;
    StepMoves(w, a);
  }

  lemma MarkBreaks(w: World, a: Action)
    requires OneRunner(w) && Enabled(w, a) && Marks(w, a)
    ensures !OneRunner(Step(w, a))
  {
    hide First, NothingFor, Stopping, InQueue;
    var f := w.workers[a.i].pc.fiber;
    var j :| RunningOn(w, j, f);
    assert RunningOn(Step(w, a), j, f);
  }

  lemma UnmarkedKeeps(w: World, a: Action)
    requires OneRunner(w) && Enabled(w, a) && !Marks(w, a) && !Step(w, a).aborted
    ensures OneRunner(Step(w, a))
  {
    ExecKeeps(w, a);
    hide Step, Enabled, ExecRun, Marks;
    var w' := Step(w, a);
    forall i, f | RunningOn(w', i, f)
      ensures f in w'.fibers && w'.fibers[f] == EXEC
    {
      if RunningOn(w, i, f) {
        StaysInExec(w, a, i, f);
      } else {
        BegunInExec(w, a, i, f);
      }
    }
    forall i, j, f | RunningOn(w', i, f) && RunningOn(w', j, f)
      ensures i == j
    {
      RunnerFrom(w, a, i, f);
      RunnerFrom(w, a, j, f);
    }
  }

  /** Every step keeps one runner in EXEC to every running fiber, except exactly one that marks a running fiber. */
  lemma OneRunnerKeeps(w: World, a: Action)
    requires OneRunner(w) && Enabled(w, a)
    ensures OneRunner(Step(w, a)) <==> !Marks(w, a)
  {
    hide Step, Enabled, OneRunner, Marks;
    if Marks(w, a) {
      MarkBreaks(w, a);
    } else if Step(w, a).aborted {
      AbortKeeps(w, a);
      SameRunners(w, Step(w, a));
    } else {
      UnmarkedKeeps(w, a);
    }
  }

  lemma SameRunners(w: World, w': World)
    requires OneRunner(w) && w'.fibers == w.fibers && w'.workers == w.workers
    ensures OneRunner(w')
  {
    assert forall i, f :: RunningOn(w', i, f) <==> RunningOn(w, i, f);
  }

  lemma InitialOneRunner(threads: set<nat>)
    ensures OneRunner(Initial(threads))
  {
  }

  /** Then the assertion in `addEvent` holds. */
  lemma RegisterHolds(w: World, i: nat)
    requires OneRunner(w) && Enabled(w, Register(i))
    ensures !Step(w, Register(i)).aborted
  {
    hide ExecRun;
    assert RunningOn(w, i, w.workers[i].pc.fiber);
  }

  // ----- runs

  ghost predicate AlwaysOneRunner(w: World, actions: seq<Action>)
    requires IsRun(w, actions)
    decreases |actions|
  {
    OneRunner(w) && (actions == [] || AlwaysOneRunner(Step(w, actions[0]), actions[1..]))
  }

  ghost predicate NoneMarks(w: World, actions: seq<Action>)
    requires IsRun(w, actions)
    decreases |actions|
  {
    actions == [] || (!Marks(w, actions[0]) && NoneMarks(Step(w, actions[0]), actions[1..]))
  }

  /** In a run every running fiber always has one runner, in EXEC, if and only if no step marks a running fiber. */
  lemma {:induction false} OneRunnerExactly(w: World, actions: seq<Action>)
    requires OneRunner(w) && IsRun(w, actions)
    ensures AlwaysOneRunner(w, actions) <==> NoneMarks(w, actions)
    decreases |actions|
  {
    hide Step, Enabled, OneRunner, Marks;
    if actions != [] {
      OneRunnerKeeps(w, actions[0]);
      if !Marks(w, actions[0]) {
        OneRunnerExactly(Step(w, actions[0]), actions[1..]);
      }
    }
  }

  // ----- settling

  /**
   * The worker has acted on what the fiber itself last did: one that is ready is queued again, one that is parked,
   * running or at rest is left alone, and one that has ended too, or, if it is the worker's own, is put at rest.
   */
  ghost predicate Honours(w: World, i: nat)
    requires Enabled(w, Settle(i)) && w.workers[i].pc.fiber in w.fibers
  {
    var f, own := w.workers[i].pc.fiber, w.workers[i].pc.own;
    var state, w' := w.fibers[f], Step(w, Settle(i));
    && !w'.aborted
    && w'.fibers == (if Ended(state) && own then w.fibers[f := INIT] else w.fibers)
    && w'.queue == (if state == READY then w.queue + [Entry(w.issued, Fib(f), None)] else w.queue)
  }

  /** What the worker has seen still says what is to be done, given the state the fiber is in by now. */
  predicate StillRight(seen: State, own: bool, state: State) {
    if seen == READY then state == READY
    else if Ended(seen) then if own then Ended(state) || state == INIT else state != READY
    else state == HOLD
  }

  /** A worker acts on what the fiber last did if and only if what it has seen of it still says so. */
  lemma SettleExactly(w: World, i: nat)
    requires Enabled(w, Settle(i)) && w.workers[i].pc.fiber in w.fibers
    ensures Honours(w, i) <==> StillRight(w.workers[i].pc.seen, w.workers[i].pc.own, w.fibers[w.workers[i].pc.fiber])
  {
    var f, w' := w.workers[i].pc.fiber, Step(w, Settle(i));
    var entry := Entry(w.issued, Fib(f), None);
    assert |w.queue + [entry]| != |w.queue|;
    assert w'.fibers != w.fibers ==> w.fibers[f] != w'.fibers[f];
  }
}

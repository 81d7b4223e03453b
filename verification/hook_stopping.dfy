/** What `IOManager::stopping` means for the fibers that wait. */
module HookStopping {
  import opened HookWorkers
  import H = Hooks
  import I = IoSpec
  import S = Schedulers
  import R = SchedulerRuns
  import opened Wrappers

  /** `IOManager::stopping`: no timeout is pending, no event is registered, and the scheduler may stop. */
  ghost predicate IoStopping(w: World) {
    (forall m :: !H.Stands(w.h, m, H.Pending)) && w.h.table.pending == 0 && S.Stopping(w.s)
  }

  // ----- the scheduler's invariant over runs of both

  /** Who refers to a fiber does not matter to it. */
  lemma SlotsIrrelevant(s: S.World, slots: set<nat>)
    requires R.Invariant(s)
    ensures R.Invariant(s.(slots := slots))
  {
    var s' := s.(slots := slots);
    R.SameWorkers(s, s');
    R.TicketsSame(s, s');
    assert R.ActiveWorkers(s') == R.ActiveWorkers(s) && R.IdleWorkers(s') == R.IdleWorkers(s);
    assert forall f :: R.Cared(s', f) <==> R.Cared(s, f);
    assert forall f :: S.InQueue(s', f) <==> S.InQueue(s, f);
    assert forall i, f :: R.RunningOn(s', i, f) <==> R.RunningOn(s, i, f);
  }

  lemma HandOverKeeps(s: S.World, task: I.Task)
    requires R.Invariant(s) && !s.aborted
    ensures R.Invariant(HandOver(s, task)) && !HandOver(s, task).aborted
  {
    hide R.Invariant;
    if task.scheduler == 0 {
      if task.work.Fiber? {
        var f := task.work.fiber;
        var s1 := s.(slots := s.slots + {f});
        SlotsIrrelevant(s, s.slots + {f});
        R.StepKeeps(s1, S.SubmitFiber(f, None, true));
        SlotsIrrelevant(S.Step(s1, S.SubmitFiber(f, None, true)), s.slots);
        assert HandOver(s, task) == S.Step(s1, S.SubmitFiber(f, None, true)).(slots := s.slots);
      } else {
        R.StepKeeps(s, S.SubmitCallback(task.work.cb, None));
      }
    }
  }

  lemma {:induction false} HandedKeeps(s: S.World, tasks: seq<I.Task>)
    requires R.Invariant(s) && !s.aborted
    ensures R.Invariant(Handed(s, tasks))
    decreases |tasks|
  {
    hide R.Invariant, HandOver;
    if tasks != [] {
      HandOverKeeps(s, tasks[0]);
      HandedKeeps(HandOver(s, tasks[0]), tasks[1..]);
    }
  }

  lemma SchedulerKeeps(w: World, a: Action)
    requires H.Invariant(w.h) && R.Invariant(w.s) && Enabled(w, a)
    ensures I.Valid(w.h.table) && R.Invariant(Step(w, a).s)
  {
    hide H.Invariant, H.Step, H.Enabled, S.Step, R.Invariant, Handed, Tasks, Allowed;
    ValidTable(w.h);
    match a
    case Own(i, step) =>
      if step.Park? {
        R.StepKeeps(w.s, S.Yield(i, false));
      } else {
        R.StepKeeps(w.s, S.Register(i));
      }
    case Outer(event) => HandedKeeps(w.s, Tasks(w.h, event));
    case Worker(m) => R.StepKeeps(w.s, m);
  }

  lemma {:induction false} SchedulerRun(w: World, actions: seq<Action>)
    requires H.Invariant(w.h) && R.Invariant(w.s) && IsRun(w, actions)
    ensures R.Invariant(Run(w, actions).s)
    decreases |actions|
  {
    hide Step, Enabled, H.Invariant, R.Invariant;
    if actions != [] {
      WaitsKeep(w, actions[0], 0);
      SchedulerKeeps(w, actions[0]);
      SchedulerRun(Step(w, actions[0]), actions[1..]);
    }
  }

  // ----- what stopping means

  /** When the scheduler may stop, the fibers in a call are exactly those that wait in their slots. */
  lemma CallsAreSlots(w: World, f: nat)
    requires H.Invariant(w.h) && Sound(w) && R.Invariant(w.s) && S.Stopping(w.s)
    ensures H.InCall(w.h, f) <==> H.InSlot(w.h, f)
  {
    hide H.InSlot, R.Counts, R.Tickets, R.ReadyHeld, R.ExecRun;
    if H.InSlot(w.h, f) {
      H.SlotWaits(w.h, f);
    }
    if H.InCall(w.h, f) {
      R.StoppingMeans(w.s);
      SoundMeans(w, f);
      NonePopped(w.s, f);
    }
  }

  lemma NonePopped(s: S.World, f: nat)
    requires R.ActiveWorkers(s) == {}
    ensures !Popped(s, f)
  {
    forall i
      ensures !PoppedBy(s, i, f)
    {
      assert i !in R.ActiveWorkers(s);
    }
  }

  lemma {:induction false} NoBits(fds: seq<I.Fd>, k: nat)
    requires I.Bits(fds) == 0 && k < |fds|
    ensures fds[k].events == {}
  {
    if k != 0 {
      NoBits(fds[1..], k - 1);
    } else {
      NoCount(fds[0]);
    }
  }

  lemma NoCount(x: I.Fd)
    requires I.Count(x) == 0
    ensures x.events == {}
  {
    assert forall e :: e in x.events ==> e == I.READ || e == I.WRITE;
  }

  /** With nothing pending no slot holds a fiber. */
  lemma NothingHeld(w: World, f: nat)
    requires H.Invariant(w.h) && w.h.table.pending == 0
    ensures !H.InSlot(w.h, f)
  {
    if H.InSlot(w.h, f) {
      NoBits(w.h.table.fds, w.h.fibers[f].fd);
    }
  }

  /**
   * When `IOManager::stopping` is true in a run in which nothing has gone wrong, no fiber is in the middle of a hooked
   * call, no task is queued or popped, and for every fiber that is ready to run some worker is about to queue it again.
   */
  lemma StoppingMeans(w0: World, threads: set<nat>, actions: seq<Action>)
    requires w0 == World(H.NEW, S.Initial(threads), false) && H.Invariant(w0.h) && IsRun(w0, actions)
    requires NoneBreaks(w0, actions) && IoStopping(Run(w0, actions))
    ensures var w := Run(w0, actions);
      && (forall f :: !H.InCall(w.h, f))
      && R.ActiveWorkers(w.s) == {} && (forall t :: 0 <= t < w.s.issued ==> t in w.s.done)
      && (forall f :: f in w.s.fibers && w.s.fibers[f] == S.READY ==> exists i :: R.AboutToRequeue(w.s, i, f))
  {
    hide Run, IsRun, NoneBreaks, H.Invariant, Sound, R.Invariant, H.InCall, H.InSlot;
    InitialSound(w0, threads);
    R.InitialInvariant(threads);
    SoundExactly(w0, actions);
    WakesCount(w0, actions, 0);
    SchedulerRun(w0, actions);
    var w := Run(w0, actions);
    R.StoppingMeans(w.s);
    forall f
      ensures !H.InCall(w.h, f)
    {
      CallsAreSlots(w, f);
      NothingHeld(w, f);
    }
  }
}

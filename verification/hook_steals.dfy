/**
 * The wait protocol on the workers when no pop steals, as with a single worker: then only someone else who schedules a
 * fiber in the middle of a call can upset it.
 */
module HookSteals {
  import opened HookWorkers
  import H = Hooks
  import T = HookTimeouts
  import I = IoSpec
  import S = Schedulers
  import R = SchedulerRuns
  import F = SchedulerFibers
  import N = SchedulerRunners
  import opened Wrappers

  /** A pop of a fiber that another worker still has in hand. */
  predicate Steals(w: World, a: Action) {
    a.Worker? && F.Steals(w.s, a.move)
  }

  /** Someone else schedules a fiber in a call, or has done so before it enters the call. */
  predicate Outside(w: World, a: Action) {
    || (a.Own? && a.step.Enter? && S.InQueue(w.s, a.step.f))
    || (a.Worker? && a.move.SubmitFiber? && H.InCall(w.h, a.move.f))
  }

  /** Someone refers to a fiber in a slot. */
  ghost predicate Kept(w: World) {
    forall f :: H.InSlot(w.h, f) ==> f in w.s.slots
  }

  /** Hands are exclusive, and the waits sound. */
  ghost predicate Apart(w: World) {
    H.Invariant(w.h) && Sound(w) && F.Exclusive(w.s) && Kept(w)
  }

  // ----- every step

  /** A running fiber is in no other worker's hands. */
  lemma RunningNotPopped(s: S.World, i: nat, f: nat)
    requires F.Exclusive(s) && R.RunningOn(s, i, f)
    ensures !Popped(s, f)
  {
    hide F.HandFits, F.CbFits, F.Known;
    forall j | j in s.workers
      ensures !PoppedBy(s, j, f)
    {
      assert F.Apart(s, i, j);
    }
  }

  lemma NotRequeued(w: World, m: S.Action)
    requires Apart(w) && S.Enabled(w.s, m) && m.Settle?
    ensures !Queues(w, m) && !N.Marks(w.s, m)
  {
    hide H.Invariant, F.Known, F.CbFits, Served, F.Apart;
    assert F.HandFits(w.s, m.i);
    assert Fits(w, w.s.workers[m.i].pc.fiber);
  }

  /** With exclusive hands a step goes wrong if and only if it is someone else's scheduling. */
  lemma BreaksOutside(w: World, a: Action)
    requires Apart(w) && Enabled(w, a)
    ensures Breaks(w, a) <==> Outside(w, a)
  {
    hide H.Invariant, F.Exclusive, Sound, Kept, H.Enabled;
    match a
    case Own(i, step) =>
      RunningNotPopped(w.s, i, step.f);
    case Outer(event) =>
    case Worker(m) =>
      if m.Settle? {
        NotRequeued(w, m);
      }
  }

  /** Fibers someone refers to can be handed over. */
  lemma {:induction false} HandedExclusive(s: S.World, tasks: seq<I.Task>)
    requires F.Exclusive(s) && forall f :: H.Resumed(tasks)[f] > 0 ==> f in s.slots
    ensures F.Exclusive(Handed(s, tasks))
    decreases |tasks|
  {
    hide F.Exclusive, HandOver, H.Resumed;
    if tasks != [] {
      var t := tasks[0];
      forall f | H.Resumed(tasks[1..])[f] > 0
        ensures f in s.slots
      {
        ResumedFirst(tasks, f);
      }
      if t.work.Fiber? {
        ResumedFirst(tasks, t.work.fiber);
      }
      HandOverIs(s, t, 0);
      HandOverExclusive(s, t);
      HandedExclusive(HandOver(s, t), tasks[1..]);
    }
  }

  lemma HandOverExclusive(s: S.World, task: I.Task)
    requires F.Exclusive(s) && (task.work.Fiber? && task.scheduler == 0 ==> task.work.fiber in s.slots)
    ensures F.Exclusive(HandOver(s, task))
  {
    hide F.HandFits, F.CbFits, F.Known, F.Apart;
    if task.scheduler == 0 {
      F.ExclusiveKeeps(s, if task.work.Fiber? then S.SubmitFiber(task.work.fiber, None, true) else S.SubmitCallback(task.work.cb, None));
    }
  }

  /** What is fired had waited in a slot. */
  lemma FiredWaited(h: H.World, h': H.World, fired: multiset<nat>, f: nat)
    requires H.Invariant(h) && H.Invariant(h') && h'.fibers == h.fibers && h'.queue == h.queue + fired && fired[f] > 0
    ensures H.InSlot(h, f)
  {
    hide H.InSlot;
    assert H.Waits(h, f) <==> H.Waits(h', f);
  }

  lemma OuterHands(w: World, event: H.Action)
    requires Apart(w) && Enabled(w, Outer(event))
    ensures I.Valid(w.h.table) && F.Exclusive(Step(w, Outer(event)).s)
  {
    hide H.Step, H.Enabled, H.Invariant, F.Exclusive, H.InSlot, Tasks, H.Resumed, Handed, Sound;
    ValidTable(w.h);
    var tasks := Tasks(w.h, event);
    H.StepKeeps(w.h, event);
    T.FibersStay(w.h, event);
    FiringQueue(w.h, event);
    forall f | H.Resumed(tasks)[f] > 0
      ensures f in w.s.slots
    {
      FiredWaited(w.h, H.Step(w.h, event), H.Resumed(tasks), f);
    }
    HandedExclusive(w.s, tasks);
  }

  lemma OwnHands(w: World, i: nat, step: H.Action)
    requires Apart(w) && Enabled(w, Own(i, step))
    ensures I.Valid(w.h.table) && F.Exclusive(Ran(w, i, step))
  {
    hide H.Step, H.Enabled, H.Invariant, F.Exclusive, Sound, Kept;
    ValidTable(w.h);
    if step.Park? {
      F.ExclusiveKeeps(w.s, S.Yield(i, false));
    } else {
      F.ExclusiveKeeps(w.s, S.Register(i));
    }
  }

  /** The hands stay exclusive if and only if the step does not steal. */
  lemma HandsExactly(w: World, a: Action)
    requires Apart(w) && Enabled(w, a)
    ensures I.Valid(w.h.table) && (F.Exclusive(Step(w, a).s) <==> !Steals(w, a))
  {
    hide H.Invariant, H.Enabled, H.Step, S.Step, S.Enabled, F.Exclusive, Sound, Kept, Allowed, Handed;
    ValidTable(w.h);
    match a
    case Own(i, step) => OwnHands(w, i, step);
    case Outer(event) => OuterHands(w, event);
    case Worker(m) => F.ExclusiveKeeps(w.s, m);
  }

  // Whom the slots refer to.

  lemma AddedRegistered(h: H.World, step: H.Action)
    requires H.Invariant(h) && H.Enabled(h, step) && step.AddEvent? && H.Waits(H.Step(h, step), step.f)
    ensures I.Valid(h.table) && H.At(H.Step(h, step), step.f, H.Pc.Registered)
  {
    hide H.Invariant, H.Alive;
    ValidTable(h);
  }

  lemma ParkedSlot(h: H.World, step: H.Action)
    requires H.Invariant(h) && H.Enabled(h, step) && step.Park? && H.InSlot(H.Step(h, step), step.f)
    ensures H.InSlot(h, step.f)
  {
    hide H.Alive, H.SlotHolds, H.SlotsOwned, H.Once, H.Counted;
  }

  /** The fiber is put into a slot only by registering, which lets someone refer to it. */
  lemma OwnSlots(w: World, i: nat, step: H.Action)
    requires Apart(w) && Enabled(w, Own(i, step))
    ensures I.Valid(w.h.table) && Kept(Step(w, Own(i, step)))
  {
    hide H.Step, H.Enabled, H.Invariant, F.Exclusive, Ran, Sound, H.InSlot;
    ValidTable(w.h);
    RanSlots(w, i, step);
    var h' := H.Step(w.h, step);
    H.StepKeeps(w.h, step);
    forall f | H.InSlot(h', f)
      ensures f in Ran(w, i, step).slots
    {
      if f != step.f {
        T.SlotsShrink(w.h, step, f);
      } else {
        SlotWaits(h', f);
        T.WhoWaits(w.h, step);
        if step.AddEvent? {
          AddedRegistered(w.h, step);
        } else {
          ParkedSlot(w.h, step);
        }
      }
    }
  }

  lemma SlotWaits(h: H.World, f: nat)
    requires H.Invariant(h) && H.InSlot(h, f)
    ensures H.Waits(h, f) && H.InCall(h, f)
  {
    H.SlotWaits(h, f);
  }

  lemma RanSlots(w: World, i: nat, step: H.Action)
    requires Apart(w) && Enabled(w, Own(i, step))
    ensures I.Valid(w.h.table) && w.s.slots <= Ran(w, i, step).slots
    ensures step.AddEvent? && H.At(H.Step(w.h, step), step.f, H.Pc.Registered) ==> step.f in Ran(w, i, step).slots
  {
    hide H.Step, H.Enabled, H.Invariant, Sound, Kept, F.HandFits, F.CbFits, F.Apart, F.Known;
    ValidTable(w.h);
    if !step.Park? {
      F.NoAbort(w.s, S.Register(i));
    }
  }

  lemma OuterSlots(w: World, event: H.Action)
    requires Apart(w) && Enabled(w, Outer(event))
    ensures I.Valid(w.h.table) && Kept(Step(w, Outer(event)))
  {
    hide H.Step, H.Enabled, H.Invariant, F.Exclusive, Sound, H.InSlot, Tasks, Handed;
    ValidTable(w.h);
    HandedIs(w.s, Tasks(w.h, event), 0);
    forall f | H.InSlot(H.Step(w.h, event), f)
      ensures f in w.s.slots
    {
      T.SlotsShrink(w.h, event, f);
    }
  }

  lemma WorkerSlots(w: World, m: S.Action)
    requires Apart(w) && Enabled(w, Worker(m))
    ensures I.Valid(w.h.table) && Kept(Step(w, Worker(m)))
  {
    hide H.Invariant, F.Exclusive, Sound, H.InSlot, S.Step, S.Enabled, Step;
    ValidTable(w.h);
    var w' := Step(w, Worker(m));
    forall f | H.InSlot(w'.h, f)
      ensures f in w'.s.slots
    {
      SlotBefore(w, m, f);
      SlotsStay(w.s, m, f);
    }
  }

  lemma SlotBefore(w: World, m: S.Action, f: nat)
    requires Apart(w) && Enabled(w, Worker(m))
    ensures I.Valid(w.h.table) && Step(w, Worker(m)).s == S.Step(w.s, m)
    ensures H.InSlot(Step(w, Worker(m)).h, f) ==> H.InSlot(w.h, f)
  {
    hide H.Invariant, F.Exclusive, Sound, Kept, S.Step, H.SlotHolds, H.Alive;
    ValidTable(w.h);
  }

  lemma SlotsStay(s: S.World, m: S.Action, g: nat)
    requires S.Enabled(s, m) && g in s.slots && !(m.Forget? && m.f == g) && !(m.SubmitFiber? && m.f == g && !m.keep)
    ensures g in S.Step(s, m).slots
  {
  }

  lemma SlotsKept(w: World, a: Action)
    requires Apart(w) && Enabled(w, a)
    ensures I.Valid(w.h.table) && Kept(Step(w, a))
  {
    hide *;
    match a
    case Own(i, step) => OwnSlots(w, i, step);
    case Outer(event) => OuterSlots(w, event);
    case Worker(m) => WorkerSlots(w, m);
  }

  // ----- runs

  ghost predicate NoneSteals(w: World, actions: seq<Action>)
    requires H.Invariant(w.h) && IsRun(w, actions)
    decreases |actions|
  {
    actions == [] || (
      WaitsKeep(w, actions[0], 0);
      !Steals(w, actions[0]) && NoneSteals(Step(w, actions[0]), actions[1..]))
  }

  ghost predicate NoneOutside(w: World, actions: seq<Action>)
    requires H.Invariant(w.h) && IsRun(w, actions)
    decreases |actions|
  {
    actions == [] || (
      WaitsKeep(w, actions[0], 0);
      !Outside(w, actions[0]) && NoneOutside(Step(w, actions[0]), actions[1..]))
  }

  /**
   * In a run in which no pop steals, the waits are always sound if and only if no one but the events schedules a fiber in
   * the middle of a call.
   */
  lemma {:induction false} SoundWithoutSteals(w: World, actions: seq<Action>)
    requires Apart(w) && IsRun(w, actions) && NoneSteals(w, actions)
    ensures AlwaysSound(w, actions) <==> NoneOutside(w, actions)
    decreases |actions|
  {
    hide Step, Enabled, Sound, Breaks, Steals, Outside, H.Invariant, F.Exclusive, Kept;
    if actions != [] {
      var a := actions[0];
      WaitsKeep(w, a, 0);
      StepExactly(w, a);
      BreaksOutside(w, a);
      HandsExactly(w, a);
      SlotsKept(w, a);
      if Outside(w, a) {
        NotSound(Step(w, a), actions[1..]);
      } else {
        SoundWithoutSteals(Step(w, a), actions[1..]);
      }
    }
  }

  lemma InitialApart(w: World, threads: set<nat>)
    requires w == World(H.NEW, S.Initial(threads), false)
    ensures Apart(w)
  {
    InitialSound(w, threads);
    F.InitialExclusive(threads);
  }

  /** One worker alone never steals. */
  lemma {:induction false} OneWorker(w: World, i: nat, actions: seq<Action>)
    requires H.Invariant(w.h) && w.s.workers.Keys == {i} && IsRun(w, actions)
    ensures NoneSteals(w, actions)
    decreases |actions|
  {
    hide Enabled, Step, H.Invariant, Steals;
    if actions != [] {
      WaitsKeep(w, actions[0], 0);
      SameThreads(w, i, actions[0]);
      OneWorker(Step(w, actions[0]), i, actions[1..]);
    }
  }

  lemma ThreadsStay(s: S.World, m: S.Action)
    requires S.Enabled(s, m)
    ensures S.Step(s, m).workers.Keys == s.workers.Keys
  {
    R.StepMoves(s, m);
    F.ActorKnown(s, m);
  }

  lemma AloneNeverSteals(s: S.World, i: nat, m: S.Action)
    requires s.workers.Keys == {i} && S.Enabled(s, m)
    ensures !F.Steals(s, m)
  {
    F.PopperIn(s, m);
  }

  lemma SameThreads(w: World, i: nat, a: Action)
    requires H.Invariant(w.h) && Enabled(w, a) && w.s.workers.Keys == {i}
    ensures I.Valid(w.h.table) && Step(w, a).s.workers.Keys == {i} && !Steals(w, a)
  {
    hide H.Invariant, H.Step, H.Enabled, S.Step, F.Steals, Handed, Tasks, H.Resumed, Allowed;
    ValidTable(w.h);
    match a
    case Own(j, step) =>
      if step.Park? {
        ThreadsStay(w.s, S.Yield(j, false));
      } else {
        ThreadsStay(w.s, S.Register(j));
      }
    case Outer(event) => HandedIs(w.s, Tasks(w.h, event), 0);
    case Worker(m) =>
      ThreadsStay(w.s, m);
      AloneNeverSteals(w.s, i, m);
  }

  /** So with one worker the waits are always sound if and only if no one else schedules a fiber in the middle of a call. */
  lemma OneWorkerSound(w: World, i: nat, actions: seq<Action>)
    requires w == World(H.NEW, S.Initial({i}), false) && H.Invariant(w.h) && IsRun(w, actions)
    ensures AlwaysSound(w, actions) <==> NoneOutside(w, actions)
  {
    hide IsRun, AlwaysSound, NoneOutside, NoneSteals, H.Invariant, Apart;
    InitialApart(w, {i});
    OneWorker(w, i, actions);
    SoundWithoutSteals(w, actions);
  }
}

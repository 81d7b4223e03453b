/**
 * The wait protocol on the scheduler's workers: fibers in hooked calls run on workers, registering and parking are what
 * the running fiber does, and what is fired becomes an entry of the workers' queue. A worker that enters a fiber in the
 * middle of a call resumes its wait.
 */
module HookWorkers {
  import H = Hooks
  import T = HookTimeouts
  import I = IoSpec
  import S = Schedulers
  import R = SchedulerRuns
  import F = SchedulerFibers
  import N = SchedulerRunners
  import opened Wrappers

  /** `broken`: a worker has entered a fiber in the middle of a call that was not parked, or not scheduled. */
  datatype World = World(h: H.World, s: S.World, broken: bool)

  /** A step of the fiber that runs on worker `i`; of timeouts, events or `close`; of the scheduler and its workers. */
  datatype Action = Own(i: nat, step: H.Action) | Outer(event: H.Action) | Worker(move: S.Action)

  // ----- what is fired becomes an entry of the queue

  ghost function Fired(outcome: I.Outcome): seq<I.Task> {
    if outcome.Fires? then outcome.tasks else []
  }

  /** The tasks a step hands to the scheduler. */
  ghost function Tasks(h: H.World, a: H.Action): seq<I.Task>
    requires I.Valid(h.table) && H.Enabled(h, a)
  {
    match a
    case CallbackCancels(m, fails) => Fired(I.Cancel(h.table, h.timers[m].fd, h.timers[m].event, fails))
    case Dispatched(fd, ready, fails) => Fired(I.Dispatch(h.table, fd, ready, fails))
    case Close(fd, fails) => Fired(I.CancelAll(h.table, fd, fails))
    case _ => []
  }

  function HandOver(s: S.World, task: I.Task): S.World {
    if task.scheduler != 0 then s
    else S.Enqueue(s, if task.work.Fiber? then S.Fib(task.work.fiber) else S.Cb(task.work.cb), None)
  }

  function Handed(s: S.World, tasks: seq<I.Task>): S.World
    decreases |tasks|
  {
    if tasks == [] then s else Handed(HandOver(s, tasks[0]), tasks[1..])
  }

  // ----- steps

  /** The worker enters a fiber in the middle of a hooked call. */
  predicate Enters(w: World, m: S.Action) {
    && m.Begin? && m.i in w.s.workers && w.s.workers[m.i].pc.Popped?
    && w.s.workers[m.i].pc.entry.work.Fib? && H.InCall(w.h, w.s.workers[m.i].pc.entry.work.fiber)
  }

  /** A fiber in a hooked call yields only by parking, and the slot that refers to it does so until it is fired. */
  predicate Allowed(w: World, m: S.Action)
    requires S.Enabled(w.s, m)
  {
    && (m.Yield? || m.Finish? ==> !H.InCall(w.h, w.s.workers[m.i].pc.fiber))
    && (m.Forget? || (m.SubmitFiber? && !m.keep) ==> !H.InSlot(w.h, m.f))
  }

  ghost predicate Enabled(w: World, a: Action) {
    !w.broken && !w.h.aborted && !w.s.aborted &&
    match a
    case Own(i, step) =>
      T.ByFiber(step) && !step.Resume? && R.RunningOn(w.s, i, step.f) && H.Enabled(w.h, step)
    case Outer(event) => !T.ByFiber(event) && H.Enabled(w.h, event)
    case Worker(move) => S.Enabled(w.s, move) && Allowed(w, move)
  }

  /** What the running fiber's step is to the scheduler. */
  ghost function Ran(w: World, i: nat, step: H.Action): S.World
    requires I.Valid(w.h.table) && Enabled(w, Own(i, step))
  {
    if step.Park? then S.Step(w.s, S.Yield(i, false))
    else if step.AddEvent? && H.At(H.Step(w.h, step), step.f, H.Pc.Registered) then S.Step(w.s, S.Register(i))
    else w.s
  }

  ghost function Step(w: World, a: Action): World
    requires I.Valid(w.h.table) && Enabled(w, a)
  {
    match a
    case Own(i, step) => World(H.Step(w.h, step), Ran(w, i, step), false)
    case Outer(event) => World(H.Step(w.h, event), Handed(w.s, Tasks(w.h, event)), false)
    case Worker(move) => (
      var s' := S.Step(w.s, move);
      if !Enters(w, move) then World(w.h, s', false) else
      var f := w.s.workers[move.i].pc.entry.work.fiber;
      if H.Enabled(w.h, H.Resume(f)) then World(H.Step(w.h, H.Resume(f)), s', false) else World(w.h, s', true)
    )
  }

  // ----- what every step keeps

  function Count(queue: seq<S.Entry>, f: nat): nat {
    if queue == [] then 0
    else Count(queue[..|queue| - 1], f) + (if queue[|queue| - 1].work == S.Fib(f) then 1 else 0)
  }

  predicate PoppedBy(s: S.World, i: nat, f: nat) {
    i in s.workers && s.workers[i].pc.Popped? && s.workers[i].pc.entry.work == S.Fib(f)
  }

  ghost predicate Popped(s: S.World, f: nat) {
    exists i :: PoppedBy(s, i, f)
  }

  ghost predicate Runs(s: S.World, f: nat) {
    exists i :: R.RunningOn(s, i, f)
  }

  /** A fiber in a call runs on a worker until it parks. */
  ghost predicate Placed(w: World, f: nat)
    requires H.InCall(w.h, f)
  {
    if w.h.fibers[f].pc == H.Parked then f in w.s.fibers && w.s.fibers[f] == S.HOLD else Runs(w.s, f)
  }

  /** It is in the queue or popped as often as it has been scheduled; whoever has popped it finds it parked. */
  ghost predicate Served(w: World, f: nat)
    requires H.InCall(w.h, f)
  {
    && Count(w.s.queue, f) + (if Popped(w.s, f) then 1 else 0) == w.h.queue[f]
    && (forall i, j :: PoppedBy(w.s, i, f) && PoppedBy(w.s, j, f) ==> i == j)
    && (Popped(w.s, f) ==> w.h.fibers[f].pc == H.Parked)
  }

  ghost predicate Fits(w: World, f: nat) {
    H.InCall(w.h, f) ==> Placed(w, f) && Served(w, f)
  }

  /**
   * What ties the waits to the workers: a running fiber has one runner and is in EXEC, and every fiber in a call is
   * where its wait says. No worker has entered one that was not parked and scheduled.
   */
  ghost predicate Sound(w: World) {
    !w.broken && N.OneRunner(w.s) && forall f :: Fits(w, f)
  }

  /** The fiber is queued, or a worker has popped it. */
  ghost predicate Scheduled(s: S.World, f: nat) {
    S.InQueue(s, f) || Popped(s, f)
  }

  /** The step queues a fiber in a call: on someone's behalf, or because the worker saw it READY before the call. */
  predicate Queues(w: World, m: S.Action) {
    || (m.SubmitFiber? && H.InCall(w.h, m.f))
    || (m.Settle? && m.i in w.s.workers && w.s.workers[m.i].pc.Looked? && w.s.workers[m.i].pc.seen == S.READY
        && H.InCall(w.h, w.s.workers[m.i].pc.fiber))
  }

  /**
   * The steps that go wrong: a worker marks a running fiber as parked; a fiber in a call is queued by other than its
   * events; a fiber enters a call while it is queued, or popped by another worker.
   */
  ghost predicate Breaks(w: World, a: Action) {
    match a
    case Own(i, step) => step.Enter? && Scheduled(w.s, step.f)
    case Outer(event) => false
    case Worker(m) => N.Marks(w.s, m) || Queues(w, m)
  }

  // ----- the queue

  lemma CountPush(queue: seq<S.Entry>, e: S.Entry, f: nat)
    ensures Count(queue + [e], f) == Count(queue, f) + (if e.work == S.Fib(f) then 1 else 0)
  {
    assert (queue + [e])[..|queue|] == queue;
  }

  lemma {:induction false} CountPop(queue: seq<S.Entry>, k: nat, f: nat)
    requires k < |queue|
    ensures Count(queue, f) == Count(S.Remove(queue, k), f) + (if queue[k].work == S.Fib(f) then 1 else 0)
  {
    var init, last := queue[..|queue| - 1], queue[|queue| - 1];
    if k < |init| {
      CountPop(init, k, f);
      assert S.Remove(queue, k) == S.Remove(init, k) + [last];
      CountPush(S.Remove(init, k), last, f);
    } else {
      assert S.Remove(queue, k) == init;
    }
  }

  lemma {:induction false} CountIn(queue: seq<S.Entry>, f: nat)
    ensures Count(queue, f) == 0 <==> forall k :: 0 <= k < |queue| ==> queue[k].work != S.Fib(f)
  {
    if queue != [] {
      CountIn(queue[..|queue| - 1], f);
      assert forall k :: 0 <= k < |queue| - 1 ==> queue[..|queue| - 1][k] == queue[k];
    }
  }

  /** The task resumes the fiber. */
  predicate IsFor(task: I.Task, f: nat) {
    task.scheduler == 0 && task.work.Fiber? && task.work.fiber == f
  }

  /** What handing tasks over changes: the queue, by those that are fibers of this scheduler. */
  lemma {:induction false} HandedIs(s: S.World, tasks: seq<I.Task>, f: nat)
    ensures var s' := Handed(s, tasks);
      && s'.fibers == s.fibers && s'.workers == s.workers && s'.slots == s.slots
      && Count(s'.queue, f) == Count(s.queue, f) + H.Resumed(tasks)[f]
    decreases |tasks|
  {
    hide Count, HandOver, H.Resumed;
    if tasks == [] {
      NoneResumed(f);
    } else {
      HandOverIs(s, tasks[0], f);
      ResumedFirst(tasks, f);
      HandedIs(HandOver(s, tasks[0]), tasks[1..], f);
    }
  }

  lemma NoneResumed(f: nat)
    ensures H.Resumed([])[f] == 0
  {
  }

  lemma ResumedFirst(tasks: seq<I.Task>, f: nat)
    requires tasks != []
    ensures H.Resumed(tasks)[f] == (if IsFor(tasks[0], f) then 1 else 0) + H.Resumed(tasks[1..])[f]
  {
  }

  lemma HandOverIs(s: S.World, task: I.Task, f: nat)
    ensures var s' := HandOver(s, task);
      && s'.fibers == s.fibers && s'.workers == s.workers && s'.slots == s.slots
      && Count(s'.queue, f) == Count(s.queue, f) + (if IsFor(task, f) then 1 else 0)
  {
    if task.scheduler == 0 {
      CountPush(s.queue, S.Entry(s.issued, if task.work.Fiber? then S.Fib(task.work.fiber) else S.Cb(task.work.cb), None), f);
    }
  }

  /** What a step of the scheduler does to a fiber's entries. */
  lemma QueueStep(s: S.World, m: S.Action, f: nat)
    requires S.Enabled(s, m)
    ensures m.Pop? ==> m.k < |s.queue|
    ensures m.Pop? ==> Count(s.queue, f) == Count(S.Step(s, m).queue, f) + (if s.queue[m.k].work == S.Fib(f) then 1 else 0)
    ensures m.SubmitFiber? ==> Count(S.Step(s, m).queue, f) == Count(s.queue, f) + (if m.f == f then 1 else 0)
    ensures m.Settle? ==>
      Count(S.Step(s, m).queue, f)
        == Count(s.queue, f) + (if s.workers[m.i].pc.seen == S.READY && s.workers[m.i].pc.fiber == f then 1 else 0)
    ensures !m.Pop? && !m.SubmitFiber? && !m.Settle? ==> Count(S.Step(s, m).queue, f) == Count(s.queue, f)
  {
    if m.Pop? {
      CountPop(s.queue, m.k, f);
    } else if m.SubmitFiber? {
      CountPush(s.queue, S.Entry(s.issued, S.Fib(m.f), m.thread), f);
    } else if m.SubmitCallback? {
      CountPush(s.queue, S.Entry(s.issued, S.Cb(m.cb), m.thread), f);
    } else if m.Settle? {
      CountPush(s.queue, S.Entry(s.issued, S.Fib(s.workers[m.i].pc.fiber), None), f);
    }
  }

  // ----- the running fiber's steps

  lemma ValidTable(h: H.World)
    requires H.Invariant(h)
    ensures I.Valid(h.table)
  {
  }

  /** What the fiber's step does to the scheduler. */
  lemma RanIs(w: World, i: nat, step: H.Action)
    requires H.Invariant(w.h) && Sound(w) && Enabled(w, Own(i, step))
    ensures I.Valid(w.h.table)
    ensures var s' := Ran(w, i, step);
      && N.OneRunner(s') && s'.queue == w.s.queue && !s'.aborted
      && (step.Park? ==> step.f in s'.fibers && s'.fibers[step.f] == S.HOLD)
      && (!step.Park? ==> R.RunningOn(s', i, step.f))
  {
    hide H.Step, H.Enabled, N.OneRunner;
    ValidTable(w.h);
    if step.Park? {
      N.OneRunnerKeeps(w.s, S.Yield(i, false));
    } else {
      N.OneRunnerKeeps(w.s, S.Register(i));
      N.RegisterHolds(w.s, i);
    }
  }

  /** Which workers have popped or run a fiber, and its state. */
  lemma RanOthers(w: World, i: nat, step: H.Action, g: nat)
    requires H.Invariant(w.h) && Enabled(w, Own(i, step))
    ensures I.Valid(w.h.table)
    ensures var s' := Ran(w, i, step);
      && SamePoppers(w.s, s', g)
      && (g != step.f ==> (Runs(w.s, g) ==> Runs(s', g)) && (g in w.s.fibers ==> g in s'.fibers && s'.fibers[g] == w.s.fibers[g]))
  {
    hide H.Step, H.Enabled, H.Invariant;
    ValidTable(w.h);
    var s' := Ran(w, i, step);
    forall j
      ensures PoppedBy(s', j, g) <==> PoppedBy(w.s, j, g)
      ensures g != step.f && R.RunningOn(w.s, j, g) ==> R.RunningOn(s', j, g)
    {
    }
  }

  ghost predicate SamePoppers(s: S.World, s': S.World, f: nat) {
    forall i :: PoppedBy(s', i, f) <==> PoppedBy(s, i, f)
  }

  /** What it does to the wait: nothing is scheduled, and only parking leads to being parked. */
  lemma OwnWait(w: World, i: nat, step: H.Action)
    requires H.Invariant(w.h) && Enabled(w, Own(i, step))
    ensures I.Valid(w.h.table)
    ensures var h' := H.Step(w.h, step);
      && H.Invariant(h') && h'.queue == w.h.queue
      && (H.InCall(h', step.f) && !step.Enter? ==> H.InCall(w.h, step.f) && w.h.fibers[step.f].pc != H.Parked)
      && (step.Enter? ==> H.InCall(h', step.f) && w.h.queue[step.f] == 0)
      && (H.InCall(h', step.f) ==> (h'.fibers[step.f].pc == H.Parked <==> step.Park?))
  {
    hide H.Invariant, H.Alive;
    ValidTable(w.h);
    H.StepKeeps(w.h, step);
    if step.Enter? {
      NotWaiting(w.h, step.f);
    }
  }

  lemma NotWaiting(h: H.World, f: nat)
    requires H.Invariant(h) && !H.Waits(h, f)
    ensures h.queue[f] == 0 && !H.InSlot(h, f)
  {
  }

  lemma ScheduledWaits(h: H.World, f: nat)
    requires H.Invariant(h)
    ensures h.queue[f] <= 1 && (h.queue[f] == 1 ==> H.Waits(h, f))
  {
  }

  /** Being served depends on the entries, the poppers, and the place in the wait. */
  lemma ServedSame(w: World, w': World, f: nat)
    requires H.InCall(w.h, f) && H.InCall(w'.h, f)
    requires w'.s.queue == w.s.queue && w'.h.queue[f] == w.h.queue[f] && SamePoppers(w.s, w'.s, f)
    requires w.h.fibers[f].pc == H.Parked <==> w'.h.fibers[f].pc == H.Parked
    ensures Served(w', f) <==> Served(w, f)
  {
    hide Count;
  }

  lemma ServedUnpopped(w: World, w': World, f: nat)
    requires H.InCall(w.h, f) && H.InCall(w'.h, f) && Served(w, f) && w.h.fibers[f].pc != H.Parked
    requires w'.s.queue == w.s.queue && w'.h.queue[f] == w.h.queue[f] && SamePoppers(w.s, w'.s, f)
    ensures Served(w', f)
  {
    hide Count;
  }

  /** A fiber that enters a call is served if and only if it is not scheduled already. */
  lemma EnteringServed(w: World, w': World, f: nat)
    requires H.InCall(w'.h, f) && w'.h.queue[f] == 0
    requires w'.s.queue == w.s.queue && SamePoppers(w.s, w'.s, f)
    ensures Served(w', f) <==> !Scheduled(w.s, f)
  {
    CountIn(w.s.queue, f);
    hide Count;
    assert Popped(w'.s, f) <==> Popped(w.s, f);
    assert w'.h.queue[f] == 0;
  }

  lemma OwnFits(w: World, i: nat, step: H.Action)
    requires H.Invariant(w.h) && Sound(w) && Enabled(w, Own(i, step))
    ensures I.Valid(w.h.table) && (Fits(Step(w, Own(i, step)), step.f) <==> !Breaks(w, Own(i, step)))
  {
    hide H.Step, H.Enabled, H.Invariant, S.Step, N.OneRunner, Ran, Served, Scheduled, SamePoppers;
    ValidTable(w.h);
    var f, w' := step.f, Step(w, Own(i, step));
    RanIs(w, i, step);
    RanOthers(w, i, step, f);
    OwnWait(w, i, step);
    assert Fits(w, f);
    if H.InCall(w'.h, f) {
      assert Placed(w', f);
      if step.Enter? {
        EnteringServed(w, w', f);
      } else {
        ServedUnpopped(w, w', f);
      }
    }
  }

  /** Other fibers are where they were. */
  lemma OwnOthers(w: World, i: nat, step: H.Action, g: nat)
    requires H.Invariant(w.h) && Sound(w) && Enabled(w, Own(i, step)) && g != step.f
    ensures I.Valid(w.h.table) && Fits(Step(w, Own(i, step)), g)
  {
    hide H.Step, H.Enabled, H.Invariant, S.Step, N.OneRunner, Ran, Served, Runs, SamePoppers;
    ValidTable(w.h);
    var w' := Step(w, Own(i, step));
    RanIs(w, i, step);
    RanOthers(w, i, step, g);
    OwnWait(w, i, step);
    T.FiberStays(w.h, step, g);
    assert Fits(w, g);
    if H.InCall(w'.h, g) {
      ServedSame(w, w', g);
    }
  }

  lemma OwnExactly(w: World, i: nat, step: H.Action)
    requires H.Invariant(w.h) && Sound(w) && Enabled(w, Own(i, step))
    ensures I.Valid(w.h.table) && (Sound(Step(w, Own(i, step))) <==> !Breaks(w, Own(i, step)))
  {
    hide Fits, H.Step, H.Enabled, H.Invariant, N.OneRunner, Ran, Breaks;
    ValidTable(w.h);
    RanIs(w, i, step);
    OwnFits(w, i, step);
    forall g | g != step.f
      ensures Fits(Step(w, Own(i, step)), g)
    {
      OwnOthers(w, i, step, g);
    }
  }

  // ----- timeouts, events and closing

  lemma FiringQueue(h: H.World, event: H.Action)
    requires H.Invariant(h) && H.Enabled(h, event) && !T.ByFiber(event)
    ensures I.Valid(h.table) && H.Step(h, event).queue == h.queue + H.Resumed(Tasks(h, event))
  {
    hide H.Invariant, H.Alive, H.Resumed, I.Cancel, I.Dispatch, I.CancelAll, I.Add;
    ValidTable(h);
    NoneResumedAtAll();
  }

  lemma NoneResumedAtAll()
    ensures H.Resumed([]) == multiset{}
  {
  }

  lemma OuterKeeps(w: World, event: H.Action)
    requires H.Invariant(w.h) && Sound(w) && Enabled(w, Outer(event))
    ensures I.Valid(w.h.table) && Sound(Step(w, Outer(event)))
  {
    hide H.Step, H.Enabled, H.Invariant, N.OneRunner, Fits, Tasks, H.Resumed, Count, Handed;
    ValidTable(w.h);
    var w' := Step(w, Outer(event));
    HandedIs(w.s, Tasks(w.h, event), 0);
    N.SameRunners(w.s, w'.s);
    forall f
      ensures Fits(w', f)
    {
      OuterFits(w, event, f);
    }
  }

  lemma OuterFits(w: World, event: H.Action, f: nat)
    requires H.Invariant(w.h) && Sound(w) && Enabled(w, Outer(event))
    ensures I.Valid(w.h.table) && Fits(Step(w, Outer(event)), f)
  {
    hide H.Step, H.Enabled, H.Invariant, N.OneRunner, Tasks, H.Resumed, Count, Handed;
    ValidTable(w.h);
    var w', tasks := Step(w, Outer(event)), Tasks(w.h, event);
    T.FibersStay(w.h, event);
    FiringQueue(w.h, event);
    HandedIs(w.s, tasks, f);
    assert Fits(w, f);
    assert forall i :: PoppedBy(w'.s, i, f) <==> PoppedBy(w.s, i, f);
    assert forall i :: R.RunningOn(w'.s, i, f) <==> R.RunningOn(w.s, i, f);
  }

  // ----- the workers

  /** A popped fiber in the middle of a call has been scheduled and is parked. */
  lemma PoppedParked(w: World, i: nat, f: nat)
    requires H.Invariant(w.h) && Sound(w) && PoppedBy(w.s, i, f) && H.InCall(w.h, f)
    ensures w.h.fibers[f].pc == H.Parked && w.h.queue[f] == Count(w.s.queue, f) + 1 == 1
    ensures f in w.s.fibers && w.s.fibers[f] == S.HOLD
  {
    hide H.Invariant, N.OneRunner, Count;
    assert Fits(w, f);
    assert Popped(w.s, f);
    ScheduledWaits(w.h, f);
  }

  /** A worker that enters a fiber in the middle of a call resumes its wait, and runs it. */
  lemma EntersParked(w: World, m: S.Action)
    requires H.Invariant(w.h) && Sound(w) && Enabled(w, Worker(m)) && Enters(w, m)
    ensures var f := w.s.workers[m.i].pc.entry.work.fiber;
      && PoppedBy(w.s, m.i, f) && H.Enabled(w.h, H.Resume(f)) && w.h.queue[f] == Count(w.s.queue, f) + 1
      && R.RunningOn(S.Step(w.s, m), m.i, f) && !S.Step(w.s, m).aborted
  {
    hide H.Invariant, Fits, Count, N.OneRunner;
    var f := w.s.workers[m.i].pc.entry.work.fiber;
    PoppedParked(w, m.i, f);
  }

  /** A parked fiber stays in HOLD until it is entered. */
  lemma HoldStays(s: S.World, m: S.Action, g: nat)
    requires N.OneRunner(s) && S.Enabled(s, m) && g in s.fibers && s.fibers[g] == S.HOLD
    requires !(m.Begin? && PoppedBy(s, m.i, g))
    ensures g in S.Step(s, m).fibers && S.Step(s, m).fibers[g] == S.HOLD
  {
    hide R.ExecRun, S.InQueue, S.First, S.NothingFor, S.Stopping;
    if m.Yield? || m.Finish? {
      assert R.RunningOn(s, m.i, s.workers[m.i].pc.fiber);
    }
  }

  /** A running fiber runs until it yields or ends. */
  lemma RunsStays(s: S.World, m: S.Action, g: nat)
    requires S.Enabled(s, m) && Runs(s, g)
    requires m.Yield? || m.Finish? ==> s.workers[m.i].pc.fiber != g
    ensures Runs(S.Step(s, m), g)
  {
    hide S.Step;
    var i :| R.RunningOn(s, i, g);
    assert R.ByWorker(m) && m.i == i ==> m.Yield? || m.Finish?;
    if m.Yield? || m.Finish? {
      assert m.i != i;
    }
    F.OthersStay(s, m, i);
    assert R.RunningOn(S.Step(s, m), i, g);
  }

  /** Which fibers are popped changes by popping and entering. */
  lemma PoppedStays(s: S.World, m: S.Action, g: nat)
    requires S.Enabled(s, m)
    requires m.Pop? && m.k < |s.queue| ==> s.queue[m.k].work != S.Fib(g)
    requires !(m.Begin? && PoppedBy(s, m.i, g))
    ensures SamePoppers(s, S.Step(s, m), g)
  {
    forall i
      ensures PoppedBy(S.Step(s, m), i, g) <==> PoppedBy(s, i, g)
    {
      R.StepMoves(s, m);
    }
  }

  /** A pop of a fiber nobody has popped: it is not running. */
  lemma PopPops(s: S.World, m: S.Action, g: nat)
    requires S.Enabled(s, m) && m.Pop? && m.k < |s.queue| && s.queue[m.k].work == S.Fib(g)
    requires !Popped(s, g)
    ensures Popped(S.Step(s, m), g) && forall i :: PoppedBy(S.Step(s, m), i, g) ==> i == m.i
    ensures g in s.fibers ==> s.fibers[g] != S.EXEC
  {
    hide S.NothingFor;
    assert PoppedBy(S.Step(s, m), m.i, g);
    forall i | PoppedBy(S.Step(s, m), i, g)
      ensures i == m.i
    {
      assert !PoppedBy(s, i, g);
    }
  }

  lemma BeginEnters(s: S.World, m: S.Action, g: nat)
    requires S.Enabled(s, m) && m.Begin? && PoppedBy(s, m.i, g) && R.RunningOn(S.Step(s, m), m.i, g)
    requires forall j :: PoppedBy(s, j, g) ==> j == m.i
    ensures !Popped(S.Step(s, m), g)
  {
    hide S.Step;
    R.StepMoves(s, m);
    forall j
      ensures !PoppedBy(S.Step(s, m), j, g)
    {
      if j != m.i {
        assert !PoppedBy(s, j, g);
      }
    }
  }

  /** The fiber in the middle of a call that the step enters. */
  predicate Entered(w: World, m: S.Action, g: nat) {
    Enters(w, m) && w.s.workers[m.i].pc.entry.work.fiber == g
  }

  /** What a step of the workers does to the waits. */
  lemma WakeIs(w: World, m: S.Action, g: nat)
    requires H.Invariant(w.h) && Sound(w) && Enabled(w, Worker(m))
    ensures I.Valid(w.h.table)
    ensures var w' := Step(w, Worker(m));
      && !w'.broken && w'.s == S.Step(w.s, m)
      && (H.InCall(w'.h, g) <==> H.InCall(w.h, g))
      && (H.InCall(w.h, g) && !Entered(w, m, g) ==>
            w'.h.fibers[g].pc == w.h.fibers[g].pc && w'.h.queue[g] == w.h.queue[g])
      && (Entered(w, m, g) ==> w'.h.fibers[g].pc == H.Woken && w'.h.queue[g] == w.h.queue[g] - 1)
  {
    hide H.Invariant, N.OneRunner, Fits, H.Alive, S.Step;
    ValidTable(w.h);
    if Enters(w, m) {
      EntersParked(w, m);
    }
  }

  lemma WorkerPlaced(w: World, m: S.Action, g: nat)
    requires H.Invariant(w.h) && Sound(w) && Enabled(w, Worker(m)) && H.InCall(w.h, g)
    ensures I.Valid(w.h.table) && H.InCall(Step(w, Worker(m)).h, g) && Placed(Step(w, Worker(m)), g)
  {
    hide H.Invariant, N.OneRunner, S.Step, S.Enabled, Step, Served;
    WakeIs(w, m, g);
    assert Fits(w, g);
    if Entered(w, m, g) {
      EntersParked(w, m);
    } else if w.h.fibers[g].pc == H.Parked {
      HoldStays(w.s, m, g);
    } else {
      RunsStays(w.s, m, g);
    }
  }

  /** The step queues this fiber, which is in a call. */
  predicate QueuesIt(w: World, m: S.Action, g: nat) {
    Queues(w, m) && (if m.SubmitFiber? then m.f else w.s.workers[m.i].pc.fiber) == g
  }

  lemma EnteredServed(w: World, m: S.Action, g: nat)
    requires H.Invariant(w.h) && Sound(w) && Enabled(w, Worker(m)) && H.InCall(w.h, g) && Entered(w, m, g)
    ensures I.Valid(w.h.table) && H.InCall(Step(w, Worker(m)).h, g) && Served(Step(w, Worker(m)), g)
  {
    hide H.Invariant, N.OneRunner, S.Step, S.Enabled, Step, Placed, Count;
    WakeIs(w, m, g);
    assert Fits(w, g);
    QueueStep(w.s, m, g);
    EntersParked(w, m);
    BeginEnters(w.s, m, g);
  }

  lemma PoppedServed(w: World, m: S.Action, g: nat)
    requires H.Invariant(w.h) && Sound(w) && Enabled(w, Worker(m)) && H.InCall(w.h, g)
    requires m.Pop? && m.k < |w.s.queue| && w.s.queue[m.k].work == S.Fib(g)
    ensures I.Valid(w.h.table) && H.InCall(Step(w, Worker(m)).h, g) && Served(Step(w, Worker(m)), g)
  {
    hide H.Invariant, S.Step, S.Enabled, Step, Count;
    WakeIs(w, m, g);
    assert Fits(w, g);
    QueueStep(w.s, m, g);
    ScheduledWaits(w.h, g);
    PopPops(w.s, m, g);
  }

  lemma QuietServed(w: World, m: S.Action, g: nat)
    requires H.Invariant(w.h) && Sound(w) && Enabled(w, Worker(m)) && H.InCall(w.h, g) && !Entered(w, m, g)
    requires !(m.Pop? && m.k < |w.s.queue| && w.s.queue[m.k].work == S.Fib(g))
    ensures I.Valid(w.h.table) && H.InCall(Step(w, Worker(m)).h, g)
    ensures Served(Step(w, Worker(m)), g) <==> !QueuesIt(w, m, g)
  {
    hide H.Invariant, N.OneRunner, S.Step, Step, Count, Placed;
    WakeIs(w, m, g);
    assert Fits(w, g);
    QueueStep(w.s, m, g);
    PoppedStays(w.s, m, g);
    assert Popped(Step(w, Worker(m)).s, g) <==> Popped(w.s, g);
  }

  lemma WorkerFits(w: World, m: S.Action, g: nat)
    requires H.Invariant(w.h) && Sound(w) && Enabled(w, Worker(m))
    ensures I.Valid(w.h.table) && (Fits(Step(w, Worker(m)), g) <==> !QueuesIt(w, m, g))
  {
    hide H.Invariant, N.OneRunner, S.Step, S.Enabled, Step, Served, Placed;
    WakeIs(w, m, g);
    if H.InCall(w.h, g) {
      WorkerPlaced(w, m, g);
      if Entered(w, m, g) {
        EnteredServed(w, m, g);
      } else if m.Pop? && m.k < |w.s.queue| && w.s.queue[m.k].work == S.Fib(g) {
        PoppedServed(w, m, g);
      } else {
        QuietServed(w, m, g);
      }
    }
  }

  lemma WorkerExactly(w: World, m: S.Action)
    requires H.Invariant(w.h) && Sound(w) && Enabled(w, Worker(m))
    ensures I.Valid(w.h.table) && (Sound(Step(w, Worker(m))) <==> !Breaks(w, Worker(m)))
  {
    hide H.Invariant, N.OneRunner, S.Step, S.Enabled, Step, Fits, N.Marks, Allowed;
    WakeIs(w, m, 0);
    N.OneRunnerKeeps(w.s, m);
    forall g
      ensures Fits(Step(w, Worker(m)), g) <==> !QueuesIt(w, m, g)
    {
      WorkerFits(w, m, g);
    }
    if Queues(w, m) {
      assert QueuesIt(w, m, if m.SubmitFiber? then m.f else w.s.workers[m.i].pc.fiber);
    }
  }

  /**
   * Whatever pops steal: every step keeps what ties the waits to the workers, except exactly one that marks a running
   * fiber as parked, queues a fiber in a call, or lets a fiber enter a call that is still scheduled.
   */
  lemma StepExactly(w: World, a: Action)
    requires H.Invariant(w.h) && Sound(w) && Enabled(w, a)
    ensures I.Valid(w.h.table) && (Sound(Step(w, a)) <==> !Breaks(w, a))
  {
    hide *;
    match a
    case Own(i, step) => OwnExactly(w, i, step);
    case Outer(event) => OuterExactly(w, event);
    case Worker(m) => WorkerExactly(w, m);
  }

  lemma OuterExactly(w: World, event: H.Action)
    requires H.Invariant(w.h) && Sound(w) && Enabled(w, Outer(event))
    ensures I.Valid(w.h.table) && (Sound(Step(w, Outer(event))) <==> !Breaks(w, Outer(event)))
  {
    OuterKeeps(w, event);
  }

  /** What that says of one fiber in a call. */
  lemma SoundMeans(w: World, f: nat)
    requires H.Invariant(w.h) && Sound(w) && H.InCall(w.h, f)
    ensures f in w.s.fibers
    ensures Count(w.s.queue, f) + (if Popped(w.s, f) then 1 else 0) == if H.Waits(w.h, f) && !H.InSlot(w.h, f) then 1 else 0
    ensures if w.h.fibers[f].pc == H.Parked then w.s.fibers[f] == S.HOLD && !Runs(w.s, f)
            else w.s.fibers[f] == S.EXEC && exists i :: R.RunningOn(w.s, i, f) && forall j :: R.RunningOn(w.s, j, f) ==> j == i
  {
    hide R.ExecRun, Count, H.InSlot;
    assert Fits(w, f);
    if w.h.fibers[f].pc != H.Parked {
      var i :| R.RunningOn(w.s, i, f);
    }
  }

  // ----- runs

  /** The waits always keep their invariant, and only a worker's entering resumes a fiber. */
  lemma WaitsKeep(w: World, a: Action, f: nat)
    requires H.Invariant(w.h) && Enabled(w, a)
    ensures I.Valid(w.h.table) && H.Invariant(Step(w, a).h)
    ensures Step(w, a).h.wakes[f] == w.h.wakes[f] + (if Resumes(w, a, f) then 1 else 0)
  {
    hide H.Invariant, S.Step, H.Alive, H.Registers, Ran, Handed;
    ValidTable(w.h);
    match a
    case Own(i, step) => H.StepKeeps(w.h, step);
    case Outer(event) => H.StepKeeps(w.h, event);
    case Worker(m) =>
      if Enters(w, m) && H.Enabled(w.h, H.Resume(w.s.workers[m.i].pc.entry.work.fiber)) {
        H.StepKeeps(w.h, H.Resume(w.s.workers[m.i].pc.entry.work.fiber));
      }
  }

  /** A worker enters the fiber, which is parked and scheduled. */
  ghost predicate Resumes(w: World, a: Action, f: nat) {
    a.Worker? && Entered(w, a.move, f) && H.Enabled(w.h, H.Resume(f))
  }

  ghost predicate IsRun(w: World, actions: seq<Action>)
    requires H.Invariant(w.h)
    decreases |actions|
  {
    actions == [] || (Enabled(w, actions[0]) && (WaitsKeep(w, actions[0], 0); IsRun(Step(w, actions[0]), actions[1..])))
  }

  ghost function Run(w: World, actions: seq<Action>): World
    requires H.Invariant(w.h) && IsRun(w, actions)
    decreases |actions|
  {
    if actions == [] then w else
    WaitsKeep(w, actions[0], 0);
    Run(Step(w, actions[0]), actions[1..])
  }

  /** How often workers resume the fiber. */
  ghost function Resumptions(w: World, actions: seq<Action>, f: nat): nat
    requires H.Invariant(w.h) && IsRun(w, actions)
    decreases |actions|
  {
    if actions == [] then 0 else
    WaitsKeep(w, actions[0], f);
    (if Resumes(w, actions[0], f) then 1 else 0) + Resumptions(Step(w, actions[0]), actions[1..], f)
  }

  ghost predicate AlwaysSound(w: World, actions: seq<Action>)
    requires H.Invariant(w.h) && IsRun(w, actions)
    decreases |actions|
  {
    Sound(w) && (actions == [] || (WaitsKeep(w, actions[0], 0); AlwaysSound(Step(w, actions[0]), actions[1..])))
  }

  ghost predicate NoneBreaks(w: World, actions: seq<Action>)
    requires H.Invariant(w.h) && IsRun(w, actions)
    decreases |actions|
  {
    actions == [] || (
      WaitsKeep(w, actions[0], 0);
      !Breaks(w, actions[0]) && NoneBreaks(Step(w, actions[0]), actions[1..]))
  }

  lemma {:induction false} WakesCount(w: World, actions: seq<Action>, f: nat)
    requires H.Invariant(w.h) && IsRun(w, actions)
    ensures H.Invariant(Run(w, actions).h) && Run(w, actions).h.wakes[f] == w.h.wakes[f] + Resumptions(w, actions, f)
    decreases |actions|
  {
    hide Step, Enabled, Resumes, H.Invariant;
    if actions != [] {
      WaitsKeep(w, actions[0], f);
      WakesCount(Step(w, actions[0]), actions[1..], f);
    }
  }

  /**
   * In every run over any number of workers, whatever pops steal, the workers resume a fiber exactly once for each of
   * its registrations but the one it waits on.
   */
  lemma ResumedOnce(w0: World, threads: set<nat>, actions: seq<Action>, f: nat)
    requires w0 == World(H.NEW, S.Initial(threads), false) && H.Invariant(w0.h) && IsRun(w0, actions)
    ensures var w := Run(w0, actions);
      w.h.regs[f] == Resumptions(w0, actions, f) + (if H.Waits(w.h, f) then 1 else 0)
  {
    hide Run, IsRun, Resumptions;
    WakesCount(w0, actions, f);
    NoneWoken(w0, f);
  }

  lemma NoneWoken(w: World, f: nat)
    requires w.h == H.NEW
    ensures w.h.wakes[f] == 0
  {
  }

  lemma InitialSound(w: World, threads: set<nat>)
    requires w == World(H.NEW, S.Initial(threads), false)
    ensures H.Invariant(w.h) && Sound(w)
  {
    H.NewInvariant();
    N.InitialOneRunner(threads);
  }

  /**
   * The wait protocol over any number of workers, whatever pops steal. In every state of a run each running fiber has one
   * runner and is in EXEC, each fiber in a call runs until it parks and then is in HOLD, it has exactly one entry, queued
   * or popped, if it has been scheduled and none otherwise, and no worker has entered one that was not parked and
   * scheduled: if and only if no step of the run marks a running fiber as parked, queues a fiber in a call, or lets a
   * fiber enter a call that is still scheduled.
   */
  lemma {:induction false} SoundExactly(w: World, actions: seq<Action>)
    requires H.Invariant(w.h) && Sound(w) && IsRun(w, actions)
    ensures AlwaysSound(w, actions) <==> NoneBreaks(w, actions)
    ensures NoneBreaks(w, actions) ==> Sound(Run(w, actions))
    decreases |actions|
  {
    hide Step, Enabled, Sound, Breaks, H.Invariant;
    if actions != [] {
      WaitsKeep(w, actions[0], 0);
      StepExactly(w, actions[0]);
      if !Breaks(w, actions[0]) {
        SoundExactly(Step(w, actions[0]), actions[1..]);
      } else {
        NotSound(Step(w, actions[0]), actions[1..]);
      }
    }
  }

  lemma NotSound(w: World, actions: seq<Action>)
    requires H.Invariant(w.h) && IsRun(w, actions) && !Sound(w)
    ensures !AlwaysSound(w, actions)
  {
  }
}

/** A run in which a fiber in the middle of a hooked call comes to run on two workers at once. */
module HookRaces {
  import opened HookWorkers
  import H = Hooks
  import T = HookTimeouts
  import I = IoSpec
  import S = Schedulers
  import R = SchedulerRuns
  import F = SchedulerFibers
  import N = SchedulerRunners
  import opened Wrappers

  /** The run is possible and ends in `w`. */
  ghost predicate Reaches(from: World, actions: seq<Action>, w: World) {
    H.Invariant(from.h) && IsRun(from, actions) && Run(from, actions) == w
  }

  lemma {:induction false} Extend(from: World, actions: seq<Action>, w: World, a: Action)
    requires Reaches(from, actions, w) && (H.Invariant(w.h) ==> Enabled(w, a))
    ensures H.Invariant(w.h) && Reaches(from, actions + [a], Step(w, a))
    decreases |actions|
  {
    hide H.Invariant, Step, Enabled;
    if actions == [] {
      assert (actions + [a])[1..] == [];
      WaitsKeep(w, a, 0);
      Here(Step(w, a));
    } else {
      WaitsKeep(from, actions[0], 0);
      Extend(Step(from, actions[0]), actions[1..], w, a);
      assert (actions + [a])[1..] == actions[1..] + [a];
    }
  }

  lemma Here(w: World)
    requires H.Invariant(w.h)
    ensures Reaches(w, [], w)
  {
  }

  lemma Then(from: World, actions: seq<Action>, w: World, a: Action, w': World) returns (next: seq<Action>)
    requires Reaches(from, actions, w) && (I.Valid(w.h.table) ==> Enabled(w, a) && Step(w, a) == w')
    ensures next == actions + [a] && Reaches(from, next, w')
  {
    hide Reaches, Enabled, Step, H.Invariant;
    ReachedInvariant(from, actions, w);
    ValidTable(w.h);
    Extend(from, actions, w, a);
    next := actions + [a];
  }

  lemma {:induction false} ReachedInvariant(from: World, actions: seq<Action>, w: World)
    requires Reaches(from, actions, w)
    ensures H.Invariant(w.h)
  {
    hide H.Invariant, Run, IsRun;
    WakesCount(from, actions, 0);
  }

  /** A step of the scheduler that enters no fiber in a call. */
  lemma ThenWorker(from: World, actions: seq<Action>, w: World, m: S.Action, s': S.World) returns (next: seq<Action>)
    requires Reaches(from, actions, w) && !w.broken && !w.h.aborted && !w.s.aborted
    requires S.Enabled(w.s, m) && Allowed(w, m) && !Enters(w, m) && S.Step(w.s, m) == s'
    ensures next == actions + [Worker(m)] && Reaches(from, next, World(w.h, s', false))
  {
    hide Reaches, S.Enabled, S.Step, Allowed, Enters;
    next := Then(from, actions, w, Worker(m), World(w.h, s', false));
  }

  /** A step of the running fiber that does not concern the scheduler. */
  lemma ThenOwn(from: World, actions: seq<Action>, w: World, i: nat, step: H.Action, h': H.World) returns (next: seq<Action>)
    requires Reaches(from, actions, w) && !w.broken && !w.h.aborted && !w.s.aborted
    requires T.ByFiber(step) && !step.Resume? && !step.Park? && !step.AddEvent? && R.RunningOn(w.s, i, step.f)
    requires I.Valid(w.h.table) ==> H.Enabled(w.h, step) && H.Step(w.h, step) == h'
    ensures next == actions + [Own(i, step)] && Reaches(from, next, World(h', w.s, false))
  {
    hide Reaches, H.Enabled, H.Step, R.RunningOn;
    next := Then(from, actions, w, Own(i, step), World(h', w.s, false));
  }

  // ----- the table

  const READABLE := I.Ready(true, false, false)

  ghost predicate IdleAt(t: I.Table) {
    I.Valid(t) && 5 < |t.fds| && t.fds[5] == I.IDLE
  }

  /** Fiber 7 waits to read descriptor 5. */
  ghost predicate HeldAt(t: I.Table) {
    I.Valid(t) && 5 < |t.fds| && t.fds[5] == I.Registered(I.IDLE, I.READ, H.Wait(7))
  }

  lemma StartIdle()
    ensures IdleAt(I.START)
  {
    I.StartValid();
  }

  lemma Registering(t: I.Table) returns (t': I.Table)
    requires IdleAt(t)
    ensures I.Add(t, 5, I.READ, H.Wait(7), false) == (t', I.Added) && HeldAt(t')
  {
    t' := I.Add(t, 5, I.READ, H.Wait(7), false).0;
    I.AddKeeps(t, 5, I.READ, H.Wait(7), false);
  }

  lemma Dispatching(t: I.Table) returns (t': I.Table)
    requires HeldAt(t)
    ensures I.Dispatch(t, 5, READABLE, false) == I.Fires(t', [H.Wait(7)]) && IdleAt(t')
  {
    hide I.Bits, I.Mirrored;
    assert I.SlotsMatch(t.fds[5]);
    assert READABLE.Actual(t.fds[5].events) == {I.READ};
    assert t.fds[5].events == {I.READ};
    t' := I.Fire(t, 5, {I.READ}).t;
    I.FireKeeps(t, 5, {I.READ});
    assert t'.fds[5] == I.IDLE;
  }

  // ----- the states

  /** Fiber 7 in a call that reads descriptor 5. */
  function Call(t: I.Table, pc: H.Pc, clean: bool, queue: multiset<nat>, regs: multiset<nat>, wakes: multiset<nat>): H.World {
    H.World(t, map[7 := H.Fib(pc, 0, 5, I.READ, false, None, clean)], map[0 := false], map[], queue, regs, wakes,
            false, false)
  }

  const ONCE := multiset{7}
  const NEVER: multiset<nat> := multiset{}

  const AGAIN := S.Entry(2, S.Fib(7), None)

  /** The fiber runs on the first worker. */
  function First(slots: set<nat>): S.World {
    F.Two(F.Fiber(S.EXEC), S.Running(7, true, 0), Some(7), S.Head, [], slots, 1, {}, 1)
  }

  /** It has parked and been popped by the second, which runs it, while the first is at `pc`. */
  function Second(pc: S.Pc, done: set<nat>, active: int): S.World {
    F.Two(F.Fiber(S.EXEC), pc, Some(7), S.Running(7, false, 1), [], {7}, 2, done, active)
  }

  // ----- the run

  lemma Begins(from: World) returns (s: seq<Action>)
    requires from == World(H.NEW, S.Initial({0, 1}), false)
    ensures s == [Worker(S.SubmitCallback(9, None)), Worker(S.Pop(0, 0)), Worker(S.Begin(0, 7))]
    ensures Reaches(from, s, World(H.NEW, First({}), false))
  {
    hide Reaches;
    InitialSound(from, {0, 1});
    Here(from);
    var s0 := F.Two(map[], S.Head, None, S.Head, [], {}, 0, {}, 0);
    var s1 := F.Two(map[], S.Head, None, S.Head, [F.FIRST], {}, 1, {}, 0);
    var s2 := F.Two(map[], S.Popped(F.FIRST), None, S.Head, [], {}, 1, {}, 1);
    assert from.s == s0;
    s := ThenWorker(from, [], from, S.SubmitCallback(9, None), s1);
    s := ThenWorker(from, s, World(H.NEW, s1, false), S.Pop(0, 0), s2);
    s := ThenWorker(from, s, World(H.NEW, s2, false), S.Begin(0, 7), First({}));
  }

  lemma Calls(from: World, s: seq<Action>) returns (s': seq<Action>)
    requires Reaches(from, s, World(H.NEW, First({}), false))
    ensures s' == s + [Own(0, H.Spawn(7)), Own(0, H.Enter(7, 5, I.READ, false, 0)), Own(0, H.WouldBlock(7, 0))]
    ensures Reaches(from, s', World(Call(I.START, H.Armed, false, NEVER, NEVER, NEVER), First({}), false))
  {
    hide Reaches, I.Valid;
    var h1 := H.NEW.(fibers := map[7 := H.Fib(H.Outside, 0, 0, I.READ, false, None, false)]);
    var h2 := Call(I.START, H.Trying, false, NEVER, NEVER, NEVER);
    s' := ThenOwn(from, s, World(H.NEW, First({}), false), 0, H.Spawn(7), h1);
    s' := ThenOwn(from, s', World(h1, First({}), false), 0, H.Enter(7, 5, I.READ, false, 0), h2);
    s' := ThenOwn(from, s', World(h2, First({}), false), 0, H.WouldBlock(7, 0), Call(I.START, H.Armed, false, NEVER, NEVER, NEVER));
  }

  /** It registers its event and parks. */
  lemma Parks(from: World, s: seq<Action>) returns (s': seq<Action>, t: I.Table)
    requires Reaches(from, s, World(Call(I.START, H.Armed, false, NEVER, NEVER, NEVER), First({}), false))
    ensures s' == s + [Own(0, H.AddEvent(7, false)), Own(0, H.Park(7))] && HeldAt(t)
    ensures Reaches(from, s', World(Call(t, H.Parked, true, NEVER, ONCE, NEVER), Left([], 1), false))
  {
    hide Reaches, I.Valid, I.Add;
    StartIdle();
    t := Registering(I.START);
    var w0 := World(Call(I.START, H.Armed, false, NEVER, NEVER, NEVER), First({}), false);
    var w1 := World(Call(t, H.Pc.Registered, true, NEVER, ONCE, NEVER), First({7}), false);
    s' := Then(from, s, w0, Own(0, H.AddEvent(7, false)), w1);
    s' := Then(from, s', w1, Own(0, H.Park(7)), World(Call(t, H.Parked, true, NEVER, ONCE, NEVER), Left([], 1), false));
  }

  /** The fiber has parked, and the first worker has not let go of it. */
  function Left(queue: seq<S.Entry>, issued: nat): S.World {
    F.Two(F.Fiber(S.HOLD), S.Returned(7, true, 0), Some(7), S.Head, queue, {7}, issued, {}, 1)
  }

  lemma OneResumed()
    ensures H.Resumed([H.Wait(7)]) == ONCE
  {
    assert [H.Wait(7)][1..] == [];
  }

  /** Its event comes, and the second worker pops and enters it. */
  lemma Wakes(from: World, s: seq<Action>, t: I.Table) returns (s': seq<Action>, t': I.Table)
    requires HeldAt(t) && Reaches(from, s, World(Call(t, H.Parked, true, NEVER, ONCE, NEVER), Left([], 1), false))
    ensures s' == s + [Outer(H.Dispatched(5, READABLE, false)), Worker(S.Pop(1, 0))] && IdleAt(t')
    ensures Reaches(from, s', World(Call(t', H.Parked, true, ONCE, ONCE, NEVER), Taken(), false))
  {
    hide Reaches, I.Valid, I.Dispatch, H.Resumed;
    t' := Dispatching(t);
    OneResumed();
    var w0 := World(Call(t, H.Parked, true, NEVER, ONCE, NEVER), Left([], 1), false);
    var w1 := World(Call(t', H.Parked, true, ONCE, ONCE, NEVER), Left([F.SECOND], 2), false);
    HandsOver(Left([], 1));
    s' := Then(from, s, w0, Outer(H.Dispatched(5, READABLE, false)), w1);
    s' := ThenWorker(from, s', w1, S.Pop(1, 0), Taken());
  }

  lemma HandsOver(s: S.World)
    ensures Handed(s, [H.Wait(7)]) == S.Enqueue(s, S.Fib(7), None)
  {
    assert [H.Wait(7)][1..] == [];
  }

  function Taken(): S.World {
    F.Two(F.Fiber(S.HOLD), S.Returned(7, true, 0), Some(7), S.Popped(F.SECOND), [], {7}, 2, {}, 2)
  }

  /** The second worker enters the fiber. */
  lemma Resumes7(from: World, s: seq<Action>, t: I.Table) returns (s': seq<Action>)
    requires IdleAt(t) && Reaches(from, s, World(Call(t, H.Parked, true, ONCE, ONCE, NEVER), Taken(), false))
    ensures s' == s + [Worker(S.Begin(1, 8))]
    ensures Reaches(from, s', World(Call(t, H.Woken, true, NEVER, ONCE, ONCE), Second(S.Returned(7, true, 0), {}, 2), false))
  {
    hide Reaches, I.Valid;
    s' := Then(from, s, World(Call(t, H.Parked, true, ONCE, ONCE, NEVER), Taken(), false), Worker(S.Begin(1, 8)),
               World(Call(t, H.Woken, true, NEVER, ONCE, ONCE), Second(S.Returned(7, true, 0), {}, 2), false));
  }

  /** The first, which has run it, reads that it is in EXEC. */
  lemma Reads(from: World, s: seq<Action>, h: H.World) returns (s': seq<Action>)
    requires Reaches(from, s, World(h, Second(S.Returned(7, true, 0), {}, 2), false)) && !h.aborted
    ensures s' == s + [Worker(S.Decrement(0)), Worker(S.Look(0))]
    ensures Reaches(from, s', World(h, Second(S.Looked(7, true, S.EXEC), {0}, 1), false))
  {
    hide Reaches, I.Valid;
    var s1, s2 := Second(S.Returned(7, true, 0), {}, 2), Second(S.After(7, true), {0}, 1);
    s' := ThenWorker(from, s, World(h, s1, false), S.Decrement(0), s2);
    s' := ThenWorker(from, s', World(h, s2, false), S.Look(0), Second(S.Looked(7, true, S.EXEC), {0}, 1));
  }

  /** The fiber goes on and is about to wait again. */
  lemma GoesOn(from: World, s: seq<Action>, t: I.Table) returns (s': seq<Action>)
    requires Reaches(from, s, World(Call(t, H.Woken, true, NEVER, ONCE, ONCE), Second(S.Looked(7, true, S.EXEC), {0}, 1), false))
    ensures s' == s + [Own(1, H.DropTimer(7)), Own(1, H.Check(7)), Own(1, H.WouldBlock(7, 0))]
    ensures Reaches(from, s', World(Call(t, H.Armed, true, NEVER, ONCE, ONCE), Second(S.Looked(7, true, S.EXEC), {0}, 1), false))
  {
    hide Reaches, I.Valid;
    var s0 := Second(S.Looked(7, true, S.EXEC), {0}, 1);
    var h0, h1 := Call(t, H.Woken, true, NEVER, ONCE, ONCE), Call(t, H.Checking, true, NEVER, ONCE, ONCE);
    var h2, h3 := Call(t, H.Trying, true, NEVER, ONCE, ONCE), Call(t, H.Armed, true, NEVER, ONCE, ONCE);
    s' := ThenOwn(from, s, World(h0, s0, false), 1, H.DropTimer(7), h1);
    s' := ThenOwn(from, s', World(h1, s0, false), 1, H.Check(7), h2);
    s' := ThenOwn(from, s', World(h2, s0, false), 1, H.WouldBlock(7, 0), h3);
  }

  /** It registers once more, in EXEC as asserted, and the event comes before it has parked. */
  lemma Registers(from: World, s: seq<Action>, t: I.Table) returns (s': seq<Action>, t': I.Table)
    requires IdleAt(t)
    requires Reaches(from, s, World(Call(t, H.Armed, true, NEVER, ONCE, ONCE), Second(S.Looked(7, true, S.EXEC), {0}, 1), false))
    ensures s' == s + [Own(1, H.AddEvent(7, false)), Outer(H.Dispatched(5, READABLE, false))]
    ensures Reaches(from, s', World(Call(t', H.Pc.Registered, true, ONCE, ONCE + ONCE, ONCE), Marking(), false))
  {
    hide Reaches, I.Valid, I.Add, I.Dispatch, H.Resumed;
    var s0 := Second(S.Looked(7, true, S.EXEC), {0}, 1);
    var t1 := Registering(t);
    t' := Dispatching(t1);
    OneResumed();
    HandsOver(s0);
    var w1 := World(Call(t1, H.Pc.Registered, true, NEVER, ONCE + ONCE, ONCE), s0, false);
    assert s0.slots + {7} == s0.slots;
    s' := Then(from, s, World(Call(t, H.Armed, true, NEVER, ONCE, ONCE), s0, false), Own(1, H.AddEvent(7, false)), w1);
    s' := Then(from, s', w1, Outer(H.Dispatched(5, READABLE, false)),
               World(Call(t', H.Pc.Registered, true, ONCE, ONCE + ONCE, ONCE), Marking(), false));
  }

  /** The first worker is about to mark the fiber, which is running and queued. */
  function Marking(): S.World {
    F.Two(F.Fiber(S.EXEC), S.Looked(7, true, S.EXEC), Some(7), S.Running(7, false, 1), [AGAIN], {7}, 3, {0}, 1)
  }

  /** The second worker runs the fiber, which is marked as parked, while the first is at `pc`. */
  function Marked(state: S.State, pc: S.Pc, queue: seq<S.Entry>, active: int): S.World {
    F.Two(F.Fiber(state), pc, None, S.Running(7, false, 1), queue, {7}, 3, {0}, active)
  }

  /** The first worker marks it as parked. */
  lemma MarksIt(from: World, s: seq<Action>, h: H.World) returns (s': seq<Action>)
    requires Reaches(from, s, World(h, Marking(), false)) && !h.aborted
    ensures s' == s + [Worker(S.Settle(0))] && Reaches(from, s', World(h, Marked(S.HOLD, S.Head, [AGAIN], 1), false))
    ensures N.Marks(Marking(), S.Settle(0))
  {
    hide Reaches;
    s' := ThenWorker(from, s, World(h, Marking(), false), S.Settle(0), Marked(S.HOLD, S.Head, [AGAIN], 1));
  }

  /** It pops it. */
  lemma PopsIt(from: World, s: seq<Action>, h: H.World) returns (s': seq<Action>)
    requires Reaches(from, s, World(h, Marked(S.HOLD, S.Head, [AGAIN], 1), false)) && !h.aborted
    ensures s' == s + [Worker(S.Pop(0, 0))] && Reaches(from, s', World(h, Marked(S.HOLD, S.Popped(AGAIN), [], 2), false))
  {
    hide Reaches;
    s' := ThenWorker(from, s, World(h, Marked(S.HOLD, S.Head, [AGAIN], 1), false), S.Pop(0, 0),
                     Marked(S.HOLD, S.Popped(AGAIN), [], 2));
  }

  /** And it runs it too. */
  lemma RunsTwice(from: World, s: seq<Action>, h: H.World) returns (s': seq<Action>, w: World)
    requires Reaches(from, s, World(h, Marked(S.HOLD, S.Popped(AGAIN), [], 2), false)) && !h.aborted
    requires 7 in h.fibers && h.fibers[7].pc == H.Pc.Registered
    ensures s' == s + [Worker(S.Begin(0, 8))]
    ensures Reaches(from, s', w) && w.h == h && w.broken && R.RunningOn(w.s, 0, 7) && R.RunningOn(w.s, 1, 7)
  {
    hide Reaches, I.Valid;
    w := World(h, Marked(S.EXEC, S.Running(7, false, 2), [], 2), true);
    s' := Then(from, s, World(h, Marked(S.HOLD, S.Popped(AGAIN), [], 2), false), Worker(S.Begin(0, 8)), w);
  }

  /**
   * With two workers a running fiber can be marked as parked. In this run fiber 7 parks on the first worker, is woken and
   * entered by the second before the first has looked at it, registers to wait again, and is marked; then the first
   * worker enters it while it is still running on the second.
   */
  lemma TwoRunners() returns (w: World)
    ensures var actions :=
        [Worker(S.SubmitCallback(9, None)), Worker(S.Pop(0, 0)), Worker(S.Begin(0, 7)),
         Own(0, H.Spawn(7)), Own(0, H.Enter(7, 5, I.READ, false, 0)), Own(0, H.WouldBlock(7, 0)),
         Own(0, H.AddEvent(7, false)), Own(0, H.Park(7)), Outer(H.Dispatched(5, READABLE, false)), Worker(S.Pop(1, 0)),
         Worker(S.Begin(1, 8)), Worker(S.Decrement(0)), Worker(S.Look(0)),
         Own(1, H.DropTimer(7)), Own(1, H.Check(7)), Own(1, H.WouldBlock(7, 0)),
         Own(1, H.AddEvent(7, false)), Outer(H.Dispatched(5, READABLE, false)),
         Worker(S.Settle(0)), Worker(S.Pop(0, 0)), Worker(S.Begin(0, 8))];
      Reaches(World(H.NEW, S.Initial({0, 1}), false), actions, w)
    ensures w.broken && H.At(w.h, 7, H.Pc.Registered) && R.RunningOn(w.s, 0, 7) && R.RunningOn(w.s, 1, 7)
  {
    hide Reaches, I.Valid;
    var from := World(H.NEW, S.Initial({0, 1}), false);
    var s := Begins(from);
    var t;
    s := Calls(from, s);
    s, t := Parks(from, s);
    s, t := Wakes(from, s, t);
    s := Resumes7(from, s, t);
    s := Reads(from, s, Call(t, H.Woken, true, NEVER, ONCE, ONCE));
    s := GoesOn(from, s, t);
    s, t := Registers(from, s, t);
    var h := Call(t, H.Pc.Registered, true, ONCE, ONCE + ONCE, ONCE);
    s := MarksIt(from, s, h);
    s := PopsIt(from, s, h);
    s, w := RunsTwice(from, s, h);
    assert s ==
        [Worker(S.SubmitCallback(9, None)), Worker(S.Pop(0, 0)), Worker(S.Begin(0, 7)),
         Own(0, H.Spawn(7)), Own(0, H.Enter(7, 5, I.READ, false, 0)), Own(0, H.WouldBlock(7, 0)),
         Own(0, H.AddEvent(7, false)), Own(0, H.Park(7)), Outer(H.Dispatched(5, READABLE, false)), Worker(S.Pop(1, 0)),
         Worker(S.Begin(1, 8)), Worker(S.Decrement(0)), Worker(S.Look(0)),
         Own(1, H.DropTimer(7)), Own(1, H.Check(7)), Own(1, H.WouldBlock(7, 0)),
         Own(1, H.AddEvent(7, false)), Outer(H.Dispatched(5, READABLE, false)),
         Worker(S.Settle(0)), Worker(S.Pop(0, 0)), Worker(S.Begin(0, 8))];
  }
}

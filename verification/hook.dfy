/**
 * The wait protocol of `do_io` and `connect_with_timeout`: fibers that arm a timeout, register for an event, park
 * and are resumed by readiness, by their timeout's callback or by `close`; every step of every fiber and of every
 * callback may interleave with every other.
 */
module Hooks {
  import opened IoSpec
  import R = IoRuns
  import opened Wrappers

  /** Where a fiber is in the wait. */
  datatype Pc =
    | Outside  // not in a hooked call
    | Trying  // about to make the system call
    | Armed  // it would block; the timeout is set
    | Registered  // the event is registered, the fiber still runs
    | Parked
    | Woken  // resumed, the timeout still set
    | Checking  // about to look at the call's flag
    | Refused  // `addEvent` failed

  /** A fiber; `timed` says its call has a finite timeout, `clean` that the flag was unset when it registered. */
  datatype Fib = Fib(pc: Pc, call: nat, fd: nat, event: Event, timed: bool, timer: Option<nat>, clean: bool)

  /**
   * A timeout: in the timer set; its callback queued; the callback has found the flag unset; it has set the flag;
   * over. The callback ends with `cancelEvent`.
   */
  datatype Stage = Pending | Listed | Checked | Flagged | Over
  datatype Timeout = Timeout(call: nat, fd: nat, event: Event, stage: Stage)

  /**
   * `flags` is each call's `cancelled`; `queue` holds the fibers scheduled but not yet resumed; `regs` and `wakes`
   * count every fiber's registrations and resumptions; `refused` says that a callback's `cancelEvent` was refused
   * by the kernel.
   */
  datatype World = World(table: Table, fibers: map<nat, Fib>, flags: map<nat, bool>, timers: map<nat, Timeout>,
                         queue: multiset<nat>, regs: multiset<nat>, wakes: multiset<nat>,
                         refused: bool, aborted: bool)

  const NEW := World(START, map[], map[], map[], multiset{}, multiset{}, multiset{}, false, false)

  /** The task of a fiber that waits. */
  function Wait(f: nat): Task {
    Task(0, Fiber(f))
  }

  /** The fibers among the tasks handed to this manager's scheduler. */
  function Resumed(tasks: seq<Task>): multiset<nat> {
    if tasks == [] then multiset{}
    else (if tasks[0].work.Fiber? && tasks[0].scheduler == 0 then multiset{tasks[0].work.fiber} else multiset{}) + Resumed(tasks[1..])
  }

  predicate InCall(w: World, f: nat) {
    f in w.fibers && w.fibers[f].pc != Outside
  }

  predicate Waits(w: World, f: nat) {
    f in w.fibers && (w.fibers[f].pc == Registered || w.fibers[f].pc == Parked)
  }

  /** The call's `timer_info` still exists: the call, or a callback that holds it, is under way. */
  ghost predicate Alive(w: World, call: nat) {
    || (exists f :: InCall(w, f) && w.fibers[f].call == call)
    || (exists m :: m in w.timers && w.timers[m].call == call && w.timers[m].stage in {Checked, Flagged})
  }

  // ----- steps

  datatype Action =
    | Spawn(f: nat)
    | Enter(f: nat, fd: nat, event: Event, timed: bool, call: nat)
    | Return(f: nat)  // the system call does not block
    | WouldBlock(f: nat, m: nat)  // it does; the timeout, if any, becomes timer `m`
    | AddEvent(f: nat, fails: bool)
    | Park(f: nat)
    | Resume(f: nat)
    | DropTimer(f: nat)  // `timer->cancel()`
    | Check(f: nat)
    | Expire(m: nat)
    | CallbackChecks(m: nat)
    | CallbackFlags(m: nat)
    | CallbackCancels(m: nat, fails: bool)
    | Dispatched(fd: nat, ready: Ready, fails: bool)
    | Close(fd: nat, fails: bool)
    | AddCallback(fd: nat, event: Event, cb: nat, fails: bool)

  ghost predicate At(w: World, f: nat, pc: Pc) {
    f in w.fibers && w.fibers[f].pc == pc
  }

  ghost predicate Stands(w: World, m: nat, stage: Stage) {
    m in w.timers && w.timers[m].stage == stage
  }

  ghost predicate Enabled(w: World, a: Action) {
    !w.aborted &&
    match a
    case Spawn(f) => f !in w.fibers
    case Enter(f, fd, event, timed, call) => At(w, f, Outside) && call !in w.flags
    case Return(f) => At(w, f, Trying)
    case WouldBlock(f, m) => At(w, f, Trying) && m !in w.timers
    case AddEvent(f, fails) => At(w, f, Armed)
    case Park(f) => At(w, f, Registered)
    case Resume(f) => At(w, f, Parked) && f in w.queue
    case DropTimer(f) => At(w, f, Woken) || At(w, f, Refused)
    case Check(f) => At(w, f, Checking)
    case Expire(m) => Stands(w, m, Pending)
    case CallbackChecks(m) => Stands(w, m, Listed)
    case CallbackFlags(m) => Stands(w, m, Checked)
    case CallbackCancels(m, fails) => Stands(w, m, Flagged)
    case Dispatched(fd, ready, fails) => fd < |w.table.fds|
    case Close(fd, fails) => true
    case AddCallback(fd, event, cb, fails) => true
  }

  function Move(w: World, f: nat, fib: Fib): World {
    w.(fibers := w.fibers[f := fib])
  }

  function Put(w: World, m: nat, stage: Stage): World
    requires m in w.timers
  {
    w.(timers := w.timers[m := w.timers[m].(stage := stage)])
  }

  ghost function After(w: World, outcome: Outcome): (w': World)
    ensures w'.fibers == w.fibers && w'.flags == w.flags && w'.timers == w.timers
    ensures w'.regs == w.regs && w'.wakes == w.wakes && w'.refused == w.refused
  {
    match outcome
    case Fires(t, tasks) => w.(table := t, queue := w.queue + Resumed(tasks))
    case Keeps => w
    case Aborts => w.(aborted := true)
  }

  ghost function Registers(w: World, f: nat, fails: bool): (w': World)
    requires At(w, f, Armed) && 32 <= |w.table.fds|
    ensures w'.flags == w.flags && w'.timers == w.timers && w'.wakes == w.wakes && w'.refused == w.refused
    ensures forall g :: g != f ==> (g in w'.fibers <==> g in w.fibers)
    ensures forall g :: g != f && g in w.fibers ==> w'.fibers[g] == w.fibers[g]
  {
    var fib := w.fibers[f];
    var (t, r) := Add(w.table, fib.fd, fib.event, Wait(f), fails);
    match r
    case Added =>
      Move(w.(table := t, regs := w.regs + multiset{f}), f,
           fib.(pc := Registered, clean := !(fib.call in w.flags && w.flags[fib.call])))
    case AddFailed => Move(w.(table := t), f, fib.(pc := Refused))
    case AddAborted => w.(table := t, aborted := true)
  }

  /** `timer->cancel()`: no effect once the callback has been listed. */
  function Dropped(w: World, timer: Option<nat>): (w': World)
    ensures w'.fibers == w.fibers
  {
    if timer.Some? && timer.value in w.timers && w.timers[timer.value].stage == Pending
    then Put(w, timer.value, Over) else w
  }

  ghost function Step(w: World, a: Action): World
    requires Valid(w.table) && Enabled(w, a)
  {
    match a
    case Spawn(f) => Move(w, f, Fib(Outside, 0, 0, READ, false, None, false))
    case Enter(f, fd, event, timed, call) =>
      Move(w.(flags := w.flags[call := false]), f, Fib(Trying, call, fd, event, timed, None, false))
    case Return(f) => Move(w, f, w.fibers[f].(pc := Outside))
    case WouldBlock(f, m) => (
      var fib := w.fibers[f];
      if fib.timed
      then Move(w.(timers := w.timers[m := Timeout(fib.call, fib.fd, fib.event, Pending)]), f,
                fib.(pc := Armed, timer := Some(m)))
      else Move(w, f, fib.(pc := Armed, timer := None))
    )
    case AddEvent(f, fails) => Registers(w, f, fails)
    case Park(f) => Move(w, f, w.fibers[f].(pc := Parked))
    case Resume(f) =>
      Move(w.(queue := w.queue - multiset{f}, wakes := w.wakes + multiset{f}), f, w.fibers[f].(pc := Woken))
    case DropTimer(f) => (
      var fib := w.fibers[f];
      Move(Dropped(w, fib.timer), f, fib.(pc := if fib.pc == Refused then Outside else Checking))
    )
    case Check(f) => (
      var fib := w.fibers[f];
      Move(w, f, fib.(pc := if fib.call in w.flags && w.flags[fib.call] then Outside else Trying))
    )
    case Expire(m) => Put(w, m, Listed)
    case CallbackChecks(m) => (
      var call := w.timers[m].call;
      Put(w, m, if Alive(w, call) && call in w.flags && !w.flags[call] then Checked else Over)
    )
    case CallbackFlags(m) => Put(w.(flags := w.flags[w.timers[m].call := true]), m, Flagged)
    case CallbackCancels(m, fails) => (
      var t := w.timers[m];
      var w' := After(w, Cancel(w.table, t.fd, t.event, fails));
      Put(w'.(refused := w.refused || (fails && Has(w.table, t.fd, t.event))), m, Over)
    )
    case Dispatched(fd, ready, fails) => After(w, Dispatch(w.table, fd, ready, fails))
    case Close(fd, fails) => After(w, CancelAll(w.table, fd, fails))
    case AddCallback(fd, event, cb, fails) => (
      var (t, r) := Add(w.table, fd, event, Task(0, Callback(cb)), fails);
      w.(table := t, aborted := r.AddAborted?)
    )
  }

  // ----- what every step keeps

  /** The slot of (fd, event) holds the fiber. */
  predicate SlotHolds(t: Table, fd: nat, event: Event, f: nat) {
    IoSpec.Has(t, fd, event) && t.fds[fd].At(event) == Filled(Wait(f))
  }

  /** The fiber is in the slot it registered in. */
  predicate InSlot(w: World, f: nat) {
    f in w.fibers && SlotHolds(w.table, w.fibers[f].fd, w.fibers[f].event, f)
  }

  /** A slot holds a fiber only where that fiber waits. */
  ghost predicate SlotsOwned(w: World) {
    forall fd: nat, event, f :: SlotHolds(w.table, fd, event, f) ==>
      Waits(w, f) && w.fibers[f].fd == fd && w.fibers[f].event == event
  }

  /** A waiting fiber is in its slot or in the queue, once and not both; any other fiber is in neither. */
  ghost predicate Once(w: World) {
    forall f :: (if InSlot(w, f) then 1 else 0) + w.queue[f] == (if Waits(w, f) then 1 else 0)
  }

  /** Every registration but the one waited on has been resumed. */
  ghost predicate Counted(w: World) {
    forall f :: w.regs[f] == w.wakes[f] + (if Waits(w, f) then 1 else 0)
  }

  ghost predicate Invariant(w: World) {
    var ok := Valid(w.table) && SlotsOwned(w) && Once(w) && Counted(w);
    ok
  }

  /** A step that moves no fiber into or out of its wait. */
  lemma QuietStep(w: World, w': World)
    requires Invariant(w) && w'.table == w.table
    requires w'.queue == w.queue && w'.regs == w.regs && w'.wakes == w.wakes
    requires forall f :: Waits(w, f) <==> Waits(w', f)
    requires forall f :: Waits(w, f) && Waits(w', f) ==>
      w.fibers[f].fd == w'.fibers[f].fd && w.fibers[f].event == w'.fibers[f].event
    ensures Invariant(w')
  {
    hide Valid;
  }

  lemma ResumeStep(w: World, f: nat)
    requires Invariant(w) && Enabled(w, Resume(f))
    ensures Invariant(Step(w, Resume(f)))
  {
    hide Valid;
    var w' := Step(w, Resume(f));
    assert forall x :: x != f ==> (Waits(w, x) <==> Waits(w', x)) && (InSlot(w, x) <==> InSlot(w', x));
  }

  /** What firing leaves in the slots. */
  lemma FiredHolds(t: Table, fd: nat, events: Mask)
    requires Valid(t) && fd < |t.fds| && events <= t.fds[fd].events
    ensures SlotsMatch(t.fds[fd])
    ensures var t' := Fire(t, fd, events).t;
      forall fd': nat, e, f :: SlotHolds(t', fd', e, f) <==> SlotHolds(t, fd', e, f) && !(fd' == fd && e in events)
  {
  }

  /** Which fibers firing resumes. */
  lemma FiredResumes(t: Table, fd: nat, events: Mask, f: nat)
    requires Valid(t) && fd < |t.fds| && events <= t.fds[fd].events
    ensures SlotsMatch(t.fds[fd])
    ensures Resumed(Waiting(t.fds[fd], events))[f]
         == (if READ in events && SlotHolds(t, fd, READ, f) then 1 else 0)
          + (if WRITE in events && SlotHolds(t, fd, WRITE, f) then 1 else 0)
  {
    var x := t.fds[fd];
    assert SlotsMatch(x);
    var tasks := Waiting(x, events);
    ResumedEach(tasks, f);
  }

  lemma ResumedEach(tasks: seq<Task>, f: nat)
    requires |tasks| <= 2
    ensures Resumed(tasks)[f]
         == (if 0 < |tasks| && tasks[0] == Wait(f) then 1 else 0) + (if 1 < |tasks| && tasks[1] == Wait(f) then 1 else 0)
  {
    if 0 < |tasks| {
      assert Resumed(tasks) == (if tasks[0].work.Fiber? && tasks[0].scheduler == 0 then multiset{tasks[0].work.fiber}
        else multiset{}) + Resumed(tasks[1..]);
      if 1 < |tasks| {
        assert tasks[1..][0] == tasks[1] && tasks[1..][1..] == [];
      }
    }
  }

  lemma FireStep(w: World, fd: nat, events: Mask)
    requires Invariant(w) && fd < |w.table.fds| && events <= w.table.fds[fd].events
    ensures SlotsMatch(w.table.fds[fd]) && Invariant(After(w, Fire(w.table, fd, events)))
  {
    hide Valid, SlotHolds, Waiting, Fired, Become, SlotsMatch, Resumed;
    FireKeeps(w.table, fd, events);
    FiredHolds(w.table, fd, events);
    var w' := After(w, Fire(w.table, fd, events));
    forall f
      ensures (if InSlot(w', f) then 1 else 0) + w'.queue[f] == (if Waits(w', f) then 1 else 0)
    {
      FiredResumes(w.table, fd, events, f);
    }
  }

  /** What adding an event puts into the slots. */
  lemma AddHolds(t: Table, fd: nat, e: Event, task: Task, fails: bool)
    requires Valid(t)
    ensures var (t', r) := Add(t, fd, e, task, fails);
      && Valid(t')
      && (r.Added? ==> !Has(t, fd, e))
      && forall fd': nat, e', f :: SlotHolds(t', fd', e', f) <==>
           SlotHolds(t, fd', e', f) || (r.Added? && fd' == fd && e' == e && task == Wait(f))
  {
    hide Bits, Mirrored;
    AddKeeps(t, fd, e, task, fails);
    GrowHolds(t, fd);
    var g := Grow(t, fd);
    var x := IoSpec.Registered(g.fds[fd], e, task);
    forall e', f
      ensures e' != e ==> x.At(e') == g.fds[fd].At(e') && (e' in x.events <==> e' in g.fds[fd].events)
      ensures x.At(e) == Filled(Wait(f)) <==> task == Wait(f)
    {
    }
  }

  lemma GrowHolds(t: Table, fd: nat)
    requires 32 <= |t.fds|
    ensures forall fd': nat, e, f :: SlotHolds(Grow(t, fd), fd', e, f) <==> SlotHolds(t, fd', e, f)
    ensures forall e :: Has(t, fd, e) <==> e in Grow(t, fd).fds[fd].events
  {
    var g := Grow(t, fd);
    assert forall i :: 0 <= i < |t.fds| ==> g.fds[i] == t.fds[i];
    assert forall i :: |t.fds| <= i < |g.fds| ==> g.fds[i] == IDLE;
  }

  /** A step that may put fiber `f` into a slot and into its wait, and moves no other. */
  ghost predicate Joins(w: World, w': World, f: nat, joins: bool) {
    var ok :=
      && Valid(w'.table) && !Waits(w, f) && (Waits(w', f) <==> joins)
      && w'.queue == w.queue && w'.wakes == w.wakes && w'.regs == (if joins then w.regs + multiset{f} else w.regs)
      && (forall x :: x != f && x in w.fibers ==> x in w'.fibers && w.fibers[x] == w'.fibers[x])
      && (forall x :: x != f && x in w'.fibers ==> x in w.fibers)
      && (forall fd: nat, e, x :: SlotHolds(w'.table, fd, e, x) <==>
            SlotHolds(w.table, fd, e, x) || (joins && fd == w'.fibers[f].fd && e == w'.fibers[f].event && x == f));
    ok
  }

  lemma JoinSlots(w: World, w': World, f: nat, joins: bool)
    requires SlotsOwned(w) && Joins(w, w', f, joins)
    ensures SlotsOwned(w')
    ensures forall x :: x != f ==> (Waits(w, x) <==> Waits(w', x)) && (InSlot(w, x) <==> InSlot(w', x))
    ensures InSlot(w', f) <==> joins
  {
    hide Valid, SlotHolds;
  }

  lemma JoinStep(w: World, w': World, f: nat, joins: bool)
    requires Invariant(w) && Joins(w, w', f, joins)
    ensures Invariant(w')
  {
    hide Valid, SlotHolds, SlotsOwned, InSlot;
    JoinSlots(w, w', f, joins);
  }

  lemma SlotWaits(w: World, f: nat)
    requires SlotsOwned(w) && InSlot(w, f)
    ensures Waits(w, f)
  {
    hide SlotHolds;
  }

  lemma RegisterJoins(w: World, f: nat, fails: bool)
    requires Valid(w.table) && At(w, f, Armed)
    ensures 32 <= |w.table.fds|
    ensures var r := Add(w.table, w.fibers[f].fd, w.fibers[f].event, Wait(f), fails).1;
      Joins(w, Registers(w, f, fails), f, r.Added?)
  {
    hide Valid, SlotHolds, Add, Wait;
    var fib := w.fibers[f];
    AddHolds(w.table, fib.fd, fib.event, Wait(f), fails);
    ValidSize(w.table);
    var (t, r) := Add(w.table, fib.fd, fib.event, Wait(f), fails);
    var w' := Registers(w, f, fails);
    assert w'.table == t && (r.Added? ==> w'.fibers[f].fd == fib.fd && w'.fibers[f].event == fib.event);
    WaitsDiffer(f);
  }

  lemma WaitsDiffer(f: nat)
    ensures forall x :: Wait(f) == Wait(x) <==> f == x
  {
  }

  lemma RegisterStep(w: World, f: nat, fails: bool)
    requires Invariant(w) && Enabled(w, AddEvent(f, fails))
    ensures Invariant(Step(w, AddEvent(f, fails)))
  {
    hide Valid, SlotsOwned, Once, Counted, Joins, Registers, Add;
    RegisterJoins(w, f, fails);
    JoinStep(w, Registers(w, f, fails), f, Add(w.table, w.fibers[f].fd, w.fibers[f].event, Wait(f), fails).1.Added?);
  }

  lemma ValidSize(t: Table)
    requires Valid(t)
    ensures 32 <= |t.fds|
  {
  }

  lemma CallbackStep(w: World, a: Action)
    requires Invariant(w) && a.AddCallback? && Enabled(w, a)
    ensures Invariant(Step(w, a))
  {
    hide Valid, SlotHolds, Add;
    AddHolds(w.table, a.fd, a.event, Task(0, Callback(a.cb)), a.fails);
    var w' := Step(w, a);
    assert forall x :: (Waits(w, x) <==> Waits(w', x)) && (InSlot(w, x) <==> InSlot(w', x));
  }

  /** The steps that may fire events. */
  lemma FiringStep(w: World, a: Action)
    requires Invariant(w) && Enabled(w, a) && (a.CallbackCancels? || a.Dispatched? || a.Close?)
    ensures Invariant(Step(w, a))
  {
    hide Valid, SlotHolds, SlotsOwned, Once, Counted, Fire, SlotsMatch, Ready.Actual;
    match a
    case CallbackCancels(m, fails) =>
      var t := w.timers[m];
      if Has(w.table, t.fd, t.event) {
        FireStep(w, t.fd, {t.event});
      }
      var w' := After(w, Cancel(w.table, t.fd, t.event, fails));
      QuietStep(w', Step(w, a));
    case Dispatched(fd, ready, fails) =>
      var actual := ready.Actual(w.table.fds[fd].events);
      if actual <= w.table.fds[fd].events {
        FireStep(w, fd, actual);
      }
      QuietStep(w, w.(aborted := true));
    case Close(fd, fails) =>
      if fd < |w.table.fds| {
        FireStep(w, fd, w.table.fds[fd].events);
      }
  }

  lemma StepKeeps(w: World, a: Action)
    requires Invariant(w) && Enabled(w, a)
    ensures Invariant(Step(w, a))
  {
    hide Valid, SlotHolds, SlotsOwned, Once, Counted, Add, Alive, Registers;
    if a.Resume? {
      ResumeStep(w, a.f);
    } else if a.AddEvent? {
      RegisterStep(w, a.f, a.fails);
    } else if a.AddCallback? {
      CallbackStep(w, a);
    } else if a.CallbackCancels? || a.Dispatched? || a.Close? {
      FiringStep(w, a);
    } else {
      QuietStep(w, Step(w, a));
    }
  }

  // ----- runs

  ghost predicate IsRun(w: World, actions: seq<Action>)
    requires Invariant(w)
    decreases |actions|
  {
    actions == [] || (Enabled(w, actions[0]) && (StepKeeps(w, actions[0]); IsRun(Step(w, actions[0]), actions[1..])))
  }

  ghost function Run(w: World, actions: seq<Action>): World
    requires Invariant(w) && IsRun(w, actions)
    decreases |actions|
  {
    if actions == [] then w else
    StepKeeps(w, actions[0]);
    Run(Step(w, actions[0]), actions[1..])
  }

  lemma {:induction false} EveryRun(w: World, actions: seq<Action>)
    requires Invariant(w) && IsRun(w, actions)
    ensures Invariant(Run(w, actions))
    decreases |actions|
  {
    if actions != [] {
      StepKeeps(w, actions[0]);
      EveryRun(Step(w, actions[0]), actions[1..]);
    }
  }

  lemma NewInvariant()
    ensures Invariant(NEW)
  {
    StartValid();
  }

  /**
   * In every run, a fiber that waits is in the slot it registered in or scheduled, exactly once and not both; no
   * other fiber is in a slot or scheduled; and each registration but the one waited on was resumed exactly once.
   */
  lemma ResumedExactlyOnce(actions: seq<Action>, f: nat)
    requires Invariant(NEW) && IsRun(NEW, actions)
    ensures var w := Run(NEW, actions);
      && (Waits(w, f) ==> w.regs[f] == w.wakes[f] + 1 && w.queue[f] <= 1 && (InSlot(w, f) <==> f !in w.queue))
      && (!Waits(w, f) ==> w.regs[f] == w.wakes[f] && !InSlot(w, f) && f !in w.queue)
      && forall fd: nat, event :: SlotHolds(w.table, fd, event, f) <==>
           InSlot(w, f) && w.fibers[f].fd == fd && w.fibers[f].event == event
  {
    hide Run, IsRun;
    EveryRun(NEW, actions);
  }
}

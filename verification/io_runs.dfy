/**
 * Whole runs of the IO manager's calls: no task is lost or fired twice, and the dispatcher's assertion fails
 * exactly when a report has gone stale.
 */
module IoRuns {
  import opened IoSpec
  import opened Wrappers

  datatype Call =
    | AddEvent(fd: nat, event: Event, task: Task, fails: bool)
    | DelEvent(fd: nat, event: Event, fails: bool)
    | CancelEvent(fd: nat, event: Event, fails: bool)
    | CancelEvents(fd: nat, fails: bool)
    | DispatchEvents(fd: nat, ready: Ready, fails: bool)

  /** The table; every task ever registered, fired, or dropped by `delEvent`; whether an assertion has failed. */
  datatype World = World(t: Table, registered: multiset<Task>, fired: multiset<Task>, dropped: multiset<Task>, aborted: bool)

  const NEW := World(START, multiset{}, multiset{}, multiset{}, false)

  ghost predicate AllMatch(fds: seq<Fd>) {
    forall fd :: 0 <= fd < |fds| ==> SlotsMatch(fds[fd])
  }

  /** How often `task` is among those waiting for `events`. */
  ghost function Waits(f: Fd, events: Mask, task: Task): nat
    requires SlotsMatch(f) && events <= f.events
  {
    (if READ in events && TaskOf(f.At(READ)) == task then 1 else 0)
    + (if WRITE in events && TaskOf(f.At(WRITE)) == task then 1 else 0)
  }

  /** How often `task` is in the slots. */
  ghost function Held(fds: seq<Fd>, task: Task): nat
    requires AllMatch(fds)
  {
    if fds == [] then 0 else Waits(fds[0], fds[0].events, task) + Held(fds[1..], task)
  }

  /** Each task has been registered as often as it is held, has been fired and has been dropped. */
  ghost predicate Conserved(w: World)
    requires AllMatch(w.t.fds)
  {
    forall task :: w.registered[task] == Held(w.t.fds, task) + w.fired[task] + w.dropped[task]
  }

  ghost predicate Invariant(w: World) {
    var ok := Valid(w.t) && AllMatch(w.t.fds) && Conserved(w);
    ok
  }

  ghost function After(w: World, outcome: Outcome): World {
    match outcome
    case Fires(t, tasks) => w.(t := t, fired := w.fired + multiset(tasks))
    case Keeps => w
    case Aborts => w.(aborted := true)
  }

  /** A dispatch comes from a report on a descriptor the table has; nothing follows a failed assertion. */
  predicate Enabled(w: World, c: Call) {
    !w.aborted && (c.DispatchEvents? ==> c.fd < |w.t.fds|)
  }

  ghost function Step(w: World, c: Call): World
    requires Valid(w.t) && Enabled(w, c)
  {
    match c
    case AddEvent(fd, event, task, fails) => (
      var (t, r) := Add(w.t, fd, event, task, fails);
      match r
      case Added => w.(t := t, registered := w.registered + multiset{task})
      case AddFailed => w.(t := t)
      case AddAborted => w.(t := t, aborted := true)
    )
    case DelEvent(fd, event, fails) => (
      var (t, done) := Del(w.t, fd, event, fails);
      if done then w.(t := t, dropped := w.dropped + multiset(Waiting(w.t.fds[fd], {event}))) else w
    )
    case CancelEvent(fd, event, fails) => After(w, Cancel(w.t, fd, event, fails))
    case CancelEvents(fd, fails) => After(w, CancelAll(w.t, fd, fails))
    case DispatchEvents(fd, ready, fails) => After(w, Dispatch(w.t, fd, ready, fails))
  }

  // ----- the slots' contents

  lemma {:induction false} HeldUpdate(fds: seq<Fd>, i: nat, f: Fd, task: Task)
    requires i < |fds| && AllMatch(fds) && SlotsMatch(f)
    ensures AllMatch(fds[i := f])
    ensures Held(fds[i := f], task) + Waits(fds[i], fds[i].events, task) == Held(fds, task) + Waits(f, f.events, task)
  {
    hide Waits, SlotsMatch;
    if i == 0 {
      assert fds[0 := f][1..] == fds[1..];
    } else {
      HeldUpdate(fds[1..], i - 1, f, task);
      assert fds[i := f][1..] == fds[1..][i - 1 := f];
    }
  }

  lemma {:induction false} HeldIdle(fds: seq<Fd>, n: nat, task: Task)
    requires AllMatch(fds)
    ensures AllMatch(fds + seq(n, _ => IDLE)) && Held(fds + seq(n, _ => IDLE), task) == Held(fds, task)
  {
    var more := seq(n, _ => IDLE);
    if fds != [] {
      assert (fds + more)[1..] == fds[1..] + more;
      HeldIdle(fds[1..], n, task);
    } else if n != 0 {
      assert (fds + more)[1..] == fds + seq(n - 1, _ => IDLE);
      HeldIdle(fds, n - 1, task);
    }
  }

  lemma WaitsIs(f: Fd, events: Mask, task: Task)
    requires SlotsMatch(f) && events <= f.events
    ensures multiset(Waiting(f, events))[task] == Waits(f, events, task)
  {
  }

  /** Firing takes the events' tasks out of the descriptor's slots. */
  lemma FiredWaits(f: Fd, events: Mask, task: Task)
    requires SlotsMatch(f) && events <= f.events
    ensures var f' := Fired(f, events);
      SlotsMatch(f') && Waits(f, f.events, task) == Waits(f', f'.events, task) + Waits(f, events, task)
  {
    var f' := Fired(f, events);
    assert forall e :: e in f'.events <==> e in f.events && e !in events;
    assert SlotsMatch(f') by {
      forall e
        ensures if e in f'.events then Holds(f'.At(e)) else f'.At(e) == EMPTY
      {
      }
    }
  }

  lemma RegisteredWaits(f: Fd, e: Event, t: Task, task: Task)
    requires SlotsMatch(f) && e !in f.events
    ensures var f' := Registered(f, e, t);
      SlotsMatch(f') && Waits(f', f'.events, task) == Waits(f, f.events, task) + if t == task then 1 else 0
  {
    var f' := Registered(f, e, t);
    assert forall x :: x in f'.events <==> x == e || x in f.events;
    assert SlotsMatch(f') by {
      forall x
        ensures if x in f'.events then Holds(f'.At(x)) else f'.At(x) == EMPTY
      {
      }
    }
  }

  lemma ValidMatch(t: Table)
    requires Valid(t)
    ensures 32 <= |t.fds| && AllMatch(t.fds)
    ensures forall fd :: 0 <= fd < |t.fds| ==> SlotsMatch(t.fds[fd])
  {
  }

  /** Firing moves exactly the waiting tasks out of the slots. */
  lemma FireMoves(t: Table, fd: nat, events: Mask, task: Task)
    requires Valid(t) && fd < |t.fds| && events <= t.fds[fd].events
    ensures SlotsMatch(t.fds[fd]) && AllMatch(t.fds)
    ensures var t' := Become(t, fd, Fired(t.fds[fd], events));
      && Valid(t') && AllMatch(t'.fds)
      && Held(t.fds, task) == Held(t'.fds, task) + multiset(Waiting(t.fds[fd], events))[task]
  {
    hide *;
    ValidMatch(t);
    var f := t.fds[fd];
    FiredWaits(f, events, task);
    BecomeKeeps(t, fd, Fired(f, events));
    WaitsIs(f, events, task);
    HeldUpdate(t.fds, fd, Fired(f, events), task);
    BecomeFds(t, fd, Fired(f, events));
  }

  lemma BecomeFds(t: Table, fd: nat, f: Fd)
    requires fd < |t.fds|
    ensures Become(t, fd, f).fds == t.fds[fd := f]
  {
  }

  lemma GrowHeld(t: Table, fd: nat, task: Task)
    requires Valid(t)
    ensures var g := Grow(t, fd);
      && Valid(g) && AllMatch(t.fds) && AllMatch(g.fds) && fd < |g.fds| && SlotsMatch(g.fds[fd])
      && Held(g.fds, task) == Held(t.fds, task)
  {
    hide Held, SlotsMatch;
    GrowKeeps(t, fd);
    if |t.fds| <= fd {
      HeldIdle(t.fds, fd * 3 / 2 - |t.fds|, task);
    }
  }

  /** Adding an event puts exactly its task into the slots. */
  lemma AddMoves(t: Table, fd: nat, e: Event, added: Task, fails: bool, task: Task)
    requires Valid(t)
    ensures var (t', r) := Add(t, fd, e, added, fails);
      && Valid(t') && AllMatch(t.fds) && AllMatch(t'.fds)
      && Held(t'.fds, task) == Held(t.fds, task) + if r.Added? && added == task then 1 else 0
  {
    hide Held, SlotsMatch, Valid, Waits, Registered, AllMatch, Grow, Become;
    ValidMatch(t);
    GrowHeld(t, fd, task);
    AddKeeps(t, fd, e, added, fails);
    var g := Grow(t, fd);
    if e !in g.fds[fd].events {
      RegisteredWaits(g.fds[fd], e, added, task);
      HeldUpdate(g.fds, fd, Registered(g.fds[fd], e, added), task);
      BecomeFds(g, fd, Registered(g.fds[fd], e, added));
    }
  }

  // ----- runs

  lemma AddStep(w: World, c: Call)
    requires Invariant(w) && Enabled(w, c) && c.AddEvent?
    ensures Invariant(Step(w, c))
  {
    hide Held, Valid, AllMatch, Add;
    var w' := Step(w, c);
    AddKeeps(w.t, c.fd, c.event, c.task, c.fails);
    ValidMatch(w'.t);
    forall task
      ensures w'.registered[task] == Held(w'.t.fds, task) + w'.fired[task] + w'.dropped[task]
    {
      AddMoves(w.t, c.fd, c.event, c.task, c.fails, task);
    }
  }

  /** Taking `events` off a descriptor and adding their tasks to those fired, or to those dropped. */
  lemma TakeStep(w: World, fd: nat, events: Mask, w': World)
    requires Invariant(w) && fd < |w.t.fds| && events <= w.t.fds[fd].events && SlotsMatch(w.t.fds[fd])
    requires w'.t == Become(w.t, fd, Fired(w.t.fds[fd], events)) && w'.registered == w.registered
    requires w'.fired + w'.dropped == w.fired + w.dropped + multiset(Waiting(w.t.fds[fd], events))
    ensures Invariant(w')
  {
    hide Held, Valid, AllMatch, Become, Fired, Waiting, SlotsMatch;
    FireMoves(w.t, fd, events, Task(0, Fiber(0)));
    forall task
      ensures w'.registered[task] == Held(w'.t.fds, task) + w'.fired[task] + w'.dropped[task]
    {
      FireMoves(w.t, fd, events, task);
      assert (w'.fired + w'.dropped)[task] == (w.fired + w.dropped + multiset(Waiting(w.t.fds[fd], events)))[task];
    }
  }

  lemma FireStep(w: World, fd: nat, events: Mask)
    requires Invariant(w) && fd < |w.t.fds| && events <= w.t.fds[fd].events
    ensures SlotsMatch(w.t.fds[fd]) && Invariant(After(w, Fire(w.t, fd, events)))
  {
    hide Held, Valid, AllMatch, Become, Fired, Waiting, SlotsMatch, Conserved;
    ValidMatch(w.t);
    TakeStep(w, fd, events, After(w, Fire(w.t, fd, events)));
  }

  lemma AbortStep(w: World)
    requires Invariant(w)
    ensures Invariant(w.(aborted := true))
  {
  }

  lemma StepKeeps(w: World, c: Call)
    requires Invariant(w) && Enabled(w, c)
    ensures Invariant(Step(w, c))
  {
    hide Held, Valid, AllMatch, Become, Fired, Waiting, SlotsMatch, Conserved, Add, Fire, Ready.Actual;
    ValidMatch(w.t);
    match c
    case AddEvent(fd, event, task, fails) =>
      AddStep(w, c);
    case DelEvent(fd, event, fails) =>
      if Has(w.t, fd, event) {
        ClearedIs(w.t.fds[fd], event);
        if !fails {
          TakeStep(w, fd, {event}, Step(w, c));
        }
      }
    case CancelEvent(fd, event, fails) =>
      if Has(w.t, fd, event) {
        FireStep(w, fd, {event});
      }
    case CancelEvents(fd, fails) =>
      if fd < |w.t.fds| {
        FireStep(w, fd, w.t.fds[fd].events);
      }
    case DispatchEvents(fd, ready, fails) =>
      var actual := ready.Actual(w.t.fds[fd].events);
      if actual <= w.t.fds[fd].events {
        FireStep(w, fd, actual);
      }
      AbortStep(w);
  }

  /** `calls` can be made one after another from `w`. */
  ghost predicate IsRun(w: World, calls: seq<Call>)
    requires Invariant(w)
    decreases |calls|
  {
    calls == [] || (Enabled(w, calls[0]) && (StepKeeps(w, calls[0]); IsRun(Step(w, calls[0]), calls[1..])))
  }

  ghost function Run(w: World, calls: seq<Call>): World
    requires Invariant(w) && IsRun(w, calls)
    decreases |calls|
  {
    if calls == [] then w else
    StepKeeps(w, calls[0]);
    Run(Step(w, calls[0]), calls[1..])
  }

  lemma NewInvariant()
    ensures Invariant(NEW)
  {
    StartValid();
    assert [] + seq(32, _ => IDLE) == START.fds;
    forall task
      ensures Held(START.fds, task) == 0
    {
      HeldIdle([], 32, task);
    }
  }

  lemma {:induction false} RunKeeps(w: World, calls: seq<Call>)
    requires Invariant(w) && IsRun(w, calls)
    ensures Invariant(Run(w, calls))
    decreases |calls|
  {
    if calls != [] {
      StepKeeps(w, calls[0]);
      RunKeeps(Step(w, calls[0]), calls[1..]);
    }
  }

  /**
   * In every run: the pending count is the number of event bits set; the kernel watches exactly the registered events;
   * an unregistered event's slot is entirely empty; and each task has been registered as often as it is held in a slot,
   * has been fired and has been dropped.
   */
  lemma EveryRun(calls: seq<Call>)
    requires Invariant(NEW) && IsRun(NEW, calls)
    ensures var w := Run(NEW, calls);
      && w.t.pending == Bits(w.t.fds) && Mirrored(w.t)
      && (forall fd, e :: 0 <= fd < |w.t.fds| && e !in w.t.fds[fd].events ==> w.t.fds[fd].At(e) == EMPTY)
      && AllMatch(w.t.fds)
      && forall task :: w.registered[task] == Held(w.t.fds, task) + w.fired[task] + w.dropped[task]
  {
    RunKeeps(NEW, calls);
    var w := Run(NEW, calls);
    forall fd, e | 0 <= fd < |w.t.fds| && e !in w.t.fds[fd].events
      ensures w.t.fds[fd].At(e) == EMPTY
    {
      assert SlotsMatch(w.t.fds[fd]);
    }
  }

  /** A task registered once has exactly one of three fates. */
  lemma OneFate(calls: seq<Call>, task: Task)
    requires Invariant(NEW) && IsRun(NEW, calls)
    requires Run(NEW, calls).registered[task] == 1
    ensures var w := Run(NEW, calls);
      AllMatch(w.t.fds) && Held(w.t.fds, task) + w.fired[task] + w.dropped[task] == 1
  {
    RunKeeps(NEW, calls);
  }

  // ----- stale reports

  /** A report names an event that is no longer registered, while another one is to be fired. */
  predicate Stale(events: Mask, ready: Ready) {
    !(ready.Named() <= events) && (ready.Named() * events != {} || (ready.broken && events != {}))
  }

  /** A step fails an assertion exactly when an event is added twice or a stale report is dispatched. */
  lemma AbortsExactly(w: World, c: Call)
    requires Invariant(w) && Enabled(w, c)
    ensures Step(w, c).aborted <==>
      || (c.AddEvent? && Has(w.t, c.fd, c.event))
      || (c.DispatchEvents? && !c.fails && Stale(w.t.fds[c.fd].events, c.ready))
  {
    if c.DispatchEvents? {
      var events := w.t.fds[c.fd].events;
      var actual := c.ready.Actual(events);
      assert actual <= events <==> c.ready.Named() <= events;
      assert events * actual == (events * c.ready.Named()) + (if c.ready.broken then events else {});
    }
  }

  /** What `epoll_wait` can report: events the kernel is watching for. */
  predicate Reported(t: Table, fd: nat, ready: Ready) {
    fd in t.epoll && ready.Named() <= t.epoll[fd]
  }

  /** The call can clear an event of `fd`. */
  predicate Clears(c: Call, fd: nat) {
    !c.AddEvent? && c.fd == fd
  }

  /** A call that does not clear events of `fd` leaves them registered. */
  lemma StaysRegistered(w: World, c: Call, fd: nat)
    requires Invariant(w) && Enabled(w, c) && fd < |w.t.fds| && !Clears(c, fd)
    ensures var w' := Step(w, c); fd < |w'.t.fds| && w.t.fds[fd].events <= w'.t.fds[fd].events
  {
    hide Held, Valid, AllMatch, Waiting, SlotsMatch, Conserved, Ready.Actual, Fired, Cleared, Watch, Count;
    ValidMatch(w.t);
    if c.AddEvent? {
      AddStays(w.t, c, fd);
    }
  }

  lemma AddStays(t: Table, c: Call, fd: nat)
    requires 32 <= |t.fds| && fd < |t.fds| && c.AddEvent?
    ensures var t' := Add(t, c.fd, c.event, c.task, c.fails).0;
      fd < |t'.fds| && t.fds[fd].events <= t'.fds[fd].events
  {
    var g := Grow(t, c.fd);
    assert g.fds[fd] == t.fds[fd];
  }

  lemma {:induction false} FreshNames(w: World, calls: seq<Call>, fd: nat, ready: Ready, fails: bool)
    requires Invariant(w) && IsRun(w, calls) && fd < |w.t.fds| && ready.Named() <= w.t.fds[fd].events
    requires forall i :: 0 <= i < |calls| ==> !Clears(calls[i], fd)
    requires !Run(w, calls).aborted
    ensures Invariant(Run(w, calls)) && fd < |Run(w, calls).t.fds|
    ensures !Step(Run(w, calls), DispatchEvents(fd, ready, fails)).aborted
    decreases |calls|
  {
    if calls == [] {
      AbortsExactly(w, DispatchEvents(fd, ready, fails));
    } else {
      StepKeeps(w, calls[0]);
      StaysRegistered(w, calls[0], fd);
      FreshNames(Step(w, calls[0]), calls[1..], fd, ready, fails);
    }
  }

  /** A report that reaches the dispatcher before any call clears events of its descriptor is safe to dispatch. */
  lemma FreshReport(w: World, calls: seq<Call>, fd: nat, ready: Ready, fails: bool)
    requires Invariant(w) && IsRun(w, calls) && Reported(w.t, fd, ready)
    requires forall i :: 0 <= i < |calls| ==> !Clears(calls[i], fd)
    requires !Run(w, calls).aborted
    ensures Invariant(Run(w, calls)) && fd < |Run(w, calls).t.fds|
    ensures !Step(Run(w, calls), DispatchEvents(fd, ready, fails)).aborted
  {
    FreshNames(w, calls, fd, ready, fails);
  }

  lemma RunStep(w: World, c: Call, calls: seq<Call>)
    requires Invariant(w) && Enabled(w, c)
    ensures Invariant(Step(w, c))
    ensures IsRun(w, [c] + calls) <==> IsRun(Step(w, c), calls)
    ensures IsRun(w, [c] + calls) ==> Run(w, [c] + calls) == Run(Step(w, c), calls)
  {
    StepKeeps(w, c);
    assert ([c] + calls)[1..] == calls;
  }

  /**
   * A report can go stale: a descriptor is reported readable and writable, the writer's timeout cancels its event
   * before the report is dispatched, and the dispatcher then fails its assertion.
   */
  lemma ReportGoesStale(reader: Task, writer: Task)
    ensures var ready := Ready(true, true, false);
      var before := [AddEvent(5, READ, reader, false), AddEvent(5, WRITE, writer, false)];
      var after := [CancelEvent(5, WRITE, false), DispatchEvents(5, ready, false)];
      && Invariant(NEW) && IsRun(NEW, before) && Reported(Run(NEW, before).t, 5, ready)
      && Invariant(Run(NEW, before)) && IsRun(Run(NEW, before), after) && Run(Run(NEW, before), after).aborted
  {
    hide *;
    var ready := Ready(true, true, false);
    var c1, c2 := AddEvent(5, READ, reader, false), AddEvent(5, WRITE, writer, false);
    var c3, c4 := CancelEvent(5, WRITE, false), DispatchEvents(5, ready, false);
    NewInvariant();
    FirstTwo(reader, writer);
    RunStep(NEW, c1, [c2]);
    var w1 := Step(NEW, c1);
    RunStep(w1, c2, []);
    var w2 := Step(w1, c2);
    ThenCancelled(w2);
    RunStep(w2, c3, [c4]);
    var w3 := Step(w2, c3);
    RunStep(w3, c4, []);
    RunNothing(w2);
    RunNothing(Step(w3, c4));
    assert [c1] + [c2] == [c1, c2] && [c2] + [] == [c2] && [c3] + [c4] == [c3, c4] && [c4] + [] == [c4];
  }

  lemma RunNothing(w: World)
    requires Invariant(w)
    ensures IsRun(w, []) && Run(w, []) == w
  {
  }

  lemma FirstTwo(reader: Task, writer: Task)
    requires Invariant(NEW)
    ensures var c1, c2 := AddEvent(5, READ, reader, false), AddEvent(5, WRITE, writer, false);
      && Enabled(NEW, c1) && var w1 := Step(NEW, c1);
      && Invariant(w1) && Enabled(w1, c2) && var w2 := Step(w1, c2);
      && Invariant(w2) && !w2.aborted && 5 < |w2.t.fds| && w2.t.fds[5].events == {READ, WRITE}
      && Reported(w2.t, 5, Ready(true, true, false))
  {
    hide Valid, SlotsMatch, Mirrored, Bits, Held, AllMatch, Conserved;
    StepKeeps(NEW, AddEvent(5, READ, reader, false));
    StepKeeps(Step(NEW, AddEvent(5, READ, reader, false)), AddEvent(5, WRITE, writer, false));
    assert {READ} + {WRITE} == {READ, WRITE};
  }

  lemma ThenCancelled(w: World)
    requires Invariant(w) && !w.aborted && 5 < |w.t.fds| && w.t.fds[5].events == {READ, WRITE}
    ensures var c3, c4 := CancelEvent(5, WRITE, false), DispatchEvents(5, Ready(true, true, false), false);
      && Enabled(w, c3) && var w3 := Step(w, c3);
      && Invariant(w3) && Enabled(w3, c4) && Step(w3, c4).aborted
  {
    hide Valid, SlotsMatch, Mirrored, Bits, Held, AllMatch, Conserved, Dispatch;
    var c3, c4 := CancelEvent(5, WRITE, false), DispatchEvents(5, Ready(true, true, false), false);
    StepKeeps(w, c3);
    assert {READ, WRITE} - {WRITE} == {READ};
    AbortsExactly(Step(w, c3), c4);
    assert READ in c4.ready.Named() * {READ} && WRITE in c4.ready.Named();
  }
}

/** What each call on the event table does, said of masks, slots, counter and kernel interest alone. */
module IoLaws {
  import opened IoSpec
  import R = IoRuns
  import opened Wrappers

  /** The slot holds the task: its scheduler, and its fiber or its callback. */
  predicate HoldsTask(slot: Slot, task: Task) {
    && slot.scheduler == Some(task.scheduler)
    && (task.work.Fiber? ==> slot.fiber == Some(task.work.fiber) && slot.cb == None)
    && (task.work.Callback? ==> slot.fiber == None && slot.cb == Some(task.work.cb))
  }

  predicate Free(slot: Slot) {
    slot.scheduler == None && slot.fiber == None && slot.cb == None
  }

  /** The kernel watches the descriptor for exactly these events. */
  predicate Watches(t: Table, fd: nat, events: Mask) {
    if events == {} then fd !in t.epoll else fd in t.epoll && t.epoll[fd] == events
  }

  /** Only the one descriptor has changed: its entry is now `f`, the kernel watches it for that, and the count follows. */
  ghost predicate Replaced(t: Table, t': Table, fd: nat, f: Fd) {
    && fd < |t.fds| == |t'.fds| && t'.fds[fd] == f && Watches(t', fd, f.events)
    && t'.pending == t.pending - |t.fds[fd].events| + |f.events|
    && forall x: nat :: x != fd ==>
         && (x < |t.fds| && x < |t'.fds| ==> t'.fds[x] == t.fds[x])
         && (x in t'.epoll <==> x in t.epoll) && (x in t.epoll && x in t'.epoll ==> t'.epoll[x] == t.epoll[x])
  }

  lemma Becomes(t: Table, fd: nat, f: Fd)
    requires fd < |t.fds|
    ensures Replaced(t, Become(t, fd, f), fd, f)
  {
    Counted(f);
    Counted(t.fds[fd]);
  }

  lemma TwoEvents(events: Mask)
    ensures events == (if READ in events then {READ} else {}) + (if WRITE in events then {WRITE} else {})
  {
    forall e: Event | e in events
      ensures e in (if READ in events then {READ} else {}) + (if WRITE in events then {WRITE} else {})
    {
      match e
      case READ =>
      case WRITE =>
    }
  }

  lemma Counted(f: Fd)
    ensures Count(f) == |f.events|
  {
    TwoEvents(f.events);
  }

  /** A descriptor beyond the table makes it half as long again as the descriptor, with idle entries; otherwise nothing. */
  lemma Grows(t: Table, fd: nat)
    requires 32 <= |t.fds|
    ensures var g := Grow(t, fd);
      && g.pending == t.pending && g.epoll == t.epoll
      && |g.fds| == (if fd < |t.fds| then |t.fds| else fd * 3 / 2)
      && (forall x :: 0 <= x < |t.fds| ==> g.fds[x] == t.fds[x])
      && (forall x :: |t.fds| <= x < |g.fds| ==> g.fds[x].events == {} && Free(g.fds[x].read) && Free(g.fds[x].write))
  {
  }

  /** `addEvent`, once the table is long enough: a registered event aborts, a refusal fails, and else the task waits. */
  lemma Adds(t: Table, fd: nat, e: Event, task: Task, fails: bool)
    requires Valid(t)
    ensures var (t', r) := Add(t, fd, e, task, fails); var g := Grow(t, fd); var was := g.fds[fd];
      && (r == AddAborted <==> e in was.events) && (r == AddFailed <==> e !in was.events && fails)
      && (r != Added ==> t' == g)
      && (r == Added ==>
            && fd < |t'.fds| && Replaced(g, t', fd, t'.fds[fd]) && t'.fds[fd].events == was.events + {e}
            && t'.pending == t.pending + 1
            && (e == READ ==> HoldsTask(t'.fds[fd].read, task) && t'.fds[fd].write == was.write)
            && (e == WRITE ==> HoldsTask(t'.fds[fd].write, task) && t'.fds[fd].read == was.read))
  {
    hide Valid;
    AddKeeps(t, fd, e, task, fails);
    ValidSize(t);
    var g := Grow(t, fd);
    Becomes(g, fd, Registered(g.fds[fd], e, task));
    if e !in g.fds[fd].events {
      assert |g.fds[fd].events + {e}| == |g.fds[fd].events| + 1;
    }
  }

  lemma ValidSize(t: Table)
    requires Valid(t)
    ensures 32 <= |t.fds| && forall fd :: 0 <= fd < |t.fds| ==> SlotsMatch(t.fds[fd])
  {
  }

  /** `delEvent`: exactly a registered event, if the kernel does not refuse, goes, with its task. */
  lemma Dels(t: Table, fd: nat, e: Event, fails: bool)
    requires Valid(t)
    ensures var (t', r) := Del(t, fd, e, fails);
      && (r <==> fd < |t.fds| && e in t.fds[fd].events && !fails)
      && (!r ==> t' == t)
      && (r ==>
            && fd < |t'.fds| && Replaced(t, t', fd, t'.fds[fd]) && t'.fds[fd].events == t.fds[fd].events - {e}
            && (e == READ ==> Free(t'.fds[fd].read) && t'.fds[fd].write == t.fds[fd].write)
            && (e == WRITE ==> Free(t'.fds[fd].write) && t'.fds[fd].read == t.fds[fd].read))
  {
    if Has(t, fd, e) && !fails {
      Becomes(t, fd, Cleared(t.fds[fd], e));
    }
  }

  /** These events, and no others, have been fired: their slots are free, and their tasks are handed out, the reader's first. */
  ghost predicate FiresOnly(t: Table, outcome: Outcome, fd: nat, readers: bool, writers: bool) {
    && outcome.Fires? && fd < |t.fds| && fd < |outcome.t.fds|
    && Replaced(t, outcome.t, fd, outcome.t.fds[fd])
    && (READ in outcome.t.fds[fd].events <==> READ in t.fds[fd].events && !readers)
    && (WRITE in outcome.t.fds[fd].events <==> WRITE in t.fds[fd].events && !writers)
    && (if readers then Free(outcome.t.fds[fd].read) else outcome.t.fds[fd].read == t.fds[fd].read)
    && (if writers then Free(outcome.t.fds[fd].write) else outcome.t.fds[fd].write == t.fds[fd].write)
    && |outcome.tasks| == (if readers then 1 else 0) + (if writers then 1 else 0)
    && (readers ==> HoldsTask(t.fds[fd].read, outcome.tasks[0]))
    && (writers ==> HoldsTask(t.fds[fd].write, outcome.tasks[|outcome.tasks| - 1]))
  }

  lemma FiresEvents(t: Table, fd: nat, events: Mask)
    requires Valid(t) && fd < |t.fds| && events <= t.fds[fd].events
    ensures SlotsMatch(t.fds[fd]) && FiresOnly(t, Fire(t, fd, events), fd, READ in events, WRITE in events)
  {
    hide Valid, Replaced, Become, Waiting, TaskOf, Holds;
    ValidSize(t);
    var f := t.fds[fd];
    Becomes(t, fd, Fired(f, events));
    WaitingTasks(f, events);
    assert Fire(t, fd, events).t.fds[fd] == Fired(f, events) by {
      BecomesAt(t, fd, Fired(f, events));
    }
  }

  lemma BecomesAt(t: Table, fd: nat, f: Fd)
    requires fd < |t.fds|
    ensures |Become(t, fd, f).fds| == |t.fds| && Become(t, fd, f).fds[fd] == f
  {
  }

  lemma WaitingTasks(f: Fd, events: Mask)
    requires SlotsMatch(f) && events <= f.events
    ensures var tasks := Waiting(f, events);
      && |tasks| == (if READ in events then 1 else 0) + (if WRITE in events then 1 else 0)
      && (READ in events ==> HoldsTask(f.read, tasks[0]))
      && (WRITE in events ==> HoldsTask(f.write, tasks[|tasks| - 1]))
  {
  }

  /** `cancelEvent`: exactly a registered event, if the kernel does not refuse, is fired. */
  lemma Cancels(t: Table, fd: nat, e: Event, fails: bool)
    requires Valid(t)
    ensures var r := Cancel(t, fd, e, fails); var done := fd < |t.fds| && e in t.fds[fd].events && !fails;
      if done then FiresOnly(t, r, fd, e == READ, e == WRITE) else r == Keeps
  {
    hide Valid, FiresOnly;
    if Has(t, fd, e) && !fails {
      FiresEvents(t, fd, {e});
    }
  }

  /** `cancelAll`: every registered event is fired, unless there is none or the kernel refuses. */
  lemma CancelsAll(t: Table, fd: nat, fails: bool)
    requires Valid(t)
    ensures var r := CancelAll(t, fd, fails); var done := fd < |t.fds| && t.fds[fd].events != {} && !fails;
      if done then FiresOnly(t, r, fd, READ in t.fds[fd].events, WRITE in t.fds[fd].events) else r == Keeps
  {
    hide Valid, FiresOnly;
    if fd < |t.fds| && t.fds[fd].events != {} && !fails {
      FiresEvents(t, fd, t.fds[fd].events);
    }
  }

  /**
   * A descriptor's turn in the dispatch: the reader is fired when it is readable, the writer when it is writable, and
   * both of those that wait when it is broken. Nothing happens if none of them waits, or the kernel refuses; it aborts
   * if one of them waits and the other, which is reported, does not.
   */
  ghost predicate Dispatched(t: Table, fd: nat, ready: Ready, fails: bool, outcome: Outcome)
    requires fd < |t.fds|
  {
    var reader, writer := READ in t.fds[fd].events, WRITE in t.fds[fd].events;
    var reading, writing := ready.readable || (ready.broken && reader), ready.writable || (ready.broken && writer);
    if fails || !((reading && reader) || (writing && writer)) then outcome == Keeps
    else if (reading && !reader) || (writing && !writer) then outcome == Aborts
    else FiresOnly(t, outcome, fd, reading, writing)
  }

  lemma Dispatches(t: Table, fd: nat, ready: Ready, fails: bool)
    requires Valid(t) && fd < |t.fds|
    ensures Dispatched(t, fd, ready, fails, Dispatch(t, fd, ready, fails))
  {
    hide Valid, FiresOnly;
    var events := t.fds[fd].events;
    var actual := ready.Actual(events);
    TwoEvents(events * actual);
    TwoEvents(actual);
    assert actual <= events <==> (READ in actual ==> READ in events) && (WRITE in actual ==> WRITE in events);
    if actual <= events {
      FiresEvents(t, fd, actual);
    }
  }

  /** The run has the tasks an outcome hands out counted as fired, and its table. */
  ghost predicate Counts(w: R.World, w': R.World, outcome: Outcome) {
    && w'.registered == w.registered && w'.dropped == w.dropped && (w'.aborted <==> outcome.Aborts?)
    && w'.t == (if outcome.Fires? then outcome.t else w.t)
    && w'.fired == w.fired + (if outcome.Fires? then multiset(outcome.tasks) else multiset{})
  }

  /** In a run, `addEvent` leaves the table it makes, and counts exactly the task it takes in. */
  lemma AddCounts(w: R.World, c: R.Call)
    requires Valid(w.t) && R.Enabled(w, c) && c.AddEvent?
    ensures 32 <= |w.t.fds|
    ensures var (t, r) := Add(w.t, c.fd, c.event, c.task, c.fails); var w' := R.Step(w, c);
      && w'.t == t && (w'.aborted <==> r == AddAborted) && w'.fired == w.fired && w'.dropped == w.dropped
      && w'.registered == if r == Added then w.registered + multiset{c.task} else w.registered
  {
    ValidSize(w.t);
    hide Valid, Grow, Become, Registered;
  }

  /** `delEvent` drops one task if it does anything. */
  lemma DelCounts(w: R.World, c: R.Call)
    requires Valid(w.t) && R.Enabled(w, c) && c.DelEvent?
    ensures var (t, done) := Del(w.t, c.fd, c.event, c.fails); var w' := R.Step(w, c);
      && w'.t == t && !w'.aborted && w'.registered == w.registered && w'.fired == w.fired
      && |w'.dropped| == |w.dropped| + if done then 1 else 0
  {
    hide Become;
  }

  /** Every other call leaves what its outcome says, and counts exactly the tasks it fires. */
  lemma OutcomeCounts(w: R.World, c: R.Call)
    requires Valid(w.t) && R.Enabled(w, c) && !c.AddEvent? && !c.DelEvent?
    ensures Counts(w, R.Step(w, c),
      match c
      case CancelEvent(fd, event, fails) => Cancel(w.t, fd, event, fails)
      case CancelEvents(fd, fails) => CancelAll(w.t, fd, fails)
      case DispatchEvents(fd, ready, fails) => Dispatch(w.t, fd, ready, fails)
      case _ => Keeps)
  {
    hide Valid, Cancel, CancelAll, Dispatch;
  }
}

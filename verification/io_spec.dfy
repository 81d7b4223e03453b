/**
 * The IO manager's event table as values: what each call, taken as one step under the descriptor's lock, does
 * to the masks, the slots, the pending counter and the kernel's interest list, and which tasks it hands to a
 * scheduler. `iomanager.dfy` proves the in-place code against these functions.
 */
module IoSpec {
  import opened Wrappers

  datatype Event = READ | WRITE

  type Mask = set<Event>

  /** What a slot holds while its event is registered: a parked fiber or a callback, and who is to run it. */
  datatype Work = Fiber(fiber: nat) | Callback(cb: nat)
  datatype Task = Task(scheduler: nat, work: Work)

  /** An event context, with the pointers that may be null. */
  datatype Slot = Slot(scheduler: Option<nat>, fiber: Option<nat>, cb: Option<nat>)

  const EMPTY := Slot(None, None, None)

  function Filled(task: Task): Slot {
    match task.work
    case Fiber(f) => Slot(Some(task.scheduler), Some(f), None)
    case Callback(cb) => Slot(Some(task.scheduler), None, Some(cb))
  }

  datatype Fd = Fd(events: Mask, read: Slot, write: Slot) {
    function At(e: Event): Slot {
      if e == READ then read else write
    }

    function Put(e: Event, slot: Slot): Fd {
      if e == READ then this.(read := slot) else this.(write := slot)
    }
  }

  const IDLE := Fd({}, EMPTY, EMPTY)

  datatype Table = Table(fds: seq<Fd>, pending: int, epoll: map<nat, Mask>)

  const START := Table(seq(32, _ => IDLE), 0, map[])

  /** The slot of a registered event is the one of some task. */
  ghost predicate Holds(slot: Slot) {
    slot.scheduler.Some? && (slot.fiber.Some? <==> slot.cb.None?)
  }

  function TaskOf(slot: Slot): (task: Task)
    requires Holds(slot)
    ensures Filled(task) == slot
  {
    Task(slot.scheduler.value, if slot.cb.Some? then Callback(slot.cb.value) else Fiber(slot.fiber.value))
  }

  /** A registered event's slot holds one task; any other slot is entirely empty. */
  ghost predicate SlotsMatch(f: Fd) {
    forall e :: if e in f.events then Holds(f.At(e)) else f.At(e) == EMPTY
  }

  function Count(f: Fd): nat {
    (if READ in f.events then 1 else 0) + (if WRITE in f.events then 1 else 0)
  }

  /** How many event bits are set. */
  function Bits(fds: seq<Fd>): nat {
    if fds == [] then 0 else Count(fds[0]) + Bits(fds[1..])
  }

  /** The kernel watches exactly the descriptors with events, for exactly those events. */
  ghost predicate Mirrored(t: Table) {
    && (forall fd: nat :: fd in t.epoll <==> fd < |t.fds| && t.fds[fd].events != {})
    && (forall fd: nat :: fd in t.epoll ==> t.epoll[fd] == t.fds[fd].events)
  }

  ghost predicate Valid(t: Table) {
    var valid :=
      && 32 <= |t.fds|
      && (forall fd :: 0 <= fd < |t.fds| ==> SlotsMatch(t.fds[fd]))
      && t.pending == Bits(t.fds)
      && Mirrored(t);
    valid
  }

  // ----- the steps; `fails` says that `epoll_ctl` refuses for a reason of its own

  /** What the kernel is told after a descriptor's mask has become `events`. */
  function Watch(epoll: map<nat, Mask>, fd: nat, events: Mask): map<nat, Mask> {
    if events == {} then epoll - {fd} else epoll[fd := events]
  }

  function Become(t: Table, fd: nat, f: Fd): Table
    requires fd < |t.fds|
  {
    Table(t.fds[fd := f], t.pending - Count(t.fds[fd]) + Count(f), Watch(t.epoll, fd, f.events))
  }

  /** `addEvent` for a descriptor beyond the table makes the table half as long again as the descriptor. */
  function Grow(t: Table, fd: nat): (t': Table)
    requires 32 <= |t.fds|
    ensures fd < |t'.fds|
  {
    if fd < |t.fds| then t else t.(fds := t.fds + seq(fd * 3 / 2 - |t.fds|, _ => IDLE))
  }

  datatype AddResult = Added | AddFailed | AddAborted

  function Registered(f: Fd, e: Event, task: Task): Fd {
    f.(events := f.events + {e}).Put(e, Filled(task))
  }

  function Add(t: Table, fd: nat, e: Event, task: Task, fails: bool): (r: (Table, AddResult))
    requires 32 <= |t.fds|
  {
    var t := Grow(t, fd);
    if e in t.fds[fd].events then (t, AddAborted)
    else if fails then (t, AddFailed)
    else (Become(t, fd, Registered(t.fds[fd], e, task)), Added)
  }

  /** The descriptor after an event's bit and slot have been cleared. */
  function Cleared(f: Fd, e: Event): Fd {
    f.(events := f.events - {e}).Put(e, EMPTY)
  }

  predicate Has(t: Table, fd: nat, e: Event) {
    fd < |t.fds| && e in t.fds[fd].events
  }

  function Del(t: Table, fd: nat, e: Event, fails: bool): (r: (Table, bool)) {
    if !Has(t, fd, e) || fails then (t, false)
    else (Become(t, fd, Cleared(t.fds[fd], e)), true)
  }

  /** The tasks waiting for `events` on a descriptor, the reader first. */
  ghost function Waiting(f: Fd, events: Mask): seq<Task>
    requires SlotsMatch(f) && events <= f.events
  {
    (if READ in events then [TaskOf(f.At(READ))] else []) + (if WRITE in events then [TaskOf(f.At(WRITE))] else [])
  }

  /** The descriptor after `events` have been fired. */
  function Fired(f: Fd, events: Mask): Fd {
    Fd(f.events - events,
       if READ in events then EMPTY else f.read,
       if WRITE in events then EMPTY else f.write)
  }

  datatype Outcome = Fires(t: Table, tasks: seq<Task>) | Keeps | Aborts

  ghost function Fire(t: Table, fd: nat, events: Mask): Outcome
    requires fd < |t.fds| && SlotsMatch(t.fds[fd]) && events <= t.fds[fd].events
  {
    Fires(Become(t, fd, Fired(t.fds[fd], events)), Waiting(t.fds[fd], events))
  }

  ghost function Cancel(t: Table, fd: nat, e: Event, fails: bool): Outcome
    requires Valid(t)
  {
    if !Has(t, fd, e) || fails then Keeps else Fire(t, fd, {e})
  }

  ghost function CancelAll(t: Table, fd: nat, fails: bool): Outcome
    requires Valid(t)
  {
    if fd >= |t.fds| || t.fds[fd].events == {} || fails then Keeps else Fire(t, fd, t.fds[fd].events)
  }

  /** What `epoll_wait` reported for a descriptor; `broken` is `EPOLLERR` or `EPOLLHUP`. */
  datatype Ready = Ready(readable: bool, writable: bool, broken: bool) {
    function Named(): Mask {
      (if readable then {READ} else {}) + (if writable then {WRITE} else {})
    }

    /** The events the dispatcher goes on to fire, given the mask it finds. */
    function Actual(events: Mask): Mask {
      Named() + (if broken then events else {})
    }
  }

  /**
   * One turn of the dispatch loop. The events fired are not cut down to the mask, so an event that was reported
   * but is no longer registered reaches the assertion in `triggerEvent`.
   */
  ghost function Dispatch(t: Table, fd: nat, ready: Ready, fails: bool): Outcome
    requires Valid(t) && fd < |t.fds|
  {
    var events := t.fds[fd].events;
    var actual := ready.Actual(events);
    if events * actual == {} || fails then Keeps
    else if !(actual <= events) then Aborts
    else Fire(t, fd, actual)
  }

  // ----- every step keeps the invariant

  lemma {:induction false} BitsUpdate(fds: seq<Fd>, i: nat, f: Fd)
    requires i < |fds|
    ensures Bits(fds[i := f]) == Bits(fds) - Count(fds[i]) + Count(f)
  {
    if i == 0 {
      assert fds[0 := f][1..] == fds[1..];
    } else {
      BitsUpdate(fds[1..], i - 1, f);
      assert fds[i := f][1..] == fds[1..][i - 1 := f];
    }
  }

  lemma {:induction false} BitsIdle(fds: seq<Fd>, n: nat)
    ensures Bits(fds + seq(n, _ => IDLE)) == Bits(fds)
  {
    var more := seq(n, _ => IDLE);
    if fds != [] {
      assert (fds + more)[1..] == fds[1..] + more;
      BitsIdle(fds[1..], n);
    } else if n != 0 {
      assert (fds + more)[1..] == fds + seq(n - 1, _ => IDLE);
      BitsIdle(fds, n - 1);
    }
  }

  lemma BecomeKeeps(t: Table, fd: nat, f: Fd)
    requires Valid(t) && fd < |t.fds| && SlotsMatch(f)
    ensures Valid(Become(t, fd, f))
  {
    BitsUpdate(t.fds, fd, f);
    var t' := Become(t, fd, f);
    forall x | 0 <= x < |t'.fds|
      ensures SlotsMatch(t'.fds[x])
    {
      assert t'.fds[x] == if x == fd then f else t.fds[x];
    }
    assert Mirrored(t');
  }

  lemma GrowKeeps(t: Table, fd: nat)
    requires Valid(t)
    ensures Valid(Grow(t, fd))
  {
    if |t.fds| <= fd {
      BitsIdle(t.fds, fd * 3 / 2 - |t.fds|);
    }
  }

  lemma StartValid()
    ensures Valid(START)
  {
    BitsIdle([], 32);
    assert [] + seq(32, _ => IDLE) == START.fds;
    assert Mirrored(START);
  }

  lemma AddKeeps(t: Table, fd: nat, e: Event, task: Task, fails: bool)
    requires Valid(t)
    ensures Valid(Add(t, fd, e, task, fails).0)
  {
    GrowKeeps(t, fd);
    var t := Grow(t, fd);
    var f := Registered(t.fds[fd], e, task);
    assert SlotsMatch(t.fds[fd]);
    assert SlotsMatch(f) by {
      forall x
        ensures if x in f.events then Holds(f.At(x)) else f.At(x) == EMPTY
      {
        assert x in f.events <==> x == e || x in t.fds[fd].events;
      }
    }
    BecomeKeeps(t, fd, f);
  }

  lemma ClearedIs(f: Fd, e: Event)
    requires SlotsMatch(f)
    ensures Cleared(f, e) == Fired(f, {e}) && SlotsMatch(Cleared(f, e))
  {
    forall x
      ensures if x in Cleared(f, e).events then Holds(Cleared(f, e).At(x)) else Cleared(f, e).At(x) == EMPTY
    {
      assert x in Cleared(f, e).events <==> x != e && x in f.events;
    }
  }

  lemma DelKeeps(t: Table, fd: nat, e: Event, fails: bool)
    requires Valid(t)
    ensures Valid(Del(t, fd, e, fails).0)
  {
    if Has(t, fd, e) {
      ClearedIs(t.fds[fd], e);
      BecomeKeeps(t, fd, Cleared(t.fds[fd], e));
    }
  }

  lemma FireKeeps(t: Table, fd: nat, events: Mask)
    requires Valid(t) && fd < |t.fds| && events <= t.fds[fd].events
    ensures SlotsMatch(t.fds[fd]) && Valid(Fire(t, fd, events).t)
  {
    var f, f' := t.fds[fd], Fired(t.fds[fd], events);
    assert SlotsMatch(f);
    forall x
      ensures if x in f'.events then Holds(f'.At(x)) else f'.At(x) == EMPTY
    {
      assert x in f'.events <==> x in f.events && x !in events;
    }
    BecomeKeeps(t, fd, f');
  }
}

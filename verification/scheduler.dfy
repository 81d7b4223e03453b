/**
 * The scheduler's workers as program counters over a shared state. A fiber's yield is one step; everything else a
 * worker does to shared state is a step of its own, so that the steps of different workers interleave freely.
 */
module Schedulers {
  import opened Wrappers

  datatype State = INIT | EXEC | HOLD | READY | TERM | EXCEPT

  datatype Work = Fib(fiber: nat) | Cb(cb: nat)

  /** A queued task, the thread it is pinned to, and a ticket that tells it from every other task ever queued. */
  datatype Entry = Entry(ticket: nat, work: Work, thread: Option<nat>)

  /** Where a worker is in `run`; `own` says that the fiber at hand is the worker's reusable callback fiber. */
  datatype Pc =
    | Head
    | Popped(entry: Entry)
    | Running(fiber: nat, own: bool, ticket: nat)
    | Returned(fiber: nat, own: bool, ticket: nat)  // the fiber has yielded or ended
    | After(fiber: nat, own: bool)  // the active count has been decremented
    | Looked(fiber: nat, own: bool, seen: State)  // the fiber's state has been read
    | Idling
    | Exited

  datatype Worker = Worker(pc: Pc, cbFiber: Option<nat>, idleDone: bool)

  /**
   * `slots` are the fibers that someone outside the queue and the workers refers to; tickets up to `issued` have
   * been used, and those in `done` belong to tasks whose turn is over.
   */
  datatype World = World(fibers: map<nat, State>, workers: map<nat, Worker>, queue: seq<Entry>, slots: set<nat>,
                         issued: nat, done: set<nat>, active: int, idle: int, stopping: bool, aborted: bool)

  // ----- the queue

  /** The entry can be popped by worker `i`: not pinned to another thread, and not a running fiber. */
  predicate Eligible(fibers: map<nat, State>, e: Entry, i: nat) {
    && (e.thread.None? || e.thread.value == i)
    && !(e.work.Fib? && e.work.fiber in fibers && fibers[e.work.fiber] == EXEC)
  }

  /** Entry `k` is the first that worker `i` can pop. */
  predicate First(fibers: map<nat, State>, queue: seq<Entry>, i: nat, k: nat) {
    && k < |queue| && Eligible(fibers, queue[k], i)
    && forall j :: 0 <= j < k ==> !Eligible(fibers, queue[j], i)
  }

  predicate NothingFor(fibers: map<nat, State>, queue: seq<Entry>, i: nat) {
    forall j :: 0 <= j < |queue| ==> !Eligible(fibers, queue[j], i)
  }

  /** The scan of the queue at the head of the loop, and whether other threads are to be woken. */
  method Scan(fibers: map<nat, State>, queue: seq<Entry>, me: nat) returns (k: nat, tickleMe: bool)
    ensures k <= |queue|
    ensures k < |queue| ==> queue[k].thread == None || queue[k].thread == Some(me)
    ensures k < |queue| && queue[k].work.Fib? && queue[k].work.fiber in fibers ==> fibers[queue[k].work.fiber] != EXEC
    ensures forall j :: 0 <= j < k ==>
      || (queue[j].thread != None && queue[j].thread != Some(me))
      || (queue[j].work.Fib? && queue[j].work.fiber in fibers && fibers[queue[j].work.fiber] == EXEC)
    ensures if k < |queue| then First(fibers, queue, me, k) else NothingFor(fibers, queue, me)
    ensures tickleMe <==> exists j :: 0 <= j < k && queue[j].thread.Some? && queue[j].thread.value != me
  {
    k, tickleMe := 0, false;
    while k < |queue|
      invariant k <= |queue|
      invariant forall j :: 0 <= j < k ==> !Eligible(fibers, queue[j], me)
      invariant tickleMe <==> exists j :: 0 <= j < k && queue[j].thread.Some? && queue[j].thread.value != me
    {
      var e := queue[k];
      if e.thread.Some? && e.thread.value != me {
        k, tickleMe := k + 1, true;
        continue;
      }
      if e.work.Fib? && e.work.fiber in fibers && fibers[e.work.fiber] == EXEC {
        k := k + 1;
        continue;
      }
      return;
    }
  }

  /** `schedule` of a range: a null task is passed over. Others are woken if and only if the queue was empty. */
  method ScheduleAll(queue: seq<Entry>, works: seq<Option<Work>>, issued: nat)
    returns (queue': seq<Entry>, issued': nat, needTickle: bool)
    ensures needTickle <==> queue == [] && works != []
    ensures queue' == queue + Entries(works, issued) && issued' == issued + Present(works)
  {
    queue', issued', needTickle := queue, issued, false;
    var i := 0;
    assert works[0..] == works;
    while i < |works|
      invariant i <= |works|
      invariant queue' + Entries(works[i..], issued') == queue + Entries(works, issued)
      invariant issued' + Present(works[i..]) == issued + Present(works)
      invariant |queue| <= |queue'| && (i == 0 ==> queue' == queue)
      invariant needTickle <==> queue == [] && 0 < i
    {
      assert works[i..][0] == works[i] && works[i..][1..] == works[i + 1..];
      needTickle := queue' == [] || needTickle;
      if works[i].Some? {
        queue', issued' := queue' + [Entry(issued', works[i].value, None)], issued' + 1;
      }
      i := i + 1;
    }
  }

  /** How many of the tasks are not null. */
  function Present(works: seq<Option<Work>>): nat {
    if works == [] then 0 else (if works[0] == None then 0 else 1) + Present(works[1..])
  }

  /** The entries a range of tasks makes. */
  function Entries(works: seq<Option<Work>>, issued: nat): seq<Entry> {
    if works == [] then []
    else if works[0].None? then Entries(works[1..], issued)
    else [Entry(issued, works[0].value, None)] + Entries(works[1..], issued + 1)
  }

  function Remove(queue: seq<Entry>, k: nat): seq<Entry>
    requires k < |queue|
  {
    queue[..k] + queue[k + 1..]
  }

  // ----- steps

  datatype Action =
    | Create(f: nat)  // someone makes a fiber and keeps it
    | Forget(f: nat)
    | SubmitFiber(f: nat, thread: Option<nat>, keep: bool)
    | SubmitCallback(cb: nat, thread: Option<nat>)
    | Stop
    | Pop(i: nat, k: nat)
    | GoIdle(i: nat)
    | ComeBack(i: nat, ends: bool)  // `ends`: the idle fiber saw `stopping()` and returned
    | Begin(i: nat, made: nat)
    | Publish(i: nat)  // the running fiber lets someone refer to it
    | Register(i: nat)  // `addEvent` does, and asserts that the fiber is in EXEC
    | Yield(i: nat, ready: bool)
    | Finish(i: nat, thrown: bool)
    | Decrement(i: nat)
    | Look(i: nat)
    | Settle(i: nat)

  function SetPc(w: World, i: nat, pc: Pc): World
    requires i in w.workers
  {
    w.(workers := w.workers[i := w.workers[i].(pc := pc)])
  }

  function SetState(w: World, f: nat, s: State): World {
    w.(fibers := w.fibers[f := s])
  }

  function Enqueue(w: World, work: Work, thread: Option<nat>): World {
    w.(queue := w.queue + [Entry(w.issued, work, thread)], issued := w.issued + 1)
  }

  function Own(w: World, i: nat, cbFiber: Option<nat>): World
    requires i in w.workers
  {
    w.(workers := w.workers[i := w.workers[i].(cbFiber := cbFiber)])
  }

  predicate InQueue(w: World, f: nat) {
    exists k :: 0 <= k < |w.queue| && w.queue[k].work == Fib(f)
  }

  /** `stopping()`. */
  predicate Stopping(w: World) {
    w.stopping && w.queue == [] && w.active == 0
  }

  predicate Ended(s: State) {
    s == TERM || s == EXCEPT
  }

  /**
   * Which steps can come next. A fiber that ends is not referred to from outside or queued: tasks do not queue their
   * own fiber and then end.
   */
  predicate Enabled(w: World, a: Action) {
    !w.aborted &&
    match a
    case Create(f) => f !in w.fibers
    case Forget(f) => true
    case SubmitFiber(f, thread, keep) => f in w.slots
    case SubmitCallback(cb, thread) => true
    case Stop => true
    case Pop(i, k) => i in w.workers && w.workers[i].pc.Head? && First(w.fibers, w.queue, i, k)
    case GoIdle(i) => i in w.workers && w.workers[i].pc.Head? && NothingFor(w.fibers, w.queue, i)
    case ComeBack(i, ends) => i in w.workers && w.workers[i].pc.Idling? && (ends ==> Stopping(w))
    case Begin(i, made) => i in w.workers && w.workers[i].pc.Popped? && made !in w.fibers
    case Publish(i) => i in w.workers && w.workers[i].pc.Running?
    case Register(i) => i in w.workers && w.workers[i].pc.Running?
    case Yield(i, ready) => i in w.workers && w.workers[i].pc.Running?
    case Finish(i, thrown) => (
      i in w.workers && w.workers[i].pc.Running?
      && w.workers[i].pc.fiber !in w.slots && !InQueue(w, w.workers[i].pc.fiber))
    case Decrement(i) => i in w.workers && w.workers[i].pc.Returned?
    case Look(i) => i in w.workers && w.workers[i].pc.After? && w.workers[i].pc.fiber in w.fibers
    case Settle(i) => i in w.workers && w.workers[i].pc.Looked?
  }

  /** A popped fiber is entered, unless it has ended; entering a running fiber fails an assertion. */
  function BeginFiber(w: World, i: nat, f: nat, ticket: nat): World
    requires i in w.workers
  {
    if f in w.fibers && Ended(w.fibers[f]) then
      SetPc(w, i, Head).(active := w.active - 1, done := w.done + {ticket})
    else if f in w.fibers && w.fibers[f] == EXEC then w.(aborted := true)
    else SetPc(SetState(w, f, EXEC), i, Running(f, false, ticket))
  }

  /** A popped callback is run on the worker's callback fiber, reset or new; `reset` asserts that it is at rest. */
  function BeginCallback(w: World, i: nat, ticket: nat, made: nat): World
    requires i in w.workers
  {
    var cbFiber := w.workers[i].cbFiber;
    if cbFiber.None? then
      SetPc(Own(SetState(w, made, EXEC), i, Some(made)), i, Running(made, true, ticket))
    else if cbFiber.value in w.fibers && (Ended(w.fibers[cbFiber.value]) || w.fibers[cbFiber.value] == INIT) then
      SetPc(SetState(w, cbFiber.value, EXEC), i, Running(cbFiber.value, true, ticket))
    else w.(aborted := true)
  }

  /** What a worker does with the fiber it has run, given the state it has read. */
  function Settled(w: World, i: nat, f: nat, own: bool, seen: State): World
    requires i in w.workers
  {
    var w0 := SetPc(w, i, Head);
    if seen == READY then
      var w1 := Enqueue(w0, Fib(f), None);
      if own then Own(w1, i, None) else w1
    else if Ended(seen) then
      if !own then w0
      else if f in w.fibers && (Ended(w.fibers[f]) || w.fibers[f] == INIT) then SetState(w0, f, INIT)
      else w.(aborted := true)
    else
      var w1 := SetState(w0, f, HOLD);
      if own then Own(w1, i, None) else w1
  }

  function Step(w: World, a: Action): World
    requires Enabled(w, a)
  {
    match a
    case Create(f) => w.(fibers := w.fibers[f := INIT], slots := w.slots + {f})
    case Forget(f) => w.(slots := w.slots - {f})
    case SubmitFiber(f, thread, keep) =>
      Enqueue(if keep then w else w.(slots := w.slots - {f}), Fib(f), thread)
    case SubmitCallback(cb, thread) => Enqueue(w, Cb(cb), thread)
    case Stop => w.(stopping := true)
    case Pop(i, k) => SetPc(w, i, Popped(w.queue[k])).(queue := Remove(w.queue, k), active := w.active + 1)
    case GoIdle(i) => if w.workers[i].idleDone then SetPc(w, i, Exited) else SetPc(w, i, Idling).(idle := w.idle + 1)
    case ComeBack(i, ends) =>
      w.(workers := w.workers[i := w.workers[i].(pc := Head, idleDone := w.workers[i].idleDone || ends)], idle := w.idle - 1)
    case Begin(i, made) => (
      var entry := w.workers[i].pc.entry;
      match entry.work
      case Fib(f) => BeginFiber(w, i, f, entry.ticket)
      case Cb(cb) => BeginCallback(w, i, entry.ticket, made)
    )
    case Publish(i) => w.(slots := w.slots + {w.workers[i].pc.fiber})
    case Register(i) => (
      var f := w.workers[i].pc.fiber;
      if f in w.fibers && w.fibers[f] == EXEC then w.(slots := w.slots + {f}) else w.(aborted := true)
    )
    case Yield(i, ready) => (
      var pc := w.workers[i].pc;
      SetPc(SetState(w, pc.fiber, if ready then READY else HOLD), i, Returned(pc.fiber, pc.own, pc.ticket))
    )
    case Finish(i, thrown) => (
      var pc := w.workers[i].pc;
      SetPc(SetState(w, pc.fiber, if thrown then EXCEPT else TERM), i, Returned(pc.fiber, pc.own, pc.ticket))
    )
    case Decrement(i) => (
      var pc := w.workers[i].pc;
      SetPc(w, i, After(pc.fiber, pc.own)).(active := w.active - 1, done := w.done + {pc.ticket})
    )
    case Look(i) => (
      var pc := w.workers[i].pc;
      SetPc(w, i, Looked(pc.fiber, pc.own, w.fibers[pc.fiber]))
    )
    case Settle(i) => (
      var pc := w.workers[i].pc;
      Settled(w, i, pc.fiber, pc.own, pc.seen)
    )
  }

  /** Workers at the heads of their loops, and nothing else. */
  function Initial(threads: set<nat>): World {
    World(map[], map i | i in threads :: Worker(Head, None, false), [], {}, 0, {}, 0, 0, false, false)
  }
}

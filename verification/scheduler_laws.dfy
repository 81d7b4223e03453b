/** What a worker takes from the queue and what it does with it, said of tasks, threads and fiber states alone. */
module SchedulerLaws {
  import opened Schedulers
  import opened SchedulerRuns
  import opened Wrappers

  // ----- the entries of a range of tasks

  /**
   * `schedule` of a range makes one entry for each task that is not null, in order: the task has as many entries before
   * it as there are such tasks before it, and it is pinned to no thread.
   */
  lemma {:induction false} EntriesAt(works: seq<Option<Work>>, issued: nat, i: nat)
    requires i < |works| && works[i].Some?
    ensures |Entries(works, issued)| == Present(works) && Present(works[..i]) < Present(works)
    ensures Entries(works, issued)[Present(works[..i])] == Entry(issued + Present(works[..i]), works[i].value, None)
    decreases i
  {
    EntriesCount(works, issued);
    if i == 0 {
    } else {
      assert works[..i][0] == works[0] && works[..i][1..] == works[1..][..i - 1];
      EntriesAt(works[1..], if works[0].None? then issued else issued + 1, i - 1);
    }
  }

  lemma {:induction false} EntriesCount(works: seq<Option<Work>>, issued: nat)
    ensures |Entries(works, issued)| == Present(works)
  {
    if works != [] {
      EntriesCount(works[1..], if works[0].None? then issued else issued + 1);
    }
  }

  // ----- which task a worker takes

  /** Worker `i` passes the entry over: it is pinned to another thread, or a running fiber. */
  predicate PassesOver(fibers: map<nat, State>, e: Entry, i: nat) {
    || (e.thread != None && e.thread != Some(i))
    || (e.work.Fib? && e.work.fiber in fibers && fibers[e.work.fiber] == EXEC)
  }

  /** A worker at the head of its loop takes the first task it does not pass over, and is idle exactly without one. */
  lemma Takes(w: World, i: nat, k: nat)
    requires !w.aborted
    ensures Enabled(w, Pop(i, k)) <==>
      && i in w.workers && w.workers[i].pc == Head
      && k < |w.queue| && !PassesOver(w.fibers, w.queue[k], i)
      && forall j :: 0 <= j < k ==> PassesOver(w.fibers, w.queue[j], i)
    ensures Enabled(w, GoIdle(i)) <==>
      && i in w.workers && w.workers[i].pc == Head
      && forall j :: 0 <= j < |w.queue| ==> PassesOver(w.fibers, w.queue[j], i)
  {
  }

  /** A worker with a pinned task in hand is the thread the task is pinned to. */
  ghost predicate PinsHonoured(w: World) {
    forall i, t :: i in w.workers && w.workers[i].pc.Popped? && w.workers[i].pc.entry.thread == Some(t) ==> i == t
  }

  /** A worker with a task in hand has had it, or has just taken it. */
  lemma InHand(w: World, a: Action, i: nat)
    requires Enabled(w, a) && i in Step(w, a).workers && Step(w, a).workers[i].pc.Popped?
    ensures var pc := Step(w, a).workers[i].pc;
      || (i in w.workers && w.workers[i].pc == pc)
      || (a.Pop? && a.i == i && (pc.entry.thread == None || pc.entry.thread == Some(i)))
  {
    hide NothingFor, Ended, InQueue, Remove, Stopping;
  }

  lemma PinsKeep(w: World, a: Action)
    requires PinsHonoured(w) && Enabled(w, a)
    ensures PinsHonoured(Step(w, a))
  {
    hide Step, Enabled;
    var w' := Step(w, a);
    forall i, t | i in w'.workers && w'.workers[i].pc.Popped? && w'.workers[i].pc.entry.thread == Some(t)
      ensures i == t
    {
      InHand(w, a, i);
    }
  }

  /** In every run, a task pinned to a thread is only ever taken by that thread. */
  lemma {:induction false} PinsHold(w: World, actions: seq<Action>)
    requires PinsHonoured(w) && IsRun(w, actions)
    ensures PinsHonoured(Run(w, actions))
    decreases |actions|
  {
    hide Step, Enabled;
    if actions != [] {
      PinsKeep(w, actions[0]);
      PinsHold(Step(w, actions[0]), actions[1..]);
    }
  }

  lemma InitialPins(threads: set<nat>)
    ensures PinsHonoured(Initial(threads))
  {
  }

  // ----- who can act from outside, and when a worker leaves

  /** What those outside the workers can do: make and forget fibers, submit what they refer to, and stop the scheduler. */
  lemma Outsiders(w: World, f: nat, cb: nat, thread: Option<nat>, keep: bool)
    requires !w.aborted
    ensures Enabled(w, Stop) && Enabled(w, SubmitCallback(cb, thread)) && Enabled(w, Forget(f))
    ensures Enabled(w, SubmitFiber(f, thread, keep)) <==> f in w.slots
    ensures Enabled(w, Create(f)) <==> f !in w.fibers
  {
  }

  /** Which steps change whom someone outside refers to: a registration that fails its assertion does not. */
  lemma References(w: World, a: Action, f: nat)
    requires Enabled(w, a)
    ensures f in Step(w, a).slots <==>
      match a
      case Create(g) => f == g || f in w.slots
      case Forget(g) => f != g && f in w.slots
      case SubmitFiber(g, _, keep) => f in w.slots && (keep || f != g)
      case Publish(i) => f in w.slots || RunningOn(w, i, f)
      case Register(i) => f in w.slots || (RunningOn(w, i, f) && f in w.fibers && w.fibers[f] == EXEC)
      case _ => f in w.slots
  {
  }

  /** In which state a fiber's run leaves it: yielded to be run again or to wait, ended, or thrown out of. */
  lemma RunLeaves(w: World, i: nat, f: nat, last: bool)
    requires !w.aborted && RunningOn(w, i, f)
    ensures Enabled(w, Yield(i, last)) && f in Step(w, Yield(i, last)).fibers
    ensures Step(w, Yield(i, last)).fibers[f] == if last then READY else HOLD
    ensures Enabled(w, Finish(i, last)) <==> f !in w.slots && !InQueue(w, f)
    ensures Enabled(w, Finish(i, last)) ==>
      f in Step(w, Finish(i, last)).fibers && Step(w, Finish(i, last)).fibers[f] == if last then EXCEPT else TERM
  {
  }

  /** `stopping()` has been true somewhere in the run. */
  ghost predicate EverStopping(w: World, actions: seq<Action>)
    requires IsRun(w, actions)
    decreases |actions|
  {
    Stopping(w) || (actions != [] && EverStopping(Step(w, actions[0]), actions[1..]))
  }

  /** The worker's idle fiber has not ended, nor has the worker left its loop. */
  predicate Stays(w: World, i: nat) {
    i in w.workers && !w.workers[i].idleDone && w.workers[i].pc != Exited
  }

  lemma StaysOn(w: World, a: Action, i: nat)
    requires Enabled(w, a) && Stays(w, i) && !Stays(Step(w, a), i)
    ensures w.stopping && w.queue == [] && w.active == 0
  {
    hide First, NothingFor, Ended, InQueue, Remove;
  }

  /** In every run, a worker leaves its loop only after `stopping()` has been true. */
  lemma {:induction false} LeavesAfterStopping(w: World, actions: seq<Action>, i: nat)
    requires IsRun(w, actions) && Stays(w, i)
    ensures Stays(Run(w, actions), i) || EverStopping(w, actions)
    decreases |actions|
  {
    hide Step, Enabled, Stays;
    if actions != [] {
      if Stays(Step(w, actions[0]), i) {
        LeavesAfterStopping(Step(w, actions[0]), actions[1..], i);
      } else {
        StaysOn(w, actions[0], i);
      }
    }
  }
}

/** What holds in every run of the scheduler's workers, whatever their number and their interleaving. */
module SchedulerRuns {
  import opened Schedulers
  import opened Wrappers

  // ----- the active count and the tickets

  /** The worker is between popping a task and decrementing the active count. */
  predicate Active(pc: Pc) {
    pc.Popped? || pc.Running? || pc.Returned?
  }

  function Ticket(pc: Pc): nat
    requires Active(pc)
  {
    match pc
    case Popped(entry) => entry.ticket
    case Running(_, _, ticket) => ticket
    case Returned(_, _, ticket) => ticket
  }

  function ActiveWorkers(w: World): set<nat> {
    set i | i in w.workers && Active(w.workers[i].pc)
  }

  function IdleWorkers(w: World): set<nat> {
    set i | i in w.workers && w.workers[i].pc.Idling?
  }

  predicate Queued(queue: seq<Entry>, t: nat) {
    exists k :: 0 <= k < |queue| && queue[k].ticket == t
  }

  ghost predicate DistinctTickets(queue: seq<Entry>) {
    forall j, k :: 0 <= j < k < |queue| ==> queue[j].ticket != queue[k].ticket
  }

  predicate Held(w: World, t: nat) {
    exists i :: i in ActiveWorkers(w) && Ticket(w.workers[i].pc) == t
  }

  /** Every issued ticket is queued, held by one active worker, or done; exactly one of the three, and once. */
  ghost predicate Tickets(w: World) {
    var ok :=
      && (forall t :: 0 <= t < w.issued ==> Queued(w.queue, t) || Held(w, t) || t in w.done)
      && DistinctTickets(w.queue)
      && (forall t: nat :: Queued(w.queue, t) ==> t < w.issued && t !in w.done)
      && (forall i :: i in ActiveWorkers(w) ==> Ticket(w.workers[i].pc) < w.issued && Ticket(w.workers[i].pc) !in w.done)
      && (forall i, j :: i in ActiveWorkers(w) && j in ActiveWorkers(w) && i != j ==>
            Ticket(w.workers[i].pc) != Ticket(w.workers[j].pc))
      && (forall i :: i in ActiveWorkers(w) ==> !Queued(w.queue, Ticket(w.workers[i].pc)))
      && (forall t :: t in w.done ==> t < w.issued);
    ok
  }

  ghost predicate Counts(w: World) {
    w.active == |ActiveWorkers(w)| && w.idle == |IdleWorkers(w)|
  }

  // ----- runnable fibers

  /** The worker is going to look at, run or re-queue the fiber. */
  predicate Cares(pc: Pc, f: nat) {
    match pc
    case Popped(entry) => entry.work == Fib(f)
    case Returned(g, _, _) => g == f
    case After(g, _) => g == f
    case Looked(g, _, seen) => g == f && seen == READY
    case _ => false
  }

  /** A fiber that is ready to run is queued or in the hands of a worker that is about to see so. */
  ghost predicate ReadyHeld(w: World) {
    forall f :: f in w.fibers && w.fibers[f] == READY ==>
      InQueue(w, f) || Cared(w, f)
  }

  predicate RunningOn(w: World, i: nat, f: nat) {
    i in w.workers && w.workers[i].pc.Running? && w.workers[i].pc.fiber == f
  }

  /** A fiber in state EXEC is being run. */
  ghost predicate ExecRun(w: World) {
    forall f :: f in w.fibers && w.fibers[f] == EXEC ==> exists i :: RunningOn(w, i, f)
  }

  ghost predicate Invariant(w: World) {
    Counts(w) && Tickets(w) && ReadyHeld(w) && ExecRun(w)
  }

  // ----- four kinds of step, as far as tickets go

  /** Which workers are active, and with which tickets, stays as it is. */
  ghost predicate SameHolders(w: World, w': World) {
    && (forall i :: i in ActiveWorkers(w) <==> i in ActiveWorkers(w'))
    && (forall i :: i in ActiveWorkers(w) && i in ActiveWorkers(w') ==>
          Ticket(w'.workers[i].pc) == Ticket(w.workers[i].pc))
  }

  lemma TicketsSame(w: World, w': World)
    requires Tickets(w) && SameHolders(w, w')
    requires w'.queue == w.queue && w'.issued == w.issued && w'.done == w.done
    ensures Tickets(w')
  {
    hide ActiveWorkers, Ticket, DistinctTickets, Queued;
    forall t | 0 <= t < w'.issued
      ensures Queued(w'.queue, t) || Held(w', t) || t in w'.done
    {
    }
  }

  lemma PushTickets(queue: seq<Entry>, e: Entry)
    requires DistinctTickets(queue) && !Queued(queue, e.ticket)
    ensures DistinctTickets(queue + [e])
    ensures forall t :: Queued(queue + [e], t) <==> Queued(queue, t) || t == e.ticket
  {
    var queue' := queue + [e];
    assert queue'[|queue|] == e;
    forall t | Queued(queue, t)
      ensures Queued(queue', t)
    {
      var k :| 0 <= k < |queue| && queue[k].ticket == t;
      assert queue'[k] == queue[k];
    }
  }

  lemma RemoveTickets(queue: seq<Entry>, k: nat)
    requires DistinctTickets(queue) && k < |queue|
    ensures DistinctTickets(Remove(queue, k))
    ensures forall t :: Queued(Remove(queue, k), t) <==> Queued(queue, t) && t != queue[k].ticket
  {
    var queue' := Remove(queue, k);
    forall j | 0 <= j < |queue'|
      ensures queue'[j] == queue[if j < k then j else j + 1]
    {
    }
    forall t | Queued(queue, t) && t != queue[k].ticket
      ensures Queued(queue', t)
    {
      var j :| 0 <= j < |queue| && queue[j].ticket == t;
      assert queue'[if j < k then j else j - 1].ticket == t;
    }
  }

  lemma TicketsAdded(w: World, w': World, e: Entry)
    requires Tickets(w) && SameHolders(w, w') && e.ticket == w.issued
    requires w'.queue == w.queue + [e] && w'.issued == w.issued + 1 && w'.done == w.done
    ensures Tickets(w')
  {
    hide ActiveWorkers, Ticket, Queued, DistinctTickets;
    PushTickets(w.queue, e);
    forall t | 0 <= t < w'.issued
      ensures Queued(w'.queue, t) || Held(w', t) || t in w'.done
    {
    }
  }

  /** Worker `i` has taken entry `k`. */
  lemma TicketsPopped(w: World, w': World, i: nat, k: nat)
    requires Tickets(w) && k < |w.queue| && w'.queue == Remove(w.queue, k) && w'.issued == w.issued && w'.done == w.done
    requires i !in ActiveWorkers(w) && i in ActiveWorkers(w') && Ticket(w'.workers[i].pc) == w.queue[k].ticket
    requires forall j :: j != i ==> (j in ActiveWorkers(w) <==> j in ActiveWorkers(w'))
    requires forall j :: j != i && j in ActiveWorkers(w) ==> Ticket(w'.workers[j].pc) == Ticket(w.workers[j].pc)
    ensures Tickets(w')
  {
    hide ActiveWorkers, Ticket, DistinctTickets, Queued;
    RemoveTickets(w.queue, k);
    AtQueued(w.queue, k);
    forall t | 0 <= t < w'.issued
      ensures Queued(w'.queue, t) || Held(w', t) || t in w'.done
    {
    }
  }

  lemma AtQueued(queue: seq<Entry>, k: nat)
    requires k < |queue|
    ensures Queued(queue, queue[k].ticket)
  {
  }

  /** Worker `i` has finished with its task. */
  lemma TicketsDone(w: World, w': World, i: nat)
    requires Tickets(w) && w'.queue == w.queue && w'.issued == w.issued
    requires i in ActiveWorkers(w) && i !in ActiveWorkers(w') && w'.done == w.done + {Ticket(w.workers[i].pc)}
    requires forall j :: j != i ==> (j in ActiveWorkers(w) <==> j in ActiveWorkers(w'))
    requires forall j :: j != i && j in ActiveWorkers(w) ==> Ticket(w'.workers[j].pc) == Ticket(w.workers[j].pc)
    ensures Tickets(w')
  {
    hide ActiveWorkers, Ticket, DistinctTickets, Queued;
    forall t | 0 <= t < w'.issued
      ensures Queued(w'.queue, t) || Held(w', t) || t in w'.done
    {
    }
  }

  // ----- every step

  /** Only worker `i` has moved. */
  ghost predicate OnlyMoved(w: World, w': World, i: nat) {
    && i in w.workers
    && (forall j :: j in w.workers <==> j in w'.workers)
    && (forall j :: j in w.workers && j != i ==> w'.workers[j] == w.workers[j])
  }

  lemma Moved(w: World, w': World, i: nat)
    requires OnlyMoved(w, w', i)
    ensures ActiveWorkers(w') == if Active(w'.workers[i].pc) then ActiveWorkers(w) + {i} else ActiveWorkers(w) - {i}
    ensures IdleWorkers(w') == if w'.workers[i].pc.Idling? then IdleWorkers(w) + {i} else IdleWorkers(w) - {i}
    ensures i in ActiveWorkers(w) <==> Active(w.workers[i].pc)
    ensures i in IdleWorkers(w) <==> w.workers[i].pc.Idling?
    ensures forall j :: j != i ==> (j in ActiveWorkers(w) <==> j in ActiveWorkers(w'))
    ensures forall j :: j != i && j in ActiveWorkers(w) ==> w'.workers[j] == w.workers[j]
  {
  }

  /** The worker a step belongs to. */
  predicate ByWorker(a: Action) {
    a.Pop? || a.GoIdle? || a.ComeBack? || a.Begin? || a.Yield? || a.Finish? || a.Decrement? || a.Look? || a.Settle?
  }

  lemma StepMoves(w: World, a: Action)
    requires Enabled(w, a)
    ensures ByWorker(a) ==> OnlyMoved(w, Step(w, a), a.i)
    ensures !ByWorker(a) ==> Step(w, a).workers == w.workers
  {
  }

  /** What a worker's step appends to the queue. */
  function Appended(w: World, a: Action): seq<Entry>
    requires Enabled(w, a)
  {
    if a.Settle? && w.workers[a.i].pc.seen == READY then [Entry(w.issued, Fib(w.workers[a.i].pc.fiber), None)]
    else if a.SubmitFiber? then [Entry(w.issued, Fib(a.f), a.thread)]
    else if a.SubmitCallback? then [Entry(w.issued, Cb(a.cb), a.thread)]
    else []
  }

  lemma StepQueue(w: World, a: Action)
    requires Enabled(w, a) && !Step(w, a).aborted
    ensures Step(w, a).issued == w.issued + |Appended(w, a)|
    ensures a.Pop? ==> a.k < |w.queue| && Step(w, a).queue == Remove(w.queue, a.k) && Appended(w, a) == []
    ensures !a.Pop? ==> Step(w, a).queue == w.queue + Appended(w, a)
  {
  }

  /** How a worker's step changes the counts. */
  lemma StepCounts(w: World, a: Action)
    requires Enabled(w, a) && ByWorker(a) && !Step(w, a).aborted
    ensures a.i in w.workers && a.i in Step(w, a).workers
    ensures var w' := Step(w, a); var pc, pc' := w.workers[a.i].pc, w'.workers[a.i].pc;
      && w'.active - w.active == (if Active(pc') then 1 else 0) - (if Active(pc) then 1 else 0)
      && w'.idle - w.idle == (if pc'.Idling? then 1 else 0) - (if pc.Idling? then 1 else 0)
  {
  }

  /** Where a worker's ticket comes from and goes. */
  lemma StepTickets(w: World, a: Action)
    requires Enabled(w, a) && ByWorker(a) && !Step(w, a).aborted
    ensures a.i in w.workers && a.i in Step(w, a).workers
    ensures var w' := Step(w, a); var pc, pc' := w.workers[a.i].pc, w'.workers[a.i].pc;
      && (Active(pc) && Active(pc') ==> Ticket(pc') == Ticket(pc))
      && (a.Pop? <==> !Active(pc) && Active(pc'))
      && (a.Pop? ==> Ticket(pc') == w.queue[a.k].ticket)
      && w'.done == if Active(pc) && !Active(pc') then w.done + {Ticket(pc)} else w.done
  {
  }

  lemma TicketsKeep(w: World, a: Action)
    requires Tickets(w) && Enabled(w, a) && !Step(w, a).aborted
    ensures Tickets(Step(w, a))
  {
    hide Step, Enabled, Tickets, ActiveWorkers, Appended;
    var w' := Step(w, a);
    StepQueue(w, a);
    StepMoves(w, a);
    AppendedOne(w, a);
    if ByWorker(a) {
      StepTickets(w, a);
      Moved(w, w', a.i);
      var pc, pc' := w.workers[a.i].pc, w'.workers[a.i].pc;
      if a.Pop? {
        TicketsPopped(w, w', a.i, a.k);
      } else if Active(pc) && !Active(pc') {
        DecrementAppends(w, a);
        TicketsDone(w, w', a.i);
      } else {
        TicketsGrow(w, w', Appended(w, a));
      }
    } else {
      OthersDone(w, a);
      SameWorkers(w, w');
      TicketsGrow(w, w', Appended(w, a));
    }
  }

  lemma AppendedOne(w: World, a: Action)
    requires Enabled(w, a)
    ensures var es := Appended(w, a); |es| <= 1 && (|es| == 1 ==> es[0].ticket == w.issued)
  {
  }

  lemma DecrementAppends(w: World, a: Action)
    requires Enabled(w, a) && ByWorker(a) && a.i in w.workers && Active(w.workers[a.i].pc)
    ensures Appended(w, a) == []
  {
  }

  lemma OthersDone(w: World, a: Action)
    requires Enabled(w, a) && !ByWorker(a)
    ensures Step(w, a).done == w.done && !a.Pop?
    ensures Step(w, a).active == w.active && Step(w, a).idle == w.idle
  {
  }

  lemma SameWorkers(w: World, w': World)
    requires w'.workers == w.workers
    ensures SameHolders(w, w') && ActiveWorkers(w') == ActiveWorkers(w) && IdleWorkers(w') == IdleWorkers(w)
  {
  }

  lemma TicketsGrow(w: World, w': World, es: seq<Entry>)
    requires Tickets(w) && SameHolders(w, w') && |es| <= 1 && (|es| == 1 ==> es[0].ticket == w.issued)
    requires w'.queue == w.queue + es && w'.issued == w.issued + |es| && w'.done == w.done
    ensures Tickets(w')
  {
    if es == [] {
      assert w.queue + es == w.queue;
      TicketsSame(w, w');
    } else {
      assert es == [es[0]];
      TicketsAdded(w, w', es[0]);
    }
  }

  lemma CountsKeep(w: World, a: Action)
    requires Counts(w) && Enabled(w, a) && !Step(w, a).aborted
    ensures Counts(Step(w, a))
  {
    hide Step, Enabled, ActiveWorkers, IdleWorkers, Active, Ticket;
    StepMoves(w, a);
    if ByWorker(a) {
      StepCounts(w, a);
      Moved(w, Step(w, a), a.i);
    } else {
      OthersDone(w, a);
      SameWorkers(w, Step(w, a));
    }
  }

  /** Some worker cares for the fiber. */
  ghost predicate Cared(w: World, f: nat) {
    exists i :: i in w.workers && Cares(w.workers[i].pc, f)
  }

  lemma StaysQueued(w: World, a: Action, f: nat)
    requires Enabled(w, a) && !Step(w, a).aborted && InQueue(w, f)
    ensures InQueue(Step(w, a), f) || (a.Pop? && Cared(Step(w, a), f))
  {
    hide Step, Enabled, Appended, Cared;
    var w' := Step(w, a);
    StepQueue(w, a);
    var k :| 0 <= k < |w.queue| && w.queue[k].work == Fib(f);
    if !a.Pop? {
      assert w'.queue[k] == w.queue[k];
    } else if k != a.k {
      assert w'.queue[if k < a.k then k else k - 1] == w.queue[k];
    } else {
      PopCares(w, a, f);
    }
  }

  lemma PopCares(w: World, a: Action, f: nat)
    requires Enabled(w, a) && a.Pop? && a.k < |w.queue| && w.queue[a.k].work == Fib(f)
    ensures Cared(Step(w, a), f)
  {
    assert Cares(Step(w, a).workers[a.i].pc, f);
  }

  lemma StaysCared(w: World, a: Action, f: nat, i: nat)
    requires Enabled(w, a) && !Step(w, a).aborted && i in w.workers && Cares(w.workers[i].pc, f)
    requires f in w.fibers && w.fibers[f] == READY && f in Step(w, a).fibers && Step(w, a).fibers[f] == READY
    ensures InQueue(Step(w, a), f) || Cared(Step(w, a), f)
  {
    StepMoves(w, a);
    var w' := Step(w, a);
    if ByWorker(a) && a.i == i {
      if a.Settle? {
        assert w'.queue[|w.queue|].work == Fib(f);
      } else {
        assert Cares(w'.workers[i].pc, f);
      }
    } else {
      assert w'.workers[i] == w.workers[i];
    }
  }

  lemma BecomesReady(w: World, a: Action, f: nat)
    requires Enabled(w, a) && f in Step(w, a).fibers && Step(w, a).fibers[f] == READY
    requires f in w.fibers ==> w.fibers[f] != READY
    ensures Cared(Step(w, a), f)
  {
    assert Cares(Step(w, a).workers[a.i].pc, f);
  }

  lemma ReadyKeeps(w: World, a: Action)
    requires ReadyHeld(w) && Enabled(w, a) && !Step(w, a).aborted
    ensures ReadyHeld(Step(w, a))
  {
    hide Step, Enabled, InQueue, Cares;
    var w' := Step(w, a);
    forall f | f in w'.fibers && w'.fibers[f] == READY
      ensures InQueue(w', f) || Cared(w', f)
    {
      if f !in w.fibers || w.fibers[f] != READY {
        BecomesReady(w, a, f);
      } else if InQueue(w, f) {
        StaysQueued(w, a, f);
      } else {
        var i :| i in w.workers && Cares(w.workers[i].pc, f);
        StaysCared(w, a, f, i);
      }
    }
  }

  lemma ExecStays(w: World, a: Action, f: nat, i: nat)
    requires Enabled(w, a) && !Step(w, a).aborted && RunningOn(w, i, f)
    requires f in w.fibers && w.fibers[f] == EXEC && f in Step(w, a).fibers && Step(w, a).fibers[f] == EXEC
    ensures RunningOn(Step(w, a), i, f)
  {
    StepMoves(w, a);
  }

  lemma ExecBegins(w: World, a: Action, f: nat)
    requires Enabled(w, a) && !Step(w, a).aborted && f in Step(w, a).fibers && Step(w, a).fibers[f] == EXEC
    requires f in w.fibers ==> w.fibers[f] != EXEC
    ensures a.Begin? && RunningOn(Step(w, a), a.i, f)
  {
  }

  lemma ExecKept(w: World, a: Action, f: nat)
    requires ExecRun(w) && Enabled(w, a) && !Step(w, a).aborted
    requires f in Step(w, a).fibers && Step(w, a).fibers[f] == EXEC
    ensures exists i :: RunningOn(Step(w, a), i, f)
  {
    hide Step, Enabled;
    if f in w.fibers && w.fibers[f] == EXEC {
      var i :| RunningOn(w, i, f);
      ExecStays(w, a, f, i);
    } else {
      ExecBegins(w, a, f);
    }
  }

  lemma ExecKeeps(w: World, a: Action)
    requires ExecRun(w) && Enabled(w, a) && !Step(w, a).aborted
    ensures ExecRun(Step(w, a))
  {
    hide Step, Enabled;
    forall f | f in Step(w, a).fibers && Step(w, a).fibers[f] == EXEC
      ensures exists i :: RunningOn(Step(w, a), i, f)
    {
      ExecKept(w, a, f);
    }
  }

  /** A failed assertion changes nothing else. */
  lemma AbortKeeps(w: World, a: Action)
    requires Enabled(w, a) && Step(w, a).aborted
    ensures Step(w, a) == w.(aborted := true)
  {
  }

  lemma StepKeeps(w: World, a: Action)
    requires Invariant(w) && Enabled(w, a)
    ensures Invariant(Step(w, a))
  {
    hide Step, Enabled, ReadyHeld, Tickets, Counts, ExecRun;
    if Step(w, a).aborted {
      AbortKeeps(w, a);
      AbortInvariant(w);
    } else {
      CountsKeep(w, a);
      TicketsKeep(w, a);
      ReadyKeeps(w, a);
      ExecKeeps(w, a);
    }
  }

  lemma AbortInvariant(w: World)
    requires Invariant(w)
    ensures Invariant(w.(aborted := true))
  {
    var w' := w.(aborted := true);
    SameWorkers(w, w');
    TicketsSame(w, w');
    forall f | f in w'.fibers && w'.fibers[f] == READY
      ensures InQueue(w', f) || Cared(w', f)
    {
      if !InQueue(w, f) {
        var i :| i in w.workers && Cares(w.workers[i].pc, f);
        assert Cares(w'.workers[i].pc, f);
      }
    }
    forall f | f in w'.fibers && w'.fibers[f] == EXEC
      ensures exists i :: RunningOn(w', i, f)
    {
      var i :| RunningOn(w, i, f);
      assert RunningOn(w', i, f);
    }
  }

  // ----- runs

  ghost predicate IsRun(w: World, actions: seq<Action>)
    decreases |actions|
  {
    actions == [] || (Enabled(w, actions[0]) && IsRun(Step(w, actions[0]), actions[1..]))
  }

  ghost function Run(w: World, actions: seq<Action>): World
    requires IsRun(w, actions)
    decreases |actions|
  {
    if actions == [] then w else Run(Step(w, actions[0]), actions[1..])
  }

  /**
   * In every run of any number of workers: the active count is the number of workers between popping a task and
   * decrementing; every task is queued, held by one worker, or has had its turn; a fiber in state READY is queued or
   * in a worker's hands; a fiber in state EXEC is being run.
   */
  lemma {:induction false} EveryRun(w: World, actions: seq<Action>)
    requires Invariant(w) && IsRun(w, actions)
    ensures Invariant(Run(w, actions))
    decreases |actions|
  {
    hide Step, Enabled, Invariant;
    if actions != [] {
      StepKeeps(w, actions[0]);
      EveryRun(Step(w, actions[0]), actions[1..]);
    }
  }

  lemma InitialInvariant(threads: set<nat>)
    ensures Invariant(Initial(threads))
  {
    var w := Initial(threads);
    assert ActiveWorkers(w) == {} && IdleWorkers(w) == {};
  }

  /** The worker has run the fiber, has decremented the count, and has not seen another state of it than READY. */
  predicate AboutToRequeue(w: World, i: nat, f: nat) {
    && i in w.workers && (w.workers[i].pc.After? || (w.workers[i].pc.Looked? && w.workers[i].pc.seen == READY))
    && w.workers[i].pc.fiber == f
  }

  /**
   * What `stopping()` guarantees: no worker is active, every task has had its turn, no fiber is running, and for
   * every fiber that is ready to run some worker is about to put it back into the queue.
   */
  lemma StoppingMeans(w: World)
    requires Invariant(w) && Stopping(w)
    ensures ActiveWorkers(w) == {}
    ensures forall t :: 0 <= t < w.issued ==> t in w.done
    ensures forall f :: f in w.fibers ==> w.fibers[f] != EXEC
    ensures forall f :: f in w.fibers && w.fibers[f] == READY ==> exists i :: AboutToRequeue(w, i, f)
  {
    assert forall i :: i in w.workers ==> i !in ActiveWorkers(w);
    forall f | f in w.fibers && w.fibers[f] == READY
      ensures exists i :: AboutToRequeue(w, i, f)
    {
      var i :| i in w.workers && Cares(w.workers[i].pc, f);
      assert AboutToRequeue(w, i, f);
    }
    assert forall i, f :: RunningOn(w, i, f) ==> i in ActiveWorkers(w);
  }

  /** A worker that has seen its fiber ready queues it, unpinned, and `stopping()` is false again. */
  lemma SettleRequeues(w: World, i: nat)
    requires Enabled(w, Settle(i)) && w.workers[i].pc.seen == READY
    ensures var w' := Step(w, Settle(i));
      && !w'.aborted && !Stopping(w') && InQueue(w', w.workers[i].pc.fiber)
      && w'.queue == w.queue + [Entry(w.issued, Fib(w.workers[i].pc.fiber), None)]
  {
    var w' := Step(w, Settle(i));
    assert w'.queue[|w.queue|].work == Fib(w.workers[i].pc.fiber);
  }

  /** What the worker does next with the fiber it has run. */
  function Turn(w: World, i: nat): seq<Action>
    requires i in w.workers
  {
    if w.workers[i].pc.After? then [Look(i), Settle(i)] else [Settle(i)]
  }

  /** The worker is going to queue the fiber: it has seen it ready, or it is ready to be seen. */
  predicate Unsettled(w: World, i: nat, f: nat) {
    AboutToRequeue(w, i, f) && (w.workers[i].pc.After? ==> f in w.fibers && w.fibers[f] == READY)
  }

  /** Such a worker's own next steps are possible, and they queue the fiber, without its thread pin. */
  lemma Requeues(w: World, i: nat, f: nat)
    requires !w.aborted && Unsettled(w, i, f)
    ensures IsRun(w, Turn(w, i))
    ensures var w' := Run(w, Turn(w, i));
      && !w'.aborted && !Stopping(w') && w'.queue == w.queue + [Entry(w.issued, Fib(f), None)]
  {
    var w1 := if w.workers[i].pc.After? then Step(w, Look(i)) else w;
    SettleRequeues(w1, i);
    RunOne(w1, Settle(i));
    if w.workers[i].pc.After? {
      assert Turn(w, i)[1..] == [Settle(i)];
    }
  }

  /** `stopping()` holds, and no worker is going to queue a fiber. */
  ghost predicate Final(w: World) {
    Stopping(w) && (forall i :: i in w.workers ==> !Active(w.workers[i].pc)) && forall i, f :: !Unsettled(w, i, f)
  }

  lemma FinalStays(w: World, a: Action)
    requires Final(w) && Enabled(w, a) && ByWorker(a)
    ensures Final(Step(w, a))
  {
    hide NothingFor, Ended;
    var w' := Step(w, a);
    if a.Look? || a.Settle? {
      assert !Unsettled(w, a.i, w.workers[a.i].pc.fiber);
    }
    forall i, f
      ensures !Unsettled(w', i, f)
    {
      assert !Unsettled(w, i, f);
    }
  }

  lemma {:induction false} FinalForGood(w: World, actions: seq<Action>)
    requires Final(w) && IsRun(w, actions) && forall k :: 0 <= k < |actions| ==> ByWorker(actions[k])
    ensures Stopping(Run(w, actions))
    decreases |actions|
  {
    hide Step, Enabled, Final;
    if actions == [] {
      FinalStops(w);
    } else {
      FinalStays(w, actions[0]);
      FinalForGood(Step(w, actions[0]), actions[1..]);
    }
  }

  lemma FinalStops(w: World)
    requires Final(w)
    ensures Stopping(w)
  {
  }

  /**
   * Once it is true, `stopping()` stays true whatever the workers do, unless they are given new work, if and only if no
   * worker stands after its run with a fiber that is ready, or that it has seen ready.
   */
  lemma StopsForGoodExactly(w: World)
    requires Invariant(w) && Stopping(w) && !w.aborted
    ensures (forall actions: seq<Action> ::
               IsRun(w, actions) && (forall k :: 0 <= k < |actions| ==> ByWorker(actions[k])) ==> Stopping(Run(w, actions)))
      <==> forall i, f :: !Unsettled(w, i, f)
  {
    StoppingMeans(w);
    if i, f :| Unsettled(w, i, f) {
      Requeues(w, i, f);
      assert IsRun(w, Turn(w, i));
    } else {
      NoneActive(w);
      assert Final(w);
      forall actions: seq<Action> | IsRun(w, actions) && forall k :: 0 <= k < |actions| ==> ByWorker(actions[k])
        ensures Stopping(Run(w, actions))
      {
        FinalForGood(w, actions);
      }
    }
  }

  lemma NoneActive(w: World)
    requires ActiveWorkers(w) == {}
    ensures forall i :: i in w.workers ==> !Active(w.workers[i].pc)
  {
    assert forall i :: i in w.workers ==> i !in ActiveWorkers(w);
  }

  lemma RunOne(w: World, a: Action)
    requires Enabled(w, a)
    ensures IsRun(w, [a]) && Run(w, [a]) == Step(w, a)
  {
    hide Step, Enabled;
    assert [a][1..] == [];
  }

  // ----- particular runs

  /** The run is possible and ends in `w`. */
  ghost predicate Reaches(from: World, actions: seq<Action>, w: World) {
    IsRun(from, actions) && Run(from, actions) == w
  }

  lemma {:induction false} Extend(from: World, actions: seq<Action>, w: World, a: Action)
    requires Reaches(from, actions, w) && Enabled(w, a)
    ensures Reaches(from, actions + [a], Step(w, a))
    decreases |actions|
  {
    hide Step, Enabled;
    if actions == [] {
      assert (actions + [a])[1..] == [];
      StartReached(Step(w, a));
    } else {
      Extend(Step(from, actions[0]), actions[1..], w, a);
      assert (actions + [a])[1..] == actions[1..] + [a];
    }
  }

  lemma Then(from: World, actions: seq<Action>, w: World, a: Action, w': World) returns (next: seq<Action>)
    requires Reaches(from, actions, w) && Enabled(w, a) && Step(w, a) == w'
    ensures next == actions + [a] && Reaches(from, next, w')
  {
    hide *;
    Extend(from, actions, w, a);
    next := actions + [a];
  }

  lemma StartReached(w: World)
    ensures Reaches(w, [], w)
  {
  }

  /** One worker and at most one fiber, 7. */
  function One(fibers: map<nat, State>, pc: Pc, queue: seq<Entry>, slots: set<nat>, issued: nat, done: set<nat>,
               active: int, stopping: bool): World {
    World(fibers, map[0 := Worker(pc, None, false)], queue, slots, issued, done, active, 0, stopping, false)
  }

  const ONLY := Entry(0, Fib(7), None)

  lemma Submits(from: World) returns (s: seq<Action>)
    requires from == Initial({0})
    ensures s == [Create(7), SubmitFiber(7, None, false), Stop]
    ensures Reaches(from, s, One(map[7 := INIT], Head, [ONLY], {}, 1, {}, 0, true))
  {
    hide Reaches;
    assert from == One(map[], Head, [], {}, 0, {}, 0, false);
    StartReached(from);
    var w1 := One(map[7 := INIT], Head, [], {7}, 0, {}, 0, false);
    s := Then(from, [], from, Create(7), w1);
    var w2 := One(map[7 := INIT], Head, [ONLY], {}, 1, {}, 0, false);
    s := Then(from, s, w1, SubmitFiber(7, None, false), w2);
    s := Then(from, s, w2, Stop, One(map[7 := INIT], Head, [ONLY], {}, 1, {}, 0, true));
  }

  lemma Runs(from: World, s: seq<Action>) returns (s': seq<Action>)
    requires Reaches(from, s, One(map[7 := INIT], Head, [ONLY], {}, 1, {}, 0, true))
    ensures s' == s + [Pop(0, 0), Begin(0, 8)]
    ensures Reaches(from, s', One(map[7 := EXEC], Running(7, false, 0), [], {}, 1, {}, 1, true))
  {
    hide Reaches;
    var w := One(map[7 := INIT], Popped(ONLY), [], {}, 1, {}, 1, true);
    s' := Then(from, s, One(map[7 := INIT], Head, [ONLY], {}, 1, {}, 0, true), Pop(0, 0), w);
    s' := Then(from, s', w, Begin(0, 8), One(map[7 := EXEC], Running(7, false, 0), [], {}, 1, {}, 1, true));
  }

  lemma YieldsReady(from: World, s: seq<Action>) returns (s': seq<Action>)
    requires Reaches(from, s, One(map[7 := EXEC], Running(7, false, 0), [], {}, 1, {}, 1, true))
    ensures s' == s + [Yield(0, true), Decrement(0)]
    ensures Reaches(from, s', One(map[7 := READY], After(7, false), [], {}, 1, {0}, 0, true))
  {
    hide Reaches;
    var w := One(map[7 := READY], Returned(7, false, 0), [], {}, 1, {}, 1, true);
    s' := Then(from, s, One(map[7 := EXEC], Running(7, false, 0), [], {}, 1, {}, 1, true), Yield(0, true), w);
    s' := Then(from, s', w, Decrement(0), One(map[7 := READY], After(7, false), [], {}, 1, {0}, 0, true));
  }

  /** `stopping()` can hold while a fiber is still ready to run: the worker decrements before it queues the fiber. */
  lemma StopsEarly() returns (w: World)
    ensures Reaches(Initial({0}), [Create(7), SubmitFiber(7, None, false), Stop, Pop(0, 0), Begin(0, 8),
                                   Yield(0, true), Decrement(0)], w)
    ensures Stopping(w) && 7 in w.fibers && w.fibers[7] == READY && AboutToRequeue(w, 0, 7)
  {
    hide Reaches;
    var from := Initial({0});
    var s := Submits(from);
    s := Runs(from, s);
    s := YieldsReady(from, s);
    w := One(map[7 := READY], After(7, false), [], {}, 1, {0}, 0, true);
    assert s == [Create(7), SubmitFiber(7, None, false), Stop, Pop(0, 0), Begin(0, 8), Yield(0, true), Decrement(0)];
  }
}

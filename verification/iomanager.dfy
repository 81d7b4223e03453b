/**
 * The IO manager's event table as objects updated in place. Each method runs under the descriptor's lock and is
 * proved to do to the abstract table what `IoSpec` says.
 */
module IOManagers {
  import L = IoLaws
  import T = IoSpec
  import opened Wrappers

  type Task = T.Task
  type Event = T.Event
  type Mask = T.Mask

  class FdContext {
    const fd: nat
    var events: Mask
    var read: T.Slot
    var write: T.Slot

    constructor (fd: nat)
      ensures this.fd == fd && Value() == T.IDLE
    {
      this.fd, events, read, write := fd, {}, T.EMPTY, T.EMPTY;
    }

    ghost function Value(): T.Fd
      reads this
    {
      T.Fd(events, read, write)
    }

    function GetContext(event: Event): (slot: T.Slot)
      reads this
      ensures slot == Value().At(event)
    {
      match event
      case READ => read
      case WRITE => write
    }

    method SetContext(event: Event, slot: T.Slot)
      modifies `read, `write
      ensures Value() == old(Value()).Put(event, slot)
    {
      match event
      case READ => read := slot;
      case WRITE => write := slot;
    }

    /**
     * `triggerEvent`. `None` is the failure of its assertion. The pointer handed to `schedule` is swapped out of
     * the slot, which empties it.
     */
    method TriggerEvent(event: Event) returns (task: Option<Task>)
      requires T.SlotsMatch(Value())
      modifies this
      ensures task.Some? <==> event in old(events)
      ensures task.None? ==> Value() == old(Value())
      ensures task.Some? ==> Value() == T.Fired(old(Value()), {event}) && [task.value] == T.Waiting(old(Value()), {event})
    {
      if event !in events {
        return None;
      }
      events := events - {event};
      var ctx := GetContext(event);
      if ctx.cb.Some? {
        task := Some(T.Task(ctx.scheduler.value, T.Callback(ctx.cb.value)));
        ctx := ctx.(cb := None);
      } else {
        task := Some(T.Task(ctx.scheduler.value, T.Fiber(ctx.fiber.value)));
        ctx := ctx.(fiber := None);
      }
      SetContext(event, ctx.(scheduler := None));
    }
  }

  datatype Op = ADD | MOD | DEL

  predicate Legal(epoll: map<nat, Mask>, op: Op, fd: nat) {
    op == ADD <==> fd !in epoll
  }

  /** How a call that fires events ends; `ABORTED` is a failed assertion. */
  datatype Fate = FIRED | KEPT | ABORTED

  /** The call ended as the specification says: `before` and `after` are the table and the tasks handed out. */
  ghost predicate Ends(outcome: T.Outcome, r: Fate, before: (T.Table, seq<Task>), after: (T.Table, seq<Task>)) {
    match outcome
    case Fires(t, tasks) => r == FIRED && after == (t, before.1 + tasks)
    case Keeps => r == KEPT && after == before
    case Aborts => r == ABORTED
  }

  /** What a call that ended with `r` has made of the table, and the tasks it has added to those handed out. */
  ghost function Made(r: Fate, t: T.Table, before: seq<Task>, after: seq<Task>): T.Outcome {
    match r
    case FIRED => T.Fires(t, if |before| <= |after| then after[|before|..] else [])
    case KEPT => T.Keeps
    case ABORTED => T.Aborts
  }

  lemma EndsMade(outcome: T.Outcome, r: Fate, before: (T.Table, seq<Task>), after: (T.Table, seq<Task>))
    requires Ends(outcome, r, before, after)
    ensures Made(r, after.0, before.1, after.1) == outcome && (r == FIRED ==> before.1 <= after.1)
  {
  }

  class IOManager {
    var fdContexts: seq<FdContext>
    var pendingEventCount: int
    var epoll: map<nat, Mask>  // the kernel's interest list
    var scheduled: seq<Task>  // everything handed to a scheduler so far

    constructor ()
      ensures Valid() && Abs() == T.START && scheduled == []
    {
      fdContexts, pendingEventCount, epoll, scheduled := [], 0, map[], [];
      new;
      ContextResize(32);
      T.StartValid();
      assert Values() == T.START.fds;
    }

    ghost function Values(): (fds: seq<T.Fd>)
      reads `fdContexts, fdContexts
      ensures |fds| == |fdContexts| && forall i :: 0 <= i < |fds| ==> fds[i] == fdContexts[i].Value()
    {
      var contexts := fdContexts;
      seq(|contexts|, i requires 0 <= i < |contexts| reads contexts => contexts[i].Value())
    }

    ghost function Abs(): T.Table
      reads this, fdContexts
    {
      T.Table(Values(), pendingEventCount, epoll)
    }

    /** The table's entries are separate objects, each knowing its index. */
    ghost predicate Indexed()
      reads `fdContexts
    {
      forall i :: 0 <= i < |fdContexts| ==> fdContexts[i].fd == i
    }

    ghost predicate Valid()
      reads this, fdContexts
    {
      var valid := Indexed() && T.Valid(Abs());
      valid
    }

    /** `contextResize`: cuts the table down or fills it up. */
    method ContextResize(size: nat)
      requires Indexed()
      modifies `fdContexts
      ensures Indexed() && |fdContexts| == size
      ensures forall i :: 0 <= i < size && i < |old(fdContexts)| ==> fdContexts[i] == old(fdContexts)[i]
      ensures forall i :: |old(fdContexts)| <= i < size ==> fresh(fdContexts[i]) && fdContexts[i].Value() == T.IDLE
    {
      var contexts := if size <= |fdContexts| then fdContexts[..size] else fdContexts;
      while |contexts| < size
        invariant |contexts| <= size && fdContexts == old(fdContexts)
        invariant forall i :: 0 <= i < |contexts| ==> contexts[i].fd == i
        invariant forall i :: 0 <= i < |contexts| && i < |fdContexts| ==> contexts[i] == fdContexts[i]
        invariant forall i :: |fdContexts| <= i < |contexts| ==> fresh(contexts[i]) && contexts[i].Value() == T.IDLE
        invariant size <= |fdContexts| ==> contexts == fdContexts[..size]
        invariant |fdContexts| < size ==> |fdContexts| <= |contexts|
      {
        var ctx := new FdContext(|contexts|);
        contexts := contexts + [ctx];
      }
      fdContexts := contexts;
    }

    /** `epoll_ctl`; `fails` stands for the kernel's other reasons to refuse. */
    method EpollCtl(op: Op, fd: nat, events: Mask, fails: bool) returns (rt: int)
      modifies `epoll
      ensures rt == 0 <==> Legal(old(epoll), op, fd) && !fails
      ensures epoll == if rt != 0 then old(epoll) else if op == DEL then old(epoll) - {fd} else old(epoll)[fd := events]
    {
      if !Legal(epoll, op, fd) || fails {
        return -1;
      }
      epoll := if op == DEL then epoll - {fd} else epoll[fd := events];
      rt := 0;
    }

    /** The first part of `addEvent`: the descriptor's context, made if need be. */
    method ContextFor(fd: nat) returns (ctx: FdContext)
      requires Valid()
      modifies `fdContexts
      ensures Valid() && Abs() == T.Grow(old(Abs()), fd) && fd < |fdContexts| && ctx == fdContexts[fd]
      ensures ctx in old(fdContexts) || fresh(ctx)
    {
      T.GrowKeeps(Abs(), fd);
      if fd >= |fdContexts| {
        ContextResize(fd * 3 / 2);
        assert Values() == T.Grow(old(Abs()), fd).fds;
      }
      ctx := fdContexts[fd];
    }

    /** After only one context has changed, only its value has. */
    twostate lemma OneChanged(fd: nat)
      requires fd < |fdContexts| && fdContexts == old(fdContexts) && Indexed()
      requires forall i :: 0 <= i < |fdContexts| && i != fd ==> unchanged(fdContexts[i])
      ensures Values() == old(Values())[fd := fdContexts[fd].Value()]
    {
    }

    /**
     * `addEvent`, for the task that is to run when the event comes. A fiber waits itself, and `executing` says whether
     * it is in EXEC; that is asserted once the event is registered.
     */
    method AddEvent(fd: nat, event: Event, task: Task, executing: bool, fails: bool) returns (r: T.AddResult)
      requires Valid()
      modifies this, fdContexts
      ensures Valid() && Abs() == T.Add(old(Abs()), fd, event, task, fails).0 && scheduled == old(scheduled)
      ensures var added := T.Add(old(Abs()), fd, event, task, fails).1;
        r == if added.Added? && task.work.Fiber? && !executing then T.AddAborted else added
    {
      ghost var t := Abs();
      T.AddKeeps(t, fd, event, task, fails);
      var ctx := ContextFor(fd);
      if event in ctx.events {
        return T.AddAborted;
      }
      r := Register(ctx, event, task, fails);
      if r == T.Added && task.work.Fiber? && !executing {
        return T.AddAborted;
      }
    }

    method Register(ctx: FdContext, event: Event, task: Task, fails: bool) returns (r: T.AddResult)
      requires Valid() && ctx.fd < |fdContexts| && fdContexts[ctx.fd] == ctx && event !in ctx.events
      modifies `pendingEventCount, `epoll, ctx
      ensures r == if fails then T.AddFailed else T.Added
      ensures Abs() == if fails then old(Abs())
                       else T.Become(old(Abs()), ctx.fd, T.Registered(old(ctx.Value()), event, task))
    {
      var op := if ctx.events != {} then MOD else ADD;
      var rt := EpollCtl(op, ctx.fd, ctx.events + {event}, fails);
      if rt != 0 {
        return T.AddFailed;
      }
      pendingEventCount := pendingEventCount + 1;
      ctx.events := ctx.events + {event};
      var eventCtx := ctx.GetContext(event);
      assert eventCtx == T.EMPTY;
      ctx.SetContext(event, T.Filled(task));
      OneChanged(ctx.fd);
      r := T.Added;
    }

    /** `delEvent`: the task is dropped. */
    method DelEvent(fd: nat, event: Event, fails: bool) returns (r: bool)
      requires Valid()
      modifies `pendingEventCount, `epoll, fdContexts
      ensures Valid() && (Abs(), r) == T.Del(old(Abs()), fd, event, fails)
    {
      T.DelKeeps(Abs(), fd, event, fails);
      if |fdContexts| <= fd {
        return false;
      }
      var ctx := fdContexts[fd];
      if event !in ctx.events {
        return false;
      }
      r := Unregister(ctx, event, fails);
    }

    method Unregister(ctx: FdContext, event: Event, fails: bool) returns (r: bool)
      requires Valid() && ctx.fd < |fdContexts| && fdContexts[ctx.fd] == ctx && event in ctx.events
      modifies `pendingEventCount, `epoll, ctx
      ensures r <==> !fails
      ensures Abs() == if fails then old(Abs()) else T.Become(old(Abs()), ctx.fd, T.Cleared(old(ctx.Value()), event))
    {
      var newEvents := ctx.events - {event};
      var op := if newEvents != {} then MOD else DEL;
      var rt := EpollCtl(op, ctx.fd, newEvents, fails);
      if rt != 0 {
        return false;
      }
      pendingEventCount := pendingEventCount - 1;
      ctx.events := newEvents;
      ctx.SetContext(event, T.EMPTY);
      OneChanged(ctx.fd);
      r := true;
    }

    /** Triggers the wanted events, counting each off; `false` is a failed assertion. */
    method FireEvents(ctx: FdContext, wanted: Mask) returns (ok: bool)
      requires T.SlotsMatch(ctx.Value())
      modifies `pendingEventCount, `scheduled, ctx
      ensures ok <==> wanted <= old(ctx.events)
      ensures ok ==>
        && ctx.Value() == T.Fired(old(ctx.Value()), wanted)
        && pendingEventCount == old(pendingEventCount) - T.Count(old(ctx.Value())) + T.Count(ctx.Value())
        && scheduled == old(scheduled) + T.Waiting(old(ctx.Value()), wanted)
    {
      if T.READ in wanted {
        var task := ctx.TriggerEvent(T.READ);
        if task.None? {
          return false;
        }
        scheduled := scheduled + [task.value];
        pendingEventCount := pendingEventCount - 1;
      }
      if T.WRITE in wanted {
        var task := ctx.TriggerEvent(T.WRITE);
        if task.None? {
          return false;
        }
        scheduled := scheduled + [task.value];
        pendingEventCount := pendingEventCount - 1;
      }
      ok := true;
    }

    /** Stops watching for `wanted`, then fires it. */
    method Take(ctx: FdContext, wanted: Mask, fails: bool) returns (r: Fate)
      requires Valid() && ctx.fd < |fdContexts| && fdContexts[ctx.fd] == ctx && ctx.events * wanted != {}
      modifies `pendingEventCount, `epoll, `scheduled, ctx
      ensures fails ==> r == KEPT && Abs() == old(Abs()) && scheduled == old(scheduled)
      ensures !fails ==> (r == ABORTED <==> !(wanted <= old(ctx.events))) && r != KEPT
      ensures r == FIRED ==>
        Ends(T.Fire(old(Abs()), ctx.fd, wanted), FIRED, old((Abs(), scheduled)), (Abs(), scheduled))
    {
      var left := ctx.events - wanted;
      var op := if left != {} then MOD else DEL;
      var rt := EpollCtl(op, ctx.fd, left, fails);
      if rt != 0 {
        return KEPT;
      }
      var ok := FireEvents(ctx, wanted);
      OneChanged(ctx.fd);
      r := if ok then FIRED else ABORTED;
    }

    /** `cancelEvent`. */
    method CancelEvent(fd: nat, event: Event, fails: bool) returns (r: Fate)
      requires Valid()
      modifies `pendingEventCount, `epoll, `scheduled, fdContexts
      ensures Valid()
      ensures Ends(T.Cancel(old(Abs()), fd, event, fails), r, old((Abs(), scheduled)), (Abs(), scheduled))
    {
      if |fdContexts| <= fd {
        return KEPT;
      }
      var ctx := fdContexts[fd];
      if event !in ctx.events {
        return KEPT;
      }
      T.FireKeeps(Abs(), fd, {event});
      assert event in ctx.events * {event};
      r := Take(ctx, {event}, fails);
    }

    /** `cancelAll`. */
    method CancelAll(fd: nat, fails: bool) returns (r: Fate)
      requires Valid()
      modifies `pendingEventCount, `epoll, `scheduled, fdContexts
      ensures Valid()
      ensures Ends(T.CancelAll(old(Abs()), fd, fails), r, old((Abs(), scheduled)), (Abs(), scheduled))
      ensures r == FIRED ==> fdContexts[fd].events == {}
    {
      if |fdContexts| <= fd {
        return KEPT;
      }
      var ctx := fdContexts[fd];
      if ctx.events == {} {
        return KEPT;
      }
      T.FireKeeps(Abs(), fd, ctx.events);
      r := Take(ctx, ctx.events, fails);
    }

    /** One descriptor's turn in the dispatch loop of `idle`. */
    method Dispatch(fd: nat, ready: T.Ready, fails: bool) returns (r: Fate)
      requires Valid() && fd < |fdContexts|
      modifies `pendingEventCount, `epoll, `scheduled, fdContexts
      ensures r != ABORTED ==> Valid()
      ensures Ends(T.Dispatch(old(Abs()), fd, ready, fails), r, old((Abs(), scheduled)), (Abs(), scheduled))
      ensures r == FIRED ==> old(scheduled) <= scheduled
      ensures L.Dispatched(old(Abs()), fd, ready, fails, Made(r, Abs(), old(scheduled), scheduled))
    {
      hide L.Dispatched, Made;
      L.Dispatches(Abs(), fd, ready, fails);
      ghost var outcome, before := T.Dispatch(Abs(), fd, ready, fails), (Abs(), scheduled);
      var ctx := fdContexts[fd];
      var wanted := ready.Named();
      if ready.broken {
        wanted := wanted + ctx.events;
      }
      assert wanted == ready.Actual(ctx.events);
      if ctx.events * wanted == {} {
        EndsMade(outcome, KEPT, before, before);
        return KEPT;
      }
      if wanted <= ctx.events {
        T.FireKeeps(Abs(), fd, wanted);
      }
      r := Take(ctx, wanted, fails);
      EndsMade(outcome, r, before, (Abs(), scheduled));
    }
  }
}

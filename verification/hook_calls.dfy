/**
 * How a hooked call goes on and ends: with its system call, with a refused registration, or with its flag set; and
 * what a timeout does to it, from the callback up to the call's end.
 */
module HookCalls {
  import opened IoSpec
  import opened Hooks
  import opened HookTimeouts
  import opened Wrappers

  // ----- the end of a call

  /** What the fiber does once it has been resumed: it drops its timeout, and looks at the call's flag. */
  function Wakes(f: nat): seq<Action> {
    [Resume(f), DropTimer(f), Check(f)]
  }

  /** The fiber is in the call it was in, at `pc`, for the same descriptor and event. */
  ghost predicate StillIn(w: World, w': World, f: nat, pc: Pc) {
    && f in w.fibers && At(w', f, pc)
    && w'.fibers[f].call == w.fibers[f].call && w'.fibers[f].timed == w.fibers[f].timed
    && w'.fibers[f].fd == w.fibers[f].fd && w'.fibers[f].event == w.fibers[f].event
  }

  /**
   * A call ends in three ways only, by a step of its own fiber: its system call does not block, its registration
   * has failed, or it finds its flag set.
   */
  lemma CallEnds(w: World, a: Action, f: nat)
    requires Invariant(w) && Enabled(w, a) && InCall(w, f) && !InCall(Step(w, a), f)
    ensures || (a == Return(f) && At(w, f, Trying))
            || (a == DropTimer(f) && At(w, f, Refused))
            || (a == Check(f) && At(w, f, Checking) && w.fibers[f].call in w.flags && w.flags[w.fibers[f].call])
  {
    hide Invariant, Alive, Registers, Dropped, Step, Enabled;
    if ByFiber(a) && a.f == f {
      EndSteps(w, a);
    } else {
      FiberStays(w, a, f);
    }
  }

  lemma EndSteps(w: World, a: Action)
    requires Invariant(w) && Enabled(w, a) && ByFiber(a) && InCall(w, a.f) && !InCall(Step(w, a), a.f)
    ensures || (a.Return? && At(w, a.f, Trying))
            || (a.DropTimer? && At(w, a.f, Refused))
            || (a.Check? && At(w, a.f, Checking) && w.fibers[a.f].call in w.flags && w.flags[w.fibers[a.f].call])
  {
    hide Invariant, Alive, Add;
    InvariantTable(w);
  }

  lemma OneStep(w: World, a: Action, rest: seq<Action>)
    requires Invariant(w) && Enabled(w, a)
    requires Invariant(Step(w, a)) ==> IsRun(Step(w, a), rest)
    ensures Invariant(Step(w, a)) && IsRun(w, [a] + rest) && Run(w, [a] + rest) == Run(Step(w, a), rest)
  {
    hide Invariant, Step, Enabled;
    InvariantTable(w);
    StepKeeps(w, a);
    assert ([a] + rest)[1..] == rest;
  }

  lemma ChecksFlag(w: World, f: nat)
    requires Invariant(w) && !w.aborted && At(w, f, Checking)
    ensures Enabled(w, Check(f)) && !Step(w, Check(f)).aborted
    ensures var w' := Step(w, Check(f));
      && if w.fibers[f].call in w.flags && w.flags[w.fibers[f].call] then At(w', f, Outside) else StillIn(w, w', f, Trying)
  {
    hide Invariant;
    InvariantTable(w);
  }

  lemma Drops(w: World, f: nat)
    requires Invariant(w) && !w.aborted && At(w, f, Woken)
    ensures Enabled(w, DropTimer(f)) && !Step(w, DropTimer(f)).aborted
    ensures var w' := Step(w, DropTimer(f)); StillIn(w, w', f, Checking) && w'.flags == w.flags
  {
    hide Invariant;
    InvariantTable(w);
  }

  lemma IsResumed(w: World, f: nat)
    requires Invariant(w) && !w.aborted && At(w, f, Parked) && f in w.queue
    ensures Enabled(w, Resume(f)) && !Step(w, Resume(f)).aborted
    ensures var w' := Step(w, Resume(f)); StillIn(w, w', f, Woken) && w'.flags == w.flags
  {
    hide Invariant;
    InvariantTable(w);
  }

  /** A resumed fiber's next steps end its call if the call's flag is set; otherwise the same call tries again. */
  lemma AfterWaking(w: World, f: nat)
    requires Invariant(w) && !w.aborted && At(w, f, Parked) && f in w.queue
    ensures IsRun(w, Wakes(f))
    ensures var w' := Run(w, Wakes(f));
      if w.fibers[f].call in w.flags && w.flags[w.fibers[f].call] then At(w', f, Outside) else StillIn(w, w', f, Trying)
  {
    hide Valid, SlotsOwned, Once, Counted, Step, Enabled, IsRun, Run;
    IsResumed(w, f);
    StepKeeps(w, Resume(f));
    var w1 := Step(w, Resume(f));
    Drops(w1, f);
    StepKeeps(w1, DropTimer(f));
    var w2 := Step(w1, DropTimer(f));
    ChecksFlag(w2, f);
    StepKeeps(w2, Check(f));
    NoSteps(Step(w2, Check(f)));
    assert [Check(f)] + [] == [Check(f)];
    OneStep(w2, Check(f), []);
    assert [DropTimer(f)] + [Check(f)] == [DropTimer(f), Check(f)];
    OneStep(w1, DropTimer(f), [Check(f)]);
    assert [Resume(f)] + [DropTimer(f), Check(f)] == Wakes(f);
    OneStep(w, Resume(f), [DropTimer(f), Check(f)]);
  }

  lemma NoSteps(w: World)
    requires Invariant(w)
    ensures IsRun(w, []) && Run(w, []) == w
  {
  }

  // ----- what a timeout does to its call

  lemma {:induction false} RunsOn(w: World, s: seq<Action>, t: seq<Action>)
    requires Invariant(w) && IsRun(w, s)
    requires Invariant(Run(w, s)) ==> IsRun(Run(w, s), t)
    ensures Invariant(Run(w, s)) && IsRun(w, s + t) && Run(w, s + t) == Run(Run(w, s), t)
    decreases |s|
  {
    hide Valid, SlotsOwned, Once, Counted, Step, Enabled;
    if s == [] {
      assert s + t == t;
    } else {
      StepKeeps(w, s[0]);
      RunsOn(Step(w, s[0]), s[1..], t);
      assert (s + t)[1..] == s[1..] + t;
    }
  }

  /** A fiber that has registered and not yet parked does that first. */
  ghost function Parking(w: World, f: nat): seq<Action> {
    if At(w, f, Pc.Registered) then [Park(f)] else []
  }

  lemma IsParked(w: World, f: nat)
    requires Invariant(w) && !w.aborted && Waits(w, f)
    ensures IsRun(w, Parking(w, f))
    ensures var w' := Run(w, Parking(w, f));
      !w'.aborted && StillIn(w, w', f, Parked) && w'.queue == w.queue && w'.flags == w.flags
  {
    hide Valid, SlotsOwned, Once, Counted, SlotHolds, Alive;
    NoSteps(w);
    if At(w, f, Pc.Registered) {
      StepKeeps(w, Park(f));
      NoSteps(Step(w, Park(f)));
      assert [Park(f)] + [] == [Park(f)];
      OneStep(w, Park(f), []);
    }
  }

  /** What a waiting fiber does once it is scheduled. */
  lemma WaitEnds(w: World, f: nat)
    requires Invariant(w) && !w.aborted && Waits(w, f) && f in w.queue
    ensures IsRun(w, Parking(w, f) + Wakes(f))
    ensures var w' := Run(w, Parking(w, f) + Wakes(f));
      if w.fibers[f].call in w.flags && w.flags[w.fibers[f].call] then At(w', f, Outside) else StillIn(w, w', f, Trying)
  {
    hide Invariant, Step, Enabled, IsRun, Run, Waits;
    IsParked(w, f);
    EveryRun(w, Parking(w, f));
    AfterWaking(Run(w, Parking(w, f)), f);
    RunsOn(w, Parking(w, f), Wakes(f));
  }

  lemma SlotIsWait(w: World, f: nat)
    requires Invariant(w) && InSlot(w, f)
    ensures Waits(w, f)
  {
    hide Valid, SlotHolds, Once, Counted;
  }

  /**
   * From any reachable state in which a timeout aimed at a waiting fiber's slot is still effective, its steps and
   * then the fiber's own end the call if the timeout is the call's, or its flag is set; otherwise the call tries
   * again.
   */
  lemma TimeoutEndsCall(w: World, m: nat, f: nat) returns (callbacks: seq<Action>)
    requires Invariant(w) && Timed(w) && !w.aborted && InSlot(w, f) && AimsAt(w, m, f) && Effective(w, m)
    ensures forall a :: a in callbacks ==> ByCallback(a)
    ensures IsRun(w, callbacks) && IsRun(w, callbacks + (Parking(w, f) + Wakes(f)))
    ensures var w1 := Run(w, callbacks); var w' := Run(w, callbacks + (Parking(w, f) + Wakes(f)));
      && (w.timers[m].call == w.fibers[f].call ==> At(w', f, Outside))
      && if w.fibers[f].call in w1.flags && w1.flags[w.fibers[f].call] then At(w', f, Outside)
         else StillIn(w, w', f, Trying)
  {
    hide Invariant, Timed, Step, Enabled, IsRun, Run, Effective, InSlot;
    SlotIsWait(w, f);
    callbacks := TimesOut(w, m, f);
    EveryRun(w, callbacks);
    var w1 := Run(w, callbacks);
    WaitEnds(w1, f);
    RunsOn(w, callbacks, Parking(w, f) + Wakes(f));
  }

  // ----- a call whose flag is set registers at most once more

  /** The step registers the event of a fiber in `call`. */
  ghost predicate RegistersIn(w: World, a: Action, call: nat)
    requires Invariant(w) && Enabled(w, a)
  {
    var w' := (StepKeeps(w, a); Step(w, a));
    a.AddEvent? && At(w', a.f, Pc.Registered) && w'.fibers[a.f].call == call
  }

  ghost function Registrations(w: World, actions: seq<Action>, call: nat): nat
    requires Invariant(w) && IsRun(w, actions)
    decreases |actions|
  {
    if actions == [] then 0
    else
      StepKeeps(w, actions[0]);
      (if RegistersIn(w, actions[0], call) then 1 else 0) + Registrations(Step(w, actions[0]), actions[1..], call)
  }

  /** Some fiber is between its system call and its registration in `call`. */
  ghost predicate MayRegister(w: World, call: nat) {
    exists f :: f in w.fibers && w.fibers[f].call == call && (w.fibers[f].pc == Trying || w.fibers[f].pc == Armed)
  }

  /** How a fiber comes to be about to make its system call, or armed: by entering a call, or with its flag unset. */
  lemma TryingWhy(w: World, a: Action, f: nat)
    requires Invariant(w) && Enabled(w, a) && (At(Step(w, a), f, Trying) || At(Step(w, a), f, Armed))
    ensures var call := Step(w, a).fibers[f].call;
      || (a.Enter? && a.f == f && call == a.call && call !in w.flags)
      || (f in w.fibers && w.fibers[f].call == call &&
            (At(w, f, Trying) || At(w, f, Armed) || (a == Check(f) && !Flag(w, call))))
  {
    hide Invariant, Alive, Add, Step, Enabled;
    if ByFiber(a) && a.f == f {
      OwnTrying(w, a);
    } else {
      FiberStays(w, a, f);
    }
  }

  lemma OwnTrying(w: World, a: Action)
    requires Invariant(w) && Enabled(w, a) && ByFiber(a) && (At(Step(w, a), a.f, Trying) || At(Step(w, a), a.f, Armed))
    ensures var call := Step(w, a).fibers[a.f].call;
      || (a.Enter? && call == a.call && call !in w.flags)
      || (a.f in w.fibers && w.fibers[a.f].call == call &&
            (At(w, a.f, Trying) || At(w, a.f, Armed) || (a.Check? && !Flag(w, call))))
  {
    hide Invariant, Alive, Add, Dropped;
    InvariantTable(w);
  }

  lemma RegistersFrom(w: World, a: Action, call: nat)
    requires Invariant(w) && Enabled(w, a) && RegistersIn(w, a, call)
    ensures At(w, a.f, Armed) && w.fibers[a.f].call == call
  {
    hide Invariant, Alive, Add;
    InvariantTable(w);
  }

  lemma KnownApart(w: World, f: nat, g: nat)
    requires Timed(w) && InCall(w, f) && InCall(w, g) && w.fibers[f].call == w.fibers[g].call
    ensures f == g
  {
    assert CallKnown(w, f);
  }

  /** With the flag set, a registration uses up the call's only chance of one. */
  lemma LastChance(w: World, a: Action, call: nat)
    requires Invariant(w) && Timed(w) && Enabled(w, a) && Flag(w, call)
    ensures (if RegistersIn(w, a, call) then 1 else 0) + (if MayRegister(Step(w, a), call) then 1 else 0)
         <= (if MayRegister(w, call) then 1 else 0)
  {
    hide Valid, SlotsOwned, Once, Counted, Step, Enabled, Timed;
    StepKeeps(w, a);
    TimedKeeps(w, a);
    var w' := Step(w, a);
    if RegistersIn(w, a, call) {
      RegistersFrom(w, a, call);
    }
    if f :| f in w'.fibers && w'.fibers[f].call == call && (w'.fibers[f].pc == Trying || w'.fibers[f].pc == Armed) {
      TryingWhy(w, a, f);
      if RegistersIn(w, a, call) {
        KnownApart(w', f, a.f);
      }
    }
  }

  /**
   * Over every run from any reachable state, a call whose flag is set registers at most once more, and only if it
   * is between its system call and its registration; one that has registered does not do so again.
   */
  lemma {:induction false} RegistersOnceMore(w: World, actions: seq<Action>, call: nat)
    requires Invariant(w) && Timed(w) && IsRun(w, actions) && call in w.flags && w.flags[call]
    ensures Registrations(w, actions, call) <= if MayRegister(w, call) then 1 else 0
    decreases |actions|
  {
    hide Valid, SlotsOwned, Once, Counted, Step, Enabled, Timed, RegistersIn, MayRegister;
    if actions != [] {
      var a := actions[0];
      StepKeeps(w, a);
      TimedKeeps(w, a);
      FlagsGrow(w, a, call);
      LastChance(w, a, call);
      RegistersOnceMore(Step(w, a), actions[1..], call);
    }
  }

  // ----- single steps

  /** Where each of its steps takes a fiber. */
  lemma FiberMoves(w: World, a: Action)
    requires Invariant(w) && Enabled(w, a) && ByFiber(a)
    ensures a.f in Step(w, a).fibers
    ensures Step(w, a).fibers[a.f].pc ==
      match a
      case Spawn(_) => Outside
      case Enter(_, _, _, _, _) => Trying
      case Return(_) => Outside
      case WouldBlock(_, _) => Armed
      case AddEvent(f, fails) =>
        if Has(w.table, w.fibers[f].fd, w.fibers[f].event) then Armed else if fails then Refused else Pc.Registered
      case Park(_) => Parked
      case Resume(_) => Woken
      case DropTimer(f) => if w.fibers[f].pc == Woken then Checking else Outside
      case Check(f) => if w.fibers[f].call in w.flags && w.flags[w.fibers[f].call] then Outside else Trying
      case _ => Outside
  {
    hide Invariant, Alive, Grow, Become;
    InvariantTable(w);
    if a.AddEvent? {
      GrowHolds(w.table, w.fibers[a.f].fd);
    }
  }

  /** A step fails an assertion exactly if it adds an event that is registered, or dispatches a report gone stale. */
  lemma AbortsExactly(w: World, a: Action)
    requires Invariant(w) && Enabled(w, a)
    ensures Valid(w.table)
    ensures Step(w, a).aborted <==>
      match a
      case AddEvent(f, _) => Has(w.table, w.fibers[f].fd, w.fibers[f].event)
      case AddCallback(fd, event, _, _) => Has(w.table, fd, event)
      case Dispatched(fd, ready, fails) => Dispatch(w.table, fd, ready, fails) == Aborts
      case _ => false
  {
    hide Valid, SlotsOwned, Once, Counted, Alive, Grow, Become, Dispatch;
    InvariantTable(w);
    if a.AddEvent? {
      GrowHolds(w.table, w.fibers[a.f].fd);
    } else if a.AddCallback? {
      GrowHolds(w.table, a.fd);
    }
  }

  ghost function Left(t: Table, outcome: Outcome): Table {
    if outcome.Fires? then outcome.t else t
  }

  /** Which steps change the table, and how. */
  lemma TableAfter(w: World, a: Action)
    requires Invariant(w) && Enabled(w, a)
    ensures Valid(w.table) && 32 <= |w.table.fds|
    ensures Step(w, a).table ==
      match a
      case AddEvent(f, fails) => Add(w.table, w.fibers[f].fd, w.fibers[f].event, Wait(f), fails).0
      case AddCallback(fd, event, cb, fails) => Add(w.table, fd, event, Task(0, Callback(cb)), fails).0
      case CallbackCancels(m, fails) => Left(w.table, Cancel(w.table, w.timers[m].fd, w.timers[m].event, fails))
      case Dispatched(fd, ready, fails) => Left(w.table, Dispatch(w.table, fd, ready, fails))
      case Close(fd, fails) => Left(w.table, CancelAll(w.table, fd, fails))
      case _ => w.table
    ensures Step(w, a).refused <==>
      w.refused || (a.CallbackCancels? && a.fails && Has(w.table, w.timers[a.m].fd, w.timers[a.m].event))
  {
    hide Valid, SlotsOwned, Once, Counted, Alive, Grow, Become, Dispatch, Cancel, CancelAll;
    InvariantTable(w);
  }
}

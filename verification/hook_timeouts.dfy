/**
 * Which parked fibers can still time out. The timeout is armed before the event is registered, so its callback can
 * come and go in between; the fiber then waits with no timeout left.
 */
module HookTimeouts {
  import opened IoSpec
  import opened Hooks
  import opened Wrappers

  /** The fiber has set a timeout and not yet dropped it. */
  predicate HasTimer(w: World, f: nat) {
    f in w.fibers && w.fibers[f].pc in {Armed, Pc.Registered, Parked, Woken, Refused}
  }

  predicate Flag(w: World, call: nat) {
    call in w.flags && w.flags[call]
  }

  /** The fiber's call has a flag, and no other fiber is in the same call. */
  ghost predicate CallKnown(w: World, f: nat) {
    InCall(w, f) ==>
      && w.fibers[f].call in w.flags
      && forall g :: InCall(w, g) && g != f ==> w.fibers[g].call != w.fibers[f].call
  }

  /** The timeout's call has a flag, set if its callback says so, and a fiber in that call is what it aims at. */
  ghost predicate TimerKnown(w: World, m: nat) {
    m in w.timers ==>
      && w.timers[m].call in w.flags
      && (w.timers[m].stage == Flagged ==> Flag(w, w.timers[m].call))
      && forall f :: InCall(w, f) && w.fibers[f].call == w.timers[m].call ==>
           w.timers[m].fd == w.fibers[f].fd && w.timers[m].event == w.fibers[f].event
  }

  /** A timeout that is over before its fiber drops it has left the flag set. */
  ghost predicate Owns(w: World, f: nat)
    requires f in w.fibers
  {
    var fib := w.fibers[f];
    && (fib.timed <==> fib.timer.Some?)
    && (fib.timed ==>
          && fib.timer.value in w.timers && w.timers[fib.timer.value].call == fib.call
          && (w.timers[fib.timer.value].stage == Over ==> Flag(w, fib.call)))
  }

  /** Some callback of the call has set the flag and has yet to cancel the event. */
  ghost predicate Cancelling(w: World, call: nat) {
    exists m :: Stands(w, m, Flagged) && w.timers[m].call == call
  }

  /** A flag set since the fiber registered is followed by a cancellation. */
  ghost predicate Followed(w: World, f: nat)
    requires f in w.fibers
  {
    var fib := w.fibers[f];
    && (!Flag(w, fib.call) ==> fib.clean)
    && (InSlot(w, f) && fib.clean && Flag(w, fib.call) ==> w.refused || Cancelling(w, fib.call))
  }

  ghost predicate Timed(w: World) {
    var ok :=
      && (forall f :: InCall(w, f) ==> CallKnown(w, f))
      && (forall m :: m in w.timers ==> TimerKnown(w, m))
      && (forall f :: HasTimer(w, f) ==> Owns(w, f))
      && (forall f :: Waits(w, f) ==> Followed(w, f));
    ok
  }

  /** Flags are only ever set. */
  lemma FlagsGrow(w: World, a: Action, c: nat)
    requires Invariant(w) && Enabled(w, a) && c in w.flags
    ensures c in Step(w, a).flags && (Flag(w, c) ==> Flag(Step(w, a), c))
  {
    hide Invariant, Add, Cancel, CancelAll, Dispatch, Alive, Resumed, After, Registers;
  }

  /** The step is taken by a fiber. */
  predicate ByFiber(a: Action) {
    a.Spawn? || a.Enter? || a.Return? || a.WouldBlock? || a.AddEvent? || a.Park? || a.Resume? || a.DropTimer? || a.Check?
  }

  lemma FibersStay(w: World, a: Action)
    requires Invariant(w) && Enabled(w, a) && !ByFiber(a)
    ensures Step(w, a).fibers == w.fibers
  {
    hide Invariant, Add, Cancel, CancelAll, Dispatch, Alive, After, Registers, Dropped, Valid;
  }

  lemma OtherFiberStays(w: World, a: Action, f: nat)
    requires Invariant(w) && Enabled(w, a) && ByFiber(a) && a.f != f
    ensures f in Step(w, a).fibers <==> f in w.fibers
    ensures f in w.fibers ==> Step(w, a).fibers[f] == w.fibers[f]
  {
    hide Invariant, Alive, Registers, Dropped;
  }

  /** A step changes no fiber but the one that takes it. */
  lemma FiberStays(w: World, a: Action, f: nat)
    requires Invariant(w) && Enabled(w, a) && !(ByFiber(a) && a.f == f)
    ensures f in Step(w, a).fibers <==> f in w.fibers
    ensures f in w.fibers ==> Step(w, a).fibers[f] == w.fibers[f]
  {
    hide Step, Enabled, Invariant;
    if ByFiber(a) {
      OtherFiberStays(w, a, f);
    } else {
      FibersStay(w, a);
    }
  }

  /** The fiber that takes a step stays in its call, unless it enters a new one. */
  lemma OwnCallStays(w: World, a: Action)
    requires Invariant(w) && Enabled(w, a) && ByFiber(a) && InCall(Step(w, a), a.f)
    ensures var w' := Step(w, a); var fib := w'.fibers[a.f];
      if a.Enter? then fib.call == a.call && a.call !in w.flags && a.call in w'.flags && w'.timers == w.timers
      else InCall(w, a.f) && fib.call == w.fibers[a.f].call && fib.fd == w.fibers[a.f].fd && fib.event == w.fibers[a.f].event
  {
    hide Invariant, Add, Cancel, CancelAll, Dispatch, Alive, Resumed, Dropped, After;
  }

  lemma CallStays(w: World, a: Action, f: nat)
    requires Invariant(w) && Enabled(w, a) && InCall(Step(w, a), f)
    ensures var w' := Step(w, a); var fib := w'.fibers[f];
      if a.Enter? && a.f == f
      then fib.call == a.call && a.call !in w.flags && a.call in w'.flags && w'.timers == w.timers
      else InCall(w, f) && fib.call == w.fibers[f].call && fib.fd == w.fibers[f].fd && fib.event == w.fibers[f].event
  {
    hide Valid, SlotsOwned, Once, Counted, Step, Enabled;
    if ByFiber(a) && a.f == f {
      OwnCallStays(w, a);
    } else {
      FiberStays(w, a, f);
    }
  }

  /** A timeout keeps its aim; a new one has that of the fiber that sets it. */
  lemma AimStays(w: World, a: Action, m: nat)
    requires Invariant(w) && Enabled(w, a) && m in Step(w, a).timers
    ensures var t := Step(w, a).timers[m];
      if m in w.timers then
        && t == w.timers[m].(stage := t.stage)
        && (t.stage == Flagged ==> w.timers[m].stage == Flagged || Flag(Step(w, a), t.call))
      else
        && a.WouldBlock? && InCall(w, a.f)
        && t == Timeout(w.fibers[a.f].call, w.fibers[a.f].fd, w.fibers[a.f].event, Pending)
  {
    hide Invariant, Add, Cancel, CancelAll, Dispatch, Alive, Resumed, After, Registers;
  }

  lemma CallKept(w: World, a: Action, f: nat)
    requires Invariant(w) && Timed(w) && Enabled(w, a)
    ensures CallKnown(Step(w, a), f)
  {
    hide Valid, SlotsOwned, Once, Counted, Step, Enabled, Owns, Followed, TimerKnown;
    var w' := Step(w, a);
    if InCall(w', f) {
      CallStays(w, a, f);
      if InCall(w, f) {
        FlagsGrow(w, a, w.fibers[f].call);
      }
      forall g | InCall(w', g) && g != f
        ensures w'.fibers[g].call != w'.fibers[f].call
      {
        CallStays(w, a, g);
      }
    }
  }

  lemma TimerKept(w: World, a: Action, m: nat)
    requires Invariant(w) && Timed(w) && Enabled(w, a)
    ensures TimerKnown(Step(w, a), m)
  {
    hide Valid, SlotsOwned, Once, Counted, Step, Enabled, Owns, Followed;
    var w' := Step(w, a);
    if m in w'.timers {
      AimStays(w, a, m);
      FlagsGrow(w, a, w'.timers[m].call);
      forall f | InCall(w', f) && w'.fibers[f].call == w'.timers[m].call
        ensures w'.timers[m].fd == w'.fibers[f].fd && w'.timers[m].event == w'.fibers[f].event
      {
        CallStays(w, a, f);
      }
    }
  }

  lemma InCallAlive(w: World, f: nat)
    requires InCall(w, f)
    ensures Alive(w, w.fibers[f].call)
  {
  }

  /** Why a timeout comes to an end. */
  lemma OverWhy(w: World, a: Action, m: nat)
    requires Invariant(w) && Timed(w) && Enabled(w, a) && m in w.timers
    requires m in Step(w, a).timers && Step(w, a).timers[m].stage == Over && w.timers[m].stage != Over
    ensures || (a.DropTimer? && w.fibers[a.f].timer == Some(m) && HasTimer(w, a.f))
            || Flag(Step(w, a), w.timers[m].call) || !Alive(w, w.timers[m].call)
  {
    hide Invariant, Owns, Followed, Add, Cancel, CancelAll, Dispatch, Alive, Resumed, After, Registers;
    assert TimerKnown(w, m);
  }

  lemma OthersOwn(w: World, a: Action, f: nat)
    requires Invariant(w) && Timed(w) && Enabled(w, a) && HasTimer(Step(w, a), f) && !(ByFiber(a) && a.f == f)
    ensures Owns(Step(w, a), f)
  {
    hide Valid, SlotsOwned, Once, Counted, Step, Enabled, Followed, Alive, TimerKnown;
    var w' := Step(w, a);
    FiberStays(w, a, f);
    assert HasTimer(w, f) && InCall(w, f);
    var fib := w.fibers[f];
    if fib.timed {
      var m := fib.timer.value;
      FlagsGrow(w, a, fib.call);
      TimersStay(w, a, m);
      AimStays(w, a, m);
      InCallAlive(w, f);
      if w'.timers[m].stage == Over && w.timers[m].stage != Over {
        OverWhy(w, a, m);
      }
    }
  }

  lemma TimersStay(w: World, a: Action, m: nat)
    requires Invariant(w) && Enabled(w, a) && m in w.timers
    ensures m in Step(w, a).timers
  {
    hide Invariant, Add, Cancel, CancelAll, Dispatch, Alive, Resumed, After, Registers;
  }

  lemma ArmerOwns(w: World, a: Action)
    requires Invariant(w) && Enabled(w, a) && a.WouldBlock?
    ensures HasTimer(Step(w, a), a.f) && Owns(Step(w, a), a.f)
  {
    hide Invariant, Alive;
  }

  lemma HadTimer(w: World, a: Action)
    requires Invariant(w) && Enabled(w, a) && ByFiber(a) && !a.WouldBlock? && HasTimer(Step(w, a), a.f)
    ensures HasTimer(w, a.f)
  {
    hide Invariant, Add, Alive;
  }

  lemma KeepsOwning(w: World, a: Action)
    requires Invariant(w) && Enabled(w, a) && ByFiber(a) && !a.WouldBlock? && HasTimer(Step(w, a), a.f)
    requires HasTimer(w, a.f) && Owns(w, a.f)
    ensures Owns(Step(w, a), a.f)
  {
    hide Invariant, Add, Alive;
  }

  lemma StepperOwns(w: World, a: Action)
    requires Invariant(w) && Timed(w) && Enabled(w, a) && ByFiber(a) && HasTimer(Step(w, a), a.f)
    ensures Owns(Step(w, a), a.f)
  {
    hide Invariant, Step, Enabled, HasTimer, Owns, Followed, TimerKnown, CallKnown;
    if a.WouldBlock? {
      ArmerOwns(w, a);
    } else {
      HadTimer(w, a);
      KeepsOwning(w, a);
    }
  }

  lemma OwnsKept(w: World, a: Action, f: nat)
    requires Invariant(w) && Timed(w) && Enabled(w, a)
    ensures HasTimer(Step(w, a), f) ==> Owns(Step(w, a), f)
  {
    hide Invariant, Step, Enabled, HasTimer, Owns, Timed;
    InvariantTable(w);
    if HasTimer(Step(w, a), f) {
      if ByFiber(a) && a.f == f {
        StepperOwns(w, a);
      } else {
        OthersOwn(w, a, f);
      }
    }
  }

  lemma InvariantTable(w: World)
    requires Invariant(w)
    ensures Valid(w.table) && 32 <= |w.table.fds|
  {
  }

  /** A step puts no other fiber into a slot, and a cancellation that is not refused empties the slot it aims at. */
  lemma SlotsShrink(w: World, a: Action, f: nat)
    requires Invariant(w) && Enabled(w, a) && !(ByFiber(a) && a.f == f) && InSlot(Step(w, a), f)
    ensures InSlot(w, f)
    ensures a.CallbackCancels? && w.timers[a.m].fd == w.fibers[f].fd && w.timers[a.m].event == w.fibers[f].event ==> a.fails
  {
    hide Valid, SlotsOwned, Once, Counted, Add, Alive, SlotHolds, Ready.Actual, Become, Waiting;
    FiberStays(w, a, f);
    InvariantTable(w);
    match a
    case AddEvent(g, fails) =>
      AddHolds(w.table, w.fibers[g].fd, w.fibers[g].event, Wait(g), fails);
    case AddCallback(fd, event, cb, fails) =>
      AddHolds(w.table, fd, event, Task(0, Callback(cb)), fails);
    case CallbackCancels(m, fails) =>
      var t := w.timers[m];
      HoldsHas(w.table, t.fd, t.event, f);
      if Has(w.table, t.fd, t.event) {
        FiredHolds(w.table, t.fd, {t.event});
      }
    case Dispatched(fd, ready, fails) =>
      var actual := ready.Actual(w.table.fds[fd].events);
      if actual <= w.table.fds[fd].events {
        FiredHolds(w.table, fd, actual);
      }
    case Close(fd, fails) =>
      if fd < |w.table.fds| {
        FiredHolds(w.table, fd, w.table.fds[fd].events);
      }
    case _ =>
  }

  lemma HoldsHas(t: Table, fd: nat, event: Event, f: nat)
    ensures SlotHolds(t, fd, event, f) ==> Has(t, fd, event)
  {
  }

  /** Which flag a step sets, and which cancellations it ends. */
  lemma FlagWhy(w: World, a: Action, c: nat)
    requires Invariant(w) && Timed(w) && Enabled(w, a)
    ensures var w' := Step(w, a);
      && (Flag(w', c) && !Flag(w, c) ==> Cancelling(w', c))
      && (w.refused ==> w'.refused)
      && (a.CallbackCancels? && a.fails && Has(w.table, w.timers[a.m].fd, w.timers[a.m].event) ==> w'.refused)
  {
    hide Invariant, Owns, Followed, Add, Cancel, CancelAll, Dispatch, Alive, Resumed, After, Registers;
    InvariantTable(w);
    if a.CallbackFlags? {
      assert Stands(Step(w, a), a.m, Flagged);
    }
  }

  lemma CancellingStays(w: World, a: Action, m: nat)
    requires Invariant(w) && Enabled(w, a) && Stands(w, m, Flagged)
    ensures (a.CallbackCancels? && a.m == m) || Stands(Step(w, a), m, Flagged)
  {
    hide Invariant, Add, Cancel, CancelAll, Dispatch, Alive, Resumed, After, Registers;
  }

  lemma OthersFollowed(w: World, a: Action, f: nat)
    requires Invariant(w) && Timed(w) && Enabled(w, a) && Waits(Step(w, a), f) && !(ByFiber(a) && a.f == f)
    ensures Followed(Step(w, a), f)
  {
    hide Valid, SlotsOwned, Once, Counted, Step, Enabled, Owns, Alive, TimerKnown, CallKnown, InSlot;
    var w' := Step(w, a);
    FiberStays(w, a, f);
    assert Waits(w, f) && InCall(w, f) && CallKnown(w, f);
    var c := w.fibers[f].call;
    KnownCall(w, f);
    FlagsGrow(w, a, c);
    FlagWhy(w, a, c);
    if InSlot(w', f) && w'.fibers[f].clean && Flag(w', c) && Flag(w, c) {
      SlotsShrink(w, a, f);
      if !w.refused {
        var m :| Stands(w, m, Flagged) && w.timers[m].call == c;
        StillCancelling(w, a, f, m);
      }
    }
  }

  lemma KnownCall(w: World, f: nat)
    requires CallKnown(w, f) && InCall(w, f)
    ensures w.fibers[f].call in w.flags
  {
  }

  /** While the fiber stays in its slot, so does the cancellation that is under way. */
  lemma StillCancelling(w: World, a: Action, f: nat, m: nat)
    requires Invariant(w) && Timed(w) && Enabled(w, a) && InCall(w, f) && !(ByFiber(a) && a.f == f)
    requires Stands(w, m, Flagged) && w.timers[m].call == w.fibers[f].call && InSlot(w, f) && InSlot(Step(w, a), f)
    ensures Step(w, a).refused || Cancelling(Step(w, a), w.fibers[f].call)
  {
    hide Valid, SlotsOwned, Once, Counted, Step, Owns, Followed, Alive, CallKnown, InSlot;
    SlotsShrink(w, a, f);
    CancellingStays(w, a, m);
    assert TimerKnown(w, m);
    FlagWhy(w, a, w.fibers[f].call);
    if a.CallbackCancels? && a.m == m {
      InSlotHas(w, f);
    } else {
      AimStays(w, a, m);
    }
  }

  lemma InSlotHas(w: World, f: nat)
    requires InSlot(w, f)
    ensures f in w.fibers && Has(w.table, w.fibers[f].fd, w.fibers[f].event)
  {
  }

  lemma ParkerFollowed(w: World, a: Action)
    requires Invariant(w) && Enabled(w, a) && a.Park? && Followed(w, a.f)
    ensures Followed(Step(w, a), a.f)
  {
    hide Valid, SlotsOwned, Once, Counted, Alive, SlotHolds;
  }

  lemma RegistererFollowed(w: World, a: Action)
    requires Invariant(w) && Enabled(w, a) && a.AddEvent? && Waits(Step(w, a), a.f)
    ensures Followed(Step(w, a), a.f)
  {
    hide Valid, SlotsOwned, Once, Counted, Add, Alive, SlotHolds;
    InvariantTable(w);
  }

  lemma WhoWaits(w: World, a: Action)
    requires Invariant(w) && Enabled(w, a) && ByFiber(a) && Waits(Step(w, a), a.f)
    ensures a.AddEvent? || (a.Park? && Waits(w, a.f))
  {
    hide Invariant, Alive, Registers, Dropped;
  }

  lemma StepperFollowed(w: World, a: Action)
    requires Invariant(w) && Timed(w) && Enabled(w, a) && ByFiber(a) && Waits(Step(w, a), a.f)
    ensures Followed(Step(w, a), a.f)
  {
    hide Invariant, Step, Enabled, Waits, Followed, Owns, TimerKnown, CallKnown;
    WhoWaits(w, a);
    if a.Park? {
      ParkerFollowed(w, a);
    } else {
      RegistererFollowed(w, a);
    }
  }

  lemma FollowedKept(w: World, a: Action, f: nat)
    requires Invariant(w) && Timed(w) && Enabled(w, a)
    ensures Waits(Step(w, a), f) ==> Followed(Step(w, a), f)
  {
    hide Invariant, Step, Enabled, Waits, Followed, Timed;
    InvariantTable(w);
    if Waits(Step(w, a), f) {
      if ByFiber(a) && a.f == f {
        StepperFollowed(w, a);
      } else {
        OthersFollowed(w, a, f);
      }
    }
  }

  lemma TimedKeeps(w: World, a: Action)
    requires Invariant(w) && Timed(w) && Enabled(w, a)
    ensures Timed(Step(w, a))
  {
    hide Invariant, Step, Enabled, Followed, Owns, InCall, CallKnown, TimerKnown;
    InvariantTable(w);
    var w' := Step(w, a);
    forall f
      ensures CallKnown(w', f) && (HasTimer(w', f) ==> Owns(w', f)) && (Waits(w', f) ==> Followed(w', f))
    {
      CallKept(w, a, f);
      OwnsKept(w, a, f);
      FollowedKept(w, a, f);
    }
    forall m
      ensures TimerKnown(w', m)
    {
      TimerKept(w, a, m);
    }
  }

  lemma {:induction false} EveryRunTimed(w: World, actions: seq<Action>)
    requires Invariant(w) && Timed(w) && IsRun(w, actions)
    ensures Invariant(Run(w, actions)) && Timed(Run(w, actions))
    decreases |actions|
  {
    hide Invariant, Step, Enabled, Timed;
    InvariantTable(w);
    if actions != [] {
      StepKeeps(w, actions[0]);
      TimedKeeps(w, actions[0]);
      EveryRunTimed(Step(w, actions[0]), actions[1..]);
    }
  }

  // ----- timing out

  /** The steps of timeouts and their callbacks. */
  predicate ByCallback(a: Action) {
    a.Expire? || a.CallbackChecks? || a.CallbackFlags? || a.CallbackCancels?
  }

  predicate AimsAt(w: World, m: nat, f: nat) {
    m in w.timers && f in w.fibers && w.timers[m].fd == w.fibers[f].fd && w.timers[m].event == w.fibers[f].event
  }

  /** The timeout will still get to its cancellation. */
  ghost predicate Effective(w: World, m: nat) {
    m in w.timers &&
    match w.timers[m].stage
    case Pending => Alive(w, w.timers[m].call) && !Flag(w, w.timers[m].call)
    case Listed => Alive(w, w.timers[m].call) && !Flag(w, w.timers[m].call)
    case Checked => true
    case Flagged => true
    case Over => false
  }

  ghost predicate HasTimeout(w: World, f: nat) {
    exists m :: AimsAt(w, m, f) && Effective(w, m)
  }

  /** Timeouts and their callbacks alone can resume the fiber. */
  ghost predicate CanTimeOut(w: World, f: nat)
    requires Invariant(w)
  {
    exists actions :: IsRun(w, actions) && (forall a :: a in actions ==> ByCallback(a)) && f in Run(w, actions).queue
  }

  function Rank(stage: Stage): nat {
    match stage
    case Pending => 4
    case Listed => 3
    case Checked => 2
    case Flagged => 1
    case Over => 0
  }

  function NextOf(m: nat, stage: Stage): Action {
    match stage
    case Pending => Expire(m)
    case Listed => CallbackChecks(m)
    case Checked => CallbackFlags(m)
    case _ => CallbackCancels(m, false)
  }

  lemma AliveKept(w: World, m: nat, stage: Stage, c: nat)
    requires m in w.timers && Alive(w, c) && w.timers[m].stage != Checked && w.timers[m].stage != Flagged
    ensures Alive(Put(w, m, stage), c)
  {
    var w' := Put(w, m, stage);
    if f :| InCall(w, f) && w.fibers[f].call == c {
      assert InCall(w', f);
    } else {
      var m' :| m' in w.timers && w.timers[m'].call == c && w.timers[m'].stage in {Checked, Flagged};
      assert w'.timers[m'] == w.timers[m'];
    }
  }

  /** Each of its steps brings an effective timeout nearer, and its cancellation resumes the fiber it aims at. */
  lemma Nearer(w: World, m: nat, f: nat)
    requires Invariant(w) && Timed(w) && !w.aborted && InSlot(w, f) && AimsAt(w, m, f) && Effective(w, m)
    ensures var a := NextOf(m, w.timers[m].stage);
      && Enabled(w, a)
      && if w.timers[m].stage == Flagged then f in Step(w, a).queue
         else var w' := Step(w, a);
           !w'.aborted && InSlot(w', f) && AimsAt(w', m, f) && Effective(w', m)
           && Rank(w'.timers[m].stage) < Rank(w.timers[m].stage)
  {
    hide Valid, SlotsOwned, Counted, Owns, Followed, CallKnown, SlotHolds, Cancel, Alive;
    var a := NextOf(m, w.timers[m].stage);
    assert TimerKnown(w, m);
    if w.timers[m].stage == Flagged {
      FinallyFires(w, m, f);
    } else if w.timers[m].stage == Pending {
      AliveKept(w, m, Listed, w.timers[m].call);
    }
  }

  lemma FinallyFires(w: World, m: nat, f: nat)
    requires Invariant(w) && !w.aborted && InSlot(w, f) && AimsAt(w, m, f) && w.timers[m].stage == Flagged
    ensures f in Step(w, CallbackCancels(m, false)).queue
  {
    hide Valid, SlotHolds, Cancel;
    var a := CallbackCancels(m, false);
    StepKeeps(w, a);
    FiberStays(w, a, f);
    if InSlot(Step(w, a), f) {
      SlotsShrink(w, a, f);
    }
  }

  /** A callback's cancellation fails no assertion. */
  lemma CancelSafe(w: World, m: nat, fails: bool)
    requires Invariant(w) && Enabled(w, CallbackCancels(m, fails))
    ensures !Step(w, CallbackCancels(m, fails)).aborted
  {
    hide Valid, SlotsOwned, Once, Counted, Resumed;
  }

  lemma FlagStands(w: World, m: nat)
    requires Timed(w) && Stands(w, m, Flagged)
    ensures Flag(w, w.timers[m].call)
  {
    assert TimerKnown(w, m);
  }

  /** A step of an effective timeout moves no fiber and leaves its call, and what it aims at, alone. */
  lemma TimeoutStep(w: World, m: nat, f: nat)
    requires Invariant(w) && Timed(w) && !w.aborted && InSlot(w, f) && AimsAt(w, m, f) && Effective(w, m)
    ensures var a := NextOf(m, w.timers[m].stage);
      && Enabled(w, a) && !Step(w, a).aborted && Step(w, a).fibers == w.fibers
      && m in Step(w, a).timers && Step(w, a).timers[m].call == w.timers[m].call
      && (Stands(w, m, Flagged) ==> Flag(Step(w, a), w.timers[m].call))
  {
    hide Valid, SlotsOwned, Once, Counted, Step, Enabled, Timed, InSlot, Alive;
    InvariantTable(w);
    Nearer(w, m, f);
    var a := NextOf(m, w.timers[m].stage);
    FibersStay(w, a);
    TimersStay(w, a, m);
    AimStays(w, a, m);
    if Stands(w, m, Flagged) {
      CancelSafe(w, m, false);
      FlagStands(w, m);
      FlagsGrow(w, a, w.timers[m].call);
    }
  }

  /** An effective timeout sets its call's flag and resumes the fiber it aims at, by its own steps alone. */
  lemma {:induction false} TimesOut(w: World, m: nat, f: nat) returns (actions: seq<Action>)
    requires Invariant(w) && Timed(w) && !w.aborted && InSlot(w, f) && AimsAt(w, m, f) && Effective(w, m)
    ensures IsRun(w, actions) && (forall a :: a in actions ==> ByCallback(a)) && f in Run(w, actions).queue
    ensures var w' := Run(w, actions);
      !w'.aborted && w'.fibers == w.fibers && w.timers[m].call in w'.flags && w'.flags[w.timers[m].call]
    decreases Rank(w.timers[m].stage)
  {
    hide Invariant, Timed, Step, Enabled, InSlot, Alive;
    InvariantTable(w);
    Nearer(w, m, f);
    TimeoutStep(w, m, f);
    var a := NextOf(m, w.timers[m].stage);
    StepKeeps(w, a);
    TimedKeeps(w, a);
    var rest := [];
    if w.timers[m].stage != Flagged {
      rest := TimesOut(Step(w, a), m, f);
    }
    actions := [a] + rest;
    assert actions[1..] == rest;
  }

  /** A callback moves one timeout one stage on. */
  lemma StageMoves(w: World, a: Action, m: nat)
    requires Invariant(w) && Enabled(w, a) && ByCallback(a) && m in Step(w, a).timers
    ensures m in w.timers
    ensures var stage, stage' := w.timers[m].stage, Step(w, a).timers[m].stage;
      if a.m != m then stage' == stage
      else if a.Expire? then stage == Pending && stage' == Listed
      else if a.CallbackChecks? then
        var call := w.timers[m].call;
        stage == Listed && stage' == if Alive(w, call) && call in w.flags && !Flag(w, call) then Checked else Over
      else if a.CallbackFlags? then stage == Checked && stage' == Flagged
      else stage == Flagged && stage' == Over
  {
    hide Invariant, Cancel, Resumed, Alive;
  }

  /** Callbacks keep no call alive that was not. */
  lemma AliveBefore(w: World, a: Action, c: nat)
    requires Invariant(w) && Enabled(w, a) && ByCallback(a) && Alive(Step(w, a), c)
    ensures Alive(w, c)
  {
    hide Valid, SlotsOwned, Once, Counted, Step, Enabled;
    var w' := Step(w, a);
    if f :| InCall(w', f) && w'.fibers[f].call == c {
      FiberStays(w, a, f);
      assert InCall(w, f);
    } else {
      var m :| m in w'.timers && w'.timers[m].call == c && w'.timers[m].stage in {Checked, Flagged};
      StageMoves(w, a, m);
      AimStays(w, a, m);
    }
  }

  /** A fiber with no timeout left gains none from callbacks, and none of them resumes it. */
  lemma StuckStep(w: World, a: Action, f: nat)
    requires Invariant(w) && Timed(w) && Enabled(w, a) && ByCallback(a) && InSlot(w, f) && !HasTimeout(w, f)
    ensures InSlot(Step(w, a), f) && !HasTimeout(Step(w, a), f)
  {
    hide Valid, SlotsOwned, Once, Counted, Step, Enabled, Owns, Followed, CallKnown, TimerKnown, Alive, InSlot;
    var w' := Step(w, a);
    FiberStays(w, a, f);
    StaysInSlot(w, a, f);
    InSlotHas(w, f);
    forall m | AimsAt(w', m, f)
      ensures !Effective(w', m)
    {
      StageMoves(w, a, m);
      AimStays(w, a, m);
      assert AimsAt(w, m, f) && !Effective(w, m) && TimerKnown(w, m);
      KnownTimer(w, m);
      FlagsGrow(w, a, w.timers[m].call);
      if Alive(w', w.timers[m].call) {
        AliveBefore(w, a, w.timers[m].call);
      }
    }
  }

  lemma KnownTimer(w: World, m: nat)
    requires TimerKnown(w, m) && m in w.timers
    ensures w.timers[m].call in w.flags
  {
  }

  lemma StaysInSlot(w: World, a: Action, f: nat)
    requires Invariant(w) && Enabled(w, a) && ByCallback(a) && InSlot(w, f) && !HasTimeout(w, f)
    ensures InSlot(Step(w, a), f)
  {
    hide Valid, SlotsOwned, Once, Counted, Alive, SlotHolds, SlotsMatch, Become, Waiting;
    FiberStays(w, a, f);
    if a.CallbackCancels? {
      var t := w.timers[a.m];
      assert Effective(w, a.m);
      assert !AimsAt(w, a.m, f);
      if Has(w.table, t.fd, t.event) {
        FiredHolds(w.table, t.fd, {t.event});
      }
    }
  }

  lemma {:induction false} StaysStuck(w: World, actions: seq<Action>, f: nat)
    requires Invariant(w) && Timed(w) && IsRun(w, actions) && (forall a :: a in actions ==> ByCallback(a))
    requires InSlot(w, f) && !HasTimeout(w, f)
    ensures f !in Run(w, actions).queue
    decreases |actions|
  {
    hide Valid, SlotsOwned, Counted, Step, Enabled, Timed, HasTimeout;
    if actions != [] {
      InvariantTable(w);
      StepKeeps(w, actions[0]);
      TimedKeeps(w, actions[0]);
      StuckStep(w, actions[0], f);
      StaysStuck(Step(w, actions[0]), actions[1..], f);
    }
  }

  /** A fiber waiting in its slot can time out exactly when some timeout aimed at the slot is still effective. */
  lemma TimesOutExactly(w: World, f: nat)
    requires Invariant(w) && Timed(w) && !w.aborted && InSlot(w, f)
    ensures CanTimeOut(w, f) <==> HasTimeout(w, f)
  {
    hide Invariant, Timed, InSlot, Run, IsRun, Effective;
    if HasTimeout(w, f) {
      var m :| AimsAt(w, m, f) && Effective(w, m);
      var actions := TimesOut(w, m, f);
    } else if CanTimeOut(w, f) {
      var actions :| IsRun(w, actions) && (forall a :: a in actions ==> ByCallback(a)) && f in Run(w, actions).queue;
      StaysStuck(w, actions, f);
    }
  }

  /** A fiber with a finite timeout whose call's flag was unset when it registered has one left. */
  lemma CleanHasTimeout(w: World, f: nat)
    requires Invariant(w) && Timed(w) && !w.refused && InSlot(w, f) && Waits(w, f)
    requires w.fibers[f].timed && w.fibers[f].clean
    ensures HasTimeout(w, f)
  {
    hide Valid, SlotsOwned, Once, Counted, Alive, SlotHolds;
    var fib := w.fibers[f];
    assert HasTimer(w, f) && InCall(w, f);
    InCallAlive(w, f);
    var m := fib.timer.value;
    assert TimerKnown(w, m);
    if Flag(w, fib.call) {
      var m' :| Stands(w, m', Flagged) && w.timers[m'].call == fib.call;
      assert TimerKnown(w, m');
      assert AimsAt(w, m', f) && Effective(w, m');
    } else {
      assert AimsAt(w, m, f) && Effective(w, m);
    }
  }

  /**
   * When only its own call's timeouts aim at its slot, a fiber with a finite timeout can time out exactly when the
   * call's flag was unset as it registered, or a callback is between its look at the flag and its cancellation.
   */
  lemma TimesOutWhenClean(w: World, f: nat)
    requires Invariant(w) && Timed(w) && !w.aborted && !w.refused && InSlot(w, f) && w.fibers[f].timed
    requires forall m :: AimsAt(w, m, f) ==> w.timers[m].call == w.fibers[f].call
    ensures CanTimeOut(w, f) <==>
      w.fibers[f].clean || exists m :: AimsAt(w, m, f) && (Stands(w, m, Checked) || Stands(w, m, Flagged))
  {
    hide Valid, SlotsOwned, Once, Counted, Alive, SlotHolds, InSlot, CanTimeOut;
    TimesOutExactly(w, f);
    SlotWaits(w, f);
    if w.fibers[f].clean {
      CleanHasTimeout(w, f);
    } else if m :| AimsAt(w, m, f) && (Stands(w, m, Checked) || Stands(w, m, Flagged)) {
      assert Effective(w, m);
    } else {
      assert Followed(w, f);
    }
  }

  lemma {:induction false} Extend(w: World, actions: seq<Action>, a: Action)
    requires Invariant(w) && IsRun(w, actions) && !Run(w, actions).aborted
    requires Invariant(Run(w, actions)) ==> Enabled(Run(w, actions), a)
    ensures Invariant(Run(w, actions)) && IsRun(w, actions + [a])
    ensures Run(w, actions + [a]) == Step(Run(w, actions), a)
    decreases |actions|
  {
    hide Valid, SlotsOwned, Once, Counted, Step, Enabled;
    if actions == [] {
      assert (actions + [a])[1..] == [];
      StepKeeps(w, a);
    } else {
      StepKeeps(w, actions[0]);
      Extend(Step(w, actions[0]), actions[1..], a);
      assert (actions + [a])[1..] == actions[1..] + [a];
    }
  }

  /** The run is possible and ends in `w`. */
  ghost predicate Reaches(from: World, actions: seq<Action>, w: World) {
    Invariant(from) && IsRun(from, actions) && Run(from, actions) == w
  }

  lemma Then(actions: seq<Action>, w: World, a: Action, w': World) returns (next: seq<Action>)
    requires Reaches(NEW, actions, w) && !w.aborted
    requires Valid(w.table) ==> Enabled(w, a) && Step(w, a) == w'
    ensures next == actions + [a] && Reaches(NEW, next, w')
  {
    hide Valid, SlotsOwned, Once, Counted, Step, Enabled, Run, IsRun;
    EveryRun(NEW, actions);
    Extend(NEW, actions, a);
    next := actions + [a];
  }

  lemma Reached(actions: seq<Action>, w: World)
    requires Reaches(NEW, actions, w)
    ensures Invariant(NEW) && IsRun(NEW, actions) && Run(NEW, actions) == w && Invariant(w) && Timed(w)
  {
    hide Valid, Run, IsRun;
    NewInvariant();
    EveryRunTimed(NEW, actions);
  }

  /** One fiber, reading descriptor 5 with a finite timeout. */
  function Alone(table: Table, pc: Pc, timer: Option<nat>, flag: bool, timers: map<nat, Timeout>, regs: multiset<nat>): World {
    World(table, map[0 := Fib(pc, 0, 5, READ, true, timer, false)], map[0 := flag], timers, multiset{}, regs, multiset{},
          false, false)
  }

  function Timer(stage: Stage): map<nat, Timeout> {
    map[0 := Timeout(0, 5, READ, stage)]
  }

  lemma Arms() returns (s: seq<Action>)
    ensures s == [Spawn(0), Enter(0, 5, READ, true, 0), WouldBlock(0, 0)]
    ensures Reaches(NEW, s, Alone(START, Armed, Some(0), false, Timer(Pending), multiset{}))
  {
    hide Reaches, Valid, Add;
    NewReached();
    var w1 := NEW.(fibers := map[0 := Fib(Outside, 0, 0, READ, false, None, false)]);
    var w2 := Alone(START, Trying, None, false, map[], multiset{});
    s := Then([], NEW, Spawn(0), w1);
    s := Then(s, w1, Enter(0, 5, READ, true, 0), w2);
    s := Then(s, w2, WouldBlock(0, 0), Alone(START, Armed, Some(0), false, Timer(Pending), multiset{}));
  }

  lemma NewReached()
    ensures Reaches(NEW, [], NEW)
  {
    NewInvariant();
  }

  /** The timeout comes and goes before the event is registered. */
  lemma Misses(s: seq<Action>) returns (s': seq<Action>)
    requires Reaches(NEW, s, Alone(START, Armed, Some(0), false, Timer(Pending), multiset{}))
    ensures s' == s + [Expire(0), CallbackChecks(0), CallbackFlags(0), CallbackCancels(0, false)]
    ensures Reaches(NEW, s', Alone(START, Armed, Some(0), true, Timer(Over), multiset{}))
  {
    hide Reaches, Valid, Add;
    s' := Starts(s);
    var w1 := Alone(START, Armed, Some(0), false, Timer(Checked), multiset{});
    var w2 := Alone(START, Armed, Some(0), true, Timer(Flagged), multiset{});
    s' := Then(s', w1, CallbackFlags(0), w2);
    s' := Then(s', w2, CallbackCancels(0, false), Alone(START, Armed, Some(0), true, Timer(Over), multiset{}));
  }

  lemma Starts(s: seq<Action>) returns (s': seq<Action>)
    requires Reaches(NEW, s, Alone(START, Armed, Some(0), false, Timer(Pending), multiset{}))
    ensures s' == s + [Expire(0), CallbackChecks(0)]
    ensures Reaches(NEW, s', Alone(START, Armed, Some(0), false, Timer(Checked), multiset{}))
  {
    hide Reaches, Valid, Add, Alive;
    var w := Alone(START, Armed, Some(0), false, Timer(Listed), multiset{});
    s' := Then(s, Alone(START, Armed, Some(0), false, Timer(Pending), multiset{}), Expire(0), w);
    InCallAlive(w, 0);
    s' := Then(s', w, CallbackChecks(0), Alone(START, Armed, Some(0), false, Timer(Checked), multiset{}));
  }

  lemma Parks(s: seq<Action>) returns (s': seq<Action>, t: Table)
    requires Reaches(NEW, s, Alone(START, Armed, Some(0), true, Timer(Over), multiset{}))
    ensures s' == s + [AddEvent(0, false), Park(0)]
    ensures Reaches(NEW, s', Alone(t, Parked, Some(0), true, Timer(Over), multiset{0})) && SlotHolds(t, 5, READ, 0)
  {
    hide Reaches, Valid;
    t := Add(START, 5, READ, Wait(0), false).0;
    var w := Alone(t, Pc.Registered, Some(0), true, Timer(Over), multiset{0});
    s' := Then(s, Alone(START, Armed, Some(0), true, Timer(Over), multiset{}), AddEvent(0, false), w);
    s' := Then(s', w, Park(0), Alone(t, Parked, Some(0), true, Timer(Over), multiset{0}));
  }

  /**
   * The condition can fail: a timeout that expires between being armed and the event being registered finds nothing
   * to cancel; the fiber then registers and parks, with a finite timeout and no way to time out.
   */
  lemma TimeoutLost()
    ensures var actions :=
      [Spawn(0), Enter(0, 5, READ, true, 0), WouldBlock(0, 0), Expire(0), CallbackChecks(0), CallbackFlags(0),
       CallbackCancels(0, false), AddEvent(0, false), Park(0)];
      && Invariant(NEW) && IsRun(NEW, actions)
      && var w := Run(NEW, actions);
         Invariant(w) && At(w, 0, Parked) && w.fibers[0].timed && InSlot(w, 0) && !CanTimeOut(w, 0)
  {
    hide Valid, SlotsOwned, Once, Counted, Run, IsRun, Timed, SlotHolds, CanTimeOut;
    var s := Arms();
    s := Misses(s);
    var t;
    s, t := Parks(s);
    assert s == [Spawn(0), Enter(0, 5, READ, true, 0), WouldBlock(0, 0), Expire(0), CallbackChecks(0),
                 CallbackFlags(0), CallbackCancels(0, false), AddEvent(0, false), Park(0)];
    var w := Alone(t, Parked, Some(0), true, Timer(Over), multiset{0});
    Reached(s, w);
    TimesOutExactly(w, 0);
  }
}

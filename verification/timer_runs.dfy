/** What holds of the timer set over whole runs: exact expiry, one fate per timer, and no lost wake-up. */
module TimerRuns {
  import opened TimerSpec
  import opened Wrappers

  // ----- expiry

  /** Whatever address the sentinel gets, exactly the members with deadline at most `now` are taken. */
  lemma ExpiredExact(s: State, now: nat, sentinel: Addr)
    requires Valid(s) && !Rollover(s.previous, now)
    ensures var n := ExpiredCount(s, now, sentinel);
      && (forall j :: 0 <= j < n ==> s.all[s.queue[j]].next <= now)
      && (forall j :: n <= j < |s.queue| ==> s.all[s.queue[j]].next > now)
  {
    LowerBoundSplits(s.all, s.queue, now, sentinel);
    SkipDueExact(s, LowerBound(s.all, s.queue, now, sentinel), now);
  }

  lemma {:induction false} SkipDueExact(s: State, i: nat, now: nat)
    requires Valid(s) && i <= |s.queue|
    requires forall j :: 0 <= j < i ==> s.all[s.queue[j]].next <= now
    requires forall j :: i <= j < |s.queue| ==> s.all[s.queue[j]].next >= now
    ensures var n := SkipDue(s.all, s.queue, i, now);
      && (forall j :: 0 <= j < n ==> s.all[s.queue[j]].next <= now)
      && (forall j :: n <= j < |s.queue| ==> s.all[s.queue[j]].next > now)
    decreases |s.queue| - i
  {
    if i < |s.queue| && s.all[s.queue[i]].next == now {
      SkipDueExact(s, i + 1, now);
    } else if i < |s.queue| {
      forall j | i < j < |s.queue|
        ensures s.all[s.queue[j]].next > now
      {
        assert Before(s.all[s.queue[i]].next, s.queue[i], s.all[s.queue[j]].next, s.queue[j]);
      }
    }
  }

  /** A listed timer afterwards: recurring ones are due `now` plus their period, others are done. */
  function Settled(t: Timer, now: nat): Timer {
    if t.recurring then t.(next := now + t.ms) else t.(armed := false)
  }

  lemma {:induction false} SettleAllExact(s: State, expired: seq<Addr>, now: nat)
    requires CanSettle(s, expired)
    ensures var s' := SettleAll(s, expired, now);
      && Valid(s') && s'.all.Keys == s.all.Keys && s'.tickled == s.tickled && s'.previous == s.previous
      && (forall a :: a in s.all ==> s'.all[a] == if a in expired then Settled(s.all[a], now) else s.all[a])
    decreases |expired|
  {
    if expired != [] {
      var a, s1 := expired[0], Settle(s, expired[0], now);
      SettleOne(s, expired, now);
      SettleAllExact(s1, expired[1..], now);
      assert forall x :: x in expired <==> x == a || x in expired[1..];
      assert a !in expired[1..];
    }
  }

  /**
   * An expiry scan takes, in deadline order, exactly the timers due by `now` (all of them if the clock went
   * back), settles each, leaves every other timer alone, and keeps the set well-formed. It depends on the
   * sentinel's address for nothing. It dereferences the end of the set exactly when the set is empty and
   * the clock has not gone back.
   */
  lemma ListExpiredExact(s: State, now: nat, sentinel: Addr)
    requires Valid(s)
    ensures var r := ListExpired(s, now, sentinel); var back := Rollover(s.previous, now);
      && (r.EndDereferenced? <==> s.queue == [] && !back)
      && (r.Listed? ==>
            && r.expired <= s.queue && Valid(r.s) && r.s.all.Keys == s.all.Keys
            && r.s.tickled == s.tickled && r.s.previous == now
            && (forall a :: a in s.all ==> (a in r.expired <==> s.all[a].armed && (back || s.all[a].next <= now)))
            && (forall a :: a in s.all && a !in r.expired ==> r.s.all[a] == s.all[a])
            && (forall a :: a in s.all && a in r.expired ==> var t := s.all[a];
                  r.s.all[a] == Timer(t.recurring, t.ms, if t.recurring then now + t.ms else t.next, t.recurring)))
      && forall other :: ListExpired(s, now, other) == r
  {
    var n := ExpiredCount(s, now, sentinel);
    SplitKeeps(s, n, now);
    SettleAllExact(s.(previous := now, queue := s.queue[n..]), s.queue[..n], now);
    if !Rollover(s.previous, now) {
      ExpiredExact(s, now, sentinel);
      forall j | 0 < j < |s.queue|
        ensures s.all[s.queue[0]].next <= s.all[s.queue[j]].next
      {
        assert Before(s.all[s.queue[0]].next, s.queue[0], s.all[s.queue[j]].next, s.queue[j]);
      }
    }
    forall other
      ensures ListExpired(s, now, other) == ListExpired(s, now, sentinel)
    {
      SameCount(s, now, sentinel, other);
    }
    TakenMembers(s, n);
  }

  lemma TakenMembers(s: State, n: nat)
    requires Valid(s) && n <= |s.queue|
    ensures forall a :: a in s.queue[..n] <==> exists j :: 0 <= j < n && s.queue[j] == a
    ensures forall a :: a in s.queue && a !in s.queue[..n] ==> exists j :: n <= j < |s.queue| && s.queue[j] == a
  {
  }

  lemma SameCount(s: State, now: nat, sentinel: Addr, other: Addr)
    requires Valid(s)
    ensures ExpiredCount(s, now, sentinel) == ExpiredCount(s, now, other)
  {
    if !Rollover(s.previous, now) {
      ExpiredExact(s, now, sentinel);
      ExpiredExact(s, now, other);
      var n, m := ExpiredCount(s, now, sentinel), ExpiredCount(s, now, other);
      var afterN := if n < |s.queue| then s.all[s.queue[n]].next else 0;
      var afterM := if m < |s.queue| then s.all[s.queue[m]].next else 0;
    }
  }

  // ----- whole runs

  /**
   * A run's state: the timers, the clock, when `getNextTimer` was last asked and what it returned (`None` for an
   * empty set), how often each timer's callback has been listed, and which timers were cancelled.
   */
  datatype World = World(s: State, clock: nat, asked: nat, told: Option<nat>, listed: map<Addr, nat>, cancelled: set<Addr>)

  /** A new manager, made at clock reading `t`. */
  function Start(t: nat): World {
    World(EMPTY.(previous := t), t, t, None, map[], {})
  }

  /**
   * One lock-sized step of some thread. `Add` and `Scan` use a clock reading `at` taken before the lock;
   * the others read the clock inside it.
   */
  datatype Event =
    | Tick(ms: nat)
    | NewTimer(a: Addr, period: nat, recurring: bool, at: nat)
    | CancelTimer(a: Addr)
    | RefreshTimer(a: Addr)
    | ResetTimer(a: Addr, period: nat, fromNow: bool)
    | AskNext
    | Scan(at: nat, sentinel: Addr)

  /** The clock never runs backwards, and no scan's reading is more than an hour behind the last one's. */
  predicate Enabled(w: World, e: Event) {
    match e
    case Tick(_) => true
    case NewTimer(a, _, _, at) => a !in w.s.all && at <= w.clock
    case CancelTimer(a) => a in w.s.all
    case RefreshTimer(a) => a in w.s.all
    case ResetTimer(a, _, _) => a in w.s.all
    case AskNext => true
    case Scan(at, _) => at <= w.clock && !Rollover(w.s.previous, at) && w.s.queue != []
  }

  function Count(listed: map<Addr, nat>, a: Addr): nat {
    if a in listed then listed[a] else 0
  }

  function AddListed(listed: map<Addr, nat>, expired: seq<Addr>, all: set<Addr>): map<Addr, nat> {
    map a | a in all :: Count(listed, a) + if a in expired then 1 else 0
  }

  /** Deadlines never lie more than a period ahead of the clock. */
  ghost predicate Timely(s: State, clock: nat) {
    forall a :: a in s.all ==> s.all[a].ms <= s.all[a].next <= clock + s.all[a].ms
  }

  /**
   * Whoever sleeps as long as told wakes no later than the head is due, or was told not to sleep, unless a wake-up has
   * been requested since.
   */
  ghost predicate NoLostWakeUp(w: World)
    requires Known(w.s.all, w.s.queue)
  {
    || w.s.tickled || w.s.queue == []
    || (w.told.Some? && (w.told.value == 0 || w.asked + w.told.value <= w.s.all[w.s.queue[0]].next))
  }

  /** A one-shot timer is in exactly one of: pending, listed (once), cancelled. */
  ghost predicate OneFate(w: World, a: Addr)
    requires a in w.s.all
  {
    var pending, times, dropped := a in w.s.queue, Count(w.listed, a), a in w.cancelled;
    && (dropped ==> !pending)
    && (!w.s.all[a].recurring ==>
          || (pending && times == 0 && !dropped)
          || (!pending && times == 1 && !dropped)
          || (!pending && times == 0 && dropped))
    && (w.s.all[a].recurring ==> pending || dropped)
  }

  /** What every run keeps. (Bound to a name so that it is proved as one fact.) */
  ghost predicate Invariant(w: World) {
    var kept :=
      && Valid(w.s) && Timely(w.s, w.clock) && NoLostWakeUp(w)
      && w.listed.Keys <= w.s.all.Keys && w.cancelled <= w.s.all.Keys
      && forall a :: a in w.s.all ==> OneFate(w, a);
    kept
  }

  function Step(w: World, e: Event): World
    requires Valid(w.s) && Timely(w.s, w.clock) && Enabled(w, e)
  {
    match e
    case Tick(ms) => w.(clock := w.clock + ms)
    case NewTimer(a, period, recurring, at) => w.(s := Add(w.s, a, period, recurring, at))
    case CancelTimer(a) =>
      var r := Cancel(w.s, a);
      w.(s := r.0, cancelled := if r.1 then w.cancelled + {a} else w.cancelled)
    case RefreshTimer(a) => w.(s := Refresh(w.s, a, w.clock).0)
    case ResetTimer(a, period, fromNow) => w.(s := Reset(w.s, a, period, fromNow, w.clock).0)
    case AskNext =>
      var r := GetNext(w.s, w.clock);
      w.(s := r.0, asked := w.clock, told := r.1)
    case Scan(at, sentinel) =>
      ListExpiredExact(w.s, at, sentinel);
      var r := ListExpired(w.s, at, sentinel);
      w.(s := r.s, listed := AddListed(w.listed, r.expired, w.s.all.Keys))
  }

  // What each step does to the set, in the terms the invariant needs.

  /** No wake-up request is dropped, and a head that moved earlier has one. */
  ghost predicate Later(s: State, s': State)
    requires Known(s.all, s.queue) && Known(s'.all, s'.queue)
  {
    && (s.tickled ==> s'.tickled)
    && (s'.tickled || s'.queue == [] || (s.queue != [] && s.all[s.queue[0]].next <= s'.all[s'.queue[0]].next))
  }

  /** The new set is well-formed, its members are `members`, and only timer `a` has changed, to `t`. */
  ghost predicate Changed(s: State, s': State, a: Addr, t: Timer, members: set<Addr>)
    requires Known(s.all, s.queue) && Known(s'.all, s'.queue)
  {
    && Valid(s') && Later(s, s') && s'.all == s.all[a := t] && s'.previous == s.previous
    && (forall x :: x in s'.queue <==> x in members)
  }

  ghost function Members(s: State): set<Addr> {
    set x | x in s.queue
  }

  lemma AddChanges(s: State, a: Addr, ms: nat, recurring: bool, now: nat)
    requires Valid(s) && a !in s.all
    ensures var s' := Add(s, a, ms, recurring, now);
      Valid(s) && Known(s'.all, s'.queue) && Changed(s, s', a, Timer(recurring, ms, now + ms, true), Members(s) + {a})
  {
    InsertKeeps(s.all[a := Timer(recurring, ms, now + ms, true)], s.queue, a);
  }

  lemma CancelChanges(s: State, a: Addr)
    requires Valid(s) && a in s.all && s.all[a].armed
    ensures var s' := Cancel(s, a).0;
      Valid(s) && Known(s'.all, s'.queue) && Changed(s, s', a, s.all[a].(armed := false), Members(s) - {a})
  {
    FindExact(s, a);
    var i := Find(s.all, s.queue, a);
    RemoveKeeps(s.all, s.queue, i, s.all[a].(armed := false));
    HeadAfterRemove(s, i);
  }

  /** Without one of its members, the set's head is no earlier. */
  lemma HeadAfterRemove(s: State, i: nat)
    requires Valid(s) && i < |s.queue|
    ensures var q := Remove(s.queue, i);
      forall j :: 0 <= j < |q| ==> q[j] in s.all && s.all[s.queue[0]].next <= s.all[q[j]].next
  {
    var q := Remove(s.queue, i);
    forall j | 0 <= j < |q|
      ensures q[j] in s.all && s.all[s.queue[0]].next <= s.all[q[j]].next
    {
      var k := if j < i then j else j + 1;
      assert q[j] == s.queue[k];
    }
  }

  lemma HeadIsLeast(s: State, a: Addr)
    requires Valid(s) && a in s.all && s.all[a].armed
    ensures s.queue != [] && s.all[s.queue[0]].next <= s.all[a].next
  {
    var j :| 0 <= j < |s.queue| && s.queue[j] == a;
  }

  /** Re-inserting a member with another key: well-formed, and not earlier if the key is not. */
  lemma RekeyChanges(s: State, a: Addr, t: Timer)
    requires Valid(s) && a in s.all && s.all[a].armed && t.armed
    ensures var s' := Rekey(s, a, t);
      && Valid(s') && s'.all == s.all[a := t] && (forall x :: x in s'.queue <==> x in s.queue)
      && s.queue != [] && s'.queue != []
      && (s'.queue[0] == a || s.all[s.queue[0]].next <= s'.all[s'.queue[0]].next)
      && (s.all[a].next <= t.next ==> s.all[s.queue[0]].next <= s'.all[s'.queue[0]].next)
  {
    FindExact(s, a);
    var i := Find(s.all, s.queue, a);
    RemoveKeeps(s.all, s.queue, i, t);
    HeadAfterRemove(s, i);
    HeadIsLeast(s, a);
    InsertKeeps(s.all[a := t], Remove(s.queue, i), a);
  }

  /** A re-keyed set is a `Changed` one if a wake-up is requested whenever its head got earlier. */
  lemma RekeyedIsChanged(s: State, s1: State, s': State, a: Addr, t: Timer)
    requires Valid(s) && Valid(s1) && s1.all == s.all[a := t] && (forall x :: x in s1.queue <==> x in s.queue)
    requires s'.all == s1.all && s'.queue == s1.queue && s'.previous == s.previous && (s.tickled ==> s'.tickled)
    requires s.queue != [] && s1.queue != []
    requires s'.tickled || s.all[s.queue[0]].next <= s1.all[s1.queue[0]].next
    ensures Known(s'.all, s'.queue) && Changed(s, s', a, t, Members(s))
  {
  }

  lemma RekeyFrame(s: State, a: Addr, t: Timer)
    requires Valid(s) && a in s.all && s.all[a].armed
    ensures Rekey(s, a, t).tickled == s.tickled && Rekey(s, a, t).previous == s.previous
  {
  }

  /** `refresh` only moves a deadline later, so it needs no wake-up. */
  lemma LaterIsChanged(s: State, a: Addr, t: Timer)
    requires Valid(s) && a in s.all && s.all[a].armed && t.armed && s.all[a].next <= t.next
    ensures Known(s.all, s.queue) && Known(Rekey(s, a, t).all, Rekey(s, a, t).queue)
    ensures Changed(s, Rekey(s, a, t), a, t, Members(s))
  {
    RekeyChanges(s, a, t);
    RekeyFrame(s, a, t);
    var s' := Rekey(s, a, t);
    hide *;
    RekeyedIsChanged(s, s', s', a, t);
  }

  /** `reset` may move a deadline earlier, but then it goes through the notice. */
  lemma NoticedIsChanged(s: State, a: Addr, t: Timer)
    requires Valid(s) && a in s.all && s.all[a].armed && t.armed
    ensures var s' := Notice(Rekey(s, a, t), a);
      Known(s.all, s.queue) && Known(s'.all, s'.queue) && Changed(s, s', a, t, Members(s))
  {
    RekeyChanges(s, a, t);
    RekeyFrame(s, a, t);
    var s1 := Rekey(s, a, t);
    var s' := Notice(s1, a);
    assert s'.tickled || s.all[s.queue[0]].next <= s1.all[s1.queue[0]].next;
    assert s'.all == s1.all && s'.queue == s1.queue && s'.previous == s.previous;
    hide *;
    RekeyedIsChanged(s, s1, s', a, t);
  }

  // Every step keeps the invariant; one lemma per step.

  /** A step that changes one timer keeps the invariant if that timer's new state suits its fate. */
  lemma ChangeKeeps(w: World, w': World, a: Addr, t: Timer, members: set<Addr>)
    requires Invariant(w) && Known(w'.s.all, w'.s.queue) && Changed(w.s, w'.s, a, t, members)
    requires w'.clock == w.clock && w'.asked == w.asked && w'.told == w.told && w'.listed == w.listed
    requires t.ms <= t.next <= w.clock + t.ms
    requires w'.cancelled <= w'.s.all.Keys && OneFate(w', a)
    requires forall x :: x in w.s.all && x != a ==>
               (x in members <==> x in w.s.queue) && (x in w'.cancelled <==> x in w.cancelled)
    ensures Invariant(w')
  {
    forall x | x in w'.s.all
      ensures OneFate(w', x)
    {
      if x != a {
        assert OneFate(w, x);
      }
    }
  }

  lemma AddKeeps(w: World, a: Addr, period: nat, recurring: bool, at: nat)
    requires Invariant(w) && Enabled(w, NewTimer(a, period, recurring, at))
    ensures Invariant(Step(w, NewTimer(a, period, recurring, at)))
  {
    AddChanges(w.s, a, period, recurring, at);
    ChangeKeeps(w, Step(w, NewTimer(a, period, recurring, at)), a, Timer(recurring, period, at + period, true),
                Members(w.s) + {a});
  }

  lemma CancelKeeps(w: World, a: Addr)
    requires Invariant(w) && a in w.s.all
    ensures Invariant(Step(w, CancelTimer(a)))
    ensures w.s.all[a].armed ==> a in Step(w, CancelTimer(a)).cancelled
    ensures var s' := Step(w, CancelTimer(a)).s; a in s'.all && !s'.all[a].armed && a !in s'.queue
  {
    assert OneFate(w, a);
    if w.s.all[a].armed {
      CancelChanges(w.s, a);
      ChangeKeeps(w, Step(w, CancelTimer(a)), a, w.s.all[a].(armed := false), Members(w.s) - {a});
    }
  }

  /** A re-keyed timer, noticed or not, keeps its fate. */
  lemma RekeyKeeps(w: World, s': State, a: Addr, t: Timer)
    requires Invariant(w) && a in w.s.all && w.s.all[a].armed && t.armed && t.recurring == w.s.all[a].recurring
    requires t.ms <= t.next <= w.clock + t.ms
    requires Known(s'.all, s'.queue) && Changed(w.s, s', a, t, Members(w.s))
    ensures Invariant(w.(s := s'))
  {
    assert OneFate(w, a);
    ChangeKeeps(w, w.(s := s'), a, t, Members(w.s));
  }

  lemma RefreshKeeps(w: World, a: Addr)
    requires Invariant(w) && a in w.s.all
    ensures Invariant(Step(w, RefreshTimer(a)))
  {
    if w.s.all[a].armed {
      var t := w.s.all[a].(next := w.clock + w.s.all[a].ms);
      assert Step(w, RefreshTimer(a)) == w.(s := Rekey(w.s, a, t));
      InvariantParts(w);
      hide *;
      LaterIsChanged(w.s, a, t);
      RekeyKeeps(w, Rekey(w.s, a, t), a, t);
    }
  }

  lemma InvariantParts(w: World)
    requires Invariant(w)
    ensures Valid(w.s) && Known(w.s.all, w.s.queue)
    ensures forall a :: a in w.s.all ==> w.s.all[a].ms <= w.s.all[a].next <= w.clock + w.s.all[a].ms
  {
  }

  lemma NoticedKeeps(w: World, a: Addr, t: Timer)
    requires Invariant(w) && a in w.s.all && w.s.all[a].armed && t.armed && t.recurring == w.s.all[a].recurring
    requires t.ms <= t.next <= w.clock + t.ms
    ensures Invariant(w.(s := Notice(Rekey(w.s, a, t), a)))
  {
    InvariantParts(w);
    hide *;
    NoticedIsChanged(w.s, a, t);
    RekeyKeeps(w, Notice(Rekey(w.s, a, t), a), a, t);
  }

  lemma ResetKeeps(w: World, a: Addr, period: nat, fromNow: bool)
    requires Invariant(w) && a in w.s.all
    ensures Invariant(Step(w, ResetTimer(a, period, fromNow)))
  {
    var t := w.s.all[a];
    InvariantParts(w);
    if !(period == t.ms && !fromNow) && t.armed {
      NoticedKeeps(w, a, ResetTo(t, period, fromNow, w.clock));
    }
  }

  /** A scan by the current clock leaves no earlier head, and no deadline too far ahead. */
  lemma ScanTimes(w: World, at: nat, sentinel: Addr)
    requires Invariant(w) && Enabled(w, Scan(at, sentinel))
    ensures var r := ListExpired(w.s, at, sentinel);
      r.Listed? && Valid(r.s) && Timely(r.s, w.clock) && Later(w.s, r.s) && r.s.all.Keys == w.s.all.Keys
  {
    ListExpiredExact(w.s, at, sentinel);
    var r := ListExpired(w.s, at, sentinel);
    if r.s.queue != [] {
      var a := r.s.queue[0];
      assert r.s.all[a].armed;
      HeadIsLeast(w.s, a);
    }
  }

  lemma ScanFate(w: World, at: nat, sentinel: Addr, a: Addr)
    requires Invariant(w) && Enabled(w, Scan(at, sentinel)) && a in w.s.all
    ensures a in Step(w, Scan(at, sentinel)).s.all && OneFate(Step(w, Scan(at, sentinel)), a)
  {
    ListExpiredExact(w.s, at, sentinel);
    assert OneFate(w, a);
  }

  lemma ScanKeeps(w: World, at: nat, sentinel: Addr)
    requires Invariant(w) && Enabled(w, Scan(at, sentinel))
    ensures Invariant(Step(w, Scan(at, sentinel)))
  {
    ScanTimes(w, at, sentinel);
    forall a | a in w.s.all
      ensures OneFate(Step(w, Scan(at, sentinel)), a)
    {
      ScanFate(w, at, sentinel, a);
    }
  }

  lemma StepKeeps(w: World, e: Event)
    requires Invariant(w) && Enabled(w, e)
    ensures Invariant(Step(w, e))
  {
    match e
    case Tick(_) =>
    case NewTimer(a, period, recurring, at) => AddKeeps(w, a, period, recurring, at);
    case CancelTimer(a) => CancelKeeps(w, a);
    case RefreshTimer(a) => RefreshKeeps(w, a);
    case ResetTimer(a, period, fromNow) => ResetKeeps(w, a, period, fromNow);
    case AskNext =>
    case Scan(at, sentinel) => ScanKeeps(w, at, sentinel);
  }

  /** `trace` is the sequence of worlds a run of `events` goes through. */
  ghost predicate IsRun(trace: seq<World>, events: seq<Event>) {
    && |trace| == |events| + 1 && trace[0] == Start(trace[0].clock)
    && forall i :: 0 <= i < |events| ==>
         && Valid(trace[i].s) && Timely(trace[i].s, trace[i].clock) && Enabled(trace[i], events[i])
         && trace[i + 1] == Step(trace[i], events[i])
  }

  /** Every state of every run keeps the invariant. */
  lemma {:induction false} EveryRun(trace: seq<World>, events: seq<Event>, i: nat)
    requires IsRun(trace, events) && i < |trace|
    ensures Invariant(trace[i])
  {
    if 0 < i {
      EveryRun(trace, events, i - 1);
      StepKeeps(trace[i - 1], events[i - 1]);
    }
  }

  /** A cancelled timer's callback is never listed again, recurring or not. */
  lemma {:induction false} CancelIsFinal(trace: seq<World>, events: seq<Event>, i: nat, j: nat, a: Addr)
    requires IsRun(trace, events) && i <= j < |trace| && a in trace[i].cancelled
    ensures a in trace[j].cancelled && Count(trace[j].listed, a) == Count(trace[i].listed, a)
  {
    if i < j {
      CancelIsFinal(trace, events, i, j - 1, a);
      EveryRun(trace, events, j - 1);
      var w, e := trace[j - 1], events[j - 1];
      assert OneFate(w, a);
      if e.Scan? {
        ListExpiredExact(w.s, e.at, e.sentinel);
      }
    }
  }

  /**
   * The emptiness check and the scan take the lock separately. Two threads can both pass the check with one
   * expired timer left; after the first one's scan the second dereferences the end of an empty set.
   */
  lemma SecondScanRaces(t: nat)
    ensures var w := Step(Start(t), NewTimer(1, 0, false, t));
      && Enabled(Start(t), NewTimer(1, 0, false, t)) && Invariant(w) && w.s.queue != []
      && Enabled(w, Scan(t, 0))
      && Valid(Step(w, Scan(t, 0)).s) && ListExpired(Step(w, Scan(t, 0)).s, t, 0) == EndDereferenced
  {
    AddKeeps(Start(t), 1, 0, false, t);
    var w := Step(Start(t), NewTimer(1, 0, false, t));
    assert w.s.queue == [1];
    assert 1 in w.s.queue;
    ScanKeeps(w, t, 0);
    ListExpiredExact(w.s, t, 0);
    var s := Step(w, Scan(t, 0)).s;
    ListExpiredExact(s, 0, 0);
  }
}

/** What each call of the timer manager does, said of timers and deadlines alone. */
module TimerLaws {
  import opened TimerSpec
  import opened TimerRuns
  import opened Wrappers

  /** No timer with a callback is due earlier, nor at the same time at a smaller address. */
  predicate Least(all: map<Addr, Timer>, a: Addr) {
    && a in all && all[a].armed
    && forall x :: x in all && all[x].armed && x != a ==> all[a].next < all[x].next || (all[a].next == all[x].next && a < x)
  }

  /** The head of the set is the least timer. */
  lemma HeadLeast(s: State, a: Addr)
    requires Valid(s)
    ensures s.queue != [] && s.queue[0] == a <==> Least(s.all, a)
  {
    if s.queue != [] && s.queue[0] == a {
      forall x | x in s.all && s.all[x].armed && x != a
        ensures s.all[a].next < s.all[x].next || (s.all[a].next == s.all[x].next && a < x)
      {
        var j :| 0 <= j < |s.queue| && s.queue[j] == x;
        assert Before(s.all[s.queue[0]].next, s.queue[0], s.all[s.queue[j]].next, s.queue[j]);
      }
    }
    if Least(s.all, a) {
      var j :| 0 <= j < |s.queue| && s.queue[j] == a;
      if j != 0 {
        assert Before(s.all[s.queue[0]].next, s.queue[0], s.all[s.queue[j]].next, s.queue[j]);
      }
    }
  }

  /**
   * `addTimer`: the new timer is due its period after the clock's reading, and a wake-up is requested exactly if it
   * is now the least.
   */
  lemma Adds(s: State, a: Addr, ms: nat, recurring: bool, now: nat)
    requires Valid(s) && a !in s.all
    ensures var s' := Add(s, a, ms, recurring, now);
      && Valid(s') && s'.previous == s.previous
      && s'.all == s.all[a := Timer(recurring, ms, now + ms, true)]
      && (s'.tickled <==> s.tickled || Least(s'.all, a))
  {
    AddChanges(s, a, ms, recurring, now);
    HeadLeast(Add(s, a, ms, recurring, now), a);
  }

  /** `cancel`: exactly a timer with a callback loses it. */
  lemma Cancels(s: State, a: Addr)
    requires Valid(s) && a in s.all
    ensures var (s', dropped) := Cancel(s, a); var t := s.all[a];
      && Valid(s') && s'.previous == s.previous && s'.tickled == s.tickled
      && (dropped <==> t.armed)
      && s'.all == s.all[a := Timer(t.recurring, t.ms, t.next, false)]
  {
    if s.all[a].armed {
      CancelChanges(s, a);
    } else {
      assert s.all[a := s.all[a]] == s.all;
    }
  }

  /** `refresh`: exactly a timer with a callback is now due its period from now, and no wake-up is requested. */
  lemma Refreshes(s: State, a: Addr, now: nat)
    requires Valid(s) && a in s.all
    ensures var (s', done) := Refresh(s, a, now); var t := s.all[a];
      && Valid(s') && s'.previous == s.previous && s'.tickled == s.tickled
      && (done <==> t.armed)
      && s'.all == s.all[a := Timer(t.recurring, t.ms, if t.armed then now + t.ms else t.next, t.armed)]
  {
    RefreshIs(s, a, now);
    SameTimer(s.all, a);
    var t := s.all[a];
    hide *;
    if t.armed {
      RekeyChanges(s, a, Timer(t.recurring, t.ms, now + t.ms, true));
      RekeyFrame(s, a, Timer(t.recurring, t.ms, now + t.ms, true));
    }
  }

  lemma RefreshIs(s: State, a: Addr, now: nat)
    requires Valid(s) && a in s.all
    ensures var t := s.all[a];
      Refresh(s, a, now) == if t.armed then (Rekey(s, a, Timer(t.recurring, t.ms, now + t.ms, true)), true) else (s, false)
  {
    hide Rekey, Valid;
  }

  lemma SameTimer(all: map<Addr, Timer>, a: Addr)
    requires a in all
    ensures all[a := Timer(all[a].recurring, all[a].ms, all[a].next, all[a].armed)] == all
  {
  }

  /**
   * `reset`: nothing to do if the period is the same and is not to be counted from now; otherwise exactly a timer with
   * a callback gets the new period, from now or from where the old one began, and a wake-up is requested exactly if
   * the timer is now the least.
   */
  lemma Resets(s: State, a: Addr, ms: nat, fromNow: bool, now: nat)
    requires Valid(s) && a in s.all && s.all[a].ms <= s.all[a].next
    ensures var (s', done) := Reset(s, a, ms, fromNow, now); var t := s.all[a]; var same := ms == t.ms && !fromNow;
      && Valid(s') && s'.previous == s.previous
      && (done <==> same || t.armed)
      && (if same || !t.armed then s' == s
          else s'.all == s.all[a := Timer(t.recurring, ms, (if fromNow then now else t.next - t.ms) + ms, true)]
               && (s'.tickled <==> s.tickled || Least(s'.all, a)))
  {
    var t := s.all[a];
    if t.armed && !(ms == t.ms && !fromNow) {
      var t' := ResetTo(t, ms, fromNow, now);
      RekeyChanges(s, a, t');
      RekeyFrame(s, a, t');
      HeadLeast(Rekey(s, a, t'), a);
    }
  }

  /**
   * The time to sleep: none given if no timer has a callback, 0 exactly if one is due, and otherwise the time to the
   * earliest deadline.
   */
  ghost predicate TimeLeft(all: map<Addr, Timer>, now: nat, wait: Option<nat>) {
    && (wait == None <==> forall a :: a in all ==> !all[a].armed)
    && (wait == Some(0) <==> exists a :: a in all && all[a].armed && all[a].next <= now)
    && forall d: nat :: 0 < d ==>
         (wait == Some(d) <==>
           && (forall a :: a in all && all[a].armed ==> now + d <= all[a].next)
           && (exists a :: a in all && all[a].armed && all[a].next == now + d))
  }

  /** `getNextTimer` gives the time to sleep, forgets the wake-up request and changes nothing else. */
  lemma Reports(s: State, now: nat)
    requires Valid(s)
    ensures var (s', wait) := GetNext(s, now); s' == s.(tickled := false) && TimeLeft(s.all, now, wait)
  {
    if s.queue == [] {
      assert forall a :: a in s.all ==> !s.all[a].armed;
    } else {
      var head := s.queue[0];
      assert head in s.queue;
      HeadLeast(s, head);
    }
  }

  /** A clock that went back by more than an hour, 3,600,000 milliseconds; the difference wraps at 64 bits. */
  lemma RollsOver(previous: nat, now: nat)
    requires previous < 0x1_0000_0000_0000_0000 && now < 0x1_0000_0000_0000_0000
    ensures Rollover(previous, now) <==> now < previous && now < (previous - 3_600_000) % 0x1_0000_0000_0000_0000
  {
  }

  /** The timers an expiry scan lists come in the order of their deadlines, and for equal ones of their addresses. */
  lemma ListsInOrder(s: State, now: nat, sentinel: Addr)
    requires Valid(s)
    ensures var r := ListExpired(s, now, sentinel);
      r.Listed? ==> forall i, j :: 0 <= i < j < |r.expired| ==>
        && r.expired[i] in s.all && r.expired[j] in s.all
        && var x, y := s.all[r.expired[i]].next, s.all[r.expired[j]].next;
           x < y || (x == y && r.expired[i] < r.expired[j])
  {
    ListExpiredExact(s, now, sentinel);
    var r := ListExpired(s, now, sentinel);
    if r.Listed? {
      forall i, j | 0 <= i < j < |r.expired|
        ensures r.expired[i] in s.all && r.expired[j] in s.all
        ensures var x, y := s.all[r.expired[i]].next, s.all[r.expired[j]].next;
          x < y || (x == y && r.expired[i] < r.expired[j])
      {
        assert r.expired[i] == s.queue[i] && r.expired[j] == s.queue[j];
        assert Before(s.all[s.queue[i]].next, s.queue[i], s.all[s.queue[j]].next, s.queue[j]);
      }
    }
  }

  // ----- runs

  /** Which steps can come: a clock reading is not ahead of the clock, and a scan's not an hour behind the last one. */
  lemma Comes(w: World, e: Event)
    ensures Enabled(w, e) <==>
      match e
      case Tick(_) => true
      case NewTimer(a, _, _, at) => a !in w.s.all && at <= w.clock
      case CancelTimer(a) => a in w.s.all
      case RefreshTimer(a) => a in w.s.all
      case ResetTimer(a, _, _) => a in w.s.all
      case AskNext => true
      case Scan(at, _) => at <= w.clock && !Rollover(w.s.previous, at) && w.s.queue != []
  {
  }

  lemma Kept(w: World)
    requires Invariant(w)
    ensures Valid(w.s) && Timely(w.s, w.clock)
    ensures w.s.queue != [] <==> exists a :: a in w.s.all && w.s.all[a].armed
  {
    if w.s.queue != [] {
      assert w.s.queue[0] in w.s.queue;
    }
  }

  /** A scan lists each timer that is due once more: a recurring one is due its period later, any other is over. */
  lemma Scans(w: World, at: nat, sentinel: Addr, a: Addr)
    requires Invariant(w) && Enabled(w, Scan(at, sentinel)) && a in w.s.all
    ensures Valid(w.s) && Timely(w.s, w.clock)
    ensures var w' := Step(w, Scan(at, sentinel)); var t := w.s.all[a]; var due := t.armed && t.next <= at;
      && w'.clock == w.clock && w'.s.all.Keys == w.s.all.Keys && a in w'.listed
      && w'.listed[a] == (if a in w.listed then w.listed[a] else 0) + (if due then 1 else 0)
      && w'.s.all[a] == if !due then t else Timer(t.recurring, t.ms, if t.recurring then at + t.ms else t.next, t.recurring)
  {
    Kept(w);
    ListExpiredExact(w.s, at, sentinel);
  }

  /** A timer fires: from any state of a run, let the clock reach its deadline and a thread scan, and it is listed. */
  lemma Fires(w: World, a: Addr, ms: nat, sentinel: Addr)
    requires Invariant(w) && a in w.s.all && w.s.all[a].armed && w.s.all[a].next <= w.clock + ms
    requires !Rollover(w.s.previous, w.clock + ms)
    ensures Valid(w.s) && Timely(w.s, w.clock) && Enabled(w, Tick(ms))
    ensures var w1 := Step(w, Tick(ms));
      && Invariant(w1) && Valid(w1.s) && Timely(w1.s, w1.clock) && Enabled(w1, Scan(w.clock + ms, sentinel))
      && var w2 := Step(w1, Scan(w.clock + ms, sentinel));
         a in w2.listed && w2.listed[a] == (if a in w.listed then w.listed[a] else 0) + 1
  {
    hide Timely, NoLostWakeUp, OneFate, Valid, Rollover;
    Kept(w);
    StepKeeps(w, Tick(ms));
    var w1 := Step(w, Tick(ms));
    Kept(w1);
    Scans(w1, w.clock + ms, sentinel, a);
  }

  /** Asking gives what `Reports` says, for the clock's reading, and is remembered with it. */
  lemma Asks(w: World)
    requires Invariant(w)
    ensures Valid(w.s) && Timely(w.s, w.clock) && Enabled(w, AskNext)
    ensures var w' := Step(w, AskNext);
      w'.clock == w'.asked == w.clock && w'.s == w.s.(tickled := false) && TimeLeft(w.s.all, w.clock, w'.told)
  {
    Kept(w);
    Reports(w.s, w.clock);
  }

  // The other steps change the timer they are about as its call says, and no other.

  lemma TimerMade(w: World, a: Addr, period: nat, recurring: bool, at: nat)
    requires Invariant(w) && Enabled(w, NewTimer(a, period, recurring, at))
    ensures Valid(w.s) && Timely(w.s, w.clock)
    ensures Step(w, NewTimer(a, period, recurring, at)).s.all == w.s.all[a := Timer(recurring, period, at + period, true)]
  {
    Kept(w);
    hide Add, Valid, NoLostWakeUp, OneFate, Known, Sorted, Invariant, Timely;
    Adds(w.s, a, period, recurring, at);
  }

  lemma TimerCancelled(w: World, a: Addr)
    requires Invariant(w) && Enabled(w, CancelTimer(a))
    ensures Valid(w.s) && Timely(w.s, w.clock)
    ensures var w' := Step(w, CancelTimer(a)); var t := w.s.all[a];
      && w'.s.all == w.s.all[a := Timer(t.recurring, t.ms, t.next, false)]
      && w'.cancelled == if t.armed then w.cancelled + {a} else w.cancelled
  {
    Kept(w);
    hide Cancel, Valid, NoLostWakeUp, OneFate, Known, Sorted, Invariant, Timely;
    Cancels(w.s, a);
  }

  lemma TimerRefreshed(w: World, a: Addr)
    requires Invariant(w) && Enabled(w, RefreshTimer(a))
    ensures Valid(w.s) && Timely(w.s, w.clock)
    ensures var t := w.s.all[a];
      Step(w, RefreshTimer(a)).s.all
        == w.s.all[a := Timer(t.recurring, t.ms, if t.armed then w.clock + t.ms else t.next, t.armed)]
  {
    Kept(w);
    hide Refresh, Valid, NoLostWakeUp, OneFate, Known, Sorted, Invariant, Timely;
    Refreshes(w.s, a, w.clock);
  }

  lemma PeriodBefore(s: State, clock: nat, a: Addr)
    requires Timely(s, clock) && a in s.all
    ensures s.all[a].ms <= s.all[a].next
  {
  }

  lemma ResetIs(w: World, a: Addr, period: nat, fromNow: bool)
    requires Valid(w.s) && Timely(w.s, w.clock) && Enabled(w, ResetTimer(a, period, fromNow))
    ensures a in w.s.all && Step(w, ResetTimer(a, period, fromNow)).s == Reset(w.s, a, period, fromNow, w.clock).0
  {
    hide Reset, Valid, Timely;
  }

  lemma TimerReset(w: World, a: Addr, period: nat, fromNow: bool)
    requires Invariant(w) && Enabled(w, ResetTimer(a, period, fromNow))
    ensures Valid(w.s) && Timely(w.s, w.clock)
    ensures var s' := Step(w, ResetTimer(a, period, fromNow)).s; var t := w.s.all[a];
      if !t.armed || (period == t.ms && !fromNow) then s' == w.s
      else s'.all == w.s.all[a := Timer(t.recurring, period, (if fromNow then w.clock else t.next - t.ms) + period, true)]
  {
    hide *;
    Kept(w);
    ResetIs(w, a, period, fromNow);
    PeriodBefore(w.s, w.clock, a);
    Resets(w.s, a, period, fromNow, w.clock);
  }

  /** A step but for a scan and a question leaves alone what has been told and listed; only the clock's moves the clock. */
  lemma Remembers(w: World, e: Event)
    requires Invariant(w) && Enabled(w, e) && !e.Scan? && !e.AskNext?
    ensures Valid(w.s) && Timely(w.s, w.clock)
    ensures var w' := Step(w, e);
      && w'.asked == w.asked && w'.told == w.told && w'.listed == w.listed
      && w'.clock == (if e.Tick? then w.clock + e.ms else w.clock)
      && (!e.CancelTimer? ==> w'.cancelled == w.cancelled) && (e.Tick? ==> w'.s == w.s)
  {
    Kept(w);
    hide Add, Cancel, Refresh, Reset, Valid, NoLostWakeUp, OneFate, Known, Sorted, Invariant, Timely;
  }

  /** A new manager has no timers, and has last looked at the clock when it was made. */
  lemma Begins(t: nat)
    ensures var w := Start(t);
      && Invariant(w) && w.clock == t && w.s.previous == t && w.s.all == map[] && w.listed == map[] && w.cancelled == {}
  {
  }
}

/**
 * The timers and their manager as objects updated in place. Each method is one lock-sized step and is proved
 * to do to the abstract state what `TimerSpec` says.
 */
module Timers {
  import L = TimerLaws
  import T = TimerSpec
  import R = TimerRuns
  import opened Wrappers

  type Addr = T.Addr
  type Callback = nat

  const WORD64 := 0x1_0000_0000_0000_0000

  class Timer {
    const addr: Addr
    const recurring: bool
    var ms: nat
    var next: nat
    var cb: Option<Callback>

    constructor (addr: Addr, ms: nat, cb: Callback, recurring: bool, now: nat)
      ensures this.addr == addr && this.recurring == recurring
      ensures this.ms == ms && next == now + ms && this.cb == Some(cb)
    {
      this.addr, this.ms, this.recurring := addr, ms, recurring;
      this.cb := Some(cb);
      next := now + ms;
    }

    /** The scan's sentinel, which only carries a clock reading. */
    constructor At(addr: Addr, next: nat)
      ensures this.addr == addr && this.next == next
    {
      this.addr, this.next, ms, recurring, cb := addr, next, 0, false, None;
    }

    ghost function Value(): T.Timer
      reads this
    {
      T.Timer(recurring, ms, next, cb.Some?)
    }
  }

  /** The set's comparator on two timers. */
  predicate Before(lhs: Timer, rhs: Timer)
    reads lhs, rhs
  {
    if lhs.next < rhs.next then true
    else if rhs.next < lhs.next then false
    else lhs.addr < rhs.addr
  }

  /** The members' addresses, in order. */
  ghost function Addrs(ts: seq<Timer>): (q: seq<Addr>)
    ensures |q| == |ts| && forall i :: 0 <= i < |ts| ==> q[i] == ts[i].addr
  {
    if ts == [] then [] else [ts[0].addr] + Addrs(ts[1..])
  }

  class TimerManager {
    var timers: seq<Timer>  // the ordered set, in order
    var tickled: bool
    var previousTime: nat

    ghost var all: map<Addr, Timer>  // every timer made by this manager

    constructor (now: nat)
      ensures Valid() && Abs() == T.EMPTY.(previous := now) && all == map[]
    {
      timers, tickled, previousTime, all := [], false, now, map[];
      new;
      assert Values() == map[];
      assert Queue() == [];
    }

    ghost function Values(): (m: map<Addr, T.Timer>)
      reads `all, all.Values
    {
      map a | a in all :: all[a].Value()
    }

    ghost function Queue(): (q: seq<Addr>)
      reads `timers
    {
      Addrs(timers)
    }

    ghost function Abs(): T.State
      reads this, all.Values
    {
      T.State(Values(), Queue(), tickled, previousTime)
    }

    /** Every member is a known timer and addresses name timers. */
    ghost predicate Linked()
      reads `all, `timers
    {
      var linked :=
        && (forall a :: a in all ==> all[a].addr == a)
        && (forall i :: 0 <= i < |timers| ==> timers[i].addr in all && all[timers[i].addr] == timers[i]);
      linked
    }

    ghost predicate Valid()
      reads this, all.Values
    {
      var valid := Linked() && T.Valid(Abs());
      valid
    }

    lemma Known()
      requires Linked()
      ensures T.Known(Values(), Queue())
    {
    }

    /** `lower_bound` with a given timer as the key. */
    method LowerBound(t: Timer) returns (i: nat)
      requires Linked()
      ensures T.Known(Values(), Queue()) && i == T.LowerBound(Values(), Queue(), t.next, t.addr)
    {
      Known();
      i := 0;
      ghost var q, vs := Queue(), Values();
      assert q[0..] == q;
      while i < |timers| && Before(timers[i], t)
        invariant i <= |timers| && T.Known(vs, q[i..])
        invariant T.LowerBound(vs, q, t.next, t.addr) == i + T.LowerBound(vs, q[i..], t.next, t.addr)
      {
        assert q[i..][0] == timers[i].addr && q[i..][1..] == q[i + 1..];
        i := i + 1;
      }
      assert i < |timers| ==> q[i..][0] == timers[i].addr;
    }

    /** `find`, by key. */
    method Find(t: Timer) returns (i: nat)
      requires Linked() && Has(t)
      ensures T.Known(Values(), Queue()) && i == T.Find(Values(), Queue(), t.addr)
    {
      i := LowerBound(t);
      assert i < |timers| ==> Queue()[i] == timers[i].addr;
      if i < |timers| && Before(t, timers[i]) {
        i := |timers|;
      }
    }

    /** `insert`: nothing if an equivalent key is already there. */
    method Insert(t: Timer)
      requires Linked() && Has(t)
      modifies `timers
      ensures Linked() && T.Known(Values(), old(Queue())) && Queue() == T.Insert(Values(), old(Queue()), t.addr)
    {
      Known();
      InsertsAt(t);
      var i := LowerBound(t);
      if i == |timers| || Before(t, timers[i]) {
        PutAt(i, t);
      }
    }

    method PutAt(i: nat, t: Timer)
      requires Linked() && Has(t) && i <= |timers|
      modifies `timers
      ensures Linked() && Queue() == old(Queue())[..i] + [t.addr] + old(Queue())[i..]
    {
      timers := timers[..i] + [t] + timers[i..];
      assert Queue() == old(Queue())[..i] + [t.addr] + old(Queue())[i..];
    }

    /** An equivalent key is the timer itself. */
    lemma InsertsAt(t: Timer)
      requires Linked() && Has(t) && T.Known(Values(), Queue())
      ensures var i := T.LowerBound(Values(), Queue(), t.next, t.addr);
        T.Insert(Values(), Queue(), t.addr)
          == if i == |timers| || Before(t, timers[i]) then Queue()[..i] + [t.addr] + Queue()[i..] else Queue()
    {
      var i := T.LowerBound(Values(), Queue(), t.next, t.addr);
      assert i < |timers| ==> Queue()[i] == timers[i].addr;
    }

    method Erase(i: nat)
      requires Linked() && i < |timers|
      modifies `timers
      ensures Linked() && timers == T.Remove(old(timers), i) && Queue() == T.Remove(old(Queue()), i)
    {
      timers := timers[..i] + timers[i + 1..];
      assert Queue() == T.Remove(old(Queue()), i);
    }

    /** The search and the erasure of a member. */
    method FindErase(t: Timer)
      requires Linked() && Has(t) && T.Known(Values(), Queue()) && T.Find(Values(), Queue(), t.addr) < |Queue()|
      modifies `timers
      ensures Linked() && T.Known(Values(), old(Queue())) && T.Find(Values(), old(Queue()), t.addr) < |old(Queue())|
      ensures Queue() == T.Remove(old(Queue()), T.Find(Values(), old(Queue()), t.addr))
    {
      var i := Find(t);
      Erase(i);
    }

    /** `t` is one of this manager's timers. */
    ghost predicate Has(t: Timer)
      reads `all
    {
      t.addr in all && all[t.addr] == t
    }

    /** After only `t` has changed, only its value has. */
    twostate lemma OneChanged(t: Timer)
      requires old(Linked() && Has(t)) && all == old(all)
      requires forall a :: a in all && all[a] != t ==> unchanged(all[a])
      ensures Values() == old(Values())[t.addr := t.Value()]
    {
    }

    /** The protected `addTimer`. Returns whether `onTimerInsertedAtFront` is called. */
    method AddTimerLocked(t: Timer) returns (atFront: bool)
      requires Linked() && Has(t) && t.addr !in Queue()
      modifies `timers, `tickled
      ensures Linked() && T.Known(Values(), old(Queue()))
      ensures Abs() == T.Notice(old(Abs()).(queue := T.Insert(Values(), old(Queue()), t.addr)), t.addr)
      ensures atFront <==> tickled && !old(tickled)
    {
      Insert(t);
      atFront := timers != [] && timers[0] == t && !tickled;
      assert timers != [] ==> Queue()[0] == timers[0].addr;
      if atFront {
        tickled := true;
      }
    }

    // What the proofs below need of the hidden definitions.

    lemma ValidParts()
      requires Valid()
      ensures Linked() && T.Valid(Abs()) && T.Known(Values(), Queue())
      ensures Abs() == T.State(Values(), Queue(), tickled, previousTime)
    {
    }

    lemma AbsIs()
      ensures Abs() == T.State(Values(), Queue(), tickled, previousTime)
    {
    }

    lemma ValidIs()
      requires Linked() && T.Valid(T.State(Values(), Queue(), tickled, previousTime))
      ensures Valid() && Abs() == T.State(Values(), Queue(), tickled, previousTime)
    {
    }

    lemma ValueOf(t: Timer)
      requires Linked() && Has(t)
      ensures t.addr in Values() && Values()[t.addr] == t.Value() == T.Timer(t.recurring, t.ms, t.next, t.cb.Some?)
    {
    }

    /** `addTimer`: the deadline is computed from a clock reading `now` taken before the lock. */
    method AddTimer(addr: Addr, ms: nat, cb: Callback, recurring: bool, now: nat) returns (t: Timer, atFront: bool)
      requires Valid() && addr !in all
      modifies `timers, `tickled, `all
      ensures Valid() && fresh(t) && t.addr == addr && t.cb == Some(cb) && all == old(all)[addr := t]
      ensures Abs() == T.Add(old(Abs()), addr, ms, recurring, now)
      ensures atFront <==> tickled && !old(tickled)
    {
      ghost var s := Abs();
      t := new Timer(addr, ms, cb, recurring, now);
      R.AddChanges(s, addr, ms, recurring, now);
      NotQueued(addr);
      hide *;
      all := all[addr := t];
      Extended(t);
      atFront := AddTimerLocked(t);
      ValueOf(t);
      Added(s, addr, ms, recurring, now, Abs());
      AbsIs();
      ValidIs();
    }

    lemma NotQueued(addr: Addr)
      requires Valid() && addr !in all
      ensures addr !in Queue() && addr !in Abs().all
    {
    }

    /** Registering a new timer. */
    twostate lemma Extended(new t: Timer)
      requires old(Linked()) && t.addr !in old(all) && all == old(all)[t.addr := t] && timers == old(timers)
      requires forall a :: a in old(all) ==> unchanged(old(all)[a])
      ensures Linked() && Has(t) && Values() == old(Values())[t.addr := t.Value()]
    {
    }

    /** Drops a member's callback; the search by key still finds it where it did. */
    method Disarm(t: Timer)
      requires Valid() && Has(t) && t.cb.Some?
      modifies t`cb
      ensures Linked()
      ensures var s := old(Abs());
        && t.addr in s.all && T.Known(s.all, s.queue) && s.all[t.addr].armed
        && Values() == s.all[t.addr := s.all[t.addr].(armed := false)] && T.Known(Values(), Queue())
        && T.Find(Values(), Queue(), t.addr) == T.Find(s.all, s.queue, t.addr) < |Queue()|
    {
      ghost var s := Abs();
      T.FindExact(s, t.addr);
      t.cb := None;
      OneChanged(t);
      T.FindSame(s.all, Values(), Queue(), t.addr);
    }

    /** Drops a member's callback and erases it. */
    method Drop(t: Timer)
      requires Valid() && Has(t) && t.cb.Some?
      modifies `timers, t`cb
      ensures Valid() && t.addr in old(Abs()).all
      ensures (Abs(), true) == T.Cancel(old(Abs()), t.addr)
    {
      ghost var s := Abs();
      hide *;
      ValidParts();
      Disarm(t);
      FindErase(t);
      Cancelled(s, t.addr, T.State(Values(), Queue(), tickled, previousTime));
      ValidIs();
    }

    /** `Timer::cancel`. */
    method Cancel(t: Timer) returns (r: bool)
      requires Valid() && Has(t)
      modifies `timers, t`cb
      ensures Valid()
      ensures (Abs(), r) == T.Cancel(old(Abs()), t.addr)
    {
      ghost var s := Abs();
      hide *;
      ValidParts();
      ValueOf(t);
      r := t.cb.Some?;
      if r {
        Drop(t);
      } else {
        Unarmed(s, t.addr);
      }
    }

    /** Takes a member out and gives it a new period and deadline; the caller puts it back. */
    method TakeOut(t: Timer, ms: nat, next: nat)
      requires Valid() && Has(t) && t.cb.Some?
      modifies `timers, t`ms, t`next
      ensures Linked() && t.ms == ms && t.next == next && t.addr !in Queue()
      ensures var s := old(Abs()); var i := T.Find(s.all, s.queue, t.addr);
        && T.Known(s.all, s.queue) && t.addr in s.all && i < |s.queue| && s.all[t.addr].armed
        && Values() == s.all[t.addr := T.Timer(t.recurring, ms, next, true)] && Queue() == T.Remove(s.queue, i)
        && T.Known(Values(), Queue())
    {
      ghost var s := Abs();
      T.FindExact(s, t.addr);
      ghost var i := T.Find(s.all, s.queue, t.addr);
      FindErase(t);
      t.ms, t.next := ms, next;
      OneChanged(t);
      T.RemoveKeeps(s.all, s.queue, i, t.Value());
    }

    /** Erases a member, gives it a new period and deadline, and inserts it again. */
    method EraseInsert(t: Timer, ms: nat, next: nat)
      requires Valid() && Has(t) && t.cb.Some?
      modifies `timers, t`ms, t`next
      ensures Valid() && t.addr in old(Abs()).all && old(Abs()).all[t.addr].armed
      ensures Abs() == T.Rekey(old(Abs()), t.addr, T.Timer(t.recurring, ms, next, true))
    {
      ghost var s, a := Abs(), t.addr;
      hide *;
      ValidParts();
      TakeOut(t, ms, next);
      Insert(t);
      AbsIs();
      Rekeyed(s, a, T.Timer(t.recurring, ms, next, true), Abs());
      ValidIs();
    }

    /** The same through `addTimer`, which requests a wake-up if the member is now at the front. */
    method EraseAdd(t: Timer, ms: nat, next: nat) returns (atFront: bool)
      requires Valid() && Has(t) && t.cb.Some?
      modifies `timers, `tickled, t`ms, t`next
      ensures Valid() && t.addr in old(Abs()).all && old(Abs()).all[t.addr].armed
      ensures Abs() == T.Notice(T.Rekey(old(Abs()), t.addr, T.Timer(t.recurring, ms, next, true)), t.addr)
      ensures atFront <==> tickled && !old(tickled)
    {
      ghost var s, a := Abs(), t.addr;
      hide *;
      ValidParts();
      TakeOut(t, ms, next);
      AbsIs();
      ghost var mid := Abs();
      atFront := AddTimerLocked(t);
      AbsIs();
      Rekeyed(s, a, T.Timer(t.recurring, ms, next, true), mid.(queue := T.Insert(mid.all, mid.queue, a)));
      ValidIs();
    }

    /** `Timer::refresh`; `now` is read inside the lock. */
    method Refresh(t: Timer, now: nat) returns (r: bool)
      requires Valid() && Has(t)
      modifies `timers, t`ms, t`next
      ensures Valid()
      ensures (Abs(), r) == T.Refresh(old(Abs()), t.addr, now)
    {
      ghost var s := Abs();
      hide *;
      ValidParts();
      ValueOf(t);
      r := t.cb.Some?;
      Refreshed(s, t.addr, now);
      if r {
        EraseInsert(t, t.ms, now + t.ms);
      }
    }

    /** `Timer::reset`; `now` is read inside the lock. */
    method Reset(t: Timer, ms: nat, fromNow: bool, now: nat) returns (r: bool, atFront: bool)
      requires Valid() && Has(t) && t.ms <= t.next
      modifies `timers, `tickled, t`ms, t`next
      ensures Valid()
      ensures t.addr in old(Abs()).all && (Abs(), r) == T.Reset(old(Abs()), t.addr, ms, fromNow, now)
      ensures atFront <==> tickled && !old(tickled)
    {
      ghost var s := Abs();
      hide *;
      ValidParts();
      ValueOf(t);
      atFront := false;
      WasReset(s, t.addr, ms, fromNow, now);
      if ms == t.ms && !fromNow {
        return true, false;
      }
      r := t.cb.Some?;
      if r {
        var start := if fromNow then now else t.next - t.ms;
        atFront := EraseAdd(t, ms, start + ms);
      }
    }

    /** `getNextTimer`: `None` is the all-ones value. */
    method GetNextTimer(now: nat) returns (r: Option<nat>)
      requires Valid()
      modifies `tickled
      ensures Valid() && (Abs(), r) == T.GetNext(old(Abs()), now)
      ensures Abs() == old(Abs()).(tickled := false)
      ensures L.TimeLeft(Abs().all, now, r)
    {
      hide L.TimeLeft;
      L.Reports(Abs(), now);
      tickled := false;
      if timers == [] {
        return None;
      }
      var next := timers[0];
      assert Queue()[0] == next.addr;
      if now >= next.next {
        r := Some(0);
      } else {
        r := Some(next.next - now);
      }
    }

    /** `detectClockRollover`. */
    method DetectClockRollover(now: nat) returns (r: bool)
      requires previousTime < WORD64 && now < WORD64
      modifies `previousTime
      ensures r == T.Rollover(old(previousTime), now) && previousTime == now
    {
      r := now < previousTime && now < (previousTime - T.HOUR) % WORD64;
      previousTime := now;
    }

    /** One listed timer: its callback is handed out; a recurring timer goes back in, another loses it. */
    method SettleOne(t: Timer, now: nat) returns (cb: Callback)
      requires Linked() && Has(t) && t.cb.Some?
      modifies `timers, t`next, t`cb
      ensures Linked() && cb == old(t.cb).value
      ensures var s := old(Abs());
        T.Known(s.all, s.queue) && t.addr in s.all && Abs() == T.Settle(s, t.addr, now)
    {
      ghost var s := Abs();
      hide *;
      Known();
      AbsIs();
      ValueOf(t);
      Settles(s, t.addr, now);
      cb := t.cb.value;
      if t.recurring {
        t.next := now + t.ms;
        OneChanged(t);
        ValueOf(t);
        Insert(t);
      } else {
        t.cb := None;
        OneChanged(t);
        ValueOf(t);
      }
      AbsIs();
    }

    /** The timers listed from `i` on still hold the callbacks `want`. */
    ghost predicate Pending(expired: seq<Timer>, want: seq<Callback>, i: nat)
      reads `all, expired`cb
    {
      var pending := |want| == |expired|
        && forall j :: i <= j < |expired| ==> Has(expired[j]) && expired[j].cb == Some(want[j]);
      pending
    }

    /** One turn of the scan's loop. */
    method SettleNext(expired: seq<Timer>, i: nat, t: Timer, now: nat, ghost want: seq<Callback>)
      returns (cb: Callback)
      requires i < |expired| && t == expired[i] && Linked() && Pending(expired, want, i) && Distinct(Addrs(expired))
      requires T.CanSettle(Abs(), Addrs(expired)[i..])
      modifies `timers, t`next, t`cb
      ensures Linked() && Pending(expired, want, i + 1) && |want| == |expired| && cb == want[i]
      ensures T.CanSettle(old(Abs()), Addrs(expired)[i..]) && T.CanSettle(Abs(), Addrs(expired)[i + 1..])
      ensures T.SettleAll(old(Abs()), Addrs(expired)[i..], now) == T.SettleAll(Abs(), Addrs(expired)[i + 1..], now)
    {
      hide Addrs, Distinct, Linked, Abs, Values, Queue, T.Known, T.CanSettle, T.SettleAll, T.Settle;
      Apart(expired, i);
      SettleStep(Abs(), Addrs(expired), i, now);
      cb := SettleOne(t, now);
    }

    /** The scan's loop: settles the timers taken out, in order, collecting their callbacks. */
    method SettleEach(expired: seq<Timer>, now: nat, ghost want: seq<Callback>) returns (cbs: seq<Callback>)
      requires Linked() && T.CanSettle(Abs(), Addrs(expired)) && Pending(expired, want, 0)
      modifies `timers, expired`next, expired`cb
      ensures T.CanSettle(old(Abs()), Addrs(expired))
      ensures Linked() && Abs() == T.SettleAll(old(Abs()), Addrs(expired), now) && cbs == want
    {
      hide *;
      cbs := [];
      ghost var s0 := Abs();
      SettleWhole(s0, Addrs(expired));
      PendingLength(expired, want);
      for i := 0 to |expired|
        invariant Linked() && T.CanSettle(Abs(), Addrs(expired)[i..]) && Pending(expired, want, i)
        invariant T.SettleAll(s0, Addrs(expired), now) == T.SettleAll(Abs(), Addrs(expired)[i..], now)
        invariant cbs == want[..i]
      {
        var cb := SettleNext(expired, i, expired[i], now, want);
        cbs := cbs + [cb];
      }
      SettledAll(Abs(), Addrs(expired), now);
    }

    lemma PendingLength(expired: seq<Timer>, want: seq<Callback>)
      requires Pending(expired, want, 0)
      ensures |want| == |expired|
    {
    }

    /** How many members the scan takes. */
    method ScanEnd(rollover: bool, now: nat, sentinel: Addr) returns (i: nat)
      requires Linked()
      ensures T.Known(Values(), Queue())
      ensures i == if rollover then |Queue()|
                   else T.SkipDue(Values(), Queue(), T.LowerBound(Values(), Queue(), now, sentinel), now)
    {
      var key := new Timer.At(sentinel, now);
      Known();
      if rollover {
        i := |timers|;
      } else {
        i := LowerBound(key);
      }
      ghost var from := i;
      while i < |timers| && timers[i].next == now
        invariant i <= |timers|
        invariant T.SkipDue(Values(), Queue(), from, now) == T.SkipDue(Values(), Queue(), i, now)
      {
        i := i + 1;
      }
    }

    /** The first `i` members can be settled. */
    lemma FrontReady(i: nat)
      requires Valid() && i <= |timers|
      ensures |Queue()| == |timers| && forall j :: 0 <= j < i ==> timers[j].cb.Some?
      ensures T.CanSettle(Abs().(queue := Queue()[i..]), Queue()[..i])
    {
      T.SplitKeeps(Abs(), i, previousTime);
      assert forall j :: 0 <= j < i ==> Queue()[j] == timers[j].addr && Values()[timers[j].addr].armed;
    }

    /** The first `i` members, taken out. */
    method TakeFront(i: nat) returns (expired: seq<Timer>)
      requires Linked() && i <= |timers|
      modifies `timers
      ensures Linked() && expired == old(timers)[..i] && timers == old(timers)[i..]
      ensures Queue() == old(Queue())[i..] && Addrs(expired) == old(Queue())[..i]
    {
      expired := timers[..i];
      timers := timers[i..];
      assert Queue() == old(Queue())[i..] && Addrs(expired) == old(Queue())[..i];
    }

    lemma FrontPending(i: nat, want: seq<Callback>)
      requires Linked() && i <= |timers| && (forall j :: 0 <= j < i ==> timers[j].cb.Some?)
      requires want == Callbacks(timers[..i])
      ensures Pending(timers[..i], want, 0) && Callbacks?(Queue()[..i], want)
    {
    }

    ghost function Callbacks(ts: seq<Timer>): (cbs: seq<Callback>)
      requires forall i :: 0 <= i < |ts| ==> ts[i].cb.Some?
      reads ts`cb
      ensures |cbs| == |ts| && forall i :: 0 <= i < |ts| ==> ts[i].cb == Some(cbs[i])
    {
      if ts == [] then [] else [ts[0].cb.value] + Callbacks(ts[1..])
    }

    /** The callbacks of the timers at `addrs`. */
    ghost predicate Callbacks?(addrs: seq<Addr>, cbs: seq<Callback>)
      reads `all, all.Values`cb
    {
      |cbs| == |addrs| && forall i :: 0 <= i < |addrs| ==> addrs[i] in all && all[addrs[i]].cb == Some(cbs[i])
    }

    /** Settles the first `i` members. */
    method ScanFront(i: nat, now: nat) returns (cbs: seq<Callback>)
      requires Valid() && i <= |timers|
      modifies `timers, timers`next, timers`cb
      ensures T.CanSettle(old(Abs()).(queue := old(Queue())[i..]), old(Queue())[..i])
      ensures Linked() && Abs() == T.SettleAll(old(Abs()).(queue := old(Queue())[i..]), old(Queue())[..i], now)
      ensures old(Callbacks?(Queue()[..i], cbs))
    {
      hide *;
      ValidParts();
      FrontReady(i);
      ghost var s, want := Abs(), Callbacks(timers[..i]);
      FrontPending(i, want);
      var expired := TakeFront(i);
      AbsIs();
      assert Abs() == s.(queue := s.queue[i..]);
      cbs := SettleEach(expired, now, want);
    }

    lemma Armed()
      requires Valid()
      ensures forall i :: 0 <= i < |timers| ==> timers[i].cb.Some?
    {
    }

    /** The head, as the abstract set sees it. */
    lemma Front()
      requires Linked()
      ensures |Queue()| == |timers| && Callbacks?([], [])
      ensures timers != [] ==> Queue()[0] in Values() && Values()[Queue()[0]].next == timers[0].next
    {
    }

    /**
     * What `listExpiredCb` does once it has the write lock. `None` is the dereference of `begin()` of an empty
     * set.
     */
    method ListExpired(now: nat, sentinel: Addr) returns (r: Option<seq<Callback>>)
      requires Valid() && previousTime < WORD64 && now < WORD64
      modifies `timers, `previousTime, timers`next, timers`cb
      ensures match T.ListExpired(old(Abs()), now, sentinel)
        case EndDereferenced => r == None
        case Listed(s, expired) => Valid() && Abs() == s && r.Some? && old(Callbacks?(expired, r.value))
    {
      ghost var s := Abs();
      hide *;
      ValidParts();
      Scan(s, now, sentinel);
      Front();
      var rollover := DetectClockRollover(now);
      AbsIs();
      Rolled(s, now);
      ValidIs();
      if !rollover {
        if timers == [] {
          return None;
        }
        if timers[0].next > now {
          return Some([]);
        }
      }
      var i := ScanEnd(rollover, now, sentinel);
      var cbs := ScanFront(i, now);
      AbsIs();
      ValidIs();
      r := Some(cbs);
    }

    /**
     * The whole of `listExpiredCb` when no other thread takes the lock between its emptiness check and its scan:
     * `begin()` of an empty set is never dereferenced.
     */
    method ListExpiredCb(now: nat, sentinel: Addr) returns (cbs: seq<Callback>)
      requires Valid() && previousTime < WORD64 && now < WORD64
      modifies `timers, `previousTime, timers`next, timers`cb
      ensures Valid()
      ensures old(timers) == [] ==> Abs() == old(Abs()) && cbs == []
      ensures old(timers) != [] ==>
        var r := T.ListExpired(old(Abs()), now, sentinel);
        r.Listed? && Abs() == r.s && old(Callbacks?(r.expired, cbs))
    {
      if timers == [] {
        return [];
      }
      ghost var s := Abs();
      hide *;
      ValidParts();
      Front();
      Scan(s, now, sentinel);
      var r := ListExpired(now, sentinel);
      cbs := r.value;
    }
  }

  lemma Scan(s: T.State, now: nat, sentinel: Addr)
    requires T.Valid(s)
    ensures T.Known(s.all, s.queue)
    ensures var rollover := T.Rollover(s.previous, now);
      var n := if rollover then |s.queue|
               else T.SkipDue(s.all, s.queue, T.LowerBound(s.all, s.queue, now, sentinel), now);
      var q, expired := s.(previous := now, queue := s.queue[n..]), s.queue[..n];
      T.CanSettle(q, expired) &&
      T.ListExpired(s, now, sentinel)
        == if !rollover && s.queue == [] then T.EndDereferenced
           else if !rollover && s.all[s.queue[0]].next > now then T.Listed(s.(previous := now), [])
           else T.Listed(T.SettleAll(q, expired, now), expired)
    ensures T.ListExpired(s, now, sentinel).Listed? ==> T.Valid(T.ListExpired(s, now, sentinel).s)
  {
    R.ListExpiredExact(s, now, sentinel);
    T.SplitKeeps(s, T.ExpiredCount(s, now, sentinel), now);
  }

  lemma Rolled(s: T.State, now: nat)
    requires T.Valid(s)
    ensures T.Valid(s.(previous := now))
  {
  }

  ghost predicate Distinct(addrs: seq<Addr>) {
    forall i, j :: 0 <= i < j < |addrs| ==> addrs[i] != addrs[j]
  }

  lemma Apart(ts: seq<Timer>, i: nat)
    requires i < |ts| && Distinct(Addrs(ts))
    ensures forall j :: i < j < |ts| ==> ts[j] != ts[i]
  {
    hide Addrs;
    var addrs := Addrs(ts);
    forall j | i < j < |ts|
      ensures ts[j] != ts[i]
    {
      assert addrs[i] != addrs[j];
    }
  }

  lemma SettleWhole(s: T.State, addrs: seq<Addr>)
    requires T.CanSettle(s, addrs)
    ensures Distinct(addrs) && addrs[0..] == addrs
  {
  }

  lemma SettledAll(s: T.State, addrs: seq<Addr>, now: nat)
    requires T.CanSettle(s, addrs[|addrs|..])
    ensures T.SettleAll(s, addrs[|addrs|..], now) == s
  {
  }

  lemma Added(s: T.State, a: Addr, ms: nat, recurring: bool, now: nat, s': T.State)
    requires T.Valid(s) && a !in s.all
    requires var all := s.all[a := T.Timer(recurring, ms, now + ms, true)];
      s' == T.Notice(s.(all := all, queue := T.Insert(all, s.queue, a)), a)
    ensures s' == T.Add(s, a, ms, recurring, now) && T.Valid(s')
  {
    R.AddChanges(s, a, ms, recurring, now);
  }

  lemma Unarmed(s: T.State, a: Addr)
    requires T.Valid(s) && a in s.all && !s.all[a].armed
    ensures T.Cancel(s, a) == (s, false)
  {
  }

  lemma Cancelled(s: T.State, a: Addr, s': T.State)
    requires T.Valid(s) && a in s.all && s.all[a].armed
    requires s'.all == s.all[a := s.all[a].(armed := false)] && s'.tickled == s.tickled && s'.previous == s.previous
    requires T.Find(s.all, s.queue, a) < |s.queue| && s'.queue == T.Remove(s.queue, T.Find(s.all, s.queue, a))
    ensures T.Cancel(s, a) == (s', true) && T.Valid(s')
  {
    R.CancelChanges(s, a);
  }

  lemma Rekeyed(s: T.State, a: Addr, t: T.Timer, s': T.State)
    requires T.Valid(s) && a in s.all && s.all[a].armed && t.armed
    requires s'.all == s.all[a := t] && s'.tickled == s.tickled && s'.previous == s.previous
    requires T.Find(s.all, s.queue, a) < |s.queue| && T.Known(s'.all, T.Remove(s.queue, T.Find(s.all, s.queue, a)))
    requires s'.queue == T.Insert(s'.all, T.Remove(s.queue, T.Find(s.all, s.queue, a)), a)
    ensures s' == T.Rekey(s, a, t) && T.Valid(s') && T.Valid(T.Notice(s', a))
  {
    R.RekeyChanges(s, a, t);
  }

  lemma Refreshed(s: T.State, a: Addr, now: nat)
    requires T.Valid(s) && a in s.all
    ensures T.Refresh(s, a, now)
         == if s.all[a].armed then (T.Rekey(s, a, s.all[a].(next := now + s.all[a].ms)), true) else (s, false)
  {
  }

  lemma WasReset(s: T.State, a: Addr, ms: nat, fromNow: bool, now: nat)
    requires T.Valid(s) && a in s.all && s.all[a].ms <= s.all[a].next
    ensures var t := s.all[a]; var start := if fromNow then now else t.next - t.ms;
      T.Reset(s, a, ms, fromNow, now)
        == if ms == t.ms && !fromNow then (s, true)
           else if !t.armed then (s, false)
           else (T.Notice(T.Rekey(s, a, T.Timer(t.recurring, ms, start + ms, true)), a), true)
  {
    var t := s.all[a];
    var start := if fromNow then now else t.next - t.ms;
    assert t.armed ==> T.ResetTo(t, ms, fromNow, now) == T.Timer(t.recurring, ms, start + ms, true);
  }

  lemma Settles(s: T.State, a: Addr, now: nat)
    requires T.Known(s.all, s.queue) && a in s.all
    ensures s.all[a].recurring ==> var all := s.all[a := s.all[a].(next := now + s.all[a].ms)];
      T.Settle(s, a, now) == s.(all := all, queue := T.Insert(all, s.queue, a))
    ensures !s.all[a].recurring ==> T.Settle(s, a, now) == s.(all := s.all[a := s.all[a].(armed := false)])
  {
  }

  lemma SettleStep(s: T.State, addrs: seq<Addr>, i: nat, now: nat)
    requires i < |addrs| && T.CanSettle(s, addrs[i..])
    ensures T.Known(s.all, s.queue) && addrs[i] in s.all && T.CanSettle(T.Settle(s, addrs[i], now), addrs[i + 1..])
    ensures T.SettleAll(s, addrs[i..], now) == T.SettleAll(T.Settle(s, addrs[i], now), addrs[i + 1..], now)
  {
    assert addrs[i..][0] == addrs[i] && addrs[i..][1..] == addrs[i + 1..];
    T.SettleOne(s, addrs[i..], now);
  }
}

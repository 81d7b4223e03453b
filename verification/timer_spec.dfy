/**
 * The timer set as values: what each lock-sized step of the timer manager does to the ordered set, the
 * timers in it and the wake-up flag. `timer.dfy` proves the in-place code against these functions.
 */
module TimerSpec {
  import opened Wrappers

  type Addr = nat

  /** One timer; `armed` says it still has a callback. */
  datatype Timer = Timer(recurring: bool, ms: nat, next: nat, armed: bool)

  /**
   * All timers ever made, by address; the ordered set, as the list of its members' addresses; whether a
   * wake-up has been requested since the last `getNextTimer`; the clock reading of the last expiry scan.
   */
  datatype State = State(all: map<Addr, Timer>, queue: seq<Addr>, tickled: bool, previous: nat)

  const EMPTY := State(map[], [], false, 0)

  /** The set's order: by deadline, then by address. */
  predicate Before(next1: nat, addr1: Addr, next2: nat, addr2: Addr) {
    next1 < next2 || (next1 == next2 && addr1 < addr2)
  }

  ghost predicate Known(all: map<Addr, Timer>, queue: seq<Addr>) {
    forall i :: 0 <= i < |queue| ==> queue[i] in all
  }

  ghost predicate Sorted(all: map<Addr, Timer>, queue: seq<Addr>)
    requires Known(all, queue)
  {
    forall i, j :: 0 <= i < j < |queue| ==> Before(all[queue[i]].next, queue[i], all[queue[j]].next, queue[j])
  }

  /**
   * The members are strictly ordered, and a timer has a callback if and only if it is a member.
   * (Bound to a name so that it is proved as one fact.)
   */
  ghost predicate Valid(s: State) {
    var valid :=
      && Known(s.all, s.queue)
      && Sorted(s.all, s.queue)
      && forall a :: a in s.all ==> (s.all[a].armed <==> a in s.queue);
    valid
  }

  /** `lower_bound`: how many members come before the key. */
  function LowerBound(all: map<Addr, Timer>, queue: seq<Addr>, next: nat, addr: Addr): (i: nat)
    requires Known(all, queue)
    ensures i <= |queue|
    ensures i < |queue| ==> !Before(all[queue[i]].next, queue[i], next, addr)
  {
    if queue == [] then 0
    else if Before(all[queue[0]].next, queue[0], next, addr) then 1 + LowerBound(all, queue[1..], next, addr)
    else 0
  }

  /** On a sorted set it splits the members into those before the key and those not. */
  lemma {:induction false} LowerBoundSplits(all: map<Addr, Timer>, queue: seq<Addr>, next: nat, addr: Addr)
    requires Known(all, queue) && Sorted(all, queue)
    ensures var i := LowerBound(all, queue, next, addr);
      && (forall j :: 0 <= j < i ==> Before(all[queue[j]].next, queue[j], next, addr))
      && (forall j :: i <= j < |queue| ==> !Before(all[queue[j]].next, queue[j], next, addr))
  {
    if queue == [] {
    } else if Before(all[queue[0]].next, queue[0], next, addr) {
      var rest := queue[1..];
      LowerBoundSplits(all, rest, next, addr);
      var i := LowerBound(all, rest, next, addr);
      forall j | 0 <= j < |queue|
        ensures Before(all[queue[j]].next, queue[j], next, addr) <==> j < 1 + i
      {
        if 0 < j {
          assert queue[j] == rest[j - 1];
        }
      }
    }
  }

  /** A key's place is determined by the split. */
  lemma {:induction false} LowerBoundUnique(all: map<Addr, Timer>, queue: seq<Addr>, next: nat, addr: Addr, i: nat)
    requires Known(all, queue) && Sorted(all, queue) && i <= |queue|
    requires forall j :: 0 <= j < i ==> Before(all[queue[j]].next, queue[j], next, addr)
    requires i < |queue| ==> !Before(all[queue[i]].next, queue[i], next, addr)
    ensures LowerBound(all, queue, next, addr) == i
  {
    if 0 < i {
      var rest := queue[1..];
      forall j | 0 <= j < |rest|
        ensures rest[j] == queue[j + 1]
      {
      }
      LowerBoundUnique(all, rest, next, addr, i - 1);
    }
  }

  /** Only deadlines matter to the search. */
  lemma {:induction false} SameNext(all: map<Addr, Timer>, all': map<Addr, Timer>, queue: seq<Addr>, next: nat, addr: Addr)
    requires Known(all, queue) && Known(all', queue)
    requires forall a :: a in queue ==> all[a].next == all'[a].next
    ensures LowerBound(all, queue, next, addr) == LowerBound(all', queue, next, addr)
  {
    if queue != [] {
      SameNext(all, all', queue[1..], next, addr);
    }
  }

  /** `find`, by the order alone: the index of a member with an equivalent key, or `|queue|`. */
  function Find(all: map<Addr, Timer>, queue: seq<Addr>, a: Addr): (i: nat)
    requires Known(all, queue) && a in all
    ensures i <= |queue|
  {
    var i := LowerBound(all, queue, all[a].next, a);
    if i < |queue| && !Before(all[a].next, a, all[queue[i]].next, queue[i]) then i else |queue|
  }

  lemma FindSame(all: map<Addr, Timer>, all': map<Addr, Timer>, queue: seq<Addr>, a: Addr)
    requires Known(all, queue) && Known(all', queue) && a in all && a in all'
    requires all[a].next == all'[a].next && forall x :: x in queue ==> all[x].next == all'[x].next
    ensures Find(all, queue, a) == Find(all', queue, a)
  {
    SameNext(all, all', queue, all[a].next, a);
  }

  /** Searching by key finds exactly the members: the search inside `cancel` never comes back empty-handed. */
  lemma FindExact(s: State, a: Addr)
    requires Valid(s) && a in s.all
    ensures var i := Find(s.all, s.queue, a);
      (i < |s.queue| <==> s.all[a].armed) && (i < |s.queue| ==> s.queue[i] == a)
  {
    LowerBoundSplits(s.all, s.queue, s.all[a].next, a);
    if a in s.queue {
      var j :| 0 <= j < |s.queue| && s.queue[j] == a;
      LowerBoundUnique(s.all, s.queue, s.all[a].next, a, j);
    }
  }

  function Insert(all: map<Addr, Timer>, queue: seq<Addr>, a: Addr): seq<Addr>
    requires Known(all, queue) && a in all
  {
    var i := LowerBound(all, queue, all[a].next, a);
    if i < |queue| && queue[i] == a then queue else queue[..i] + [a] + queue[i..]
  }

  function Remove<T>(queue: seq<T>, i: nat): seq<T>
    requires i < |queue|
  {
    queue[..i] + queue[i + 1..]
  }

  /** Taking a member out leaves a sorted set without it, whatever then happens to its key. */
  lemma RemoveKeeps(all: map<Addr, Timer>, queue: seq<Addr>, i: nat, t: Timer)
    requires Known(all, queue) && Sorted(all, queue) && i < |queue|
    ensures var q := Remove(queue, i); var all' := all[queue[i] := t];
      && Known(all', q) && Sorted(all', q)
      && (forall x :: x in q <==> x in queue && x != queue[i])
      && (forall x :: x in q ==> all'[x] == all[x])
  {
    var q := Remove(queue, i);
    forall j | 0 <= j < |q|
      ensures q[j] in queue && q[j] != queue[i]
    {
      var k := if j < i then j else j + 1;
      assert q[j] == queue[k];
    }
    forall x | x in queue && x != queue[i]
      ensures x in q
    {
      var k :| 0 <= k < |queue| && queue[k] == x;
      assert q[if k < i then k else k - 1] == x;
    }
  }

  /** A key put where its order says keeps the set sorted. */
  lemma PutSorted(all: map<Addr, Timer>, queue: seq<Addr>, a: Addr, i: nat)
    requires Known(all, queue) && Sorted(all, queue) && a in all && i <= |queue|
    requires forall j :: 0 <= j < i ==> Before(all[queue[j]].next, queue[j], all[a].next, a)
    requires forall j :: i <= j < |queue| ==> Before(all[a].next, a, all[queue[j]].next, queue[j])
    ensures Known(all, queue[..i] + [a] + queue[i..]) && Sorted(all, queue[..i] + [a] + queue[i..])
  {
    var q := queue[..i] + [a] + queue[i..];
    forall j | 0 <= j < |q|
      ensures q[j] == (if j < i then queue[j] else if j == i then a else queue[j - 1])
    {
    }
    forall x, y | 0 <= x < y < |q|
      ensures q[x] in all && q[y] in all && Before(all[q[x]].next, q[x], all[q[y]].next, q[y])
    {
    }
  }

  lemma PutMembers<T>(queue: seq<T>, a: T, i: nat)
    requires i <= |queue|
    ensures var q := queue[..i] + [a] + queue[i..];
      (forall x :: x in q <==> x in queue || x == a) && q[0] == if i == 0 then a else queue[0]
  {
    assert queue == queue[..i] + queue[i..];
  }

  /** Putting a non-member in keeps the set sorted and adds just it. */
  lemma InsertKeeps(all: map<Addr, Timer>, queue: seq<Addr>, a: Addr)
    requires Known(all, queue) && Sorted(all, queue) && a in all && a !in queue
    ensures var q := Insert(all, queue, a);
      && Known(all, q) && Sorted(all, q)
      && (forall x :: x in q <==> x in queue || x == a)
      && q[0] == if LowerBound(all, queue, all[a].next, a) == 0 then a else queue[0]
  {
    LowerBoundSplits(all, queue, all[a].next, a);
    var i := LowerBound(all, queue, all[a].next, a);
    forall j | i <= j < |queue|
      ensures Before(all[a].next, a, all[queue[j]].next, queue[j])
    {
      assert queue[j] != a;
    }
    PutSorted(all, queue, a, i);
    PutMembers(queue, a, i);
  }

  // ----- the steps

  /** The end of the protected `addTimer`: a wake-up request if the timer landed at the front. */
  function Notice(s: State, a: Addr): State {
    s.(tickled := s.tickled || (s.queue != [] && s.queue[0] == a))
  }

  /** `addTimer`: a new timer, made at clock reading `now`. */
  function Add(s: State, a: Addr, ms: nat, recurring: bool, now: nat): State
    requires Valid(s) && a !in s.all
  {
    var all := s.all[a := Timer(recurring, ms, now + ms, true)];
    Notice(s.(all := all, queue := Insert(all, s.queue, a)), a)
  }

  function Disarm(s: State, a: Addr): State
    requires a in s.all
  {
    s.(all := s.all[a := s.all[a].(armed := false)])
  }

  /** `cancel`; the result says whether there was a callback to drop. */
  function Cancel(s: State, a: Addr): (r: (State, bool))
    requires Valid(s) && a in s.all
  {
    if !s.all[a].armed then (s, false) else
    FindExact(s, a);
    (Disarm(s, a).(queue := Remove(s.queue, Find(s.all, s.queue, a))), true)
  }

  /** A member is taken out, changed to `t`, and put back in. */
  function Rekey(s: State, a: Addr, t: Timer): State
    requires Valid(s) && a in s.all && s.all[a].armed
  {
    FindExact(s, a);
    var i := Find(s.all, s.queue, a);
    RemoveKeeps(s.all, s.queue, i, t);
    var all := s.all[a := t];
    s.(all := all, queue := Insert(all, Remove(s.queue, i), a))
  }

  /** `refresh`: the deadline becomes `now` plus the period. */
  function Refresh(s: State, a: Addr, now: nat): (r: (State, bool))
    requires Valid(s) && a in s.all
  {
    if !s.all[a].armed then (s, false)
    else (Rekey(s, a, s.all[a].(next := now + s.all[a].ms)), true)
  }

  /** The new period and deadline `reset` gives a timer. */
  function ResetTo(t: Timer, ms: nat, fromNow: bool, now: nat): Timer
    requires t.ms <= t.next
  {
    var start := if fromNow then now else t.next - t.ms;
    t.(ms := ms, next := start + ms)
  }

  /** `reset`: a new period, counted from `now` or from the old start. */
  function Reset(s: State, a: Addr, ms: nat, fromNow: bool, now: nat): (r: (State, bool))
    requires Valid(s) && a in s.all && s.all[a].ms <= s.all[a].next
  {
    if ms == s.all[a].ms && !fromNow then (s, true) else
    if !s.all[a].armed then (s, false) else
    (Notice(Rekey(s, a, ResetTo(s.all[a], ms, fromNow, now)), a), true)
  }

  /** `getNextTimer`: clears the request and reports how long the head has to run. */
  function GetNext(s: State, now: nat): (r: (State, Option<nat>))
    requires Known(s.all, s.queue)
  {
    (s.(tickled := false),
     if s.queue == [] then None
     else if now >= s.all[s.queue[0]].next then Some(0)
     else Some(s.all[s.queue[0]].next - now))
  }

  const HOUR := 60 * 60 * 1000

  /** The clock went back by more than an hour; the 64-bit difference wraps below one hour. */
  predicate Rollover(previous: nat, now: nat) {
    now < previous && (previous < HOUR || now < previous - HOUR)
  }

  /** Members at or after `i` that are due exactly at `now` are skipped over. */
  function SkipDue(all: map<Addr, Timer>, queue: seq<Addr>, i: nat, now: nat): (j: nat)
    requires Known(all, queue) && i <= |queue|
    ensures i <= j <= |queue|
    decreases |queue| - i
  {
    if i < |queue| && all[queue[i]].next == now then SkipDue(all, queue, i + 1, now) else i
  }

  /** How many members an expiry scan takes, given the address the sentinel timer happens to get. */
  function ExpiredCount(s: State, now: nat, sentinel: Addr): (n: nat)
    requires Known(s.all, s.queue)
    ensures n <= |s.queue|
  {
    if Rollover(s.previous, now) then |s.queue|
    else SkipDue(s.all, s.queue, LowerBound(s.all, s.queue, now, sentinel), now)
  }

  /** One listed timer: recurring ones go back in, counted from `now`; others lose their callback. */
  function Settle(s: State, a: Addr, now: nat): State
    requires Known(s.all, s.queue) && a in s.all
  {
    var t := s.all[a];
    if t.recurring then
      var all := s.all[a := t.(next := now + t.ms)];
      s.(all := all, queue := Insert(all, s.queue, a))
    else Disarm(s, a)
  }

  ghost predicate CanSettle(s: State, expired: seq<Addr>) {
    && Known(s.all, s.queue) && Known(s.all, expired) && Sorted(s.all, s.queue)
    && (forall i, j :: 0 <= i < j < |expired| ==> expired[i] != expired[j])
    && (forall i :: 0 <= i < |expired| ==> expired[i] !in s.queue && s.all[expired[i]].armed)
    && (forall a :: a in s.all ==> (s.all[a].armed <==> a in s.queue || a in expired))
  }

  lemma SettleOne(s: State, expired: seq<Addr>, now: nat)
    requires CanSettle(s, expired) && expired != []
    ensures CanSettle(Settle(s, expired[0], now), expired[1..])
  {
    var a := expired[0];
    var s' := Settle(s, a, now);
    assert forall x :: x in expired <==> x == a || x in expired[1..];
    assert a !in expired[1..];
    if s.all[a].recurring {
      var all := s.all[a := s.all[a].(next := now + s.all[a].ms)];
      assert Sorted(all, s.queue);
      InsertKeeps(all, s.queue, a);
    }
  }

  function SettleAll(s: State, expired: seq<Addr>, now: nat): State
    requires CanSettle(s, expired)
    decreases |expired|
  {
    if expired == [] then s else
    SettleOne(s, expired, now);
    SettleAll(Settle(s, expired[0], now), expired[1..], now)
  }

  datatype Listed = Listed(s: State, expired: seq<Addr>) | EndDereferenced

  /** What the scan does once it has the write lock; an empty set there means `*m_timers.begin()` is invalid. */
  function ListExpired(s: State, now: nat, sentinel: Addr): (r: Listed)
    requires Valid(s)
  {
    var s1 := s.(previous := now);
    if !Rollover(s.previous, now) && s.queue == [] then EndDereferenced
    else if !Rollover(s.previous, now) && s.all[s.queue[0]].next > now then Listed(s1, [])
    else
      var n := ExpiredCount(s, now, sentinel);
      SplitKeeps(s, n, now);
      Listed(SettleAll(s1.(queue := s.queue[n..]), s.queue[..n], now), s.queue[..n])
  }

  lemma SplitKeeps(s: State, n: nat, now: nat)
    requires Valid(s) && n <= |s.queue|
    ensures CanSettle(s.(previous := now, queue := s.queue[n..]), s.queue[..n])
  {
    var q, e := s.queue[n..], s.queue[..n];
    assert s.queue == e + q;
    assert forall i :: 0 <= i < |q| ==> q[i] == s.queue[n + i];
    forall i, j | 0 <= i < |e| && 0 <= j < |q|
      ensures e[i] != q[j]
    {
      assert Before(s.all[s.queue[i]].next, s.queue[i], s.all[s.queue[n + j]].next, s.queue[n + j]);
    }
  }
}

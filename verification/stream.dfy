/** Sending a byte array over a socket that may take any part of what it is offered, or fail. */
module Streams {
  import opened Bytes
  import opened ByteArrays

  /**
   * A socket, and the peer's view of it: the bytes that have arrived. `answers` says what the coming sends do: take at
   * most that many bytes, or fail if it is negative. Once it is used up, sends take everything.
   */
  class Socket {
    ghost var sent: seq<byte>
    var answers: seq<int>
    const connected: bool

    constructor (connected: bool, answers: seq<int>)
      ensures this.connected == connected && this.answers == answers && sent == []
    {
      this.connected := connected;
      this.answers := answers;
      sent := [];
    }

    /** `sendmsg`, or -1 on a socket that is not connected. */
    method Send(iovs: seq<IoVec>, total: nat) returns (rt: int)
      requires GoodVecs(iovs) && |Gather(iovs)| == total
      modifies this
      ensures rt == Answer(connected, old(answers), total) && -1 <= rt <= total
      ensures answers == if connected && old(answers) != [] then old(answers)[1..] else old(answers)
      ensures sent == old(sent) + if 0 < rt then Gather(iovs)[..rt] else []
    {
      if !connected {
        return -1;
      }
      rt := Answer(connected, answers, total);
      if answers != [] {
        answers := answers[1..];
      }
      if 0 < rt {
        sent := sent + Gather(iovs)[..rt];
      }
    }
  }

  /** What a send of `total` bytes returns. */
  function Answer(connected: bool, answers: seq<int>, total: nat): (rt: int)
    ensures -1 <= rt <= total
  {
    if !connected then -1
    else if answers == [] || total < answers[0] then total
    else if answers[0] < 0 then -1
    else answers[0]
  }

  /** How many of the sends failed. */
  function Failures(answers: seq<int>): nat {
    if answers == [] then 0 else Failures(answers[..|answers| - 1]) + (if answers[|answers| - 1] < 0 then 1 else 0)
  }

  /** Every send takes something. */
  predicate Obliging(answers: seq<int>) {
    forall i :: 0 <= i < |answers| ==> 0 < answers[i]
  }

  lemma {:induction false} NoFailures(answers: seq<int>)
    requires Obliging(answers)
    ensures Failures(answers) == 0
  {
    if answers != [] {
      NoFailures(answers[..|answers| - 1]);
    }
  }

  lemma {:induction false} FailuresNone(answers: seq<int>)
    requires Failures(answers) == 0
    ensures forall i :: 0 <= i < |answers| ==> 0 <= answers[i]
  {
    if answers != [] {
      FailuresNone(answers[..|answers| - 1]);
      assert forall i :: 0 <= i < |answers| - 1 ==> answers[..|answers| - 1][i] == answers[i];
    }
  }

  lemma {:induction false} FailuresOfPart(answers: seq<int>, k: nat)
    requires k <= |answers|
    ensures Failures(answers[..k]) <= Failures(answers)
  {
    if k < |answers| {
      FailuresOfPart(answers[..|answers| - 1], k);
      assert answers[..|answers| - 1][..k] == answers[..k];
    } else {
      assert answers[..k] == answers;
    }
  }

  /** The answers that have been used up since `before`. */
  function Used(before: seq<int>, now: seq<int>): seq<int>
    requires |now| <= |before|
  {
    before[..|before| - |now|]
  }

  /** A number stored in an unsigned 64-bit variable. */
  function Unsigned(v: int): (u: nat)
    ensures u < SIZE_T
  {
    v % SIZE_T
  }

  /** Left are `length` bytes less those taken, and one more for every failure, in the unsigned arithmetic of `left`. */
  ghost predicate Counts(before: seq<int>, now: seq<int>, length: nat, taken: nat, left: nat) {
    && |now| <= |before| && now == before[|before| - |now|..]
    && left == Unsigned(length + Failures(Used(before, now)) - taken)
    && (length + Failures(before) < SIZE_T ==> left + taken == length + Failures(Used(before, now)))
  }

  lemma CountsStart(before: seq<int>, length: nat)
    requires length < SIZE_T
    ensures Counts(before, before, length, 0, length)
  {
    assert Used(before, before) == [];
    assert length % SIZE_T == length;
  }

  lemma CountsIs(before: seq<int>, now: seq<int>, length: nat, taken: nat, left: nat)
    requires Counts(before, now, length, taken, left)
    ensures |now| <= |before| && 0 <= left < SIZE_T
    ensures left == Unsigned(length + Failures(Used(before, now)) - taken)
    ensures length + Failures(before) < SIZE_T ==> left + taken == length + Failures(Used(before, now))
    ensures Obliging(before) ==> Obliging(now) && (length < SIZE_T ==> left + taken == length)
  {
    hide Unsigned, Failures;
    if Obliging(before) {
      NoFailures(before);
      NoFailures(Used(before, now));
    }
  }

  lemma CountsSuffix(before: seq<int>, now: seq<int>, length: nat, taken: nat, left: nat)
    requires Counts(before, now, length, taken, left)
    ensures |now| <= |before| && now == before[|before| - |now|..]
  {
  }

  /** One turn of the loop. */
  lemma CountsStep(before: seq<int>, now: seq<int>, length: nat, taken: nat, left: nat, rt: int, now': seq<int>)
    requires Counts(before, now, length, taken, left) && 0 < left
    requires now' == if now != [] then now[1..] else now
    requires -1 <= rt <= left && (rt < 0 <==> now != [] && now[0] < 0)
    ensures Counts(before, now', length, if 0 < rt then taken + rt else taken, Unsigned(left - Unsigned(rt)))
  {
    FailuresStep(before, now, now');
    hide Unsigned, Failures, Used;
    var failures := Failures(Used(before, now));
    FailuresOfUsed(before, now');
    if rt < 0 {
      Wraps(length + failures - taken, left);
      UnsignedUp(left);
    } else {
      Reduces(length + failures - taken, left, rt);
    }
  }

  /** One turn of the loop, over a connected socket. */
  lemma Turn(before: seq<int>, now: seq<int>, length: nat, taken: nat, left: nat, rt: int, now': seq<int>)
    requires Counts(before, now, length, taken, left) && 0 < left && |now| <= |before| && 0 !in Used(before, now)
    requires now' == if now != [] then now[1..] else now
    requires -1 <= rt <= left && (rt < 0 <==> now != [] && now[0] < 0) && (now != [] && now[0] == 0 ==> rt == 0)
    ensures |now'| <= |before| && |now'| == if now != [] then |now| - 1 else |now|
    ensures Counts(before, now', length, if 0 < rt then taken + rt else taken, Unsigned(left - Unsigned(rt)))
    ensures rt != 0 ==> 0 !in Used(before, now')
    ensures now != [] && now[0] == 0 ==> 0 in Used(before, now')
  {
    CountsStep(before, now, length, taken, left, rt, now');
    CountsSuffix(before, now, length, taken, left);
    UsedStep(before, now, now');
    hide Counts, Used, Unsigned;
  }

  lemma FailuresStep(before: seq<int>, now: seq<int>, now': seq<int>)
    requires |now| <= |before| && now == before[|before| - |now|..] && now' == if now != [] then now[1..] else now
    ensures now' == before[|before| - |now'|..]
    ensures Failures(Used(before, now')) == Failures(Used(before, now)) + if now != [] && now[0] < 0 then 1 else 0
  {
    UsedStep(before, now, now');
    if now != [] {
      var used := Used(before, now');
      assert used[..|used| - 1] == Used(before, now);
    }
  }

  lemma FailuresOfUsed(before: seq<int>, now: seq<int>)
    requires |now| <= |before|
    ensures Failures(Used(before, now)) <= Failures(before)
  {
    FailuresOfPart(before, |before| - |now|);
  }

  lemma UnsignedUp(left: nat)
    requires left < SIZE_T
    ensures left + 1 < SIZE_T ==> Unsigned(left - Unsigned(-1)) == left + 1
  {
  }

  lemma UnsignedIs(rt: int, left: nat)
    requires -1 <= rt <= left < SIZE_T
    ensures rt < 0 ==> Unsigned(rt) == SIZE_T - 1
    ensures 0 <= rt ==> Unsigned(rt) == rt
    ensures Unsigned(left - Unsigned(rt)) == if rt < 0 then (if left == SIZE_T - 1 then 0 else left + 1) else left - rt
  {
  }

  lemma Wraps(v: int, left: nat)
    requires left == Unsigned(v)
    ensures Unsigned(left - Unsigned(-1)) == Unsigned(v + 1)
  {
  }

  lemma Reduces(v: int, left: nat, rt: nat)
    requires left == Unsigned(v) && rt <= left
    ensures Unsigned(left - Unsigned(rt)) == Unsigned(v - rt) == left - rt
  {
  }

  lemma Slices(flat: seq<byte>, p: nat, q: nat, e: nat)
    requires p <= q <= e <= |flat|
    ensures flat[p..q] + flat[q..e] == flat[p..e]
  {
  }

  lemma Regroup(a: seq<byte>, b: seq<byte>, c: seq<byte>)
    ensures a + b + c == a + (b + c)
  {
  }

  /** What the sending loop started from. */
  datatype Sent = Sent(flat: seq<byte>, position: nat, size: nat, sent: seq<byte>, answers: seq<int>)

  /** How far the loop is from its end. */
  ghost function Turns(connected: bool, answers: nat, left: nat): nat {
    if connected then answers else if left == 0 || SIZE_T < left then 0 else SIZE_T - left
  }

  lemma TurnsFall(connected: bool, answers: nat, left: nat, answers': nat, left': nat)
    requires 0 < left < SIZE_T
    requires connected ==> answers' == if 0 < answers then answers - 1 else 0
    requires !connected ==> left' == if left == SIZE_T - 1 then 0 else left + 1
    ensures connected && answers == 0 ==> Turns(connected, answers', left') == Turns(connected, answers, left)
    ensures !connected || 0 < answers ==> Turns(connected, answers', left') < Turns(connected, answers, left)
  {
  }

  lemma UsedStep(before: seq<int>, now: seq<int>, now': seq<int>)
    requires |now| <= |before| && now == before[|before| - |now|..] && now' == if now != [] then now[1..] else now
    ensures Used(before, now') == Used(before, now) + if now != [] then [now[0]] else []
  {
  }

  /** What the result says of `length` and the bytes taken. */
  ghost predicate Tallies(before: seq<int>, now: seq<int>, length: nat, taken: nat, r: nat)
    requires |now| <= |before|
  {
    var failures := Failures(Used(before, now));
    && r == (if Unsigned(length + failures - taken) == 0 then length else 0)
    && (length + Failures(before) < SIZE_T ==>
          taken <= length + failures && r == if taken == length + failures then length else 0)
  }

  /** Exactly the bytes asked for have been taken, and reported, if and only if every send used took something. */
  lemma TallyExactly(before: seq<int>, now: seq<int>, length: nat, taken: nat, readable: nat, r: nat)
    requires |now| <= |before| && Tallies(before, now, length, taken, r) && length + Failures(before) < SIZE_T
    requires 0 < length <= readable && (r != length ==> taken == readable || 0 in Used(before, now))
    requires 0 in Used(before, now) ==> r == 0
    ensures r == length && taken == length <==> Obliging(Used(before, now))
  {
    var used := Used(before, now);
    if Obliging(used) {
      NoFailures(used);
    }
    if r == length && taken == length {
      FailuresNone(used);
    }
  }

  /** A socket stream; whether the socket is connected does not change during a call. */
  class SocketStream {
    const socket: Socket

    constructor (s: Socket)
      ensures socket == s
    {
      socket := s;
    }

    function Takes(ba: ByteArray, length: nat): int
      requires ba.position <= ba.size
      reads socket, ba
    {
      Answer(socket.connected, socket.answers, if length > ba.ReadSize() then ba.ReadSize() else length)
    }

    lemma TakesIs(ba: ByteArray, length: nat)
      requires ba.Valid()
      ensures ba.position <= ba.size
      ensures !socket.connected ==> Takes(ba, length) == -1
      ensures socket.connected ==> (Takes(ba, length) < 0 <==> socket.answers != [] && socket.answers[0] < 0)
      ensures socket.connected && socket.answers != [] && socket.answers[0] == 0 ==> Takes(ba, length) == 0
      ensures Takes(ba, length) == 0 ==> length == 0 || ba.position == ba.size || (socket.answers != [] && socket.answers[0] == 0)
    {
    }

    /** Offers up to `length` unread bytes; the position does not move. */
    method Offer(ba: ByteArray, length: nat) returns (rt: int)
      requires ba.Valid()
      modifies socket
      ensures ba.Valid() && ba.Flat() == old(ba.Flat())
      ensures rt == old(Takes(ba, length))
      ensures -1 <= rt <= length && ba.position + rt <= ba.size <= ba.capacity == |ba.Flat()|
      ensures socket.answers ==
        if socket.connected && old(socket.answers) != [] then old(socket.answers)[1..] else old(socket.answers)
      ensures socket.sent == old(socket.sent) + if 0 < rt then ba.Flat()[ba.position..ba.position + rt] else []
    {
      ba.FlatLength();
      if !socket.connected {
        return -1;
      }
      var iovs, got := ba.GetReadBuffers([], length);
      ba.CoversIs(iovs, ba.position, ba.position + got);
      rt := socket.Send(iovs, got);
    }

    /** Offers up to `length` unread bytes and moves the position past those taken. */
    method Write(ba: ByteArray, length: nat) returns (rt: int)
      requires ba.Valid()
      modifies socket, ba`position, ba`size, ba`cur
      ensures ba.Valid() && ba.Flat() == old(ba.Flat()) && ba.size == old(ba.size)
      ensures rt == old(Takes(ba, length)) && -1 <= rt <= length
      ensures ba.position == (if 0 < rt then old(ba.position) + rt else old(ba.position)) <= ba.size <= |ba.Flat()|
      ensures socket.answers ==
        if socket.connected && old(socket.answers) != [] then old(socket.answers)[1..] else old(socket.answers)
      ensures socket.sent == old(socket.sent) + ba.Flat()[old(ba.position)..ba.position]
    {
      hide *;
      rt := Offer(ba, length);
      if rt > 0 {
        var moved := ba.SetPosition(ba.position + rt);
      }
    }

    /** Where the loop stands: what was unread from `p` on has arrived behind `arrived`, up to the position. */
    ghost predicate Sending(ba: ByteArray, start: Sent, length: nat, left: nat)
      reads this, socket, ba, ba.Repr
    {
      var sending :=
        && ba.Valid() && ba.Flat() == start.flat && ba.size == start.size && left < SIZE_T
        && start.position <= ba.position <= |start.flat|
        && socket.sent == start.sent + start.flat[start.position..ba.position]
        && if socket.connected then Counts(start.answers, socket.answers, length, ba.position - start.position, left)
           else socket.answers == start.answers && ba.position == start.position;
      sending
    }

    lemma SendingStarts(ba: ByteArray, length: nat)
      requires ba.Valid() && length < SIZE_T
      ensures Sending(ba, Sent(ba.Flat(), ba.position, ba.size, socket.sent, socket.answers), length, length)
    {
      ba.FlatLength();
      CountsStart(socket.answers, length);
    }

    lemma SendingIs(ba: ByteArray, start: Sent, length: nat, left: nat)
      requires Sending(ba, start, length, left)
      ensures ba.Valid() && ba.Flat() == start.flat && ba.size == start.size && left < SIZE_T
      ensures start.position <= ba.position <= |start.flat|
      ensures socket.sent == start.sent + start.flat[start.position..ba.position]
      ensures if socket.connected then Counts(start.answers, socket.answers, length, ba.position - start.position, left)
              else socket.answers == start.answers && ba.position == start.position
    {
    }

    lemma SendingOn(ba: ByteArray, start: Sent, length: nat, left: nat, q: nat)
      requires ba.Valid() && ba.Flat() == start.flat && ba.size == start.size && left < SIZE_T
      requires start.position <= q <= ba.position <= |start.flat|
      requires socket.sent == start.sent + start.flat[start.position..q] + start.flat[q..ba.position]
      requires if socket.connected then Counts(start.answers, socket.answers, length, ba.position - start.position, left)
               else socket.answers == start.answers && ba.position == start.position
      ensures Sending(ba, start, length, left)
    {
      Slices(start.flat, start.position, q, ba.position);
      Regroup(start.sent, start.flat[start.position..q], start.flat[q..ba.position]);
    }

    /** No send so far has taken nothing. */
    ghost predicate NoneIdle(start: Sent)
      reads socket
    {
      !socket.connected || (|socket.answers| <= |start.answers| && 0 !in Used(start.answers, socket.answers))
    }

    /** The loop has ended because a send took nothing: nothing is unread, or the socket took none of it. */
    ghost predicate Idle(ba: ByteArray, start: Sent)
      reads socket, ba
    {
      && socket.connected && |socket.answers| <= |start.answers|
      && (ba.position == ba.size || 0 in Used(start.answers, socket.answers))
    }

    /** What the loop has done when it ends. */
    lemma SendingEnds(ba: ByteArray, start: Sent, length: nat, left: nat, r: nat)
      requires Sending(ba, start, length, left) && length < SIZE_T && r == if left == 0 then length else 0
      requires if left == 0 then NoneIdle(start) else Idle(ba, start)
      ensures ba.Valid() && ba.Flat() == start.flat && ba.size == start.size
      ensures start.position <= ba.position <= |ba.Flat()|
      ensures socket.sent == start.sent + ba.Flat()[start.position..ba.position]
      ensures |socket.answers| <= |start.answers|
      ensures socket.connected ==> Tallies(start.answers, socket.answers, length, ba.position - start.position, r)
      ensures !socket.connected ==> r == length && ba.position == start.position
      ensures socket.connected && Obliging(start.answers) && length <= start.size - start.position ==>
        r == length && ba.position == start.position + length
      ensures r != length ==> ba.position == ba.size || 0 in Used(start.answers, socket.answers)
      ensures socket.connected && 0 in Used(start.answers, socket.answers) ==> r == 0
      ensures socket.connected && 0 < length <= start.size - start.position && length + Failures(start.answers) < SIZE_T ==>
        (r == length && ba.position == start.position + length <==> Obliging(Used(start.answers, socket.answers)))
    {
      var taken, readable := ba.position - start.position, start.size - start.position;
      if socket.connected {
        CountsIs(start.answers, socket.answers, length, taken, left);
        if 0 < length <= readable && length + Failures(start.answers) < SIZE_T {
          TallyExactly(start.answers, socket.answers, length, taken, readable, r);
        }
      }
    }

    /** One turn of the loop. */
    method SendSome(ba: ByteArray, left: nat, ghost start: Sent, ghost length: nat) returns (len: nat, left': nat)
      requires Sending(ba, start, length, left) && 0 < left && NoneIdle(start)
      modifies socket, ba`position, ba`size, ba`cur
      ensures Sending(ba, start, length, left')
      ensures var turns, turns' := Turns(socket.connected, |old(socket.answers)|, left),
                                   Turns(socket.connected, |socket.answers|, left');
        0 < len ==> turns' < turns || (turns' == turns && left' < left)
      ensures |socket.answers| <= |old(socket.answers)|
      ensures socket.connected && old(socket.answers) != [] ==> |socket.answers| < |old(socket.answers)|
      ensures if len == 0 then left' == left && Idle(ba, start) else NoneIdle(start)
    {
      hide *;
      SendingIs(ba, start, length, left);
      TakesIs(ba, left);
      ghost var q, now := ba.position, socket.answers;
      NoneIdleIs(start);
      var rt := Write(ba, left);
      UnsignedIs(rt, left);
      len := Unsigned(rt);
      left' := Unsigned(left - len);
      if socket.connected {
        Turn(start.answers, now, length, q - start.position, left, rt, socket.answers);
      }
      TurnsFall(socket.connected, |now|, left, |socket.answers|, left');
      SendingOn(ba, start, length, left', q);
      IdleOr(ba, start, len);
    }

    lemma NoneIdleIs(start: Sent)
      requires NoneIdle(start)
      ensures socket.connected ==> |socket.answers| <= |start.answers| && 0 !in Used(start.answers, socket.answers)
    {
    }

    /** Whether the send took something. */
    lemma IdleOr(ba: ByteArray, start: Sent, len: nat)
      requires socket.connected ==> |socket.answers| <= |start.answers|
      requires socket.connected && len != 0 ==> 0 !in Used(start.answers, socket.answers)
      requires len == 0 ==> socket.connected && (ba.position == ba.size || 0 in Used(start.answers, socket.answers))
      ensures if len == 0 then Idle(ba, start) else NoneIdle(start)
    {
      hide Used;
    }

    /**
     * Repeats `Write` until `length` bytes are gone or nothing more is taken. The result of `Write` is stored in an
     * unsigned variable, so that a failure is no reason to stop: it makes one byte more left to write.
     *
     * However the socket splits the sends and whatever the block size, what arrives is the stored bytes passed over,
     * in order. The result is `length` exactly if the bytes passed over are `length` and one for every failure;
     * over a socket that is not connected it is `length`, and nothing arrives. Of bytes that can be read, exactly `length`
     * are sent and reported if and only if every send that was made took something.
     */
    method WriteFixSize(ba: ByteArray, length: nat) returns (r: nat)
      requires ba.Valid() && length < SIZE_T
      modifies socket, ba`position, ba`size, ba`cur
      ensures ba.Valid() && ba.Flat() == old(ba.Flat()) && ba.size == old(ba.size)
      ensures old(ba.position) <= ba.position <= |ba.Flat()|
      ensures socket.sent == old(socket.sent) + ba.Flat()[old(ba.position)..ba.position]
      ensures |socket.answers| <= |old(socket.answers)|
      ensures socket.connected ==>
        Tallies(old(socket.answers), socket.answers, length, ba.position - old(ba.position), r)
      ensures !socket.connected ==> r == length && ba.position == old(ba.position)
      ensures socket.connected && Obliging(old(socket.answers)) && length <= old(ba.ReadSize()) ==>
        r == length && ba.position == old(ba.position) + length
      ensures r != length ==> ba.position == ba.size || 0 in Used(old(socket.answers), socket.answers)
      ensures socket.connected && 0 in Used(old(socket.answers), socket.answers) ==> r == 0
      ensures 0 < length && socket.connected && old(socket.answers) != [] ==>
        |socket.answers| < |old(socket.answers)|
      ensures socket.connected && 0 < length <= old(ba.ReadSize()) && length + Failures(old(socket.answers)) < SIZE_T ==>
        (r == length && ba.position == old(ba.position) + length <==> Obliging(Used(old(socket.answers), socket.answers)))
    {
      hide *;
      ghost var start := Sent(ba.Flat(), ba.position, ba.size, socket.sent, socket.answers);
      ReadSizeIs(ba);
      SendingStarts(ba, length);
      NoneIdleYet(start);
      var left := length;
      while left > 0
        invariant Sending(ba, start, length, left) && NoneIdle(start)
        invariant !socket.connected || start.answers == [] || |socket.answers| < |start.answers| ||
                  (left == length && socket.answers == start.answers)
        decreases Turns(socket.connected, |socket.answers|, left), left
      {
        var len, next := SendSome(ba, left, start, length);
        if len <= 0 {
          SendingEnds(ba, start, length, left, 0);
          return len;
        }
        left := next;
      }
      SendingEnds(ba, start, length, left, length);
      r := length;
    }

    lemma NoneIdleYet(start: Sent)
      requires start.answers == socket.answers
      ensures NoneIdle(start)
    {
    }

    lemma ReadSizeIs(ba: ByteArray)
      requires ba.Valid()
      ensures ba.position <= ba.size && ba.ReadSize() == ba.size - ba.position
    {
    }
  }

  /** A failed send adds to what is sent: asked for two bytes, the stream sends three and reports two. */
  method FailedSend() returns (asked: nat, r: nat, passed: nat)
    ensures asked == 2 && r == 2 && passed == 3
  {
    var ba := new ByteArray(1);
    var written := ba.Write([7, 8, 9]);
    var moved := ba.SetPosition(0);
    var socket := new Socket(true, [-1]);
    var stream := new SocketStream(socket);
    asked := 2;
    r := stream.WriteFixSize(ba, asked);
    passed := ba.position;
    AllUsed(socket.answers);
  }

  lemma AllUsed(now: seq<int>)
    requires now == []
    ensures Used([-1], now) == [-1] && Failures([-1]) == 1
  {
    assert [-1][..0] == [];
  }
}

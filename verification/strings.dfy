/** The byte array's fixed-width numbers and length-prefixed strings, on top of `Write` and `Read`. */
module Strings {
  import opened Bytes
  import opened ByteArrays
  import opened Varints
  import opened Codecs

  // ----- fixed-width numbers

  function Pow256(w: nat): (p: nat)
    ensures 1 <= p
  {
    if w == 0 then 1 else 256 * Pow256(w - 1)
  }

  /** The low `w` bytes of a number in two's complement, lowest first. */
  function LowBytes(v: int, w: nat): (bs: seq<byte>)
    ensures |bs| == w
    decreases w
  {
    if w == 0 then [] else [v % 256] + LowBytes(v / 256, w - 1)
  }

  function LowValue(bs: seq<byte>): nat {
    if bs == [] then 0 else bs[0] + 256 * LowValue(bs[1..])
  }

  function Reverse(bs: seq<byte>): (r: seq<byte>)
    ensures |r| == |bs|
  {
    if bs == [] then [] else Reverse(bs[1..]) + [bs[0]]
  }

  /** A number cut to `w` bytes and stored in the byte order of the array; `big` unless it has been set little. */
  function Fixed(v: int, w: nat, big: bool): (bs: seq<byte>)
    ensures |bs| == w
  {
    if big then Reverse(LowBytes(v, w)) else LowBytes(v, w)
  }

  function FixedValue(bs: seq<byte>, big: bool): nat {
    LowValue(if big then Reverse(bs) else bs)
  }

  lemma {:induction false} ReverseLast(bs: seq<byte>, b: byte)
    ensures Reverse(bs + [b]) == [b] + Reverse(bs)
  {
    if bs != [] {
      ReverseLast(bs[1..], b);
      assert (bs + [b])[1..] == bs[1..] + [b];
    }
  }

  lemma {:induction false} ReverseTwice(bs: seq<byte>)
    ensures Reverse(Reverse(bs)) == bs
  {
    if bs != [] {
      ReverseTwice(bs[1..]);
      ReverseLast(Reverse(bs[1..]), bs[0]);
    }
  }

  /**
   * Which byte order is which: the first of big-endian bytes is the most significant, the first of little-endian ones the
   * least.
   */
  lemma ByteOrder(b: byte, bs: seq<byte>)
    ensures FixedValue([b] + bs, true) == b * Pow256(|bs|) + FixedValue(bs, true)
    ensures FixedValue([b] + bs, false) == b + 256 * FixedValue(bs, false)
    ensures FixedValue([], true) == FixedValue([], false) == 0
  {
    assert ([b] + bs)[1..] == bs;
    LowValueLast(Reverse(bs), b);
  }

  lemma {:induction false} LowValueLast(bs: seq<byte>, b: byte)
    ensures LowValue(bs + [b]) == LowValue(bs) + b * Pow256(|bs|)
  {
    if bs == [] {
      assert bs + [b] == [b];
    } else {
      assert (bs + [b])[1..] == bs[1..] + [b];
      LowValueLast(bs[1..], b);
    }
  }

  lemma {:induction false} LowValueBytes(v: int, w: nat)
    ensures LowValue(LowBytes(v, w)) == v % Pow256(w)
    decreases w
  {
    if w == 0 {
      assert v % 1 == 0;
    } else {
      LowValueBytes(v / 256, w - 1);
      SplitByte(v, Pow256(w - 1));
    }
  }

  lemma SplitByte(v: int, p: nat)
    requires 1 <= p
    ensures v % (256 * p) == v % 256 + 256 * (v / 256 % p)
  {
    var q := v / 256;
    assert q == p * (q / p) + q % p;
    assert v == 256 * q + v % 256;
    assert 256 * (p * (q / p)) == 256 * p * (q / p);
    DivModUnique(v, 256 * p, q / p, v % 256 + 256 * (q % p));
  }

  /** What `w` bytes mean as a signed number. */
  function AsSigned(u: nat, w: nat): int {
    if 2 * u < Pow256(w) then u else u - Pow256(w)
  }

  /** What `w` bytes mean as a number of the given signedness. */
  function FixedNumber(bs: seq<byte>, big: bool, signed: bool): int {
    if signed then AsSigned(FixedValue(bs, big), |bs|) else FixedValue(bs, big)
  }

  /** The numbers of the given width and signedness. */
  predicate InRange(v: int, w: nat, signed: bool) {
    if signed then 0 - Pow256(w) <= 2 * v < Pow256(w) else 0 <= v < Pow256(w)
  }

  /**
   * Reading a fixed-width number back gives the value written modulo the width's range, in either byte order; the
   * number itself comes back exactly if it is in the range of its width and signedness.
   */
  lemma FixedRoundTrip(v: int, w: nat, big: bool, signed: bool)
    ensures FixedValue(Fixed(v, w, big), big) == v % Pow256(w)
    ensures FixedNumber(Fixed(v, w, big), big, signed) == v <==> InRange(v, w, signed)
  {
    LowValueBytes(v, w);
    ReverseTwice(LowBytes(v, w));
    ModRange(v, Pow256(w));
  }

  lemma ModRange(v: int, m: nat)
    requires 1 <= m
    ensures 0 <= v % m < m && (0 <= v < m ==> v % m == v) && (0 - m <= v < 0 ==> v % m == v + m)
  {
    if 0 <= v < m {
      DivModUnique(v, m, 0, v);
    } else if 0 - m <= v < 0 {
      DivModUnique(v, m, -1, v + m);
    }
  }

  // ----- strings with a length before them

  /** How the length is stored: in `w` bytes, or as a varint. */
  datatype Prefix = Width(w: nat, big: bool) | Vint

  function StorePrefix(prefix: Prefix, len: nat): seq<byte> {
    match prefix
    case Width(w, big) => Fixed(len, w, big)
    case Vint => Varint(len)
  }

  /** What is read as the length. */
  function ParsePrefix(prefix: Prefix, bs: seq<byte>): Parsed {
    match prefix
    case Width(w, big) => if |bs| < w then Short else Done(FixedValue(bs[..w], big), w)
    case Vint => Parse(bs, 5)
  }

  /** The lengths a prefix can hold, as it is read back. */
  function PrefixLimit(prefix: Prefix): nat {
    match prefix
    case Width(w, _) => Pow256(w)
    case Vint => FIVE_GROUPS
  }

  lemma PrefixRoundTrip(prefix: Prefix, len: nat, rest: seq<byte>)
    requires len < WORD64
    ensures prefix.Width? ==>
      ParsePrefix(prefix, StorePrefix(prefix, len) + rest) == Done(len % PrefixLimit(prefix), |StorePrefix(prefix, len)|)
    ensures prefix.Vint? && len < FIVE_GROUPS ==>
      ParsePrefix(prefix, StorePrefix(prefix, len) + rest) == Done(len, |StorePrefix(prefix, len)|)
  {
    if prefix.Width? {
      FixedRoundTrip(len, prefix.w, prefix.big, false);
      assert (Fixed(len, prefix.w, prefix.big) + rest)[..prefix.w] == Fixed(len, prefix.w, prefix.big);
    } else {
      RoundTrip64(len, rest);
    }
  }

  datatype ParsedString = Text(text: seq<byte>, used: nat) | Fails

  function ParseString(prefix: Prefix, bs: seq<byte>): ParsedString {
    match ParsePrefix(prefix, bs)
    case Short => Fails
    case Done(len, n) => if n + len <= |bs| then Text(bs[n..n + len], n + len) else Fails
  }

  lemma ReadsBack(w: nat, big: bool, s: seq<byte>, rest: seq<byte>, len: nat)
    requires |s| < WORD64 && len == |s| % Pow256(w) <= |s|
    ensures ParseString(Width(w, big), StorePrefix(Width(w, big), |s|) + s + rest) == Text(s[..len], w + len)
  {
    hide *;
    var prefix := Width(w, big);
    PrefixFacts(w, big, |s|);
    PrefixRoundTrip(prefix, |s|, s + rest);
    Slices(StorePrefix(prefix, |s|), s, rest, len);
    ParsesTo(prefix, StorePrefix(prefix, |s|) + s + rest, w, len);
  }

  /**
   * Reading back a string written with a fixed-width length gives its first bytes, as many as its length modulo the
   * width's range, and leaves the rest of it to be read as what comes next. So the pair is exact precisely for
   * lengths the width can hold.
   */
  lemma StringRoundTrip(w: nat, big: bool, s: seq<byte>, rest: seq<byte>)
    requires |s| < WORD64
    ensures var prefix := Width(w, big); var len := |s| % Pow256(w);
      && len <= |s|
      && ParseString(prefix, StorePrefix(prefix, |s|) + s + rest) == Text(s[..len], w + len)
      && (ParseString(prefix, StorePrefix(prefix, |s|) + s + rest) == Text(s, w + |s|) <==> |s| < Pow256(w))
  {
    hide *;
    ModFits(|s|, Pow256(w));
    ReadsBack(w, big, s, rest, |s| % Pow256(w));
    assert s[..|s|] == s;
  }

  lemma PrefixFacts(w: nat, big: bool, len: nat)
    ensures PrefixLimit(Width(w, big)) == Pow256(w) && |StorePrefix(Width(w, big), len)| == w
  {
  }

  lemma ModFits(v: nat, m: nat)
    requires 1 <= m
    ensures v % m <= v && (v % m == v <==> v < m)
  {
    if v < m {
      ModSmall(v, m);
    } else {
      assert v % m < m;
    }
  }

  /** A string of which the length and the data are there. */
  lemma ParsesTo(prefix: Prefix, bs: seq<byte>, n: nat, len: nat)
    requires ParsePrefix(prefix, bs) == Done(len, n) && n + len <= |bs|
    ensures ParseString(prefix, bs) == Text(bs[n..n + len], n + len)
  {
    hide ParsePrefix;
  }

  lemma Slices(a: seq<byte>, s: seq<byte>, rest: seq<byte>, n: nat)
    requires n <= |s|
    ensures var bs := a + s + rest;
      bs == a + (s + rest) && |a| + n <= |bs| && bs[|a|..|a| + n] == s[..n] && (n == |s| ==> s[..n] == s)
  {
  }

  /** With a varint length the pair is exact precisely for strings the length of which fits in five groups. */
  lemma VintRoundTrip(s: seq<byte>, rest: seq<byte>)
    requires |s| < WORD64
    ensures ParseString(Vint, StorePrefix(Vint, |s|) + s + rest) == Text(s, |StorePrefix(Vint, |s|)| + |s|)
      <==> |s| < FIVE_GROUPS
  {
    assert 1 <= FIVE_GROUPS;
    hide *;
    var head := StorePrefix(Vint, |s|);
    StorePrefixIs(Vint, |s|);
    RoundTrip64(|s|, s + rest);
    ModFits(|s|, FIVE_GROUPS);
    Slices(head, s, rest, |s|);
    PrefixIs(Vint, head + (s + rest));
    ParsesOr(Vint, head + (s + rest));
    if |s| < FIVE_GROUPS {
      ParsesTo(Vint, head + s + rest, |head|, |s|);
    }
  }

  // ----- the writers and readers

  /** What has been written in two parts has been written in one. */
  lemma WrittenTwice(before: seq<byte>, p: nat, a: seq<byte>, middle: seq<byte>, b: seq<byte>, after: seq<byte>)
    requires Written(before, p, a, middle) && p + |a| <= |middle| && Written(middle, p + |a|, b, after)
    ensures Written(before, p, a + b, after)
  {
    assert after[..p] == after[..p + |a|][..p] == middle[..p + |a|][..p] == middle[..p];
    assert after[p..p + |a|] == after[..p + |a|][p..] == middle[..p + |a|][p..];
    assert after[p..p + |a + b|] == after[p..p + |a|] + after[p + |a|..p + |a| + |b|];
  }

  lemma StoredTwice(ba: ByteArray, before: seq<byte>, p: nat, size: nat, a: seq<byte>, middle: seq<byte>, b: seq<byte>)
    requires Written(before, p, a, middle) && p + |a| <= |middle|
    requires ba.Valid() && ba.position == p + |a| + |b| && Written(middle, p + |a|, b, ba.Flat())
    requires ba.size == if ba.position > size then ba.position else size
    ensures Stored(ba, before, p, size, a + b)
  {
    WrittenTwice(before, p, a, middle, b, ba.Flat());
    hide *;
    StoreIs(ba, before, p, size, a + b);
  }

  /** `writeFint8` to `writeFuint64`: the low `w` bytes of the number; fails exactly when the growth rule does. */
  method WriteFixed(ba: ByteArray, v: int, w: nat, big: bool) returns (ok: bool)
    requires ba.Valid()
    modifies ba, ba.Repr
    ensures fresh(ba.Repr - old(ba.Repr))
    ensures ok <==> GrowthSuffices(ba.baseSize, old(ba.capacity - ba.position), w)
    ensures ok ==> Stored(ba, old(ba.Flat()), old(ba.position), old(ba.size), Fixed(v, w, big))
    ensures ok ==> ba.capacity == old(ba.capacity) + Added(ba.baseSize, old(ba.capacity - ba.position), w)
  {
    hide *;
    ghost var before, p, size := ba.Flat(), ba.position, ba.size;
    ok := ba.Write(Fixed(v, w, big));
    if ok {
      StoreIs(ba, before, p, size, Fixed(v, w, big));
    }
  }

  /** Writes the length. */
  method WritePrefix(ba: ByteArray, prefix: Prefix, len: nat) returns (ok: bool)
    requires ba.Valid() && len < WORD64
    modifies ba, ba.Repr
    ensures fresh(ba.Repr - old(ba.Repr))
    ensures ok <==> GrowthSuffices(ba.baseSize, old(ba.capacity - ba.position), |StorePrefix(prefix, len)|)
    ensures ok ==> Stored(ba, old(ba.Flat()), old(ba.position), old(ba.size), StorePrefix(prefix, len))
    ensures ok ==>
      ba.capacity == old(ba.capacity) + Added(ba.baseSize, old(ba.capacity - ba.position), |StorePrefix(prefix, len)|)
  {
    StorePrefixIs(prefix, len);
    hide *;
    match prefix
    case Width(w, big) => ok := WriteFixed(ba, len, w, big);
    case Vint => ok := WriteUint64(ba, len);
  }

  lemma StorePrefixIs(prefix: Prefix, len: nat)
    ensures prefix.Width? ==> StorePrefix(prefix, len) == Fixed(len, prefix.w, prefix.big)
    ensures prefix.Vint? ==> StorePrefix(prefix, len) == Varint(len)
  {
  }

  lemma LeftIs(ba: ByteArray, n: nat)
    requires ba.Valid()
    ensures 1 <= ba.baseSize && ba.position <= ba.size <= ba.capacity
    ensures var free := ba.capacity - ba.position;
      GrowthSuffices(ba.baseSize, free, n) ==>
      Left(ba.baseSize, free, n) == free + Added(ba.baseSize, free, n) - n
  {
  }

  /** `writeStringF16`, `F32`, `F64` and `Vint`: the length, then the data; fails exactly when they do not fit. */
  method WriteString(ba: ByteArray, prefix: Prefix, s: seq<byte>) returns (ok: bool)
    requires ba.Valid() && |s| < WORD64
    modifies ba, ba.Repr
    ensures fresh(ba.Repr - old(ba.Repr))
    ensures ok <==> Fits(ba.baseSize, old(ba.capacity - ba.position), [|StorePrefix(prefix, |s|)|, |s|])
    ensures ok ==> Stored(ba, old(ba.Flat()), old(ba.position), old(ba.size), StorePrefix(prefix, |s|) + s)
  {
    hide *;
    ghost var before, p, size, head := ba.Flat(), ba.position, ba.size, StorePrefix(prefix, |s|);
    LeftIs(ba, |head|);
    FitsTwo(ba.baseSize, ba.capacity - ba.position, |head|, |s|);
    ok := WritePrefix(ba, prefix, |s|);
    if ok {
      StoredIs(ba, before, p, size, head);
      ghost var middle := ba.Flat();
      ok := ba.Write(s);
      if ok {
        StoredTwice(ba, before, p, size, head, middle, s);
      }
    }
  }

  /** Five groups hold less than 2^35, and no more bytes are used than there are. */
  lemma {:induction false} ParseBound(bs: seq<byte>, limit: nat)
    ensures Parse(bs, limit).Done? ==> Parse(bs, limit).value < Pow128(limit) && Parse(bs, limit).used <= |bs|
    decreases limit
  {
    if limit != 0 && bs != [] && 128 <= bs[0] {
      ParseBound(bs[1..], limit - 1);
      ParseUnfold(bs, limit);
    }
  }

  lemma PassedBy(ba: ByteArray, p: nat, rest: seq<byte>, n: nat)
    requires ba.Valid() && ba.position == p + n && p + |rest| == ba.size && p <= ba.size <= |ba.Flat()|
    requires rest == ba.Flat()[p..ba.size]
    ensures Passed(ba, p, rest, n)
  {
    UnreadIs(ba);
  }

  datatype ReadNumber = Number(v: int) | Missing

  /** `readFint8` to `readFuint64`. */
  method ReadFixed(ba: ByteArray, w: nat, big: bool, signed: bool) returns (r: ReadNumber)
    requires ba.Valid() && 1 <= w
    modifies ba`position, ba`cur
    ensures ba.Valid() && ba.Flat() == old(ba.Flat())
    ensures if |old(ba.Unread())| < w then r == Missing else
      && r == Number(FixedNumber(old(ba.Unread())[..w], big, signed))
      && Passed(ba, old(ba.position), old(ba.Unread()), w)
  {
    hide *;
    UnreadIs(ba);
    ghost var p, rest := ba.position, ba.Unread();
    var data := ba.Read(w);
    if data.OutOfRange? {
      return Missing;
    }
    assert data.bytes == rest[..w];
    r := Number(FixedNumber(data.bytes, big, signed));
    PassedBy(ba, p, rest, w);
  }

  /** Reads the length. */
  method ReadPrefix(ba: ByteArray, prefix: Prefix) returns (r: ReadInt)
    requires ba.Valid() && (prefix.Width? ==> 1 <= prefix.w <= 8)
    modifies ba`position, ba`cur
    ensures ba.Valid() && ba.Flat() == old(ba.Flat())
    ensures match ParsePrefix(prefix, old(ba.Unread()))
      case Short => r == NotEnough
      case Done(len, n) => r == Value(len) && Passed(ba, old(ba.position), old(ba.Unread()), n)
  {
    hide *;
    UnreadIs(ba);
    ghost var p, rest := ba.position, ba.Unread();
    PrefixIs(prefix, rest);
    match prefix
    case Width(w, big) =>
      var number := ReadFixed(ba, w, big, false);
      r := if number == Missing then NotEnough else Value(number.v);
    case Vint =>
      ParseBound(rest, 5);
      WordGroups();
      r := ReadUint64(ba);
      if r.Value? {
        PassedBy(ba, p, rest, Parse(rest, 5).used);
      }
  }

  lemma PrefixIs(prefix: Prefix, bs: seq<byte>)
    ensures prefix.Width? ==>
      ParsePrefix(prefix, bs)
        == if |bs| < prefix.w then Short else Done(FixedValue(bs[..prefix.w], prefix.big), prefix.w)
    ensures prefix.Width? && prefix.w <= |bs| ==>
      FixedNumber(bs[..prefix.w], prefix.big, false) == FixedValue(bs[..prefix.w], prefix.big)
    ensures prefix.Vint? ==> ParsePrefix(prefix, bs) == Parse(bs, 5)
    ensures Parse(bs, 5).Done? ==> Parse(bs, 5).value % WORD64 == Parse(bs, 5).value
  {
    ParseBound(bs, 5);
    WordGroups();
  }

  /**
   * `readStringF16`, `F32`, `F64` and `Vint`. An empty string that ends exactly at the capacity is not read back:
   * reading its zero bytes follows the null cursor.
   */
  method ReadString(ba: ByteArray, prefix: Prefix) returns (r: ReadResult)
    requires ba.Valid() && (prefix.Width? ==> 1 <= prefix.w <= 8)
    modifies ba`position, ba`cur
    ensures ba.Valid() && ba.Flat() == old(ba.Flat())
    ensures match ParseString(prefix, old(ba.Unread()))
      case Fails => r == OutOfRange
      case Text(text, used) =>
        && ba.position == old(ba.position) + used
        && r == if text == [] && ba.position == ba.capacity then NullCursor else Data(text)
  {
    hide *;
    ghost var p, rest := ba.position, ba.Unread();
    var len := ReadPrefix(ba, prefix);
    ParsesOr(prefix, rest);
    if len == NotEnough {
      return OutOfRange;
    }
    StillUnread(ba, p, rest, ParsePrefix(prefix, rest).used);
    r := ba.Read(len.v);
  }

  lemma ParsesOr(prefix: Prefix, bs: seq<byte>)
    ensures match ParsePrefix(prefix, bs)
      case Short => ParseString(prefix, bs) == Fails
      case Done(len, n) =>
        ParseString(prefix, bs) == if n + len <= |bs| then Text(bs[n..n + len], n + len) else Fails
  {
    hide ParsePrefix;
  }

  /** After `n` unread bytes have been passed, the next ones are those that followed them. */
  lemma StillUnread(ba: ByteArray, p: nat, rest: seq<byte>, n: nat)
    requires ba.Valid() && Passed(ba, p, rest, n)
    ensures ba.position == p + n && n <= |rest| && ba.size - ba.position == |rest| - n
    ensures |ba.Flat()| == ba.capacity && ba.size <= ba.capacity
    ensures forall k :: n <= k <= |rest| ==> ba.Flat()[ba.position..ba.position + (k - n)] == rest[n..k]
  {
    UnreadIs(ba);
    var unread := ba.Unread();
    forall k | n <= k <= |rest|
      ensures ba.Flat()[ba.position..ba.position + (k - n)] == rest[n..k]
    {
      assert rest[n..k] == unread[..k - n];
    }
  }
}

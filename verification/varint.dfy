/** The variable-length integer format as functions on byte sequences, and what reading back gives. */
module Varints {
  import opened Bytes
  import opened Wrappers

  const WORD32 := 0x1_0000_0000
  const WORD64 := 0x1_0000_0000_0000_0000

  /** What five 7-bit groups can hold. */
  const FIVE_GROUPS := 0x8_0000_0000

  function Pow128(k: nat): (p: nat)
    ensures 1 <= p
  {
    if k == 0 then 1 else 128 * Pow128(k - 1)
  }

  /** Seven bits a byte, lowest first, the top bit set on all but the last. */
  function Varint(v: nat): (bs: seq<byte>) {
    if v < 128 then [v] else [v % 128 + 128] + Varint(v / 128)
  }

  datatype Parsed = Done(value: nat, used: nat) | Short

  /** Reads groups until one has its top bit clear, or `limit` groups have been read. */
  function Parse(bs: seq<byte>, limit: nat): Parsed
    decreases limit
  {
    if limit == 0 then Done(0, 0)
    else if bs == [] then Short
    else if bs[0] < 128 then Done(bs[0], 1)
    else After(bs[0] % 128, 128, 1, Parse(bs[1..], limit - 1))
  }

  /** The parse result once `used` groups worth `low` precede what `rest` describes. */
  function After(low: nat, scale: nat, used: nat, rest: Parsed): Parsed {
    match rest
    case Done(v, n) => Done(low + scale * v, used + n)
    case Short => Short
  }

  /** Which bits a byte has: group `i` is the value's digit `i` to the base 128, and all bytes but the last say that more follow. */
  lemma {:induction false} VarintByte(v: nat, i: nat)
    requires i < |Varint(v)|
    ensures Varint(v)[i] == v / Pow128(i) % 128 + if i == |Varint(v)| - 1 then 0 else 128
    ensures i == |Varint(v)| - 1 <==> v / Pow128(i) < 128
    decreases i
  {
    if i == 0 {
      assert v / Pow128(0) == v;
    } else {
      VarintByte(v / 128, i - 1);
      DivTwice(v, Pow128(i - 1));
    }
  }

  lemma DivTwice(v: nat, p: nat)
    requires 1 <= p
    ensures v / 128 / p == v / (128 * p)
  {
    var q := v / 128 / p;
    assert v / 128 == p * q + v / 128 % p;
    assert 0 <= v - 128 * p * q < 128 * p;
    DivModUnique(v, 128 * p, q, v - 128 * p * q);
  }

  /** A value below `128^k` takes at most `k` bytes: 32-bit values fit in 5, 64-bit values in 10. */
  lemma {:induction false} VarintLength(v: nat, k: nat)
    requires v < Pow128(k) && 1 <= k
    ensures 1 <= |Varint(v)| <= k
  {
    if 128 <= v {
      assert Pow128(1) == 128 * Pow128(0);
      VarintLength(v / 128, k - 1);
    }
  }

  lemma WordGroups()
    ensures Pow128(5) == FIVE_GROUPS && WORD32 <= Pow128(5) && WORD64 <= Pow128(10)
  {
    assert Pow128(1) == 128 && Pow128(2) == 128 * 128 && Pow128(3) == 128 * 128 * 128;
    assert Pow128(4) == 0x1000_0000;
    assert Pow128(6) == 128 * FIVE_GROUPS;
    assert Pow128(7) == 128 * 128 * FIVE_GROUPS;
    assert Pow128(8) == 128 * 128 * 128 * FIVE_GROUPS;
    assert Pow128(9) == 0x1000_0000 * FIVE_GROUPS;
  }

  lemma ParseCons(b: byte, bs: seq<byte>, limit: nat)
    requires 128 <= b && 1 <= limit
    ensures Parse([b] + bs, limit) == After(b % 128, 128, 1, Parse(bs, limit - 1))
  {
    assert ([b] + bs)[1..] == bs;
  }

  /** Reading at most `limit` groups of an encoding gives the value modulo `128^limit`, whatever follows. */
  lemma {:induction false} ParseVarint(v: nat, rest: seq<byte>, limit: nat)
    requires 1 <= limit
    ensures Parse(Varint(v) + rest, limit)
         == Done(v % Pow128(limit), if |Varint(v)| <= limit then |Varint(v)| else limit)
  {
    PowStep(limit);
    VarintUnfold(v);
    hide *;
    var p := Pow128(limit - 1);
    if v < 128 {
      ModSmall(v, 128 * p);
      ParseLast(v, rest, limit);
    } else {
      ModStep(v, p);
      if limit == 1 {
        ModOne(v / 128, p);
        ParseMore(v, rest, limit, 0, 0);
      } else {
        ParseVarint(v / 128, rest, limit - 1);
        ParseMore(v, rest, limit, v / 128 % p, if |Varint(v / 128)| <= limit - 1 then |Varint(v / 128)| else limit - 1);
      }
    }
  }

  lemma PowStep(k: nat)
    requires 1 <= k
    ensures Pow128(k) == 128 * Pow128(k - 1) && Pow128(0) == 1
  {
  }

  lemma ParseLast(v: nat, rest: seq<byte>, limit: nat)
    requires v < 128 && 1 <= limit
    ensures Parse(Varint(v) + rest, limit) == Done(v, 1) && |Varint(v)| == 1
  {
  }

  lemma ParseMore(v: nat, rest: seq<byte>, limit: nat, q: nat, n: nat)
    requires 128 <= v && 1 <= limit
    requires limit == 1 ==> q == n == 0
    requires limit > 1 ==> Parse(Varint(v / 128) + rest, limit - 1) == Done(q, n)
    ensures Parse(Varint(v) + rest, limit) == Done(v % 128 + 128 * q, n + 1)
  {
    assert Varint(v) + rest == [v % 128 + 128] + (Varint(v / 128) + rest);
    ParseCons(v % 128 + 128, Varint(v / 128) + rest, limit);
  }

  lemma VarintUnfold(v: nat)
    ensures 1 <= |Varint(v)|
    ensures 128 <= v ==> Varint(v) == [v % 128 + 128] + Varint(v / 128) && 1 <= |Varint(v / 128)|
  {
  }

  lemma ModOne(v: nat, m: nat)
    requires m == 1
    ensures v % m == 0
  {
  }

  lemma ModSmall(v: nat, m: nat)
    requires v < m
    ensures v % m == v
  {
  }

  lemma ModStep(v: nat, p: nat)
    requires 1 <= p
    ensures v % (128 * p) == v % 128 + 128 * (v / 128 % p)
  {
    var q := v / 128;
    var r := v % 128 + 128 * (q % p);
    assert q == p * (q / p) + q % p;
    assert v == 128 * q + v % 128;
    assert 128 * (p * (q / p)) == 128 * p * (q / p);
    assert v == 128 * p * (q / p) + r;
    assert q % p <= p - 1;
    DivModUnique(v, 128 * p, q / p, r);
  }

  /** The 32-bit reader undoes the 32-bit writer and uses exactly the bytes written. */
  lemma RoundTrip32(v: nat, rest: seq<byte>)
    requires v < WORD32
    ensures Parse(Varint(v) + rest, 5) == Done(v, |Varint(v)|) && |Varint(v)| <= 5
  {
    WordGroups();
    hide *;
    VarintLength(v, 5);
    ParseVarint(v, rest, 5);
    ModSmall(v, FIVE_GROUPS);
  }

  /** The 64-bit reader gives the value modulo 2^35; it undoes the writer exactly below 2^35. */
  lemma RoundTrip64(v: nat, rest: seq<byte>)
    requires v < WORD64
    ensures Parse(Varint(v) + rest, 5)
         == Done(v % FIVE_GROUPS, if |Varint(v)| <= 5 then |Varint(v)| else 5)
    ensures Parse(Varint(v) + rest, 5) == Done(v, |Varint(v)|) <==> v < FIVE_GROUPS
  {
    WordGroups();
    ParseVarint(v, rest, 5);
    hide *;
    if v < FIVE_GROUPS {
      VarintLength(v, 5);
      ModSmall(v, FIVE_GROUPS);
    } else {
      assert v % FIVE_GROUPS < FIVE_GROUPS;
    }
  }

  // ----- zigzag

  type int32 = x: int | -0x8000_0000 <= x < 0x8000_0000
  type int64 = x: int | -0x8000_0000_0000_0000 <= x < 0x8000_0000_0000_0000
  type uint32 = x: int | 0 <= x < WORD32
  type uint64 = x: int | 0 <= x < WORD64

  /** Two's-complement reinterpretation. */
  function Signed32(u: uint32): int32 {
    if u < 0x8000_0000 then u else u - WORD32
  }

  function Signed64(u: uint64): int64 {
    if u < 0x8000_0000_0000_0000 then u else u - WORD64
  }

  /** `((uint32_t)(-v)) * 2 - 1` and `v * 2`, each wrapped to 32 bits. */
  function EncodeZigzag32(v: int32): uint32 {
    if v < 0 then ((0 - v) % WORD32 * 2 - 1) % WORD32 else v * 2 % WORD32
  }

  /** `(v >> 1) ^ -(v & 1)`: the mask is all zeros or all ones, so the exclusive or copies or complements. */
  function DecodeZigzag32(u: uint32): int32 {
    Signed32(if u % 2 == 0 then u / 2 else WORD32 - 1 - u / 2)
  }

  /** Zigzag is a bijection between the signed and unsigned 32-bit values, small magnitudes first. */
  lemma ZigzagBijection(v: int32, u: uint32)
    ensures DecodeZigzag32(EncodeZigzag32(v)) == v
    ensures EncodeZigzag32(DecodeZigzag32(u)) == u
    ensures EncodeZigzag32(v) == if v < 0 then -2 * v - 1 else 2 * v
  {
    EncodeIs(v);
    DecodeIs(EncodeZigzag32(v));
    DecodeIs(u);
    EncodeIs(DecodeZigzag32(u));
  }

  /** Both encodings without the wraps, which never bite; the most negative value relies on its own. */
  lemma EncodeIs(v: int32)
    ensures EncodeZigzag32(v) == if v < 0 then -2 * v - 1 else 2 * v
  {
  }

  lemma DecodeIs(u: uint32)
    ensures DecodeZigzag32(u) == if u % 2 == 0 then u / 2 else -(u / 2) - 1
  {
  }

  /** The parameter is unsigned, so the sign test never fires: negative values are doubled with wrap-around. */
  function EncodeZigzag64(v: uint64): uint64 {
    v * 2 % WORD64
  }

  function DecodeZigzag64(u: uint64): int64 {
    Signed64(if u % 2 == 0 then u / 2 else WORD64 - 1 - u / 2)
  }

  /** The 64-bit decoder undoes what a signed encoder would do; the encoder doubles what it is given. */
  lemma Zigzag64(v: int64, u: uint64)
    ensures DecodeZigzag64(if v < 0 then -2 * v - 1 else 2 * v) == v
    ensures EncodeZigzag64(u) == if u < 0x8000_0000_0000_0000 then 2 * u else 2 * (u - 0x8000_0000_0000_0000)
  {
    if v < 0 {
      assert (-2 * v - 1) % 2 == 1 && (-2 * v - 1) / 2 == 0 - v - 1;
    } else {
      assert 2 * v % 2 == 0 && 2 * v / 2 == v;
    }
  }

  /** What `readInt64` returns for the bytes `writeInt64` wrote, whatever follows them. */
  function ReadBackInt64(v: int64, rest: seq<byte>): Option<int64> {
    match Parse(Varint(EncodeZigzag64(v % WORD64)) + rest, 5)
    case Done(u, _) => Some(DecodeZigzag64(u % WORD64))
    case Short => None
  }

  /** The signed 64-bit pair is exact precisely for 0 <= v < 2^34. */
  lemma Int64Exact(v: int64, rest: seq<byte>)
    ensures ReadBackInt64(v, rest) == Some(v) <==> 0 <= v < 0x4_0000_0000
  {
    var u := v % WORD64;
    assert 0 <= v ==> u == v;
    ReadBackIs(u);
    hide Parse, Varint, EncodeZigzag64, DecodeZigzag64;
    RoundTrip64(EncodeZigzag64(u), rest);
    ModSmall(EncodeZigzag64(u) % FIVE_GROUPS, WORD64);
  }

  /** Doubled, cut to five groups, halved. */
  lemma ReadBackIs(u: uint64)
    ensures DecodeZigzag64(EncodeZigzag64(u) % FIVE_GROUPS) == u % 0x4_0000_0000
  {
    var e := EncodeZigzag64(u);
    assert e == 2 * (u % 0x8000_0000_0000_0000);
    assert e % FIVE_GROUPS == 2 * (u % 0x4_0000_0000);
  }

  // ----- sequences of 32-bit values

  datatype Item = Unsigned(u: uint32) | Signed(s: int32)

  /** What the writer stores for one item. */
  function Encode(item: Item): seq<byte> {
    Varint(match item case Unsigned(u) => u case Signed(s) => EncodeZigzag32(s))
  }

  /** What the reader of the given signedness makes of a parsed number. */
  function Interpret(signed: bool, v: nat): Item {
    var u := v % WORD32;
    if signed then Signed(DecodeZigzag32(u)) else Unsigned(u)
  }

  function EncodeAll(items: seq<Item>): seq<byte> {
    if items == [] then [] else Encode(items[0]) + EncodeAll(items[1..])
  }

  datatype ParsedItems = Items(items: seq<Item>, used: nat) | Failed

  /** Reads one item per entry of `kinds` (true for signed). */
  function ParseAll(bs: seq<byte>, kinds: seq<bool>): ParsedItems
    decreases |kinds|
  {
    if kinds == [] then Items([], 0) else
    match Parse(bs, 5)
    case Short => Failed
    case Done(v, n) =>
      if n > |bs| then Failed else
      match ParseAll(bs[n..], kinds[1..])
      case Failed => Failed
      case Items(rest, m) => Items([Interpret(kinds[0], v)] + rest, n + m)
  }

  function Kinds(items: seq<Item>): seq<bool> {
    seq(|items|, i requires 0 <= i < |items| => items[i].Signed?)
  }

  lemma ParseItem(item: Item, rest: seq<byte>)
    ensures 1 <= |Encode(item)| <= 5
    ensures exists v: nat :: Parse(Encode(item) + rest, 5) == Done(v, |Encode(item)|) && Interpret(item.Signed?, v) == item
  {
    var v: uint32 := match item case Unsigned(u) => u case Signed(s) => EncodeZigzag32(s);
    RoundTrip32(v, rest);
    WordGroups();
    VarintLength(v, 5);
    if item.Signed? {
      ZigzagBijection(item.s, 0);
    }
    assert v % WORD32 == v;
    assert Interpret(item.Signed?, v) == item;
  }

  /** Reading back any list of 32-bit values gives the list and uses exactly the bytes written, at most five each. */
  lemma {:induction false} RoundTripAll(items: seq<Item>, rest: seq<byte>)
    ensures ParseAll(EncodeAll(items) + rest, Kinds(items)) == Items(items, |EncodeAll(items)|)
    ensures |EncodeAll(items)| <= 5 * |items|
  {
    hide ParseAll, Encode, Parse, Interpret, Kinds;
    if items == [] {
      NothingParsed(rest);
    } else {
      var tail := EncodeAll(items[1..]) + rest;
      ParseItem(items[0], tail);
      RoundTripAll(items[1..], rest);
      KindsOf(items);
      Regroup(Encode(items[0]), EncodeAll(items[1..]), rest);
      ParseAllStep(Encode(items[0]) + tail, Kinds(items), items[0], tail);
      assert [items[0]] + items[1..] == items;
    }
  }

  lemma Regroup(a: seq<byte>, b: seq<byte>, c: seq<byte>)
    ensures a + b + c == a + (b + c)
  {
  }

  lemma NothingParsed(rest: seq<byte>)
    ensures EncodeAll([]) + rest == rest && Kinds([]) == [] && ParseAll(rest, []) == Items([], 0)
  {
  }

  lemma KindsOf(items: seq<Item>)
    requires items != []
    ensures Kinds(items) != [] && Kinds(items)[0] == items[0].Signed? && Kinds(items)[1..] == Kinds(items[1..])
  {
  }

  lemma ParseAllStep(bs: seq<byte>, kinds: seq<bool>, item: Item, tail: seq<byte>)
    requires kinds != [] && kinds[0] == item.Signed? && bs == Encode(item) + tail
    requires ParseAll(tail, kinds[1..]).Items?
    ensures ParseAll(bs, kinds) == Items([item] + ParseAll(tail, kinds[1..]).items, |Encode(item)| + ParseAll(tail, kinds[1..]).used)
  {
    ParseItem(item, tail);
    assert bs[|Encode(item)|..] == tail;
  }
}

/** The byte array's varint writers and readers, on top of `Write` and `Read`. */
module Codecs {
  import opened Bytes
  import opened ByteArrays
  import opened Varints

  datatype ReadInt = Value(v: nat) | NotEnough

  /** Fills `tmp` with the groups of `value`; the buffers of 5 and 10 bytes are never overrun. */
  method PutGroups(value: nat, tmp: array<byte>) returns (i: nat)
    requires 1 <= tmp.Length && value < Pow128(tmp.Length)
    modifies tmp
    ensures i <= tmp.Length && tmp[..i] == Varint(value)
  {
    var v: nat := value;
    i := 0;
    while v >= 0x80
      invariant i < tmp.Length && v < Pow128(tmp.Length - i)
      invariant tmp[..i] + Varint(v) == Varint(value)
      decreases v
    {
      VarintLength(v, tmp.Length - i);
      assert Pow128(1) == 128 * Pow128(0);
      tmp[i] := v % 0x80 + 0x80;
      i := i + 1;
      assert tmp[..i] == tmp[..i - 1] + [v % 0x80 + 0x80];
      v := v / 0x80;
    }
    tmp[i] := v;
    i := i + 1;
    assert tmp[..i] == tmp[..i - 1] + [v];
  }

  /** Writes the varint of a 32-bit value at the position; fails exactly when the growth rule does. */
  method WriteUint32(ba: ByteArray, value: uint32) returns (ok: bool)
    requires ba.Valid()
    modifies ba, ba.Repr
    ensures fresh(ba.Repr - old(ba.Repr))
    ensures ok <==> GrowthSuffices(ba.baseSize, old(ba.capacity - ba.position), |Varint(value)|)
    ensures ok ==> Stored(ba, old(ba.Flat()), old(ba.position), old(ba.size), Varint(value))
    ensures ok ==> ba.capacity == old(ba.capacity) + Added(ba.baseSize, old(ba.capacity - ba.position), |Varint(value)|)
  {
    WordGroups();
    var tmp := new byte[5];
    var i := PutGroups(value, tmp);
    ok := ba.Write(tmp[..i]);
  }

  /** Writes the varint of a 64-bit value at the position; fails exactly when the growth rule does. */
  method WriteUint64(ba: ByteArray, value: uint64) returns (ok: bool)
    requires ba.Valid()
    modifies ba, ba.Repr
    ensures fresh(ba.Repr - old(ba.Repr))
    ensures ok <==> GrowthSuffices(ba.baseSize, old(ba.capacity - ba.position), |Varint(value)|)
    ensures ok ==> Stored(ba, old(ba.Flat()), old(ba.position), old(ba.size), Varint(value))
    ensures ok ==> ba.capacity == old(ba.capacity) + Added(ba.baseSize, old(ba.capacity - ba.position), |Varint(value)|)
  {
    WordGroups();
    var tmp := new byte[10];
    var i := PutGroups(value, tmp);
    ok := ba.Write(tmp[..i]);
  }

  /** The array after a successful write of `bytes` at `p`. */
  ghost predicate Stored(ba: ByteArray, before: seq<byte>, p: nat, size: nat, bytes: seq<byte>)
    reads ba, ba.Repr
  {
    && ba.Valid() && ba.position == p + |bytes|
    && ba.size == (if ba.position > size then ba.position else size)
    && Written(before, p, bytes, ba.Flat())
  }

  lemma UnreadIs(ba: ByteArray)
    requires ba.Valid()
    ensures |ba.Flat()| == ba.capacity && ba.position <= ba.size <= ba.capacity
    ensures ba.Unread() == ba.Flat()[ba.position..ba.size]
  {
    ba.FlatLength();
  }

  lemma StoreIs(ba: ByteArray, before: seq<byte>, p: nat, size: nat, bytes: seq<byte>)
    requires ba.Valid() && ba.position == p + |bytes| && Written(before, p, bytes, ba.Flat())
    requires ba.size == (if ba.position > size then ba.position else size)
    ensures Stored(ba, before, p, size, bytes)
  {
  }

  lemma StoredIs(ba: ByteArray, before: seq<byte>, p: nat, size: nat, bytes: seq<byte>)
    requires Stored(ba, before, p, size, bytes)
    ensures ba.Valid() && ba.position == p + |bytes| && |ba.Flat()| == ba.capacity
    ensures ba.size == (if ba.position > size then ba.position else size)
    ensures Written(before, p, bytes, ba.Flat())
  {
    ba.FlatLength();
  }

  /** `readFint8`: the next unread byte. */
  method ReadByte(ba: ByteArray) returns (r: ReadInt)
    requires ba.Valid()
    modifies ba`position, ba`cur
    ensures ba.Valid() && ba.Flat() == old(ba.Flat())
    ensures old(ba.Unread()) == [] ==> r == NotEnough && ba.Unread() == [] && ba.position == old(ba.position)
    ensures old(ba.Unread()) != [] ==>
      && r == Value(old(ba.Unread())[0])
      && ba.Unread() == old(ba.Unread())[1..] && ba.position == old(ba.position) + 1
  {
    ba.FlatLength();
    var one := ba.Read(1);
    r := if one.OutOfRange? then NotEnough else Value(one.bytes[0]);
  }

  /** A group at its place in the number. */
  function Shifted(group: nat, scale: nat): nat {
    group * scale
  }

  /** An unsigned number of limited range. */
  function Wrap(v: nat, word: nat): nat
    requires 1 <= word
  {
    v % word
  }

  /** After `i` groups worth `acc`, what is left of the parse of `bs`. */
  ghost predicate InGroups(bs: seq<byte>, i: nat, acc: nat, scale: nat, rest: seq<byte>) {
    i <= 5 && Parse(bs, 5) == After(acc, scale, i, Parse(rest, 5 - i))
  }

  lemma GroupShort(bs: seq<byte>, i: nat, acc: nat, scale: nat)
    requires InGroups(bs, i, acc, scale, []) && i < 5
    ensures Parse(bs, 5) == Short
  {
  }

  lemma GroupLast(bs: seq<byte>, i: nat, acc: nat, scale: nat, rest: seq<byte>)
    requires InGroups(bs, i, acc, scale, rest) && rest != [] && rest[0] < 128 && i < 5
    ensures Parse(bs, 5) == Done(acc + Shifted(rest[0], scale), i + 1)
  {
  }

  lemma GroupMore(bs: seq<byte>, i: nat, acc: nat, scale: nat, rest: seq<byte>)
    requires InGroups(bs, i, acc, scale, rest) && rest != [] && 128 <= rest[0] && i < 5
    ensures InGroups(bs, i + 1, acc + Shifted(rest[0] % 128, scale), scale * 128, rest[1..])
  {
    ParseUnfold(rest, 5 - i);
    AfterAfter(acc, scale, i, rest[0] % 128, Parse(rest[1..], 5 - i - 1));
  }

  lemma ParseUnfold(rest: seq<byte>, limit: nat)
    requires rest != [] && 128 <= rest[0] && 1 <= limit
    ensures Parse(rest, limit) == After(rest[0] % 128, 128, 1, Parse(rest[1..], limit - 1))
  {
  }

  lemma AfterAfter(acc: nat, scale: nat, i: nat, b: nat, p: Parsed)
    ensures After(acc, scale, i, After(b, 128, 1, p)) == After(acc + b * scale, scale * 128, i + 1, p)
  {
    if p.Done? {
      Distribute(scale, b, p.value);
    }
  }

  lemma Distribute(scale: nat, b: nat, v: nat)
    ensures scale * (b + 128 * v) == b * scale + scale * 128 * v
  {
    assert scale * (b + 128 * v) == scale * b + scale * (128 * v);
  }

  lemma GroupsDone(bs: seq<byte>, acc: nat, scale: nat, rest: seq<byte>)
    requires InGroups(bs, 5, acc, scale, rest)
    ensures Parse(bs, 5) == Done(acc, 5)
  {
    assert scale * 0 == 0;
  }

  lemma ModAdd(a: nat, b: nat, m: nat)
    requires 1 <= m
    ensures Wrap(Wrap(a, m) + b, m) == Wrap(a + b, m)
  {
    var q := a / m;
    assert a == m * q + a % m;
    var t := a % m + b;
    assert a + b == m * q + t;
    assert t == m * (t / m) + t % m;
    assert m * q + m * (t / m) == m * (q + t / m);
    DivModUnique(a + b, m, q + t / m, t % m);
  }

  /**
   * The group reader of both widths: at most five groups, accumulated modulo the word size. Running out of
   * data is the `out_of_range` exception, with everything readable already consumed.
   */
  method ReadGroups(ba: ByteArray, word: nat) returns (r: ReadInt)
    requires ba.Valid() && 1 <= word
    modifies ba`position, ba`cur
    ensures ba.Valid() && ba.Flat() == old(ba.Flat())
    ensures match Parse(old(ba.Unread()), 5)
            case Done(v, n) => r == Value(Wrap(v, word)) && ba.position == old(ba.position) + n
            case Short => r == NotEnough && ba.Unread() == []
  {
    ghost var bs, flat, p := ba.Unread(), ba.Flat(), ba.position;
    var result: nat := 0;
    var scale: nat := 1;
    ghost var acc: nat := 0;
    var i: nat := 0;
    GroupsStart(bs, word);
    hide *;
    while i < 5
      invariant i <= 5 && ba.Valid() && ba.Flat() == flat && ba.position == p + i
      invariant InGroups(bs, i, acc, scale, ba.Unread()) && result == Wrap(acc, word)
    {
      ghost var rest := ba.Unread();
      var b := ReadByte(ba);
      if b.NotEnough? {
        GroupShort(bs, i, acc, scale);
        return NotEnough;
      }
      if b.v < 0x80 {
        GroupLast(bs, i, acc, scale, rest);
        ModAdd(acc, Shifted(b.v, scale), word);
        return Value(Wrap(result + Shifted(b.v, scale), word));
      }
      GroupMore(bs, i, acc, scale, rest);
      ModAdd(acc, Shifted(b.v % 0x80, scale), word);
      result := Wrap(result + Shifted(b.v % 0x80, scale), word);
      acc := acc + Shifted(b.v % 0x80, scale);
      scale := scale * 0x80;
      i := i + 1;
    }
    GroupsDone(bs, acc, scale, ba.Unread());
    r := Value(result);
  }

  lemma GroupsStart(bs: seq<byte>, word: nat)
    requires 1 <= word
    ensures InGroups(bs, 0, 0, 1, bs) && Wrap(0, word) == 0
  {
  }

  method ReadUint32(ba: ByteArray) returns (r: ReadInt)
    requires ba.Valid()
    modifies ba`position, ba`cur
    ensures ba.Valid() && ba.Flat() == old(ba.Flat())
    ensures match Parse(old(ba.Unread()), 5)
            case Done(v, n) => r == Value(v % WORD32) && ba.position == old(ba.position) + n
            case Short => r == NotEnough && ba.Unread() == []
  {
    r := ReadGroups(ba, WORD32);
  }

  method ReadUint64(ba: ByteArray) returns (r: ReadInt)
    requires ba.Valid()
    modifies ba`position, ba`cur
    ensures ba.Valid() && ba.Flat() == old(ba.Flat())
    ensures match Parse(old(ba.Unread()), 5)
            case Done(v, n) => r == Value(v % WORD64) && ba.position == old(ba.position) + n
            case Short => r == NotEnough && ba.Unread() == []
  {
    r := ReadGroups(ba, WORD64);
  }

  /** The array after `n` of the bytes `rest` unread at `p` have been read. */
  ghost predicate Passed(ba: ByteArray, p: nat, rest: seq<byte>, n: nat)
    requires ba.Valid()
    reads ba, ba.Repr
  {
    ba.position == p + n && n <= |rest| && ba.Unread() == rest[n..]
  }

  lemma PassedIs(ba: ByteArray, p: nat, rest: seq<byte>, n: nat)
    requires ba.Valid() && Passed(ba, p, rest, n)
    ensures ba.position == p + n && n <= |rest| && ba.Unread() == rest[n..]
  {
  }

  /** `writeInt32` and `writeUint32`. */
  method WriteItem(ba: ByteArray, item: Item) returns (ok: bool)
    requires ba.Valid()
    modifies ba, ba.Repr
    ensures fresh(ba.Repr - old(ba.Repr))
    ensures ok <==> GrowthSuffices(ba.baseSize, old(ba.capacity - ba.position), |Encode(item)|)
    ensures ok ==> Stored(ba, old(ba.Flat()), old(ba.position), old(ba.size), Encode(item))
    ensures ok ==> ba.capacity == old(ba.capacity) + Added(ba.baseSize, old(ba.capacity - ba.position), |Encode(item)|)
  {
    match item
    case Unsigned(u) => ok := WriteUint32(ba, u);
    case Signed(s) => ok := WriteUint32(ba, EncodeZigzag32(s));
  }

  datatype ReadItems = GotItems(items: seq<Item>) | NoItems

  /** `readInt32` (signed) and `readUint32`. */
  method ReadItem(ba: ByteArray, signed: bool) returns (r: ReadItems)
    requires ba.Valid()
    modifies ba`position, ba`cur
    ensures ba.Valid() && ba.Flat() == old(ba.Flat())
    ensures match Parse(old(ba.Unread()), 5)
            case Done(v, n) => r == GotItems([Interpret(signed, v)]) && Passed(ba, old(ba.position), old(ba.Unread()), n)
            case Short => r == NoItems
  {
    ba.FlatLength();
    ghost var p := ba.position;
    var u := ReadUint32(ba);
    if u.NotEnough? {
      return NoItems;
    }
    assert ba.Flat()[p..ba.size][ba.position - p..] == ba.Flat()[ba.position..ba.size];
    r := GotItems([if signed then Signed(DecodeZigzag32(u.v)) else Unsigned(u.v)]);
  }

  /** How many bytes each item takes. */
  function Lengths(items: seq<Item>): (lengths: seq<nat>)
    ensures |lengths| == |items|
  {
    if items == [] then [] else [|Encode(items[0])|] + Lengths(items[1..])
  }

  lemma FitsItem(base: nat, free: nat, items: seq<Item>, i: nat)
    requires 1 <= base && i < |items|
    ensures var n := |Encode(items[i])|;
      Fits(base, free, Lengths(items[i..])) <==>
      GrowthSuffices(base, free, n) && Fits(base, Left(base, free, n), Lengths(items[i + 1..]))
    ensures var n := |Encode(items[i])|;
      GrowthSuffices(base, free, n) ==> Left(base, free, n) == free + Added(base, free, n) - n
  {
    assert items[i..][1..] == items[i + 1..];
    assert Lengths(items[i..])[1..] == Lengths(items[i + 1..]);
  }

  /** Values of one byte each and then one of two bytes. */
  function OnesThenTwo(ones: nat): seq<Item> {
    if ones == 0 then [Unsigned(128)] else [Unsigned(0)] + OnesThenTwo(ones - 1)
  }

  /** Once one byte is left of a block, two bytes do not fit. */
  lemma {:induction false} TwoDoNotFit(base: nat, ones: nat)
    requires 2 <= base
    ensures !Fits(base, ones + 1, Lengths(OnesThenTwo(ones)))
  {
    var items := OnesThenTwo(ones);
    FitsItem(base, ones + 1, items, 0);
    assert items[0..] == items;
    if ones == 0 {
      assert |Encode(Unsigned(128))| == 2;
    } else {
      assert items[1..] == OnesThenTwo(ones - 1);
      TwoDoNotFit(base, ones - 1);
    }
  }

  /** A new array takes every list of values exactly if its blocks are of one byte. */
  lemma AllFitExactly(base: nat)
    requires 1 <= base
    ensures (forall items: seq<Item> :: Fits(base, base, Lengths(items))) <==> base == 1
  {
    if base == 1 {
      forall items: seq<Item>
        ensures Fits(base, base, Lengths(items))
      {
        OneByteFits(base, Lengths(items));
      }
    } else {
      TwoDoNotFit(base, base - 1);
    }
  }

  /** `items[..i]` are stored behind `start`, and the rest has the room that is left. */
  ghost predicate Writing(ba: ByteArray, start: seq<byte>, free: nat, items: seq<Item>, i: nat)
    requires i <= |items|
    reads ba, ba.Repr
  {
    var writing :=
      && ba.Valid() && ba.position == ba.size <= |ba.Flat()| == ba.capacity
      && ba.Flat()[..ba.position] + EncodeAll(items[i..]) == start + EncodeAll(items)
      && (Fits(ba.baseSize, free, Lengths(items)) <==>
          Fits(ba.baseSize, ba.capacity - ba.position, Lengths(items[i..])));
    writing
  }

  lemma WritingStarts(ba: ByteArray, items: seq<Item>)
    requires ba.Valid() && ba.position == ba.size
    ensures ba.position <= |ba.Flat()| == ba.capacity
    ensures Writing(ba, ba.Flat()[..ba.position], ba.capacity - ba.position, items, 0)
  {
    UnreadIs(ba);
    assert items[0..] == items;
  }

  lemma WritingEnds(ba: ByteArray, start: seq<byte>, free: nat, items: seq<Item>)
    requires Writing(ba, start, free, items, |items|)
    ensures ba.Valid() && ba.position == ba.size <= |ba.Flat()| && Fits(ba.baseSize, free, Lengths(items))
    ensures ba.Flat()[..ba.position] == start + EncodeAll(items)
  {
    assert items[|items|..] == [];
    assert ba.Flat()[..ba.position] + [] == ba.Flat()[..ba.position];
  }

  lemma WritingFacts(ba: ByteArray, start: seq<byte>, free: nat, items: seq<Item>, i: nat)
    requires i <= |items| && Writing(ba, start, free, items, i)
    ensures 1 <= ba.baseSize && ba.Valid() && ba.position == ba.size <= |ba.Flat()| == ba.capacity
    ensures ba.Flat()[..ba.position] + EncodeAll(items[i..]) == start + EncodeAll(items)
    ensures Fits(ba.baseSize, free, Lengths(items)) <==>
            Fits(ba.baseSize, ba.capacity - ba.position, Lengths(items[i..]))
  {
  }

  lemma WritingIs(ba: ByteArray, start: seq<byte>, free: nat, items: seq<Item>, i: nat)
    requires i <= |items| && ba.Valid() && ba.position == ba.size <= |ba.Flat()| == ba.capacity
    requires ba.Flat()[..ba.position] + EncodeAll(items[i..]) == start + EncodeAll(items)
    requires Fits(ba.baseSize, free, Lengths(items)) <==>
             Fits(ba.baseSize, ba.capacity - ba.position, Lengths(items[i..]))
    ensures Writing(ba, start, free, items, i)
  {
  }

  /** The body of the writing loop. */
  method WriteNext(ba: ByteArray, items: seq<Item>, i: nat, ghost start: seq<byte>, ghost free: nat) returns (ok: bool)
    requires i < |items| && Writing(ba, start, free, items, i)
    modifies ba, ba.Repr
    ensures fresh(ba.Repr - old(ba.Repr))
    ensures if ok then Writing(ba, start, free, items, i + 1) else !Fits(ba.baseSize, free, Lengths(items))
  {
    hide *;
    WritingFacts(ba, start, free, items, i);
    FitsItem(ba.baseSize, ba.capacity - ba.position, items, i);
    ghost var before, p, size := ba.Flat(), ba.position, ba.size;
    ok := WriteItem(ba, items[i]);
    if ok {
      StoredIs(ba, before, p, size, Encode(items[i]));
      AppendEncoded(before, p, ba.Flat(), items, i);
      WritingIs(ba, start, free, items, i + 1);
    }
  }

  /** Writes a list of values one after another; fails exactly when they do not fit. */
  method WriteAll(ba: ByteArray, items: seq<Item>) returns (ok: bool)
    requires ba.Valid() && ba.position == ba.size <= |ba.Flat()|
    modifies ba, ba.Repr
    ensures fresh(ba.Repr - old(ba.Repr))
    ensures ok <==> Fits(ba.baseSize, old(ba.capacity - ba.position), Lengths(items))
    ensures ok ==> ba.Valid() && ba.size == ba.position == old(ba.position) + |EncodeAll(items)| <= |ba.Flat()|
    ensures ok ==> ba.Flat()[..ba.position] == old(ba.Flat()[..ba.position]) + EncodeAll(items)
  {
    hide *;
    WritingStarts(ba, items);
    ghost var start, free := ba.Flat()[..ba.position], ba.capacity - ba.position;
    for i := 0 to |items|
      invariant Writing(ba, start, free, items, i) && fresh(ba.Repr - old(ba.Repr))
    {
      ok := WriteNext(ba, items, i, start, free);
      if !ok {
        return;
      }
    }
    WritingEnds(ba, start, free, items);
    ok := true;
  }

  lemma AppendEncoded(before: seq<byte>, p: nat, after: seq<byte>, items: seq<Item>, i: nat)
    requires i < |items| && Written(before, p, Encode(items[i]), after)
    ensures after[..p + |Encode(items[i])|] + EncodeAll(items[i + 1..]) == before[..p] + EncodeAll(items[i..])
  {
    var e := Encode(items[i]);
    assert items[i..][1..] == items[i + 1..];
    assert after[..p + |e|] == after[..p] + after[p..p + |e|];
    assert before[..p] + (e + EncodeAll(items[i + 1..])) == (before[..p] + e) + EncodeAll(items[i + 1..]);
  }

  /** Reads a list of values of the given kinds. */
  method ReadAll(ba: ByteArray, kinds: seq<bool>) returns (r: ReadItems)
    requires ba.Valid()
    modifies ba`position, ba`cur
    ensures ba.Valid() && ba.Flat() == old(ba.Flat())
    ensures match ParseAll(old(ba.Unread()), kinds)
            case Items(items, n) => r == GotItems(items) && ba.position == old(ba.position) + n
            case Failed => r == NoItems
  {
    ghost var bs, p := ba.Unread(), ba.position;
    var items: seq<Item> := [];
    hide *;
    JoinedStart(ParseAll(bs, kinds));
    for i := 0 to |kinds|
      invariant ba.Valid() && ba.Flat() == old(ba.Flat()) && p <= ba.position
      invariant ParseAll(bs, kinds) == Joined(items, ba.position - p, ParseAll(ba.Unread(), kinds[i..]))
    {
      ghost var rest, used := ba.Unread(), ba.position - p;
      ParseAllCases(rest, kinds[i..]);
      var one := ReadItem(ba, kinds[i]);
      assert kinds[i..][0] == kinds[i] && kinds[i..][1..] == kinds[i + 1..];
      if one.NoItems? {
        JoinedFailed(items, used);
        return NoItems;
      }
      PassedIs(ba, p + used, rest, Parse(rest, 5).used);
      JoinedStep(items, used, rest, kinds[i..], Parse(rest, 5).used, ba.Unread());
      items := items + one.items;
    }
    JoinedEnd(items, ba.position - p, ba.Unread(), kinds[|kinds|..]);
    r := GotItems(items);
  }

  lemma JoinedStart(rest: ParsedItems)
    ensures rest == Joined([], 0, rest)
  {
  }

  lemma JoinedFailed(items: seq<Item>, used: nat)
    ensures Joined(items, used, Failed) == Failed
  {
  }

  lemma JoinedEnd(items: seq<Item>, used: nat, rest: seq<byte>, kinds: seq<bool>)
    requires kinds == []
    ensures Joined(items, used, ParseAll(rest, kinds)) == Items(items, used)
  {
  }

  lemma ParseAllCases(rest: seq<byte>, kinds: seq<bool>)
    requires kinds != []
    ensures Parse(rest, 5).Short? ==> ParseAll(rest, kinds) == Failed
  {
  }

  /** A parse whose first items, worth `used` bytes, are already read. */
  ghost function Joined(items: seq<Item>, used: nat, rest: ParsedItems): ParsedItems {
    match rest
    case Failed => Failed
    case Items(more, n) => Items(items + more, used + n)
  }

  lemma JoinedStep(items: seq<Item>, used: nat, rest: seq<byte>, kinds: seq<bool>, n: nat, rest': seq<byte>)
    requires kinds != [] && n <= |rest| && rest' == rest[n..]
    requires Parse(rest, 5).Done? && Parse(rest, 5).used == n
    ensures Joined(items, used, ParseAll(rest, kinds))
         == Joined(items + [Interpret(kinds[0], Parse(rest, 5).value)], used + n, ParseAll(rest', kinds[1..]))
  {
    var one := [Interpret(kinds[0], Parse(rest, 5).value)];
    match ParseAll(rest', kinds[1..])
    case Failed =>
    case Items(more, m) => assert items + (one + more) == (items + one) + more;
  }

  /**
   * Any list of signed and unsigned 32-bit values written to a new byte array and read back from the start
   * gives the same list and leaves nothing unread. The writes fail exactly when the values do not fit.
   */
  method RoundTrip(baseSize: nat, items: seq<Item>) returns (ok: bool, r: ReadItems, left: nat)
    requires 1 <= baseSize
    ensures ok <==> Fits(baseSize, baseSize, Lengths(items))
    ensures ok ==> r == GotItems(items) && left == 0
  {
    var ba := new ByteArray(baseSize);
    ok := WriteAll(ba, items);
    if !ok {
      return false, NoItems, 0;
    }
    var moved := ba.SetPosition(0);
    RoundTripAll(items, []);
    assert EncodeAll(items) + [] == EncodeAll(items);
    assert ba.Unread() == EncodeAll(items);
    r := ReadAll(ba, Kinds(items));
    left := ba.ReadSize();
  }
}

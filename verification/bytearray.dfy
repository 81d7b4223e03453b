/**
 * The block-chained byte buffer: a linked chain of equal blocks with one moving cursor,
 * proved to behave as one flat byte sequence (`flat`) with a position and a size.
 */
module ByteArrays {
  import opened Bytes

  /** One storage block. */
  class Node {
    const ptr: array<byte>
    const size: nat
    var next: Node?
    ghost const index: nat  // place in the chain

    constructor (s: nat, ghost i: nat)
      ensures fresh(ptr) && ptr.Length == size == s && next == null && index == i
    {
      index := i;
      ptr := new byte[s];
      size := s;
      next := null;
    }
  }

  /** How a reading operation ends: with data, with the `out_of_range` exception, or by following the null cursor. */
  datatype ReadResult = Data(bytes: seq<byte>) | OutOfRange | NullCursor

  /** A piece of a scatter/gather list: `len` bytes of `block` from `off`. */
  datatype IoVec = IoVec(block: array<byte>, off: nat, len: nat)

  ghost predicate GoodVec(v: IoVec) {
    v.off + v.len <= v.block.Length
  }

  ghost predicate GoodVecs(iovs: seq<IoVec>) {
    forall v :: v in iovs ==> GoodVec(v)
  }

  /** The bytes a scatter/gather list points at, in order. */
  ghost function Gather(iovs: seq<IoVec>): seq<byte>
    requires GoodVecs(iovs)
    reads set v | v in iovs :: v.block
  {
    if iovs == [] then [] else
    var v := iovs[|iovs| - 1];
    assert GoodVec(v);
    Gather(iovs[..|iovs| - 1]) + v.block[v.off..v.off + v.len]
  }

  /** One more piece adds its bytes. */
  lemma GatherPush(iovs: seq<IoVec>, v: IoVec)
    requires GoodVecs(iovs) && GoodVec(v)
    ensures GoodVecs(iovs + [v]) && Gather(iovs + [v]) == Gather(iovs) + v.block[v.off..v.off + v.len]
  {
    assert (iovs + [v])[..|iovs + [v]| - 1] == iovs;
  }

  const SIZE_T := 0x1_0000_0000_0000_0000

  /** Number of blocks `addCapacity` appends when `size` bytes are asked for and `free` are left. */
  function BlocksAdded(base: nat, free: nat, size: nat): (count: nat)
    requires 1 <= base
  {
    if size <= free then 0 else
    var short := size - free;
    short / base + (if short % base > free then 1 else 0)
  }

  /** The capacity `addCapacity` adds when `size` bytes are asked for and `free` are left. */
  function Added(base: nat, free: nat, size: nat): nat
    requires 1 <= base
  {
    Start(BlocksAdded(base, free, size), base)
  }

  /** The requests `addCapacity` satisfies. */
  predicate GrowthSuffices(base: nat, free: nat, size: nat)
    requires 1 <= base
  {
    size <= free || (size - free) % base == 0 || (size - free) % base > free
  }

  /**
   * Nothing is added to a request that fits. Otherwise the blocks added are the ones that come within less than a block of
   * the request, on one side or the other; they are enough exactly if the shortage is a number of whole blocks, or leaves
   * a remainder that is more than was free.
   */
  lemma GrowthExact(base: nat, free: nat, size: nat)
    requires 1 <= base
    ensures Added(base, free, size) == BlocksAdded(base, free, size) * base == Start(BlocksAdded(base, free, size), base)
    ensures size <= free ==> BlocksAdded(base, free, size) == Added(base, free, size) == 0
    ensures free < size ==> size - base < free + BlocksAdded(base, free, size) * base < size + base
    ensures size <= free + BlocksAdded(base, free, size) * base <==>
            size <= free || (size - free) % base == 0 || free < (size - free) % base
    ensures GrowthSuffices(base, free, size) <==> size <= free + Added(base, free, size)
    ensures free == 0 && 0 < size ==> 1 <= BlocksAdded(base, free, size)
  {
    StartIsProduct(BlocksAdded(base, free, size), base);
    if free < size {
      var short := size - free;
      var q, r := short / base, short % base;
      assert short == q * base + r;
      assert (q + 1) * base == q * base + base;
    }
  }

  lemma NoGrowth(base: nat, free: nat)
    requires 1 <= base
    ensures GrowthSuffices(base, free, 0) && Added(base, free, 0) == 0
  {
  }

  /** What is left of `free` bytes after a write of `size`. */
  function Left(base: nat, free: nat, size: nat): nat
    requires 1 <= base && GrowthSuffices(base, free, size)
  {
    GrowthExact(base, free, size);
    free + Added(base, free, size) - size
  }

  /** Whether writes of these lengths, one after another, all succeed. */
  predicate Fits(base: nat, free: nat, lengths: seq<nat>)
    requires 1 <= base
    decreases lengths
  {
    lengths == [] || (GrowthSuffices(base, free, lengths[0]) && Fits(base, Left(base, free, lengths[0]), lengths[1..]))
  }

  /** Blocks of one byte always grow enough. */
  lemma {:induction false} OneByteFits(free: nat, lengths: seq<nat>)
    ensures Fits(1, free, lengths)
    decreases lengths
  {
    if lengths != [] {
      OneByteFits(Left(1, free, lengths[0]), lengths[1..]);
    }
  }

  lemma FitsOne(base: nat, free: nat, a: nat)
    requires 1 <= base
    ensures Fits(base, free, [a]) <==> GrowthSuffices(base, free, a)
  {
    assert [a][1..] == [];
  }

  lemma FitsTwo(base: nat, free: nat, a: nat, b: nat)
    requires 1 <= base
    ensures Fits(base, free, [a, b]) <==> GrowthSuffices(base, free, a) && GrowthSuffices(base, Left(base, free, a), b)
  {
    assert [a, b][1..] == [b];
    if GrowthSuffices(base, free, a) {
      FitsOne(base, Left(base, free, a), b);
    }
  }

  /** `after` is `before` with `buf` written at `p`: overwritten or extended there, unchanged elsewhere. */
  ghost predicate Written(before: seq<byte>, p: nat, buf: seq<byte>, after: seq<byte>) {
    && p <= |before| <= |after| && p + |buf| <= |after|
    && after[..p] == before[..p]
    && after[p..p + |buf|] == buf
    && forall i :: p + |buf| <= i < |before| ==> after[i] == before[i]
  }

  lemma WrittenNothing(s: seq<byte>, p: nat, buf: seq<byte>)
    requires p <= |s| && buf == []
    ensures Written(s, p, buf, s)
  {
  }

  lemma WrittenSplice(before: seq<byte>, grown: seq<byte>, p: nat, buf: seq<byte>)
    requires p <= |before| && before <= grown && p + |buf| <= |grown|
    ensures Written(before, p, buf, Splice(grown, p, buf))
  {
    assert grown[..p] == before[..p];
  }

  class ByteArray {
    const baseSize: nat
    var position: nat
    var capacity: nat
    var size: nat
    var root: Node
    var cur: Node?

    ghost var nodes: seq<Node>        // the chain, from `root`
    ghost var ptrs: seq<array<byte>>  // their storage
    ghost var blocks: seq<seq<byte>>  // what each block stores
    ghost var Repr: set<object>       // the chain's nodes and storage

    /** All stored bytes, block after block. */
    ghost function Flat(): (s: seq<byte>)
      reads `blocks
    {
      Flatten(blocks)
    }

    ghost predicate IsBlock(i: nat, n: Node, p: array<byte>)
      reads `Repr
    {
      n.index == i && n.ptr == p && n.size == p.Length == baseSize && n in Repr && p in Repr
    }

    /** The nodes are distinct full blocks with distinct storage. */
    ghost predicate Layout()
      reads `nodes, `ptrs, `Repr, `root, `capacity
    {
      && 1 <= baseSize
      && this !in Repr
      && 1 <= |nodes| == |ptrs| && nodes[0] == root
      && capacity == Start(|nodes|, baseSize)
      && (forall i :: 0 <= i < |nodes| ==> IsBlock(i, nodes[i], ptrs[i]))
      && (forall i, j :: 0 <= i < j < |ptrs| ==> ptrs[i] != ptrs[j])
    }

    /** Each node points to the following one; the last to nothing. */
    ghost predicate Linked()
      requires Layout()
      reads `nodes, `ptrs, `Repr, `root, `capacity, Repr
    {
      forall i {:trigger nodes[i].next} :: 0 <= i < |nodes| ==> nodes[i].next == NodeAt(i + 1)
    }

    /** The storage holds `blocks`. */
    ghost predicate Stored()
      requires Layout()
      reads `nodes, `ptrs, `blocks, `Repr, `root, `capacity, Repr
    {
      |blocks| == |ptrs| && forall i :: 0 <= i < |ptrs| ==> ptrs[i][..] == blocks[i]
    }

    /** The chain is acyclic, made of full blocks, and stores `blocks`. */
    ghost predicate Chain()
      reads `nodes, `ptrs, `blocks, `Repr, `root, `capacity, Repr
    {
      Layout() && Linked() && Stored()
    }

    lemma FlatIs()
      ensures Flat() == Flatten(blocks)
    {
    }

    lemma FlatLength()
      requires Chain()
      ensures Uniform(blocks, baseSize) && |Flat()| == capacity && |blocks| == |nodes|
    {
      forall i | 0 <= i < |blocks|
        ensures |blocks[i]| == baseSize
      {
        assert ptrs[i][..] == blocks[i];
      }
      FlattenLength(blocks, baseSize);
    }

    ghost function NodeAt(i: int): (n: Node?)
      reads `nodes
    {
      if 0 <= i < |nodes| then nodes[i] else null
    }

    /** The cursor pointer is on the position's block. (Bound to a name so that it is proved as one fact.) */
    ghost predicate OnBlock()
      reads `position, `cur, `nodes, `ptrs, `blocks, `Repr, `root, `capacity, Repr
    {
      var onBlock := Chain() && position <= capacity && cur == NodeAt(BlockNo()); onBlock
    }

    /** The cursor pointer is always block number `position / baseSize`, null exactly at the capacity. */
    ghost predicate Valid()
      reads this, Repr
    {
      OnBlock() && position <= size <= capacity
    }

    constructor (baseSize: nat)
      requires 1 <= baseSize
      ensures Valid() && fresh(Repr)
      ensures this.baseSize == baseSize && position == size == 0 && |Flat()| == capacity == baseSize
    {
      this.baseSize := baseSize;
      position, size, capacity := 0, 0, baseSize;
      var n := new Node(baseSize, 0);
      root, cur := n, n;
      nodes, ptrs := [n], [n.ptr];
      blocks := [n.ptr[..]];
      Repr := {n, n.ptr};
      new;
      assert Start(1, baseSize) == baseSize;
      FlatLength();
    }

    /** The readable bytes. */
    ghost function Unread(): seq<byte>
      requires Valid()
      reads this, Repr
    {
      FlatLength();
      Flat()[position..size]
    }

    function ReadSize(): nat
      requires position <= size
      reads this
    {
      size - position
    }

    /** Number of the block the position is in. */
    ghost function BlockNo(): nat
      requires 1 <= baseSize
      reads `position
    {
      position / baseSize
    }

    /** Distance of the position from the start of its block. */
    function Offset(): nat
      requires 1 <= baseSize
      reads `position
    {
      position % baseSize
    }

    lemma BlockNoIs(k: nat)
      requires 1 <= baseSize && Start(k, baseSize) <= position < Start(k, baseSize) + baseSize
      ensures BlockNo() == k
    {
      BlockOf(k, baseSize, position);
    }

    /** Facts about the cursor that the byte loops need. */
    lemma Cursor()
      requires Valid()
      ensures OnBlock() && position <= size <= capacity && |Flat()| == capacity
      ensures 1 <= baseSize && Chain()
      ensures cur == NodeAt(BlockNo()) && (cur == null <==> position == capacity)
      ensures (cur == null ==> BlockNo() == |nodes|) && this !in Repr
      ensures cur != null ==> cur.size == baseSize && Offset() < baseSize && BlockNo() < |nodes| && cur == nodes[BlockNo()]
      ensures Start(BlockNo(), baseSize) <= position < Start(BlockNo(), baseSize) + baseSize
      ensures Offset() == position - Start(BlockNo(), baseSize)
    {
      FlatLength();
      OnBlockFacts();
    }

    /** Re-establishes `Valid` from the number of the cursor's block. */
    lemma CursorIs(k: nat)
      requires Chain() && 1 <= baseSize && position <= size <= capacity && cur == NodeAt(k)
      requires Start(k, baseSize) <= position < Start(k, baseSize) + baseSize
      ensures Valid() && |Flat()| == capacity
    {
      BlockOf(k, baseSize, position);
      FlatLength();
    }

    lemma ValidIs()
      requires OnBlock() && position <= size <= capacity
      ensures Valid() && |Flat()| == capacity
    {
      FlatLength();
    }

    /** What the byte loops need to know of block `k`. */
    lemma Block(k: nat)
      requires Chain() && k < |nodes|
      ensures nodes[k].ptr == ptrs[k] && nodes[k].size == nodes[k].ptr.Length == baseSize
      ensures nodes[k].next == NodeAt(k + 1) && nodes[k] in Repr && ptrs[k] in Repr
      ensures |blocks| == |nodes| == |ptrs| && nodes[k].ptr[..] == blocks[k]
      ensures Start(k, baseSize) + baseSize == Start(k + 1, baseSize) <= capacity
      ensures NodeAt(k + 1) == null <==> k + 1 == |nodes|
      ensures k + 1 < |nodes| ==> NodeAt(k + 1) == nodes[k + 1]
      ensures 1 <= baseSize
      ensures k + 1 == |nodes| ==> Start(k, baseSize) + baseSize == capacity
    {
      StartMonotone(k + 1, |nodes|, baseSize);
    }

    /** Cuts the chain behind its first block. */
    method Truncate()
      requires Chain()
      modifies `nodes, `ptrs, `blocks, `capacity, root
      ensures Chain() && blocks == old(blocks[..1]) && nodes == old(nodes[..1]) && capacity == baseSize
    {
      Block(0);
      assert Start(1, baseSize) == baseSize;
      capacity := baseSize;
      root.next := null;
      nodes, ptrs, blocks := nodes[..1], ptrs[..1], blocks[..1];
    }

    /** Drops everything: one block is left, and it keeps its bytes. */
    method Clear()
      requires Valid()
      modifies `position, `size, `cur, `nodes, `ptrs, `blocks, `capacity, Repr
      ensures Valid()
      ensures position == size == 0 && capacity == |Flat()| == baseSize && Flat() <= Flatten(old(blocks))
    {
      ClearFacts();
      hide *;
      ghost var was := blocks;
      position, size := 0, 0;
      WalkToEnd();
      Truncate();
      cur := root;
      Truncated(was);
    }

    /** The loop of `clear` over the blocks it drops. */
    method WalkToEnd()
      requires Chain() && 1 <= |nodes| && this !in Repr && NodeAt(1) == root.next
      modifies `cur
    {
      hide *;
      var tmp := root.next;
      ghost var i := 1;
      while tmp != null
        invariant 1 <= i <= |nodes| && tmp == NodeAt(i)
        decreases |nodes| - i
      {
        cur := tmp;
        NodeAtIs(i);
        Block(i);
        tmp := tmp.next;
        i := i + 1;
      }
    }

    lemma ClearFacts()
      requires Valid()
      ensures Chain() && 1 <= |nodes| && NodeAt(1) == root.next && root in Repr && this !in Repr
    {
    }

    lemma Truncated(was: seq<seq<byte>>)
      requires Chain() && 1 <= |was| && blocks == was[..1] && |nodes| == 1 && capacity == baseSize
      requires position == size == 0 && cur == root
      ensures Valid() && capacity == |Flat()| && Flat() <= Flatten(was)
    {
      FlattenPrefix(was, 1);
      CursorIs(0);
    }

    /** Links a new block behind the last one, `tail`. */
    method Append(tail: Node) returns (last: Node)
      requires Chain() && tail == nodes[|nodes| - 1]
      modifies `capacity, `nodes, `ptrs, `blocks, `Repr, tail
      ensures Chain() && fresh(Repr - old(Repr)) && old(Repr) <= Repr
      ensures nodes == old(nodes) + [last] && old(blocks) <= blocks && capacity == old(capacity) + baseSize
    {
      Block(|nodes| - 1);
      hide *;
      last := new Node(baseSize, |nodes|);
      tail.next := last;
      capacity := capacity + baseSize;
      nodes, ptrs, blocks := nodes + [last], ptrs + [last.ptr], blocks + [last.ptr[..]];
      Repr := Repr + {last, last.ptr};
      AppendedLayout(last);
      AppendedLinked(tail, last);
      AppendedStored(last);
      ChainIs();
    }

    lemma ChainIs()
      requires Layout() && Linked() && Stored()
      ensures Chain()
    {
    }

    twostate lemma AppendedLayout(new last: Node)
      requires old(Chain()) && root == old(root) && capacity == old(capacity) + baseSize
      requires last.index == |old(nodes)| && last.size == last.ptr.Length == baseSize && last.ptr !in old(ptrs)
      requires nodes == old(nodes) + [last] && ptrs == old(ptrs) + [last.ptr] && Repr == old(Repr) + {last, last.ptr}
      ensures Layout()
    {
      forall i | 0 <= i < |nodes|
        ensures IsBlock(i, nodes[i], ptrs[i])
      {
        if i < |nodes| - 1 {
          assert old(IsBlock(i, nodes[i], ptrs[i]));
        }
      }
    }

    twostate lemma AppendedLinked(tail: Node, new last: Node)
      requires old(Chain()) && Layout() && tail == old(nodes[|nodes| - 1]) && nodes == old(nodes) + [last]
      requires tail.next == last && last.next == null && forall n: Node :: old(allocated(n)) && n != tail ==> n.next == old(n.next)
      ensures Linked()
    {
      forall i | 0 <= i < |nodes|
        ensures nodes[i].next == NodeAt(i + 1)
      {
        if i < |old(nodes)| - 1 {
          assert old(IsBlock(i, nodes[i], ptrs[i]) && IsBlock(|nodes| - 1, nodes[|nodes| - 1], ptrs[|nodes| - 1]));
          assert old(nodes[i].next == NodeAt(i + 1));
        }
      }
    }

    twostate lemma AppendedStored(new last: Node)
      requires old(Chain()) && Layout() && ptrs == old(ptrs) + [last.ptr] && blocks == old(blocks) + [last.ptr[..]]
      requires forall i :: 0 <= i < |old(ptrs)| ==> old(ptrs)[i][..] == old(ptrs[i][..])
      ensures Stored()
    {
    }

    /** Appends `count` blocks at the tail of the chain; `first` is the first of them. */
    method Grow(count: nat) returns (first: Node?)
      requires Chain()
      modifies `capacity, `nodes, `ptrs, `blocks, `Repr, Repr
      ensures Chain() && fresh(Repr - old(Repr)) && old(Repr) <= Repr
      ensures old(nodes) <= nodes && old(blocks) <= blocks && capacity == old(capacity) + Start(count, baseSize)
      ensures |nodes| == |old(nodes)| + count && first == if count == 0 then null else nodes[|old(nodes)|]
    {
      ChainNonempty();
      hide *;
      var tmp := root;
      ghost var k := 0;
      Block(0);
      while tmp.next != null
        invariant 0 <= k < |nodes| && tmp == nodes[k] && tmp.next == NodeAt(k + 1)
        decreases |nodes| - k
        modifies {}
      {
        Block(k);
        tmp := tmp.next;
        k := k + 1;
        Block(k);
      }
      Block(k);
      first := null;
      StartStep(0, baseSize);
      for i := 0 to count
        invariant Chain() && fresh(Repr - old(Repr)) && old(Repr) <= Repr
        invariant old(nodes) <= nodes && old(blocks) <= blocks
        invariant |nodes| == |old(nodes)| + i && tmp == nodes[|nodes| - 1] && tmp in Repr
        invariant capacity == old(capacity) + Start(i, baseSize)
        invariant first == if i == 0 then null else nodes[|old(nodes)|]
      {
        tmp := Append(tmp);
        Block(|nodes| - 1);
        if first == null {
          first := tmp;
        }
        StartStep(i, baseSize);
      }
    }

    lemma ChainNonempty()
      requires Chain()
      ensures 1 <= |nodes| && root == nodes[0] && 1 <= baseSize
    {
    }

    /**
     * Appends blocks. Stored bytes, position and size stay; a cursor that had run off the end is repaired;
     * room for `n` bytes results exactly when `GrowthSuffices`.
     */
    method AddCapacity(n: nat)
      requires Valid()
      modifies `cur, `capacity, `nodes, `ptrs, `blocks, `Repr, Repr
      ensures Valid() && fresh(Repr - old(Repr)) && old(Repr) <= Repr
      ensures old(nodes) <= nodes && old(Flat()) <= Flat()
      ensures capacity == old(capacity) + Added(baseSize, old(capacity - position), n)
      ensures n <= capacity - position <==> GrowthSuffices(baseSize, old(capacity - position), n)
      ensures 0 < n ==> cur != null
    {
      hide *;
      Cursor();
      GrowthExact(baseSize, capacity - position, n);
      if n == 0 {
        return;
      }
      var oldCap := capacity - position;
      if oldCap >= n {
        return;
      }
      ghost var k := BlockNo();
      var count := BlocksAdded(baseSize, oldCap, n);
      FlatIs();
      ghost var was := blocks;
      var first := Grow(count);
      if oldCap == 0 {
        cur := first;
      }
      FlatIs();
      FlattenPrefix(blocks, |was|);
      assert blocks[..|was|] == was;
      NodeAtIs(k);
      CursorIs(k);
      Cursor();
    }

    lemma NodeAtIs(k: nat)
      ensures NodeAt(k) == if k < |nodes| then nodes[k] else null
    {
    }

    /** Overwrites part of block `k`. */
    method StoreAt(ghost k: nat, node: Node, npos: nat, d: seq<byte>)
      requires Chain() && k < |nodes| && node == nodes[k] && npos + |d| <= baseSize
      modifies this`blocks, node.ptr
      ensures Chain() && |old(blocks[k])| == baseSize && blocks == old(blocks)[k := Splice(old(blocks[k]), npos, d)]
    {
      Block(k);
      forall x | 0 <= x < |d| {
        node.ptr[npos + x] := d[x];
      }
      blocks := blocks[k := Splice(blocks[k], npos, d)];
      assert ptrs[k][..] == blocks[k];
    }

    /**
     * Copies `buf[i..j]` into block `k` at `npos`. In flat terms: after `buf[..i]`, the stretch up to `j`
     * is now also spliced into `orig` at `p`.
     */
    method PutBlock(ghost k: nat, node: Node, npos: nat, buf: seq<byte>, i: nat, j: nat, ghost orig: seq<byte>, ghost p: nat)
      requires Chain() && k < |nodes| && node == nodes[k]
      requires i <= j <= |buf| && npos + (j - i) <= baseSize
      requires p + i == Start(k, baseSize) + npos && p + i <= |orig| && Flat() == Splice(orig, p, buf[..i])
      modifies this`blocks, node.ptr
      ensures Chain() && p + j <= |orig| && Flat() == Splice(orig, p, buf[..j])
    {
      FlatLength();
      FlatIs();
      hide *;
      ghost var was := blocks;
      FlattenUpdate(was, baseSize, k, npos, buf[i..j]);
      StoreAt(k, node, npos, buf[i..j]);
      FlatIs();
      SpliceStep(orig, p, buf, i, j, Flatten(was), Flatten(blocks));
    }

    /** The copy loop's state: `buf[..i]` is stored from `p` on. */
    ghost predicate Copying(orig: seq<byte>, p: nat, buf: seq<byte>, i: nat)
      reads `position, `cur, `nodes, `ptrs, `blocks, `Repr, `root, `capacity, Repr
    {
      var copying :=
        && OnBlock() && i <= |buf| && position == p + i && capacity == |orig|
        && Flat() == Splice(orig, p, buf[..i]);
      copying
    }

    lemma CopyStart(buf: seq<byte>)
      requires Valid()
      ensures Copying(Flat(), position, buf, 0)
    {
      Cursor();
      SpliceNothing(Flat(), position, buf[..0]);
    }

    lemma OnBlockFacts()
      requires OnBlock()
      ensures 1 <= baseSize && position <= capacity && Chain()
      ensures cur == NodeAt(BlockNo()) && (cur == null <==> position == capacity)
      ensures (cur == null ==> BlockNo() == |nodes|) && this !in Repr
      ensures cur != null ==> cur.size == baseSize && Offset() < baseSize && BlockNo() < |nodes| && cur == nodes[BlockNo()]
      ensures Start(BlockNo(), baseSize) <= position < Start(BlockNo(), baseSize) + baseSize
      ensures Offset() == position - Start(BlockNo(), baseSize)
    {
      var k := BlockNo();
      InBlock(baseSize, position);
      if |nodes| <= k {
        StartMonotone(|nodes|, k, baseSize);
        BlockOf(|nodes|, baseSize, position);
      } else {
        Block(k);
      }
    }

    lemma CopyingFacts(orig: seq<byte>, p: nat, buf: seq<byte>, i: nat)
      requires Copying(orig, p, buf, i)
      ensures OnBlock() && position == p + i && i <= |buf| && |orig| == capacity
      ensures position <= capacity && Flat() == Splice(orig, p, buf[..i])
    {
    }

    /** Copies `buf[i..j]` to the cursor and moves it, to the next block if this one is full. */
    method CopyPart(npos: nat, buf: seq<byte>, i: nat, j: nat, ghost orig: seq<byte>, ghost p: nat)
      requires 1 <= baseSize && Copying(orig, p, buf, i) && cur != null && npos == Offset()
      requires i <= j <= |buf| && npos + (j - i) <= baseSize
      modifies `position, `cur, `blocks, Repr
      ensures Copying(orig, p, buf, j) && (npos + (j - i) == baseSize ==> Offset() == 0)
    {
      ghost var k := BlockNo();
      CopyingFacts(orig, p, buf, i);
      OnBlockFacts();
      Block(k);
      StartStep(k, baseSize);
      hide Chain, OnBlock, Copying, Flat, Splice, Start, BlockNo, Offset;
      PutBlock(k, cur, npos, buf, i, j, orig, p);
      if cur.size == npos + (j - i) {
        cur := cur.next;
        k := k + 1;
      }
      position := position + (j - i);
      BlockNoIs(k);
      Copied(orig, p, buf, j);
    }

    lemma Copied(orig: seq<byte>, p: nat, buf: seq<byte>, j: nat)
      requires 1 <= baseSize && Chain() && position <= capacity && cur == NodeAt(BlockNo())
      requires j <= |buf| && position == p + j && capacity == |orig| && Flat() == Splice(orig, p, buf[..j])
      ensures Copying(orig, p, buf, j) && Offset() == position - Start(BlockNo(), baseSize)
    {
      InBlock(baseSize, position);
    }

    /**
     * The copy loop of `Write`, started on the cursor's block. It either stores all of `buf` and leaves the
     * cursor behind it, or follows the null end of the chain, exactly when `buf` does not fit.
     */
    method CopyIn(buf: seq<byte>) returns (ok: bool)
      requires Valid() && cur != null
      modifies `position, `cur, `blocks, Repr
      ensures ok <==> |buf| <= capacity - old(position)
      ensures ok ==> Copying(old(Flat()), old(position), buf, |buf|)
    {
      CopyStart(buf);
      hide *;
      ghost var orig, p := Flat(), position;
      CopyingFacts(orig, p, buf, 0);
      OnBlockFacts();
      var npos := Offset();
      var ncap := cur.size - npos;
      var bpos: nat := 0;
      var left: nat := |buf|;
      while left > 0
        invariant Copying(orig, p, buf, bpos) && bpos + left == |buf|
        invariant 0 < left ==> cur != null && npos == Offset() && npos + ncap == baseSize
      {
        if ncap >= left {
          CopyPart(npos, buf, bpos, bpos + left, orig, p);
          bpos := bpos + left;
          left := 0;
        } else {
          CopyPart(npos, buf, bpos, bpos + ncap, orig, p);
          bpos := bpos + ncap;
          left := left - ncap;
          CopyingFacts(orig, p, buf, bpos);
          OnBlockFacts();
          if cur == null {
            return false;
          }
          ncap := cur.size;
          npos := 0;
        }
      }
      CopyingFacts(orig, p, buf, bpos);
      ok := true;
    }

    /**
     * Overwrites or extends at the position. Without enough room the copy loop follows the null end of the
     * chain, which is reported as `ok == false`; this happens exactly when `GrowthSuffices` fails.
     */
    method Write(buf: seq<byte>) returns (ok: bool)
      requires Valid()
      modifies `position, `size, `cur, `capacity, `nodes, `ptrs, `blocks, `Repr, Repr
      ensures fresh(Repr - old(Repr))
      ensures ok <==> GrowthSuffices(baseSize, old(capacity - position), |buf|)
      ensures ok ==> Valid() && position == old(position) + |buf|
      ensures ok ==> size == if position > old(size) then position else old(size)
      ensures ok ==> |Flat()| == capacity == old(capacity) + Added(baseSize, old(capacity - position), |buf|)
      ensures ok ==> |old(Flat())| == old(capacity)
      ensures ok ==> Written(old(Flat()), old(position), buf, Flat())
    {
      hide *;
      Cursor();
      if |buf| == 0 {
        NoGrowth(baseSize, capacity - position);
        WrittenNothing(Flat(), position, buf);
        return true;
      }
      AddCapacity(|buf|);
      Cursor();
      ghost var grown := Flat();
      ok := CopyIn(buf);
      if ok {
        CopyingFacts(grown, old(position), buf, |buf|);
        OnBlockFacts();
        if position > size {
          size := position;
        }
        ValidIs();
        assert buf[..|buf|] == buf;
        WrittenSplice(old(Flat()), grown, old(position), buf);
      }
    }

    /** The bytes of block `k` from `npos` on are the flat bytes from the block's start plus `npos` on. */
    lemma PartOf(k: nat, npos: nat, n: nat)
      requires Chain() && k < |nodes| && npos + n <= baseSize
      ensures nodes[k].ptr.Length == baseSize
      ensures Start(k, baseSize) + npos + n <= |Flat()| == capacity
      ensures nodes[k].ptr[npos..npos + n] == Flat()[Start(k, baseSize) + npos..Start(k, baseSize) + npos + n]
    {
      Block(k);
      FlatLength();
      FlattenBlock(blocks, baseSize, k);
      SubSlice(Flat(), Start(k, baseSize), baseSize, npos, n);
      assert nodes[k].ptr[..][npos..npos + n] == nodes[k].ptr[npos..npos + n];
    }

    /** Copies `n` bytes from the cursor and moves it, to the next block if this one is finished. */
    method TakePart(npos: nat, n: nat) returns (d: seq<byte>)
      requires 1 <= baseSize && OnBlock() && cur != null && npos == Offset() && npos + n <= baseSize
      modifies `position, `cur
      ensures OnBlock() && position == old(position) + n <= capacity == |Flat()|
      ensures d == Flat()[old(position)..position]
      ensures npos + n == baseSize ==> Offset() == 0
    {
      ghost var k := BlockNo();
      OnBlockFacts();
      Block(k);
      StartStep(k, baseSize);
      hide *;
      PartOf(k, npos, n);
      d := cur.ptr[npos..npos + n];
      if cur.size == npos + n {
        cur := cur.next;
        k := k + 1;
      }
      position := position + n;
      BlockNoIs(k);
      OnBlockIs();
    }

    lemma OnBlockIs()
      requires 1 <= baseSize && Chain() && position <= capacity && cur == NodeAt(BlockNo())
      ensures OnBlock() && Offset() == position - Start(BlockNo(), baseSize)
    {
      InBlock(baseSize, position);
    }

    /**
     * Reads `n` bytes at the position and moves past them. Too long a request is the `out_of_range`
     * exception. A request of zero bytes at the capacity dereferences the null cursor.
     */
    method Read(n: nat) returns (r: ReadResult)
      requires Valid()
      modifies `position, `cur
      ensures Valid() && |Flat()| == capacity
      ensures r.OutOfRange? <==> old(size - position) < n
      ensures r.NullCursor? <==> n == 0 && old(position) == capacity
      ensures r.Data? ==> position == old(position) + n && r.bytes == Flat()[old(position)..position]
      ensures !r.Data? ==> position == old(position)
    {
      hide *;
      Cursor();
      if n > size - position {
        return OutOfRange;
      }
      if cur == null {
        return NullCursor;
      }
      var npos: nat := Offset();
      var ncap: nat := cur.size - npos;
      var buf := [];
      var left: nat := n;
      while left > 0
        invariant OnBlock() && position == old(position) + |buf| && |buf| + left == n
        invariant |Flat()| == capacity && position <= size && buf == Flat()[old(position)..position]
        invariant 0 < left ==> cur != null && npos == Offset() && npos + ncap == baseSize
      {
        var d;
        if ncap >= left {
          d := TakePart(npos, left);
          left := 0;
        } else {
          d := TakePart(npos, ncap);
          left := left - ncap;
          OnBlockFacts();
          ncap := cur.size;
          npos := 0;
        }
        buf := buf + d;
      }
      ValidIs();
      r := Data(buf);
    }

    /** Where the positional read starts: its offset within the block is right, but the block is the cursor's. */
    ghost function ReadStart(at: nat): nat
      requires 1 <= baseSize
      reads `position
    {
      Start(BlockNo(), baseSize) + at % baseSize
    }

    /** The positional read starts where it was asked to exactly if that lies in the cursor's block. */
    lemma ReadStartExact(at: nat)
      requires 1 <= baseSize
      ensures ReadStart(at) == at <==> at / baseSize == position / baseSize
    {
      InBlock(baseSize, at);
      var j, k := at / baseSize, position / baseSize;
      if j < k {
        StartMonotone(j + 1, k, baseSize);
      } else if k < j {
        StartMonotone(k + 1, j, baseSize);
      }
    }

    /**
     * Reads `n` bytes for position `at` without moving. The length test is in 64-bit unsigned arithmetic.
     * The bytes returned are those from `ReadStart(at)`; past the end of the chain a null block is followed.
     */
    method ReadAt(n: nat, at: nat) returns (r: ReadResult)
      requires Valid() && at < SIZE_T && size < SIZE_T
      ensures r.OutOfRange? <==> (size - at) % SIZE_T < n
      ensures r.NullCursor? <==> !r.OutOfRange? && (position == capacity || capacity < ReadStart(at) + n)
      ensures r.Data? ==> ReadStart(at) + n <= |Flat()| && r.bytes == Flat()[ReadStart(at)..ReadStart(at) + n]
    {
      Cursor();
      if n > (size - at) % SIZE_T {
        return OutOfRange;
      }
      if cur == null {
        return NullCursor;
      }
      var npos := at % baseSize;
      r := Collect(BlockNo(), cur, npos, n);
    }

    /** The positional read's loop: collects `n` bytes from `npos` in block `k` on. */
    method Collect(ghost k0: nat, node: Node, npos0: nat, n: nat) returns (r: ReadResult)
      requires Chain() && k0 < |nodes| && node == nodes[k0] && npos0 < baseSize
      ensures Start(k0, baseSize) + npos0 <= |Flat()| == capacity && !r.OutOfRange?
      ensures r.NullCursor? <==> capacity < Start(k0, baseSize) + npos0 + n
      ensures r.Data? ==> r.bytes == Flat()[Start(k0, baseSize) + npos0..Start(k0, baseSize) + npos0 + n]
    {
      hide *;
      PartOf(k0, npos0, 0);
      Block(k0);
      var c, npos: nat, ncap: nat, left: nat := node, npos0, node.size - npos0, n;
      var buf := [];
      ghost var k: nat, start: nat := k0, Start(k0, baseSize) + npos0;
      while left > 0
        invariant k < |nodes| && |buf| + left == n && start + |buf| <= |Flat()| == capacity
        invariant buf == Flat()[start..start + |buf|]
        invariant 0 < left ==> c == nodes[k] && npos < baseSize && npos + ncap == baseSize
        invariant 0 < left ==> start + |buf| == Start(k, baseSize) + npos
      {
        Block(k);
        if ncap >= left {
          PartOf(k, npos, left);
          buf := buf + c.ptr[npos..npos + left];
          left := 0;
        } else {
          PartOf(k, npos, ncap);
          buf := buf + c.ptr[npos..npos + ncap];
          left := left - ncap;
          if c.next == null {
            return NullCursor;
          }
          c := c.next;
          k := k + 1;
          Block(k);
          ncap := c.size;
          npos := 0;
        }
      }
      r := Data(buf);
    }

    /** Moves the position; moving it past the size makes everything up to it readable. */
    method SetPosition(v: nat) returns (ok: bool)
      requires Valid()
      modifies `position, `size, `cur
      ensures Valid()
      ensures ok <==> v <= capacity
      ensures ok ==> position == v && size == if v > old(size) then v else old(size)
      ensures !ok ==> position == old(position) && size == old(size)
    {
      if v > capacity {
        return false;
      }
      hide *;
      Cursor();
      position := v;
      if position > size {
        size := position;
      }
      ghost var k := Seek(v);
      CursorIs(k);
      ok := true;
    }

    /** Walks the cursor from the root to the block of offset `v0`. */
    method Seek(v0: nat) returns (ghost k: nat)
      requires Chain() && v0 <= capacity
      modifies `cur
      ensures cur == NodeAt(k) && Start(k, baseSize) <= v0 < Start(k, baseSize) + baseSize
    {
      ChainNonempty();
      hide *;
      var v: nat := v0;
      var c: Node? := root;
      k := 0;
      StartStep(0, baseSize);
      Block(0);
      while v > c.size
        invariant k < |nodes| && c == nodes[k] && c.size == baseSize && v0 == Start(k, baseSize) + v
        decreases v
      {
        Block(k);
        v := v - c.size;
        c := c.next;
        k := k + 1;
        Block(k);
      }
      Block(k);
      NodeAtIs(k);
      if v == c.size {
        c := c.next;
        k := k + 1;
      }
      cur := c;
    }

    /** All unread bytes; never fails. */
    method ToString() returns (str: seq<byte>)
      requires Valid() && size < SIZE_T
      ensures str == Unread()
    {
      Cursor();
      FlatLength();
      if ReadSize() == 0 {
        return [];
      }
      ReadStartExact(position);
      var r := ReadAt(ReadSize(), position);
      str := r.bytes;
    }

    /** `iovs` points at the stored bytes between two offsets, in order. */
    ghost predicate Covers(iovs: seq<IoVec>, from: nat, to: nat)
      reads `blocks, set v | v in iovs :: v.block
    {
      var covers := GoodVecs(iovs) && from <= to <= |Flat()| && Gather(iovs) == Flat()[from..to];
      covers
    }

    lemma CoversIs(iovs: seq<IoVec>, from: nat, to: nat)
      requires Covers(iovs, from, to)
      ensures GoodVecs(iovs) && from <= to <= |Flat()| && Gather(iovs) == Flat()[from..to]
    {
    }

    lemma CoversNothing(from: nat)
      requires from <= |Flat()|
      ensures Covers([], from, from)
    {
    }

    /** A piece of block `k` extends a cover that ends where the piece starts. */
    lemma CoversMore(iovs: seq<IoVec>, from: nat, to: nat, k: nat, npos: nat, n: nat)
      requires Chain() && k < |nodes| && npos + n <= baseSize && to == Start(k, baseSize) + npos
      requires Covers(iovs, from, to)
      ensures Covers(iovs + [IoVec(nodes[k].ptr, npos, n)], from, to + n)
    {
      PartOf(k, npos, n);
      GatherPush(iovs, IoVec(nodes[k].ptr, npos, n));
    }

    /** The loop of `GetReadBuffers`: pieces for `len` bytes from `npos` in block `k0` on. */
    method Pieces(ghost k0: nat, node: Node, npos0: nat, len: nat) returns (iovs: seq<IoVec>)
      requires Chain() && k0 < |nodes| && node == nodes[k0] && npos0 < baseSize
      requires Start(k0, baseSize) + npos0 + len <= capacity
      ensures Covers(iovs, Start(k0, baseSize) + npos0, Start(k0, baseSize) + npos0 + len)
    {
      hide *;
      iovs := [];
      ghost var k: nat, from: nat, to: nat := k0, Start(k0, baseSize) + npos0, Start(k0, baseSize) + npos0;
      PartOf(k0, npos0, 0);
      Block(k0);
      CoversNothing(from);
      var c, npos: nat, ncap: nat, left: nat := node, npos0, node.size - npos0, len;
      while left > 0
        invariant Covers(iovs, from, to) && to + left == from + len
        invariant 0 < left ==> k < |nodes| && c == nodes[k] && npos < baseSize && npos + ncap == baseSize
        invariant 0 < left ==> to == Start(k, baseSize) + npos
      {
        Block(k);
        if ncap >= left {
          CoversMore(iovs, from, to, k, npos, left);
          iovs := iovs + [IoVec(c.ptr, npos, left)];
          to := to + left;
          left := 0;
        } else {
          CoversMore(iovs, from, to, k, npos, ncap);
          iovs := iovs + [IoVec(c.ptr, npos, ncap)];
          to := to + ncap;
          left := left - ncap;
          c := c.next;
          k := k + 1;
          Block(k);
          ncap := c.size;
          npos := 0;
        }
      }
    }

    /** The blocks to send: appends pieces that cover the next `got` unread bytes in order, without moving. */
    method GetReadBuffers(buffers: seq<IoVec>, len: nat) returns (all: seq<IoVec>, got: nat)
      requires Valid()
      ensures got == if len > ReadSize() then ReadSize() else len
      ensures buffers <= all && Covers(all[|buffers|..], position, position + got)
    {
      got := if len > ReadSize() then ReadSize() else len;
      Cursor();
      if got == 0 {
        CoversNothing(position);
        return buffers, 0;
      }
      Block(BlockNo());
      hide *;
      var iovs := Pieces(BlockNo(), cur, Offset(), got);
      all := buffers + iovs;
      assert all[|buffers|..] == iovs;
    }
  }

  /** The growth rule can fail: with blocks of four bytes, two bytes are stored and then three are not. */
  method GrowthFails() returns (two: bool, three: bool)
    ensures two && !three
  {
    var ba := new ByteArray(4);
    two := ba.Write([1, 2]);
    three := ba.Write([3, 4, 5]);
  }

  /** The positional read can miss: from the first block it does not give the byte at position 1. */
  method ReadAtMisses() returns (there: ReadResult, positional: ReadResult)
    ensures there == Data([2]) && positional == Data([1])
  {
    var ba := new ByteArray(1);
    var written := ba.Write([1, 2]);
    var moved := ba.SetPosition(1);
    there := ba.Read(1);
    moved := ba.SetPosition(0);
    positional := ba.ReadAt(1, 1);
  }
}

/** Facts about byte sequences and block offsets shared by the byte-array modules. */
module Bytes {

  type byte = x: int | 0 <= x < 256

  /** `s` with the bytes starting at `p` overwritten by `d`. */
  function Splice<T>(s: seq<T>, p: nat, d: seq<T>): (r: seq<T>)
    requires p + |d| <= |s|
    ensures |r| == |s|
  {
    s[..p] + d + s[p + |d|..]
  }

  lemma SpliceSplice<T>(s: seq<T>, p: nat, d: seq<T>, e: seq<T>)
    requires p + |d| + |e| <= |s|
    ensures Splice(Splice(s, p, d), p + |d|, e) == Splice(s, p, d + e)
  {
  }

  /** One more stretch of `buf` copied in. */
  lemma SpliceStep<T>(s: seq<T>, p: nat, buf: seq<T>, i: nat, j: nat, was: seq<T>, now: seq<T>)
    requires i <= j <= |buf| && p + j <= |s|
    requires was == Splice(s, p, buf[..i])
    requires now == Splice(was, p + i, buf[i..j])
    ensures now == Splice(s, p, buf[..j])
  {
    SpliceSplice(s, p, buf[..i], buf[i..j]);
    assert buf[..i] + buf[i..j] == buf[..j];
  }

  lemma SpliceNothing<T>(s: seq<T>, p: nat, d: seq<T>)
    requires p <= |s| && d == []
    ensures Splice(s, p, d) == s
  {
  }

  lemma SubSlice<T>(s: seq<T>, a: nat, b: nat, c: nat, d: nat)
    requires a + b <= |s| && c + d <= b
    ensures s[a..a + b][c..c + d] == s[a + c..a + c + d]
  {
    var l, r := s[a..a + b][c..c + d], s[a + c..a + c + d];
    assert |l| == |r| == d;
    forall i | 0 <= i < d
      ensures l[i] == r[i]
    {
      assert l[i] == s[a..a + b][c + i] == s[a + c + i];
    }
  }

  /** Offset of the first byte of block number `k`. */
  function Start(k: nat, base: nat): nat {
    if k == 0 then 0 else Start(k - 1, base) + base
  }

  lemma StartStep(k: nat, base: nat)
    ensures Start(0, base) == 0 && Start(k + 1, base) == Start(k, base) + base
  {
  }

  lemma {:induction false} StartIsProduct(k: nat, base: nat)
    ensures Start(k, base) == k * base
  {
    if k > 0 {
      StartIsProduct(k - 1, base);
      assert k * base == (k - 1) * base + base;
    }
  }

  lemma {:induction false} StartMonotone(j: nat, k: nat, base: nat)
    requires j <= k
    ensures Start(j, base) <= Start(k, base)
  {
    if j < k {
      StartMonotone(j, k - 1, base);
    }
  }

  /** An offset inside block `k` has `k` as its block number and the distance to the block's start as its remainder. */
  lemma BlockOf(k: nat, base: nat, p: nat)
    requires 1 <= base
    requires Start(k, base) <= p < Start(k, base) + base
    ensures p / base == k && p % base == p - Start(k, base)
  {
    StartIsProduct(k, base);
    var r := p - k * base;
    assert p == base * k + r;
    DivModUnique(p, base, k, r);
  }

  lemma DivModUnique(p: int, base: nat, q: int, r: nat)
    requires r < base && p == base * q + r
    ensures p / base == q && p % base == r
  {
    var q', r' := p / base, p % base;
    assert base * (q - q') == r' - r;
    Small(base, q - q');
  }

  /** A multiple of `base` strictly between `-base` and `base` is zero. */
  lemma Small(base: int, d: int)
    requires -base < base * d < base
    ensures d == 0
  {
  }

  /** Every offset lies in the block its quotient names. */
  lemma InBlock(base: nat, p: nat)
    requires 1 <= base
    ensures Start(p / base, base) <= p < Start(p / base, base) + base
    ensures p % base == p - Start(p / base, base)
  {
    StartIsProduct(p / base, base);
    assert p == base * (p / base) + p % base;
  }

  /** Blocks of `base` bytes each. */
  ghost predicate Uniform<T>(blocks: seq<seq<T>>, base: nat) {
    forall i :: 0 <= i < |blocks| ==> |blocks[i]| == base
  }

  /** The blocks' contents one after another. */
  ghost function Flatten<T>(blocks: seq<seq<T>>): seq<T> {
    if blocks == [] then [] else Flatten(blocks[..|blocks| - 1]) + blocks[|blocks| - 1]
  }

  lemma {:induction false} FlattenLength<T>(blocks: seq<seq<T>>, base: nat)
    requires Uniform(blocks, base)
    ensures |Flatten(blocks)| == Start(|blocks|, base)
  {
    if blocks != [] {
      FlattenLength(blocks[..|blocks| - 1], base);
    }
  }

  lemma {:induction false} FlattenPrefix<T>(blocks: seq<seq<T>>, n: nat)
    requires n <= |blocks|
    ensures Flatten(blocks[..n]) <= Flatten(blocks)
  {
    if n < |blocks| {
      FlattenPrefix(blocks[..|blocks| - 1], n);
      assert blocks[..|blocks| - 1][..n] == blocks[..n];
    } else {
      assert blocks[..n] == blocks;
    }
  }

  /** Block `k` is the `k`-th stretch of the flat sequence. */
  lemma {:induction false} FlattenBlock<T>(blocks: seq<seq<T>>, base: nat, k: nat)
    requires Uniform(blocks, base) && k < |blocks|
    ensures |Flatten(blocks)| == Start(|blocks|, base)
    ensures Start(k, base) + base <= |Flatten(blocks)|
    ensures Flatten(blocks)[Start(k, base)..Start(k, base) + base] == blocks[k]
  {
    var init := blocks[..|blocks| - 1];
    FlattenLength(init, base);
    FlattenLength(blocks, base);
    if k < |init| {
      FlattenBlock(init, base, k);
      assert Flatten(blocks)[..|Flatten(init)|] == Flatten(init);
    }
  }

  /** Overwriting inside one block is a splice of the flat sequence. */
  lemma {:induction false} FlattenUpdate<T>(blocks: seq<seq<T>>, base: nat, k: nat, npos: nat, d: seq<T>)
    requires Uniform(blocks, base) && k < |blocks| && npos + |d| <= base
    ensures Start(k, base) + npos + |d| <= |Flatten(blocks)|
    ensures Flatten(blocks[k := Splice(blocks[k], npos, d)]) == Splice(Flatten(blocks), Start(k, base) + npos, d)
  {
    FlattenBlock(blocks, base, k);
    var init := blocks[..|blocks| - 1];
    var blocks' := blocks[k := Splice(blocks[k], npos, d)];
    FlattenLength(init, base);
    if k < |init| {
      FlattenUpdate(init, base, k, npos, d);
      assert blocks'[..|blocks| - 1] == init[k := Splice(init[k], npos, d)];
    } else {
      assert blocks'[..|blocks| - 1] == init;
    }
  }
}

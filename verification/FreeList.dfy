/** The chained free list as a stack.  A record caches up to NICFREE addresses,
    used from the last one down; address 0 ends the list, and the address in
    entry 0 also names the block that holds the next record. */
module FreeList {
  import opened Endian
  import opened Layout

  /** The record c stands for the stack s, next block to hand out first. */
  ghost predicate Chain(v: Vol, d: Disk, c: Cache, s: seq<nat>)
    requires Sized(v, d)
    decreases |s|
  {
    && |c.free| == NICFREE
    && 1 <= c.nfree <= NICFREE
    && var x := c.free[c.nfree - 1];
       if x == 0 then
         s == []
       else
         && s != [] && s[0] == x
         && (if c.nfree > 1 then
               Chain(v, d, c.(nfree := c.nfree - 1), s[1..])
             else
               x < |d| && Chain(v, d, ChainBlock(v, d[x]), s[1..]))
  }

  ghost predicate NoDup(s: seq<nat>) {
    forall i, j | 0 <= i < j < |s| :: s[i] != s[j]
  }

  ghost predicate AllInData(v: Vol, s: seq<nat>) {
    forall i | 0 <= i < |s| :: v.InData(s[i])
  }

  /** A record stands for at most one stack. */
  lemma {:induction false} ChainUnique(v: Vol, d: Disk, c: Cache, s: seq<nat>, t: seq<nat>)
    requires Sized(v, d) && Chain(v, d, c, s) && Chain(v, d, c, t)
    ensures s == t
    decreases |s|
  {
    var x := c.free[c.nfree - 1];
    if x != 0 {
      var next := if c.nfree > 1 then c.(nfree := c.nfree - 1) else ChainBlock(v, d[x]);
      ChainUnique(v, d, next, s[1..], t[1..]);
      assert s == [s[0]] + s[1..] && t == [t[0]] + t[1..];
    }
  }

  /** Only blocks of the list itself carry the list. */
  lemma {:induction false} ChainFrame(v: Vol, d: Disk, d': Disk, c: Cache, s: seq<nat>)
    requires Sized(v, d) && Sized(v, d') && |d| == |d'|
    requires Chain(v, d, c, s)
    requires forall i | 0 <= i < |s| && s[i] < |d| :: d'[s[i]] == d[s[i]]
    ensures Chain(v, d', c, s)
    decreases |s|
  {
    var x := c.free[c.nfree - 1];
    if x != 0 {
      var next := if c.nfree > 1 then c.(nfree := c.nfree - 1) else ChainBlock(v, d[x]);
      assert forall i | 0 <= i < |s[1..]| :: s[1..][i] == s[i + 1];
      ChainFrame(v, d, d', next, s[1..]);
    }
  }

  /** Entries at or above the count are stale and mean nothing. */
  lemma {:induction false} ChainStale(v: Vol, d: Disk, c: Cache, c': Cache, s: seq<nat>)
    requires Sized(v, d) && Chain(v, d, c, s)
    requires |c'.free| == NICFREE && c'.nfree == c.nfree && c'.free[..c.nfree] == c.free[..c.nfree]
    ensures Chain(v, d, c', s)
    decreases |s|
  {
    assert c'.free[c.nfree - 1] == c'.free[..c.nfree][c.nfree - 1];
    if c.free[c.nfree - 1] != 0 && c.nfree > 1 {
      var n := c.nfree - 1;
      assert c'.free[..n] == c'.free[..c.nfree][..n] == c.free[..n];
      ChainStale(v, d, c.(nfree := n), c'.(nfree := n), s[1..]);
    }
  }

  /** Appending to a cache with room is push. */
  lemma ChainPush(v: Vol, d: Disk, c: Cache, s: seq<nat>, b: u32)
    requires Sized(v, d) && Chain(v, d, c, s)
    requires c.nfree < NICFREE && b != 0
    ensures Chain(v, d, Cache(c.nfree + 1, c.free[c.nfree := b]), [b] + s)
  {
    ChainStale(v, d, c, Cache(c.nfree, c.free[c.nfree := b]), s);
    assert ([b] + s)[1..] == s;
  }

  /** Spilling a full cache into the freed block, and linking to it, is push: the
      spill overwrites only a block outside the list. */
  lemma ChainSpill(v: Vol, d: Disk, d': Disk, c: Cache, s: seq<nat>, b: u32, free': seq<u32>)
    requires Sized(v, d) && Sized(v, d') && |d| == |d'|
    requires Chain(v, d, c, s) && c.nfree == NICFREE
    requires b != 0 && b < |d| && b !in s
    requires forall x | 0 <= x < |d| && x != b :: d'[x] == d[x]
    requires ChainBlock(v, d'[b]) == c
    requires |free'| == NICFREE && free'[0] == b
    ensures Chain(v, d', Cache(1, free'), [b] + s)
  {
    ChainFrame(v, d, d', c, s);
    assert ([b] + s)[1..] == s;
  }

  /** The record left after taking the block on top. */
  ghost function NextCache(v: Vol, d: Disk, c: Cache): (n: Cache)
    requires Sized(v, d) && 1 <= c.nfree <= |c.free| && |c.free| == NICFREE
    requires c.free[c.nfree - 1] < |d|
    ensures |n.free| == NICFREE && n.nfree <= NICFREE
  {
    if c.nfree > 1 then c.(nfree := c.nfree - 1) else ChainBlock(v, d[c.free[0]])
  }

  lemma ChainStep(v: Vol, d: Disk, c: Cache, t: seq<nat>)
    requires Sized(v, d) && 1 <= c.nfree <= NICFREE == |c.free|
    requires 0 < c.free[c.nfree - 1] < |d|
    ensures Chain(v, d, c, [c.free[c.nfree - 1]] + t) <==> Chain(v, d, NextCache(v, d, c), t)
  {
    assert ([c.free[c.nfree - 1]] + t)[1..] == t;
  }

  /** Distinct numbers below n are at most n. */
  lemma {:induction false} NoDupBound(s: seq<nat>, n: nat)
    requires NoDup(s) && forall i | 0 <= i < |s| :: s[i] < n
    ensures |s| <= n
    decreases n
  {
    if s != [] {
      assert s[0] < n;
      if i :| 0 <= i < |s| && s[i] == n - 1 {
        NoDupBound(s[..i] + s[i + 1..], n - 1);
      } else {
        NoDupBound(s, n - 1);
      }
    }
  }
}

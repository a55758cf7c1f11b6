/** Building the free list of a fresh volume: the rotational permutation and the
    order in which the data blocks are freed. */
module Interleave {
  import opened Arith
  import opened Layout
  import opened FreeList
  import opened Allocator

  /** s lists each of 1..n exactly once. */
  ghost predicate IsPermutation(s: seq<nat>, n: nat) {
    |s| == n && NoDup(s) && (forall i | 0 <= i < n :: 1 <= s[i] <= n)
    && forall x | 1 <= x <= n :: x in s
  }

  /** Distinct numbers in 1..n, n of them, leave none out. */
  lemma FullIsOnto(s: seq<nat>, n: nat)
    requires |s| == n && NoDup(s) && forall i | 0 <= i < n :: 1 <= s[i] <= n
    ensures IsPermutation(s, n)
  {
    forall x | 1 <= x <= n ensures x in s {
      if x !in s {
        var t := seq(n + 1, i requires 0 <= i < n + 1 => if i < n then s[i] - 1 else x - 1);
        NoDupBound(t, n);
      }
    }
  }

  /** While fewer than n positions are taken, some position is free. */
  lemma FreePosition(s: seq<nat>, n: nat) returns (k: nat)
    requires |s| < n && NoDup(s) && forall i | 0 <= i < |s| :: 1 <= s[i] <= n
    ensures k < n && k + 1 !in s
  {
    k := 0;
    while k < n && k + 1 in s
      invariant k <= n && forall x | 1 <= x <= k :: x in s
    {
      k := k + 1;
    }
    if k == n {
      OntoIsLong(s, n);
    }
  }

  lemma {:induction false} OntoIsLong(s: seq<nat>, n: nat)
    requires forall x | 1 <= x <= n :: x in s
    ensures |s| >= n
    decreases n
  {
    if n > 0 {
      assert n in s;
      var i :| 0 <= i < |s| && s[i] == n;
      var t := s[..i] + s[i + 1..];
      forall x | 1 <= x <= n - 1 ensures x in t {
        assert x in s;
        var j :| 0 <= j < |s| && s[j] == x;
        assert x == t[if j < i then j else j - 1];
      }
      OntoIsLong(t, n - 1);
    }
  }

  /** Steps from i round to k among n positions. */
  function Ahead(i: nat, k: nat, n: nat): (steps: nat)
    requires i < n && k < n
  {
    if i <= k then k - i else k + n - i
  }

  /** The first free position at or after start, going round: the inner loop ends
      because some position is free. */
  method NextFree(flg: array<bool>, start: nat, ghost k: nat) returns (i: nat)
    requires start < flg.Length && k < flg.Length && !flg[k]
    ensures i < flg.Length && !flg[i]
    ensures forall q | 0 <= q < flg.Length && Ahead(start, q, flg.Length) < Ahead(start, i, flg.Length) :: flg[q]
  {
    i := start;
    while flg[i]
      invariant i < flg.Length && Ahead(start, i, flg.Length) <= Ahead(start, k, flg.Length)
      invariant forall q | 0 <= q < flg.Length && Ahead(start, q, flg.Length) < Ahead(start, i, flg.Length) :: flg[q]
      decreases Ahead(i, k, flg.Length)
    {
      NextRound(i, flg.Length);
      i := (i + 1) % flg.Length;
    }
  }

  lemma NextRound(i: nat, n: nat)
    requires i < n
    ensures (i + 1) % n == if i + 1 < n then i + 1 else 0
  {
    if i + 1 < n {
      SmallMod(i + 1, n);
    } else {
      DivModUnique(i + 1, n, 1, 0);
    }
  }

  /** Where the search for offset number j begins: at 0, then m past the last one. */
  function StartOf(s: seq<nat>, j: nat, n: nat, m: nat): (i: nat)
    requires n >= 1 && j <= |s|
    ensures i < n
  {
    if j == 0 || s[j - 1] == 0 then 0 else (s[j - 1] - 1 + m) % n
  }

  /** Offset x is the first one at or after start that is not in `before`. */
  ghost predicate FirstLeft(before: seq<nat>, start: nat, x: nat, n: nat)
    requires start < n
  {
    1 <= x <= n && x !in before
    && forall q: nat | q < n && Ahead(start, q, n) < Ahead(start, x - 1, n) :: Taken(before, q)
  }

  ghost predicate Taken(before: seq<nat>, q: nat) { q + 1 in before }

  /** Each offset lies m past the one before it, or at the first free place after. */
  ghost predicate Stepped(s: seq<nat>, n: nat, m: nat)
    requires n >= 1
  {
    forall j | 0 <= j < |s| :: FirstLeft(s[..j], StartOf(s, j, n, m), s[j], n)
  }

  /** k is Ahead(i, k, n) steps on from i, and no fewer. */
  lemma AheadIs(i: nat, k: nat, n: nat)
    requires i < n && k < n
    ensures Ahead(i, k, n) < n && (i + Ahead(i, k, n)) % n == k
  {
    var x := i + Ahead(i, k, n);
    DivModUnique(x, n, if i <= k then 0 else 1, k);
  }

  lemma AheadOf(i: nat, e: nat, n: nat)
    requires i < n && e < n
    ensures Ahead(i, (i + e) % n, n) == e
  {
    var q := if i + e < n then 0 else 1;
    DivModUnique(i + e, n, q, i + e - q * n);
  }

  /** The next offset: m on from the last, or as many more as there are taken ones. */
  ghost predicate NextPlace(s: seq<nat>, j: nat, n: nat, m: nat)
    requires 0 < j < |s| && n >= 1 && s[j - 1] >= 1
  {
    var from := s[j - 1] - 1 + m;
    exists d: nat :: d < n && IsNext(s[..j], from, d, n, s[j])
  }

  ghost predicate IsNext(before: seq<nat>, from: nat, d: nat, n: nat, x: nat)
    requires n >= 1
  {
    x == (from + d) % n + 1 && forall e: nat | e < d :: TakenAt(before, from, e, n)
  }

  ghost predicate TakenAt(before: seq<nat>, from: nat, e: nat, n: nat)
    requires n >= 1
  {
    (from + e) % n + 1 in before
  }

  /** The first offset is 1, and from one to the next it goes m on, past taken ones. */
  lemma SteppedMeans(s: seq<nat>, n: nat, m: nat)
    requires n >= 1 && Stepped(s, n, m) && forall j | 0 <= j < |s| :: 1 <= s[j] <= n
    ensures s != [] ==> s[0] == 1
    ensures forall j: nat | 0 < j < |s| :: NextPlace(s, j, n, m)
  {
    if s != [] {
      FirstIsOne(s[0], n) by { assert s[..0] == [] && FirstLeft(s[..0], StartOf(s, 0, n, m), s[0], n); }
    }
    forall j: nat | 0 < j < |s| ensures NextPlace(s, j, n, m) {
      var from := s[j - 1] - 1 + m;
      assert StartOf(s, j, n, m) == from % n;
      var d := Steps(s[..j], from, s[j], n);
    }
  }

  lemma FirstIsOne(x: nat, n: nat)
    requires n >= 1 && FirstLeft([], 0, x, n)
    ensures x == 1
  {
    assert Ahead(0, 0, n) == 0 && Ahead(0, x - 1, n) == x - 1;
    assert !Taken([], 0);
  }

  lemma Steps(before: seq<nat>, from: nat, x: nat, n: nat) returns (d: nat)
    requires n >= 1 && FirstLeft(before, from % n, x, n)
    ensures d < n && IsNext(before, from, d, n, x)
  {
    hide Ahead;
    d := Ahead(from % n, x - 1, n);
    AheadIs(from % n, x - 1, n);
    ModAdd(from, d, n);
    forall e: nat | e < d ensures TakenAt(before, from, e, n) {
      ModAdd(from, e, n);
      AheadOf(from % n, e, n);
      assert Taken(before, (from % n + e) % n);
    }
  }

  lemma ModAdd(a: nat, b: nat, n: nat)
    requires n >= 1
    ensures (a % n + b) % n == (a + b) % n
  {
    var q, r, k := a / n, a % n, (a % n + b) / n;
    assert a == q * n + r;
    assert (q + k) * n == q * n + k * n;
    DivModUnique(a + b, n, q + k, (r + b) % n);
  }

  lemma StartSame(s: seq<nat>, x: nat, j: nat, n: nat, m: nat)
    requires n >= 1 && j <= |s|
    ensures StartOf(s + [x], j, n, m) == StartOf(s, j, n, m)
  {
  }

  lemma StartNext(s: seq<nat>, x: nat, n: nat, m: nat)
    requires n >= 1 && x >= 1
    ensures StartOf(s + [x], |s| + 1, n, m) == (x - 1 + m) % n
  {
  }

  lemma SteppedMore(s: seq<nat>, x: nat, n: nat, m: nat)
    requires n >= 1 && Stepped(s, n, m) && FirstLeft(s, StartOf(s, |s|, n, m), x, n)
    ensures Stepped(s + [x], n, m)
  {
    hide StartOf, FirstLeft;
    var u := s + [x];
    forall j | 0 <= j < |u| ensures FirstLeft(u[..j], StartOf(u, j, n, m), u[j], n) {
      StartSame(s, x, j, n, m);
      if j < |s| {
        assert u[..j] == s[..j];
      } else {
        assert u[..j] == s;
      }
    }
  }

  /** The permutation of block offsets within a rotation group of n, stepping by m
      and skipping offsets already taken. */
  method Permute(n: nat, m: nat) returns (adr: array<nat>)
    requires n >= 1
    ensures fresh(adr) && IsPermutation(adr[..], n) && Stepped(adr[..], n, m)
  {
    hide Stepped, FirstLeft, IsPermutation, Ahead, StartOf;
    var flg := new bool[n](_ => false);
    adr := new nat[n](_ => 0);
    var i: nat := 0;
    SteppedNone(n, m);
    assert adr[..0] == [];
    for j := 0 to n
      invariant i < n && i == StartOf(adr[..j], j, n, m) && Stepped(adr[..j], n, m)
      invariant Offsets(adr[..j], n)
      invariant forall x | 0 <= x < n :: flg[x] <==> x + 1 in adr[..j]
    {
      ghost var was, start := adr[..j], i;
      ghost var k := FreePosition(was, n);
      i := NextFree(flg, i, k);
      IsFirstLeft(flg[..], was, start, i + 1, n);
      SteppedMore(was, i + 1, n, m);
      StartNext(was, i + 1, n, m);
      adr[j] := i + 1;
      flg[i] := true;
      assert adr[..j + 1] == was + [i + 1];
      i := (i + m) % n;
    }
    assert adr[..n] == adr[..];
    FullIsOnto(adr[..], n);
  }

  ghost predicate Offsets(s: seq<nat>, n: nat) {
    NoDup(s) && forall x | 0 <= x < |s| :: 1 <= s[x] <= n
  }

  lemma SteppedNone(n: nat, m: nat)
    requires n >= 1
    ensures Stepped([], n, m) && StartOf([], 0, n, m) == 0
  {
  }

  lemma IsFirstLeft(flg: seq<bool>, before: seq<nat>, start: nat, x: nat, n: nat)
    requires |flg| == n && start < n && 1 <= x <= n && !flg[x - 1]
    requires forall y | 0 <= y < n :: flg[y] <==> y + 1 in before
    requires forall q | 0 <= q < n && Ahead(start, q, n) < Ahead(start, x - 1, n) :: flg[q]
    ensures FirstLeft(before, start, x, n)
  {
  }

  /** fsize - 1 rounded up to a multiple of n: everything below it is freed. */
  function Top(fsize: nat, n: nat): (d: nat)
    requires fsize >= 1 && n >= 1
  {
    (fsize - 1 + n - 1) / n * n
  }

  lemma TopBounds(fsize: nat, n: nat)
    requires fsize >= 1 && n >= 1
    ensures Top(fsize, n) % n == 0 && fsize - 1 <= Top(fsize, n) < fsize - 1 + n
    ensures Top(fsize, n) == fsize - 1 <==> (fsize - 1) % n == 0
  {
    var x := fsize - 1;
    var q, r := (x + n - 1) / n, (x + n - 1) % n;
    assert x + n - 1 == q * n + r;
    DivModUnique(q * n, n, q, 0);
    if x % n == 0 {
      var p := x / n;
      assert x == p * n;
      DivModUnique(x + n - 1, n, p, n - 1);
    }
  }

  /** Rounding up one at a time, as the source does. */
  method RoundUp(x: nat, n: nat, ghost t: nat) returns (d: nat)
    requires n >= 1 && t % n == 0 && x <= t < x + n
    ensures d == t
  {
    d := x;
    while d % n != 0
      invariant x <= d <= t
      decreases t - d
    {
      d := d + 1;
    }
    NoMultipleBetween(d, t, n);
  }

  /** Two multiples of n less than n apart are equal. */
  lemma NoMultipleBetween(a: nat, b: nat, n: nat)
    requires n >= 1 && a <= b < a + n && a % n == 0 && b % n == 0
    ensures a == b
  {
    assert a == a / n * n && b == b / n * n;
    if a / n < b / n {
      MulGap(a / n, b / n, n);
    } else if b / n < a / n {
      MulGap(b / n, a / n, n);
    }
  }

  /** The blocks of [lo, hi). */
  ghost function Span(lo: int, hi: int): iset<nat> { iset b: nat | Between(lo, b, hi) }

  predicate Between(lo: int, b: nat, hi: int) { lo <= b < hi }

  /** The blocks of [d, top), and the first i blocks of the group below d. */
  ghost function Partly(p: seq<nat>, i: nat, d: nat, top: nat): iset<nat>
    requires i <= |p|
  {
    iset b: nat | Between(d, b, top) || Freed(p, i, d, b)
  }

  /** Block x is freed after y: it lies in a group further down, or later in the same one. */
  ghost predicate FreedAfter(p: seq<nat>, x: nat, y: nat)
    requires |p| > 0
  {
    var n := |p|;
    x / n < y / n
    || (x / n == y / n
        && forall a, b | 0 <= a < n && 0 <= b < n && p[a] == n - x % n && p[b] == n - y % n :: a > b)
  }

  /** The list is exactly in the order the two loops give. */
  ghost predicate Woven(s: seq<nat>, p: seq<nat>) {
    |p| > 0 && forall i, j | 0 <= i < j < |s| :: FreedAfter(p, s[i], s[j])
  }

  /** The block q below a multiple of n. */
  lemma BelowMultiple(d: nat, n: nat, q: nat)
    requires n >= 1 && d % n == 0 && 1 <= q <= n <= d
    ensures (d - q) / n == d / n - 1 && n - (d - q) % n == q
  {
    assert d == d / n * n;
    assert (d / n - 1) * n == d / n * n - n;
    DivModUnique(d - q, n, d / n - 1, n - q);
  }

  lemma NextFreedAfter(p: seq<nat>, i: nat, d: nat, top: nat, b: nat)
    requires i < |p| <= d <= top && IsPermutation(p, |p|) && d % |p| == 0 && b in Partly(p, i, d, top)
    ensures d - p[i] >= 0 && FreedAfter(p, d - p[i], b)
  {
    var n := |p|;
    BelowMultiple(d, n, p[i]);
    if Between(d, b, top) {
      DivAtLeast(b, n, d / n) by { assert d == d / n * n; }
    } else {
      var j :| 0 <= j < i && d - p[j] == b;
      BelowMultiple(d, n, p[j]);
    }
  }

  lemma PartlyNext(p: seq<nat>, i: nat, d: nat, top: nat)
    requires i < |p| <= d <= top && IsPermutation(p, |p|)
    ensures p[i] <= d && d - p[i] !in Partly(p, i, d, top)
    ensures forall b | b in Partly(p, i, d, top) :: d - p[i] < b + |p|
    ensures Partly(p, i + 1, d, top) == Partly(p, i, d, top) + iset{d - p[i] as nat}
  {
    FreedNext(p, i, d);
  }

  lemma PartlyEnds(p: seq<nat>, d: nat, top: nat)
    requires |p| <= d <= top && IsPermutation(p, |p|)
    ensures Partly(p, 0, d, top) == Span(d, top)
    ensures Partly(p, |p|, d, top) == Span(d - |p|, top)
  {
    GroupFreed(p, |p|, d);
  }

  /** Allocation works its way up the volume: a block is never handed out before one
      that lies n or more below it. */
  ghost predicate NearlySorted(s: seq<nat>, n: nat) {
    forall i, j | 0 <= i < j < |s| :: s[i] < s[j] + n
  }

  /** Starting from an empty list and disk d0, exactly the blocks of `freed` in the
      data region have been freed, and only blocks of the data region written. */
  ghost predicate Pushed(fs: S5FS, d0: Disk, freed: iset<nat>, n: nat, p: seq<nat>)
    reads fs, fs.s_free
  {
    var listed := fs.Valid() && fs.s_tfree == |fs.stack|;
    var exact := forall b: nat :: b in fs.stack <==> fs.v.InData(b) && b in freed;
    var kept := |fs.dev| == |d0|
      && forall b: nat | b < |d0| && !fs.v.InData(b) :: fs.dev[b] == d0[b];
    listed && exact && kept && NearlySorted(fs.stack, n) && Woven(fs.stack, p)
  }

  /** One turn of the free loop: block f, if it lies in the data region. */
  method FreeOne(fs: S5FS, f: nat, ghost d0: Disk, ghost freed: iset<nat>, n: nat, ghost p: seq<nat>)
    requires Pushed(fs, d0, freed, n, p) && f !in freed && |p| > 0
    requires forall b | b in freed :: f < b + n && FreedAfter(p, f, b)
    modifies fs, fs.s_free
    ensures Pushed(fs, d0, freed + iset{f}, n, p)
  {
    hide Chain, FreedAfter;
    if f < fs.v.fsize && f >= fs.v.isize {
      fs.Bfree(f);
    }
  }

  /** One rotation group: the blocks of [d - n, d) that lie in the data region, in
      permuted order. */
  method FreeGroup(fs: S5FS, adr: array<nat>, d: nat, n: nat, ghost d0: Disk,
                   ghost lo: nat, ghost top: nat)
    requires n >= 1
    requires Pushed(fs, d0, Span(d, top), n, adr[..]) && n <= d <= top && lo == d - n && d % n == 0
    requires adr.Length == n && IsPermutation(adr[..], n)
    requires adr as object != fs.s_free as object
    modifies fs, fs.s_free
    ensures Pushed(fs, d0, Span(lo, top), n, adr[..])
  {
    hide Pushed, IsPermutation, Partly, Span, FreedAfter;
    ghost var p := adr[..];
    PartlyEnds(p, d, top);
    for i := 0 to n
      invariant adr[..] == p
      invariant Pushed(fs, d0, Partly(p, i, d, top), n, p)
    {
      PartlyNext(p, i, d, top);
      assert adr[i] == p[i];
      forall b: nat | b in Partly(p, i, d, top) ensures d - p[i] >= 0 && FreedAfter(p, d - p[i], b) {
        NextFreedAfter(p, i, d, top, b);
      }
      FreeOne(fs, d - adr[i], d0, Partly(p, i, d, top), n, p);
    }
  }

  /** s5fs_freelist: terminator first, then group after group from the top down.
      Every block of the data region is freed exactly once, except that the volume's
      last block is left out exactly when n divides fsize - 1. */
  method BuildFreeList(fs: S5FS, n: nat, m: nat) returns (ghost p: seq<nat>)
    requires fs.Ready() && fs.s_nfree == 0 && fs.s_tfree == 0 && 1 <= n
    modifies fs, fs.s_free
    ensures fs.Valid() && fs.s_tfree == |fs.stack| && |fs.dev| == |old(fs.dev)|
    ensures forall b: nat | b < |fs.dev| && !fs.v.InData(b) :: fs.dev[b] == old(fs.dev)[b]
    ensures forall b: nat :: b in fs.stack <==>
              fs.v.InData(b) && !(b == fs.v.fsize - 1 && (fs.v.fsize - 1) % n == 0)
    ensures (forall b: nat | fs.v.InData(b) :: b in fs.stack) <==> (fs.v.fsize - 1) % n != 0
    // in the order of the permuted offsets p, the lowest group on top
    ensures IsPermutation(p, n) && Stepped(p, n, m) && Woven(fs.stack, p)
    ensures NearlySorted(fs.stack, n)
  {
    ghost var d0 := fs.dev;
    var adr := Permute(n, m);
    p := adr[..];
    fs.Bfree(0);
    ghost var top := Top(fs.v.fsize, n);
    TopBounds(fs.v.fsize, n);
    var d := RoundUp(fs.v.fsize - 1, n, top);
    hide Pushed, IsPermutation, NearlySorted, Span, Stepped, Woven;
    PushedNone(fs, d0, d, top, n, p);
    while d > 0
      invariant d % n == 0 && d <= top
      invariant adr.Length == n && IsPermutation(adr[..], n) && adr[..] == p
      invariant Pushed(fs, d0, Span(d, top), n, p)
    {
      GroupBelow(d, n);
      FreeGroup(fs, adr, d, n, d0, d - n, top);
      d := d - n;
    }
    PushedParts(fs, d0, Span(0, top), n, p);
    AllBelow(fs, d0, top, n, p);
  }

  lemma PushedNone(fs: S5FS, d0: Disk, d: nat, top: nat, n: nat, p: seq<nat>)
    requires fs.Valid() && fs.stack == [] && fs.s_tfree == 0 && fs.dev == d0 && d == top && |p| > 0
    ensures Pushed(fs, d0, Span(d, top), n, p)
  {
  }

  lemma PushedParts(fs: S5FS, d0: Disk, freed: iset<nat>, n: nat, p: seq<nat>)
    requires Pushed(fs, d0, freed, n, p)
    ensures fs.Valid() && fs.s_tfree == |fs.stack| && |fs.dev| == |d0|
    ensures NearlySorted(fs.stack, n) && Woven(fs.stack, p)
    ensures forall b: nat | b < |d0| && !fs.v.InData(b) :: fs.dev[b] == d0[b]
  {
  }

  lemma AllBelow(fs: S5FS, d0: Disk, top: nat, n: nat, p: seq<nat>)
    requires n >= 1 && Pushed(fs, d0, Span(0, top), n, p)
    requires fs.v.fsize - 1 <= top && (top == fs.v.fsize - 1 <==> (fs.v.fsize - 1) % n == 0)
    ensures forall b: nat :: b in fs.stack <==>
              fs.v.InData(b) && !(b == fs.v.fsize - 1 && (fs.v.fsize - 1) % n == 0)
    ensures (forall b: nat | fs.v.InData(b) :: b in fs.stack) <==> (fs.v.fsize - 1) % n != 0
  {
    var last := fs.v.fsize - 1;
    assert fs.v.InData(last);
    assert last in fs.stack <==> last < top;
  }

  lemma GroupBelow(d: nat, n: nat)
    requires n >= 1 && d > 0 && d % n == 0
    ensures n <= d && (d - n) % n == 0
  {
    assert d == d / n * n;
    MulGap(0, d / n, n);
    DivModUnique(d - n, n, d / n - 1, 0);
  }

  /** Block b is one of the first i blocks of the group below d. */
  ghost predicate Freed(p: seq<nat>, i: nat, d: nat, b: nat)
    requires i <= |p|
  {
    exists j | 0 <= j < i :: d - p[j] == b
  }

  lemma FreedNext(p: seq<nat>, i: nat, d: nat)
    requires i < |p| && NoDup(p)
    ensures forall b: nat :: Freed(p, i + 1, d, b) <==> Freed(p, i, d, b) || d - p[i] == b
    ensures forall b: nat | d - p[i] == b :: !Freed(p, i, d, b)
  {
  }

  lemma GroupFreed(p: seq<nat>, n: nat, d: nat)
    requires IsPermutation(p, n) && n <= d
    ensures forall b: nat :: Freed(p, n, d, b) <==> d - n <= b < d
  {
    forall b: nat ensures Freed(p, n, d, b) <==> d - n <= b < d {
      if d - n <= b < d {
        assert d - b in p;
      }
    }
  }
}

/** Laying down the map of a whole file: direct slots, then single, double and
    triple indirect trees filled in order. */
module Builder {
  import opened Arith
  import opened Endian
  import opened Layout
  import opened FreeList
  import opened Allocator
  import opened BlockMap
  import opened BlockTree
  import opened InodeMap
  import opened MapOps
  import opened RwOps
  import opened Multisets

  /** The e-th run of `per` entries of da, shorter or empty at the end. */
  function Part(da: seq<nat>, e: nat, per: nat): (s: seq<nat>)
    ensures |s| <= per
    decreases e
  {
    var k := Min(per, |da|);
    if e == 0 then da[..k] else Part(da[k..], e - 1, per)
  }

  /** The same run by offset. */
  lemma {:induction false} PartAt(da: seq<nat>, e: nat, per: nat)
    ensures var lo := Min(e * per, |da|); Part(da, e, per) == da[lo..Min(lo + per, |da|)]
    decreases e
  {
    if e > 0 {
      var k, off := Min(per, |da|), (e - 1) * per;
      PartAt(da[k..], e - 1, per);
      assert e * per == off + per;
      PartShift(da, k, off, per);
    }
  }

  lemma PartShift(da: seq<nat>, k: nat, off: nat, per: nat)
    requires k == Min(per, |da|)
    ensures var lo, lo' := Min(off, |da| - k), Min(off + per, |da|);
            da[k..][lo..Min(lo + per, |da| - k)] == da[lo'..Min(lo' + per, |da|)]
  {
  }

  /** The level-l pointer p is the root of a tree that maps exactly da, in order,
      with nothing behind the entries past its end. */
  ghost predicate Built(v: Vol, d: Disk, p: nat, l: nat, da: seq<nat>)
    decreases l
  {
    if l == 0 then |da| <= 1 && p == (if |da| == 1 then da[0] else 0)
    else if da == [] then p == 0
    else
      p != 0 && forall e | 0 <= e < v.nindir ::
        Built(v, d, Ptr(v, d, p, e), l - 1, Part(da, e, Pow(v.nindir, l - 1)))
  }

  /** A built tree reads back as da, holes included, and 0 past its end. */
  lemma {:induction false} BuiltReads(v: Vol, d: Disk, p: nat, l: nat, da: seq<nat>, idx: nat)
    requires Built(v, d, p, l, da) && idx < Pow(v.nindir, l)
    ensures Descend(v, d, p, Digits(v.nindir, idx, l)) == if idx < |da| then da[idx] else 0
    decreases l
  {
    var n := v.nindir;
    if l > 0 && da != [] {
      var e, r, per := Lead(n, idx, l), Rest(n, idx, l), Pow(n, l - 1);
      PartEntry(n, idx, l, da);
      BuiltReads(v, d, Ptr(v, d, p, e), l - 1, Part(da, e, per), r);
      assert Digits(n, idx, l)[1..] == Digits(n, r, l - 1);
    }
  }

  lemma PartEntry(n: nat, idx: nat, l: nat, da: seq<nat>)
    requires n > 0 && l > 0
    ensures var part, r := Part(da, Lead(n, idx, l), Pow(n, l - 1)), Rest(n, idx, l);
            (r < |part| <==> idx < |da|) && (r < |part| ==> part[r] == da[idx])
  {
    var per := Pow(n, l - 1);
    PartAt(da, idx / per, per);
    assert idx == idx / per * per + idx % per;
  }

  /** A built tree is carried by its indirect blocks alone. */
  lemma {:induction false} BuiltFrame(v: Vol, d: Disk, d': Disk, p: nat, l: nat, da: seq<nat>)
    requires |d| == |d'| && Built(v, d, p, l, da) && AllData(v, Inds(v, d, p, l))
    requires forall b | b in Inds(v, d, p, l) && b < |d| :: d'[b] == d[b]
    ensures Built(v, d', p, l, da)
    decreases l
  {
    if l > 0 && da != [] {
      assert p in Inds(v, d, p, l);
      forall e | 0 <= e < v.nindir
        ensures Built(v, d', Ptr(v, d', p, e), l - 1, Part(da, e, Pow(v.nindir, l - 1)))
      {
        NodeParts(v, d, p, l, e);
        BuiltFrame(v, d, d', Ptr(v, d, p, e), l - 1, Part(da, e, Pow(v.nindir, l - 1)));
      }
    }
  }

  /** Indirect blocks needed to map `count` blocks behind a level-l pointer. */
  function Need(n: nat, l: nat, count: nat): nat
    decreases l, 0
  {
    if l == 0 || count == 0 then 0 else 1 + NeedFrom(n, l - 1, count, 0)
  }

  /** ... behind entries e and up of one block, whose entries are level-l pointers. */
  function NeedFrom(n: nat, l: nat, count: nat, e: nat): nat
    decreases l, 1, if e <= n then n - e else 0
  {
    var per := Pow(n, l);
    if e >= n || e * per >= count then 0
    else Need(n, l, Min(per, count - e * per)) + NeedFrom(n, l, count, e + 1)
  }

  /** Entry j of the block buffer. */
  function Entry(v: Vol, blk: Block, j: nat): nat
    requires |blk| == v.Bsize() && j < v.nindir
  {
    Get32(v.order, blk, 4 * j)
  }

  /** The first entries of the buffer are roots of trees for the given runs, the rest
      are empty; k lists the indirect blocks each of them uses. */
  ghost predicate HalfBuilt(v: Vol, d: Disk, blk: Block, l: nat, parts: seq<seq<nat>>,
                            k: seq<multiset<nat>>)
  {
    var e := |parts|;
    var sized := |blk| == v.Bsize() && |k| == e <= v.nindir;
    var done := sized && forall j | 0 <= j < e ::
      Built(v, d, Entry(v, blk, j), l, parts[j]) && k[j] == Inds(v, d, Entry(v, blk, j), l);
    var rest := sized && forall j | e <= j < v.nindir :: Entry(v, blk, j) == 0;
    done && rest
  }

  /** Building elsewhere leaves what is built alone. */
  lemma HalfFrame(v: Vol, d: Disk, d': Disk, blk: Block, l: nat, parts: seq<seq<nat>>,
                  k: seq<multiset<nat>>, m: multiset<nat>)
    requires HalfBuilt(v, d, blk, l, parts, k)
    requires AllData(v, Sum(k)) && ChangedIn(d, d', m) && Distinct(Sum(k) + m)
    ensures HalfBuilt(v, d', blk, l, parts, k)
  {
    forall j | 0 <= j < |parts|
      ensures Built(v, d', Entry(v, blk, j), l, parts[j])
      ensures k[j] == Inds(v, d', Entry(v, blk, j), l)
    {
      SumHas(k, j);
      SubDistinct(k[j] + m, Sum(k) + m);
      BuiltMoved(v, d, d', Entry(v, blk, j), l, parts[j], m);
    }
  }

  lemma BuiltMoved(v: Vol, d: Disk, d': Disk, p: nat, l: nat, da: seq<nat>, m: multiset<nat>)
    requires Built(v, d, p, l, da) && AllData(v, Inds(v, d, p, l))
    requires ChangedIn(d, d', m) && Distinct(Inds(v, d, p, l) + m)
    ensures Built(v, d', p, l, da) && Inds(v, d', p, l) == Inds(v, d, p, l)
  {
    forall b | b in Inds(v, d, p, l) && b < |d| ensures d'[b] == d[b] {
      assert (Inds(v, d, p, l) + m)[b] <= 1;
    }
    BuiltFrame(v, d, d', p, l, da);
    RefsFrame(v, d, d', p, l, 1);
  }

  /** One more entry stored in the buffer. */
  lemma HalfNext(v: Vol, d: Disk, blk: Block, blk': Block, l: nat, parts: seq<seq<nat>>,
                 k: seq<multiset<nat>>, part: seq<nat>, child: nat)
    requires |parts| < v.nindir && HalfBuilt(v, d, blk, l, parts, k)
    requires |blk| == v.Bsize() && SameBut(blk, blk', 4 * |parts|, 4)
    requires Entry(v, blk', |parts|) == child && Built(v, d, child, l, part)
    ensures HalfBuilt(v, d, blk', l, parts + [part], k + [Inds(v, d, child, l)])
  {
    var e := |parts|;
    forall j | 0 <= j < v.nindir && j != e ensures Entry(v, blk', j) == Entry(v, blk, j) {
      Get32Frame(v.order, blk, blk', 4 * e, 4, 4 * j);
    }
  }

  /** No run starts past the end of da. */
  lemma NoMoreParts(da: seq<nat>, e: nat, per: nat, j: nat)
    requires e <= j && e * per >= |da|
    ensures Part(da, j, per) == []
  {
    MulLe(e, j, per);
    PartAt(da, j, per);
  }

  /** parts are the first runs of da. */
  ghost predicate Runs(da: seq<nat>, per: nat, parts: seq<seq<nat>>) {
    forall j | 0 <= j < |parts| :: parts[j] == Part(da, j, per)
  }

  /** parts are all the runs of da that start before its end, among the first n. */
  ghost predicate AllRuns(da: seq<nat>, per: nat, parts: seq<seq<nat>>, n: nat) {
    var rest := forall j | |parts| <= j < n :: Part(da, j, per) == [];
    Runs(da, per, parts) && rest
  }

  /** The finished buffer, stored at bno as a level-(l + 1) block. */
  lemma WholeBuilt(v: Vol, d: Disk, blk: Block, l: nat, per: nat, da: seq<nat>,
                   parts: seq<seq<nat>>, k: seq<multiset<nat>>, bno: nat)
    requires da != [] && v.InData(bno) && HalfBuilt(v, d, blk, l, parts, k)
    requires bno < |d| && d[bno] == blk
    requires per == Pow(v.nindir, l) && AllRuns(da, per, parts, v.nindir)
    ensures Built(v, d, bno, l + 1, da)
    ensures Inds(v, d, bno, l + 1) == multiset{bno} + Sum(k)
  {
    forall j | 0 <= j < v.nindir ensures Ptr(v, d, bno, j) == Entry(v, blk, j) {}
    forall j | 0 <= j < v.nindir ensures Built(v, d, Ptr(v, d, bno, j), l, Part(da, j, per)) {}
    WholeInds(v, d, blk, l, parts, k, bno);
  }

  lemma WholeInds(v: Vol, d: Disk, blk: Block, l: nat, parts: seq<seq<nat>>,
                  k: seq<multiset<nat>>, bno: nat)
    requires v.InData(bno) && HalfBuilt(v, d, blk, l, parts, k)
    requires forall j | 0 <= j < v.nindir :: Ptr(v, d, bno, j) == Entry(v, blk, j)
    ensures Inds(v, d, bno, l + 1) == multiset{bno} + Sum(k)
  {
    var kids, e := KidsFrom(v, d, bno, l + 1, 1), |parts|;
    forall j | 0 <= j < v.nindir ensures kids[j] == if j < e then k[j] else multiset{} {
      assert kids[j] == RefsFrom(v, d, Entry(v, blk, j), l, 1);
    }
    assert kids[..e] == k;
    SumPad(kids, e);
  }

  lemma {:induction false} SumPad(s: seq<multiset<nat>>, e: nat)
    requires e <= |s| && forall j | e <= j < |s| :: s[j] == multiset{}
    ensures Sum(s) == Sum(s[..e])
  {
    if e < |s| {
      var n := |s| - 1;
      SumPad(s[..n], e);
      assert s[..n][..e] == s[..e];
    } else {
      assert s[..e] == s;
    }
  }

  /** 32-bit block numbers. */
  ghost predicate Numbers(da: seq<nat>) {
    forall i | 0 <= i < |da| :: da[i] < 0x1_0000_0000
  }

  /** Blocks taken so far, beside the root: what k uses. */
  ghost predicate Taking(v: Vol, d0: Disk, s0: seq<nat>, d: Disk, s: seq<nat>, bno: nat,
                         k: seq<multiset<nat>>) {
    var moved := Sum(k) + multiset{bno} + multiset(s) == multiset(s0);
    moved && ChangedIn(d0, d, Sum(k))
  }

  lemma TakingNext(v: Vol, d0: Disk, s0: seq<nat>, d: Disk, s: seq<nat>, d': Disk, s': seq<nat>,
                   bno: nat, k: seq<multiset<nat>>, m: multiset<nat>)
    requires Taking(v, d0, s0, d, s, bno, k) && NoDup(s0) && AllInData(v, s0)
    requires m + multiset(s') == multiset(s) && ChangedIn(d, d', m)
    ensures Taking(v, d0, s0, d', s', bno, k + [m])
    ensures AllData(v, Sum(k)) && Distinct(Sum(k) + m) && bno !in Sum(k)
  {
    SumSnoc(k, m);
    NoDupDistinct(s0);
    var all := multiset(s0);
    assert Sum(k) + m + multiset{bno} + multiset(s') == all;
    forall x ensures (Sum(k) + m)[x] <= 1 {
      assert (Sum(k) + m + multiset{bno} + multiset(s'))[x] <= 1;
    }
    forall b | b in Sum(k) ensures v.InData(b) && b != bno {
      assert (Sum(k) + m + multiset{bno} + multiset(s'))[b] <= 1;
      assert b in all;
    }
  }

  /** What building a tree for da behind a level-l pointer p did. */
  ghost predicate Laid(v: Vol, d: Disk, s: seq<nat>, d': Disk, s': seq<nat>,
                       p: nat, l: nat, da: seq<nat>) {
    var mapped := Built(v, d', p, l, da);
    var taken := Inds(v, d', p, l) + multiset(s') == multiset(s)
      && |s'| == |s| - Need(v.nindir, l, |da|);
    mapped && taken && ChangedIn(d, d', Inds(v, d', p, l))
  }

  /** s5fs_build_ind: one indirect block and everything below it. */
  method BuildInd(fs: S5FS, da: seq<nat>, level: nat) returns (bno: nat)
    requires fs.Valid() && level >= 1 && da != []
    requires Numbers(da)
    requires Need(fs.v.nindir, level, |da|) <= |fs.stack|
    modifies fs, fs.s_free
    ensures fs.Valid()
    ensures Laid(fs.v, old(fs.dev), old(fs.stack), fs.dev, fs.stack, bno, level, da)
    ensures bno < 0x1_0000_0000
    ensures fs.s_tfree - |fs.stack| == old(fs.s_tfree) - |old(fs.stack)|
    decreases level, 0
  {
    ghost var d0, s0 := fs.dev, fs.stack;
    var per := PerAt(fs.v, level);
    var l := level - 1;
    bno := fs.Alloc();
    PopMultiset(s0);
    var blk, parts, k := BuildEntries(fs, da, l, per, bno, d0, s0);
    FinishInd(fs, bno, blk, da, l, per, parts, k, d0, s0);
  }

  /** The loop of s5fs_build_ind over the entries of the buffer; l is the entries' level. */
  method BuildEntries(fs: S5FS, da: seq<nat>, l: nat, per: nat, ghost bno: nat,
                      ghost d0: Disk, ghost s0: seq<nat>)
    returns (blk: Block, ghost parts: seq<seq<nat>>, ghost k: seq<multiset<nat>>)
    requires fs.Valid() && da != [] && per == Pow(fs.v.nindir, l) && Numbers(da)
    requires Taking(fs.v, d0, s0, fs.dev, fs.stack, bno, []) && NoDup(s0) && AllInData(fs.v, s0)
    requires NeedFrom(fs.v.nindir, l, |da|, 0) <= |fs.stack|
    modifies fs, fs.s_free
    ensures fs.Valid() && AllRuns(da, per, parts, fs.v.nindir)
    ensures HalfBuilt(fs.v, fs.dev, blk, l, parts, k)
    ensures Taking(fs.v, d0, s0, fs.dev, fs.stack, bno, k)
    ensures |fs.stack| == |old(fs.stack)| - NeedFrom(fs.v.nindir, l, |da|, 0)
    ensures fs.s_tfree - |fs.stack| == old(fs.s_tfree) - |old(fs.stack)|
    decreases l, 4
  {
    blk := ZeroBlock(fs.v.Bsize());
    var e := 0;
    parts, k := [], [];
    while e * per < |da| && e < fs.v.nindir
      invariant fs.Valid() && |parts| == e <= fs.v.nindir && Runs(da, per, parts)
      invariant HalfBuilt(fs.v, fs.dev, blk, l, parts, k)
      invariant Taking(fs.v, d0, s0, fs.dev, fs.stack, bno, k)
      invariant |fs.stack| - NeedFrom(fs.v.nindir, l, |da|, e)
                == |old(fs.stack)| - NeedFrom(fs.v.nindir, l, |da|, 0)
      invariant fs.s_tfree - |fs.stack| == old(fs.s_tfree) - |old(fs.stack)|
      decreases fs.v.nindir - e
    {
      var part := RunAt(fs.v.nindir, l, da, e, per);
      RunsNext(da, per, parts, part);
      blk, parts, k := BuildEntry(fs, part, l, e, blk, bno, parts, k, d0, s0);
      e := e + 1;
    }
    NoneNeeded(fs.v.nindir, l, |da|, e, per);
    NoMoreRuns(da, per, parts, fs.v.nindir);
  }

  lemma NoMoreRuns(da: seq<nat>, per: nat, parts: seq<seq<nat>>, n: nat)
    requires Runs(da, per, parts) && (|parts| == n || |parts| * per >= |da|)
    ensures AllRuns(da, per, parts, n)
  {
    forall j | |parts| <= j < n ensures Part(da, j, per) == [] {
      NoMoreParts(da, |parts|, per, j);
    }
  }

  lemma RunsNext(da: seq<nat>, per: nat, parts: seq<seq<nat>>, part: seq<nat>)
    requires Runs(da, per, parts) && part == Part(da, |parts|, per)
    ensures Runs(da, per, parts + [part])
  {
  }

  lemma NoneNeeded(n: nat, l: nat, count: nat, e: nat, per: nat)
    requires per == Pow(n, l) && (e * per >= count || e >= n)
    ensures NeedFrom(n, l, count, e) == 0
  {
  }

  /** The e-th run: da + off, cut to at most per blocks. */
  method RunAt(n: nat, l: nat, da: seq<nat>, e: nat, per: nat) returns (part: seq<nat>)
    requires n > 0 && e < n && per == Pow(n, l) && e * per < |da| && Numbers(da)
    ensures part == Part(da, e, per) && part != [] && (l == 0 ==> |part| == 1)
    ensures Numbers(part)
    ensures NeedFrom(n, l, |da|, e) == Need(n, l, |part|) + NeedFrom(n, l, |da|, e + 1)
  {
    var off := e * per;
    var sub := if |da| - off > per then per else |da| - off;
    part := da[off..off + sub];
    PartAt(da, e, per);
  }

  /** Store the finished buffer in the root block. */
  method FinishInd(fs: S5FS, bno: nat, blk: Block, ghost da: seq<nat>, ghost l: nat, ghost per: nat,
                   ghost parts: seq<seq<nat>>, ghost k: seq<multiset<nat>>,
                   ghost d0: Disk, ghost s0: seq<nat>)
    requires fs.Valid() && da != [] && NoDup(s0) && AllInData(fs.v, s0)
    requires per == Pow(fs.v.nindir, l) && AllRuns(da, per, parts, fs.v.nindir)
    requires HalfBuilt(fs.v, fs.dev, blk, l, parts, k)
    requires Taking(fs.v, d0, s0, fs.dev, fs.stack, bno, k)
    modifies fs`dev
    ensures fs.Valid() && Built(fs.v, fs.dev, bno, l + 1, da)
    ensures Inds(fs.v, fs.dev, bno, l + 1) + multiset(fs.stack) == multiset(s0)
    ensures ChangedIn(d0, fs.dev, Inds(fs.v, fs.dev, bno, l + 1))
  {
    ghost var v, d := fs.v, fs.dev;
    RootKept(v, d0, s0, d, fs.stack, bno, k);
    fs.WtBlk(bno, blk);
    HalfFrame(v, d, fs.dev, blk, l, parts, k, multiset{bno});
    WholeBuilt(v, fs.dev, blk, l, per, da, parts, k, bno);
  }

  /** One turn of the loop: the tree for the next run, and its entry in the buffer. */
  method BuildEntry(fs: S5FS, part: seq<nat>, l: nat, e: nat, blk: Block, ghost bno: nat,
                    ghost parts: seq<seq<nat>>, ghost k: seq<multiset<nat>>,
                    ghost d0: Disk, ghost s0: seq<nat>)
    returns (blk': Block, ghost parts': seq<seq<nat>>, ghost k': seq<multiset<nat>>)
    requires fs.Valid() && |parts| == e < fs.v.nindir && part != [] && (l == 0 ==> |part| == 1)
    requires Numbers(part)
    requires HalfBuilt(fs.v, fs.dev, blk, l, parts, k)
    requires Taking(fs.v, d0, s0, fs.dev, fs.stack, bno, k) && NoDup(s0) && AllInData(fs.v, s0)
    requires Need(fs.v.nindir, l, |part|) <= |fs.stack|
    modifies fs, fs.s_free
    ensures fs.Valid()
    ensures parts' == parts + [part] && HalfBuilt(fs.v, fs.dev, blk', l, parts', k')
    ensures Taking(fs.v, d0, s0, fs.dev, fs.stack, bno, k')
    ensures |fs.stack| == |old(fs.stack)| - Need(fs.v.nindir, l, |part|)
    ensures fs.s_tfree - |fs.stack| == old(fs.s_tfree) - |old(fs.stack)|
    decreases l, 3
  {
    hide Taking, Numbers, NoDup, AllInData, Need, Inds;
    ghost var v, d, s := fs.v, fs.dev, fs.stack;
    var child := BuildChild(fs, part, l);
    ghost var m := Inds(v, fs.dev, child, l);
    TakingNext(v, d0, s0, d, s, fs.dev, fs.stack, bno, k, m);
    HalfFrame(v, d, fs.dev, blk, l, parts, k, m);
    blk' := Put32(fs.v.order, blk, 4 * e, child);
    HalfNext(v, fs.dev, blk, blk', l, parts, k, part, child);
    parts', k' := parts + [part], k + [m];
  }

  /** What an entry stands for: a data block number as given, or a tree. */
  method BuildChild(fs: S5FS, da: seq<nat>, l: nat) returns (child: nat)
    requires fs.Valid() && da != [] && (l == 0 ==> |da| == 1)
    requires Numbers(da)
    requires Need(fs.v.nindir, l, |da|) <= |fs.stack|
    modifies fs, fs.s_free
    ensures fs.Valid() && child < 0x1_0000_0000
    ensures Laid(fs.v, old(fs.dev), old(fs.stack), fs.dev, fs.stack, child, l, da)
    ensures fs.s_tfree - |fs.stack| == old(fs.s_tfree) - |old(fs.stack)|
    decreases l, 2
  {
    if l == 0 {
      child := da[0];
    } else {
      child := BuildInd(fs, da, l);
    }
  }

  lemma RootKept(v: Vol, d0: Disk, s0: seq<nat>, d: Disk, s: seq<nat>, bno: nat,
                 k: seq<multiset<nat>>)
    requires Taking(v, d0, s0, d, s, bno, k) && NoDup(s0) && AllInData(v, s0)
    ensures AllData(v, Sum(k)) && Distinct(Sum(k) + multiset{bno})
    ensures bno !in s && v.InData(bno)
    ensures ChangedIn(d0, d, multiset{bno} + Sum(k))
  {
    NoDupDistinct(s0);
    var all := Sum(k) + multiset{bno} + multiset(s);
    forall x ensures (Sum(k) + multiset{bno})[x] <= 1 {
      assert all[x] <= 1;
    }
    forall b | b in Sum(k) || b == bno ensures v.InData(b) {
      assert b in all && b in multiset(s0);
    }
    assert all[bno] <= 1;
  }

  // ----- the whole inode

  /** The run of da that lies behind one slot. */
  function SlotRun(v: Vol, da: seq<nat>, slot: nat): seq<nat> {
    var lo := Min(SlotBase(v, slot), |da|);
    da[lo..Min(lo + Pow(v.nindir, SlotLevel(v, slot)), |da|)]
  }

  ghost predicate SlotBuilt(v: Vol, d: Disk, addr: seq<nat>, da: seq<nat>, slot: nat)
    requires slot < |addr|
  {
    Built(v, d, addr[slot], SlotLevel(v, slot), SlotRun(v, da, slot))
  }

  /** addr maps exactly da. */
  ghost predicate MapBuilt(v: Vol, d: Disk, addr: seq<nat>, da: seq<nat>) {
    IsMap(v, addr) && forall slot | 0 <= slot < |addr| :: SlotBuilt(v, d, addr, da, slot)
  }

  /** The reader sees da below its length, holes included, and 0 from there on. */
  lemma MapReads(v: Vol, d: Disk, addr: seq<nat>, da: seq<nat>, lbn: nat)
    requires MapBuilt(v, d, addr, da)
    ensures MapOf(v, d, addr, lbn) == if lbn < |da| && lbn < Capacity(v) then da[lbn] else 0
  {
    RouteRange(v, lbn);
    var r := LbnRoute(v, lbn);
    if r.Route? {
      assert SlotBuilt(v, d, addr, da, r.slot);
      BuiltReads(v, d, addr[r.slot], r.level, SlotRun(v, da, r.slot), r.idx);
    }
  }

  /** Indirect blocks that the maps of slots 0..slot need for `count` blocks. */
  function NeedTo(v: Vol, count: nat, slot: nat): nat {
    if slot == 0 then 0
    else
      var base := SlotBase(v, slot - 1);
      var rest := if base <= count then count - base else 0;
      var l := SlotLevel(v, slot - 1);
      NeedTo(v, count, slot - 1) + Need(v.nindir, l, Min(rest, Pow(v.nindir, l)))
  }

  /** Slots below j are built, the rest empty; indirect blocks came off the free
      list and only they were written. */
  ghost predicate SetTo(v: Vol, d0: Disk, s0: seq<nat>, d: Disk, s: seq<nat>,
                        addr: seq<nat>, da: seq<nat>, j: nat) {
    var shaped := IsMap(v, addr) && j <= |addr|;
    var built := shaped && forall i | 0 <= i < j :: SlotBuilt(v, d, addr, da, i);
    var rest := shaped && forall i | j <= i < |addr| :: addr[i] == 0;
    var taken := InodeInds(v, d, addr) + multiset(s) == multiset(s0)
      && |s| == |s0| - NeedTo(v, |da|, j);
    built && rest && taken && ChangedIn(d0, d, InodeInds(v, d, addr))
  }

  lemma SetStart(v: Vol, d: Disk, s: seq<nat>, addr: seq<nat>, da: seq<nat>)
    requires IsMap(v, addr) && forall i | 0 <= i < |addr| :: addr[i] == 0
    ensures SetTo(v, d, s, d, s, addr, da, 0)
  {
    SumEmpty(SlotRefs(v, d, addr, 1));
  }

  /** One more slot. */
  lemma SetNext(v: Vol, d0: Disk, s0: seq<nat>, d: Disk, s: seq<nat>, d': Disk, s': seq<nat>,
                addr: seq<nat>, da: seq<nat>, j: nat, p: nat)
    requires NoDup(s0) && AllInData(v, s0)
    requires SetTo(v, d0, s0, d, s, addr, da, j) && j < |addr|
    requires Laid(v, d, s, d', s', p, SlotLevel(v, j), SlotRun(v, da, j))
    ensures SetTo(v, d0, s0, d', s', addr[j := p], da, j + 1)
  {
    hide SlotBuilt, Inds, InodeInds, Need, NeedTo, SlotRun, SlotLevel, NoDup, AllInData;
    NextSlots(v, d0, s0, d, s, d', s', addr, da, j, p);
    RunNeed(v, da, j);
    var m := Inds(v, d', p, SlotLevel(v, j));
    Regroup(InodeInds(v, d, addr), m, multiset(s'), multiset(s), multiset(s0));
    TwoChanges(d0, d, d', InodeInds(v, d, addr), m);
  }

  lemma NextSlots(v: Vol, d0: Disk, s0: seq<nat>, d: Disk, s: seq<nat>, d': Disk, s': seq<nat>,
                  addr: seq<nat>, da: seq<nat>, j: nat, p: nat)
    requires NoDup(s0) && AllInData(v, s0)
    requires SetTo(v, d0, s0, d, s, addr, da, j) && j < |addr|
    requires Laid(v, d, s, d', s', p, SlotLevel(v, j), SlotRun(v, da, j))
    ensures var addr' := addr[j := p];
            forall i | 0 <= i <= j :: SlotBuilt(v, d', addr', da, i)
    ensures InodeInds(v, d', addr[j := p]) == InodeInds(v, d, addr) + Inds(v, d', p, SlotLevel(v, j))
  {
    var m, addr' := Inds(v, d', p, SlotLevel(v, j)), addr[j := p];
    var k, k' := SlotRefs(v, d, addr, 1), SlotRefs(v, d', addr', 1);
    SetApart(v, s0, Sum(k), m, s');
    forall i | 0 <= i < |addr| && i != j
      ensures k'[i] == k[i] && (i < j ==> SlotBuilt(v, d', addr', da, i))
    {
      if i < j {
        SlotKept(v, d, d', addr, da, i, m);
      }
    }
    SumReplace(k, k', j, m);
    assert SlotBuilt(v, d', addr', da, j);
  }

  lemma Regroup(a: multiset<nat>, m: multiset<nat>, x: multiset<nat>, y: multiset<nat>, z: multiset<nat>)
    requires a + y == z && m + x == y
    ensures (a + m) + x == z
  {
    assert (a + m) + x == a + (m + x);
  }

  lemma TwoChanges(d0: Disk, d: Disk, d': Disk, k: multiset<nat>, m: multiset<nat>)
    requires ChangedIn(d0, d, k) && ChangedIn(d, d', m)
    ensures ChangedIn(d0, d', k + m)
  {
  }

  lemma SumReplace(k: seq<multiset<nat>>, k': seq<multiset<nat>>, j: nat, m: multiset<nat>)
    requires |k| == |k'| && j < |k| && k[j] == multiset{} && k'[j] == m
    requires forall i | 0 <= i < |k| && i != j :: k'[i] == k[i]
    ensures Sum(k') == Sum(k) + m
  {
    assert k' == k[j := m];
    SumUpdate(k, j, m);
    assert Sum(k') + multiset{} == Sum(k) + m;
  }

  lemma SlotKept(v: Vol, d: Disk, d': Disk, addr: seq<nat>, da: seq<nat>, i: nat, m: multiset<nat>)
    requires i < |addr| && SlotBuilt(v, d, addr, da, i)
    requires ChangedIn(d, d', m)
    requires AllData(v, InodeInds(v, d, addr)) && Distinct(InodeInds(v, d, addr) + m)
    ensures Built(v, d', addr[i], SlotLevel(v, i), SlotRun(v, da, i))
    ensures Inds(v, d', addr[i], SlotLevel(v, i)) == Inds(v, d, addr[i], SlotLevel(v, i))
  {
    var l := SlotLevel(v, i);
    SlotPart(v, d, addr, i, 1);
    SubDistinct(Inds(v, d, addr[i], l) + m, InodeInds(v, d, addr) + m);
    BuiltMoved(v, d, d', addr[i], l, SlotRun(v, da, i), m);
  }

  lemma SetApart(v: Vol, s0: seq<nat>, k: multiset<nat>, m: multiset<nat>, s: seq<nat>)
    requires NoDup(s0) && AllInData(v, s0) && k + m + multiset(s) == multiset(s0)
    ensures AllData(v, k) && Distinct(k + m)
  {
    NoDupDistinct(s0);
    forall x ensures (k + m)[x] <= 1 {
      assert (k + m + multiset(s))[x] <= 1;
    }
    forall b | b in k ensures v.InData(b) {
      assert b in multiset(s0);
    }
  }

  lemma RunNeed(v: Vol, da: seq<nat>, j: nat)
    ensures NeedTo(v, |da|, j + 1)
            == NeedTo(v, |da|, j) + Need(v.nindir, SlotLevel(v, j), |SlotRun(v, da, j)|)
  {
  }

  lemma {:induction false} NeedMono(v: Vol, count: nat, i: nat, j: nat)
    requires i <= j
    ensures NeedTo(v, count, i) <= NeedTo(v, count, j)
  {
    if i < j {
      NeedMono(v, count, i, j - 1);
    }
  }

  /** The slots past the end of da stay empty. */
  lemma SetRest(v: Vol, d0: Disk, s0: seq<nat>, d: Disk, s: seq<nat>,
                addr: seq<nat>, da: seq<nat>, j: nat)
    requires SetTo(v, d0, s0, d, s, addr, da, j) && (j < |addr| ==> |da| <= SlotBase(v, j))
    ensures SetTo(v, d0, s0, d, s, addr, da, |addr|)
    decreases |addr| - j
  {
    if j < |addr| {
      assert SlotRun(v, da, j) == [];
      assert SlotBuilt(v, d, addr, da, j);
      RunNeed(v, da, j);
      assert Need(v.nindir, SlotLevel(v, j), 0) == 0;
      BasesGrow(v, j);
      SetRest(v, d0, s0, d, s, addr, da, j + 1);
    }
  }

  lemma BasesGrow(v: Vol, j: nat)
    ensures j + 1 < Naddr(v) ==> SlotBase(v, j) < SlotBase(v, j + 1)
    ensures j + 1 < Naddr(v) ==> SlotBase(v, j) + Pow(v.nindir, SlotLevel(v, j)) == SlotBase(v, j + 1)
    ensures j + 1 == Naddr(v) ==> SlotBase(v, j) + Pow(v.nindir, SlotLevel(v, j)) == Capacity(v)
  {
    PowCaps(v.nindir);
  }

  /** A direct slot. */
  method SetDirect(fs: S5FS, ds: array<nat>, da: seq<nat>, i: nat, ghost d0: Disk, ghost s0: seq<nat>)
    requires ds.Length == Naddr(fs.v) && i < fs.v.laddr && i < |da|
    requires NoDup(s0) && AllInData(fs.v, s0)
    requires SetTo(fs.v, d0, s0, fs.dev, fs.stack, ds[..], da, i)
    modifies ds
    ensures SetTo(fs.v, d0, s0, fs.dev, fs.stack, ds[..], da, i + 1)
  {
    ghost var addr := ds[..];
    ds[i] := da[i];
    assert SlotRun(fs.v, da, i) == [da[i]];
    assert Laid(fs.v, fs.dev, fs.stack, fs.dev, fs.stack, da[i], 0, [da[i]]);
    SetNext(fs.v, d0, s0, fs.dev, fs.stack, fs.dev, fs.stack, addr, da, i, da[i]);
    assert ds[..] == addr[i := da[i]];
  }

  /** The slots known to be final once `rest` blocks remain for level + 1 and up. */
  function Reached(v: Vol, rest: nat, level: nat): nat {
    if rest == 0 || level == 3 then Naddr(v) else v.laddr + level
  }

  /** Blocks of da that levels 0..level do not map. */
  function Beyond(v: Vol, count: nat, level: nat): nat {
    var end := SlotBase(v, v.laddr + level);
    if level < 3 then (if count <= end then 0 else count - end)
    else if count <= Capacity(v) then 0 else count - Capacity(v)
  }

  lemma BeyondAll(v: Vol, count: nat, level: nat)
    requires level <= 3
    ensures Beyond(v, count, level) == 0 ==> Beyond(v, count, 3) == 0
    ensures level == 3 ==> (Beyond(v, count, level) == 0 <==> count <= Capacity(v))
  {
    forall j | v.laddr <= j < Naddr(v) { BasesGrow(v, j); }
  }

  /** What remains of da when its level-l slot is reached, and what that slot takes. */
  lemma IndirectRun(v: Vol, da: seq<nat>, level: nat, base: nat, cap: nat, c: nat)
    requires 1 <= level <= 3 && Beyond(v, |da|, level - 1) > 0
    requires base == SlotBase(v, v.laddr + level - 1) && cap == LevelCap(v.nindir, level)
    requires base <= |da| ==> c == Min(|da| - base, cap)
    ensures base < |da| && 0 < c
    ensures SlotRun(v, da, v.laddr + level - 1) == da[base..][..c]
    ensures Beyond(v, |da|, level) == |da| - base - c
  {
    BasesGrow(v, v.laddr + level - 1);
    PowCaps(v.nindir);
  }

  lemma IndirectNeed(v: Vol, da: seq<nat>, level: nat, c: nat)
    requires 1 <= level <= 3 && c == |SlotRun(v, da, v.laddr + level - 1)|
    ensures NeedTo(v, |da|, v.laddr + level - 1) + Need(v.nindir, level, c)
            <= NeedTo(v, |da|, Naddr(v))
  {
    RunNeed(v, da, v.laddr + level - 1);
    NeedMono(v, |da|, v.laddr + level, Naddr(v));
  }

  lemma LevelDone(v: Vol, d0: Disk, s0: seq<nat>, d: Disk, s: seq<nat>, d': Disk, s': seq<nat>,
                  addr: seq<nat>, da: seq<nat>, level: nat, root: nat, run: seq<nat>)
    requires NoDup(s0) && AllInData(v, s0) && 1 <= level <= 3
    requires SetTo(v, d0, s0, d, s, addr, da, v.laddr + level - 1)
    requires run == SlotRun(v, da, v.laddr + level - 1) && Laid(v, d, s, d', s', root, level, run)
    ensures SetTo(v, d0, s0, d', s', addr[v.laddr + level - 1 := root], da,
                  Reached(v, Beyond(v, |da|, level), level))
  {
    var j := v.laddr + level - 1;
    SetNext(v, d0, s0, d, s, d', s', addr, da, j, root);
    if Beyond(v, |da|, level) == 0 {
      SetRest(v, d0, s0, d', s', addr[j := root], da, j + 1);
    }
  }

  /** An indirect slot: what remains of da, up to the level's capacity. */
  method SetIndirect(fs: S5FS, ds: array<nat>, da: seq<nat>, level: nat,
                     ghost d0: Disk, ghost s0: seq<nat>)
    returns (rest: nat)
    requires fs.Valid() && ds.Length == Naddr(fs.v) && 1 <= level <= 3
    requires ds as object != fs.s_free as object
    requires NoDup(s0) && AllInData(fs.v, s0) && Numbers(da)
    requires Beyond(fs.v, |da|, level - 1) > 0
    requires SetTo(fs.v, d0, s0, fs.dev, fs.stack, ds[..], da, fs.v.laddr + level - 1)
    requires NeedTo(fs.v, |da|, Naddr(fs.v)) <= |s0|
    modifies fs, fs.s_free, ds
    ensures fs.Valid() && rest == Beyond(fs.v, |da|, level)
    ensures SetTo(fs.v, d0, s0, fs.dev, fs.stack, ds[..], da, Reached(fs.v, rest, level))
    ensures fs.s_tfree - |fs.stack| == old(fs.s_tfree) - |old(fs.stack)|
  {
    ghost var v, d, s, addr := fs.v, fs.dev, fs.stack, ds[..];
    var base := SlotBase(fs.v, fs.v.laddr + level - 1);
    var cap := LevelCap(fs.v.nindir, level);
    ghost var most := if base <= |da| then Min(|da| - base, cap) else 0;
    IndirectRun(v, da, level, base, cap, most);
    var p := da[base..];
    var c := if |p| < cap then |p| else cap;
    IndirectNeed(v, da, level, c);
    var root := BuildInd(fs, p[..c], level);
    ds[fs.v.laddr + level - 1] := root;
    assert ds[..] == addr[v.laddr + level - 1 := root];
    LevelDone(v, d0, s0, d, s, fs.dev, fs.stack, addr, da, level, root, p[..c]);
    rest := |p| - c;
  }

  /** s5fs_setblocks: install the block numbers da as the map of an inode. */
  method SetBlocks(fs: S5FS, ds: array<nat>, da: seq<nat>) returns (rc: int)
    requires fs.Valid() && ds.Length == Naddr(fs.v) && ds as object != fs.s_free as object
    requires Numbers(da) && NeedTo(fs.v, |da|, Naddr(fs.v)) <= |fs.stack|
    modifies fs, fs.s_free, ds
    ensures rc == if |da| <= Capacity(fs.v) then 0 else -1
    ensures rc == 0 ==> fs.Valid()
    ensures rc == -1 ==> fs.error
    ensures MapBuilt(fs.v, fs.dev, ds[..], da)
    ensures SetTo(fs.v, old(fs.dev), old(fs.stack), fs.dev, fs.stack, ds[..], da, Naddr(fs.v))
    ensures fs.s_tfree - |fs.stack| == old(fs.s_tfree) - |old(fs.stack)|
    ensures forall lbn: nat ::
      MapOf(fs.v, fs.dev, ds[..], lbn)
      == if lbn < |da| && lbn < Capacity(fs.v) then da[lbn] else 0
  {
    ghost var v, d0, s0 := fs.v, fs.dev, fs.stack;
    rc := SetSlots(fs, ds, da);
    BeyondAll(v, |da|, 3);
    ghost var addr := ds[..];
    forall lbn: nat
      ensures MapOf(v, fs.dev, addr, lbn) == if lbn < |da| && lbn < Capacity(v) then da[lbn] else 0
    {
      MapReads(v, fs.dev, addr, da, lbn);
    }
  }

  method SetSlots(fs: S5FS, ds: array<nat>, da: seq<nat>) returns (rc: int)
    requires fs.Valid() && ds.Length == Naddr(fs.v) && ds as object != fs.s_free as object
    requires Numbers(da) && NeedTo(fs.v, |da|, Naddr(fs.v)) <= |fs.stack|
    modifies fs, fs.s_free, ds
    ensures rc == if Beyond(fs.v, |da|, 3) == 0 then 0 else -1
    ensures rc == 0 ==> fs.Valid()
    ensures rc == -1 ==> fs.error
    ensures SetTo(fs.v, old(fs.dev), old(fs.stack), fs.dev, fs.stack, ds[..], da, Naddr(fs.v))
    ensures fs.s_tfree - |fs.stack| == old(fs.s_tfree) - |old(fs.stack)|
  {
    hide SetTo, Beyond, NeedTo, Numbers, S5FS.Valid;
    ghost var d0, s0 := fs.dev, fs.stack;
    var rest := SetDirects(fs, ds, da);
    var level := 1;
    while level <= 3 && rest != 0
      invariant 1 <= level <= 4 && fs.Valid() && rest == Beyond(fs.v, |da|, level - 1)
      invariant SetTo(fs.v, d0, s0, fs.dev, fs.stack, ds[..], da, Reached(fs.v, rest, level - 1))
      invariant fs.s_tfree - |fs.stack| == old(fs.s_tfree) - |old(fs.stack)|
    {
      rest := SetIndirect(fs, ds, da, level, d0, s0);
      level := level + 1;
    }
    BeyondAll(fs.v, |da|, level - 1);
    if rest != 0 {
      fs.error := true; // file too large for filesystem
      return -1;
    }
    return 0;
  }

  method SetDirects(fs: S5FS, ds: array<nat>, da: seq<nat>) returns (rest: nat)
    requires fs.Valid() && ds.Length == Naddr(fs.v) && ds as object != fs.s_free as object
    modifies ds
    ensures fs.Valid() && rest == Beyond(fs.v, |da|, 0)
    ensures SetTo(fs.v, fs.dev, fs.stack, fs.dev, fs.stack, ds[..], da, Reached(fs.v, rest, 0))
  {
    for i := 0 to ds.Length
      invariant fs.Valid() && forall j | 0 <= j < i :: ds[j] == 0
    {
      ds[i] := 0;
    }
    SetStart(fs.v, fs.dev, fs.stack, ds[..], da);
    var i := 0;
    rest := |da|;
    while i < fs.v.laddr && rest != 0
      invariant fs.Valid() && i <= fs.v.laddr && rest + i == |da|
      invariant SetTo(fs.v, fs.dev, fs.stack, fs.dev, fs.stack, ds[..], da, i)
    {
      SetDirect(fs, ds, da, i, fs.dev, fs.stack);
      i, rest := i + 1, rest - 1;
    }
    if rest == 0 {
      SetRest(fs.v, fs.dev, fs.stack, fs.dev, fs.stack, ds[..], da, i);
    }
  }
}

/** The block map of the mutation engine: look up, allocate, unmap, free. */
module MapOps {
  import opened Arith
  import opened Endian
  import opened Layout
  import opened FreeList
  import opened Allocator
  import opened BlockMap
  import opened BlockTree
  import opened Multisets

  /** Tree blocks and free blocks together: nothing is counted twice, and every
      tree block lies in the data region. */
  ghost predicate Apart(v: Vol, refs: multiset<nat>, stack: seq<nat>) {
    AllData(v, refs) && Distinct(refs + multiset(stack))
  }

  lemma DigitsArePath(v: Vol, idx: nat, l: nat)
    requires idx < Pow(v.nindir, l)
    ensures IsPath(v, Digits(v.nindir, idx, l))
  {
    forall k | 0 <= k < l ensures Digits(v.nindir, idx, l)[k] < v.nindir {
      DigitsBound(v.nindir, idx, l, k);
    }
  }

  lemma DigitsSingle(v: Vol, idx: nat)
    ensures Digits(v.nindir, idx, 1) == [idx] && Pow(v.nindir, 1) == v.nindir
  {
    var n := v.nindir;
    assert Pow(n, 1) == n * Pow(n, 0) == n;
    assert Digits(n, Rest(n, idx, 1), 0) == [];
  }

  /** Store q in entry e of indirect block blk, given the block's bytes. */
  method StorePtr(fs: S5FS, blk: nat, ib: Block, e: nat, q: nat)
    requires fs.Ready() && blk < |fs.dev| && ib == fs.dev[blk] && e < fs.v.nindir
    requires q < 0x1_0000_0000
    modifies fs`dev
    ensures fs.Ready() && ChangedIn(old(fs.dev), fs.dev, multiset{blk})
    ensures old(fs.Valid()) && blk !in fs.stack ==> fs.Valid()
    ensures Ptr(fs.v, fs.dev, blk, e) == q
    ensures SamePtrsBut(fs.v, old(fs.dev), fs.dev, blk, e)
  {
    var ib' := Put32(fs.v.order, ib, 4 * e, q);
    fs.WtBlk(blk, ib');
    forall i | 0 <= i < fs.v.nindir && i != e
      ensures Ptr(fs.v, fs.dev, blk, i) == Ptr(fs.v, old(fs.dev), blk, i)
    {
      Get32Frame(fs.v.order, ib, ib', 4 * e, 4, 4 * i);
    }
  }

  /** Clear block blk. */
  method StoreZeros(fs: S5FS, blk: nat)
    requires fs.Ready() && blk < |fs.dev|
    modifies fs`dev
    ensures fs.Ready() && ChangedIn(old(fs.dev), fs.dev, multiset{blk})
    ensures old(fs.Valid()) && blk !in fs.stack ==> fs.Valid()
    ensures forall i | 0 <= i < fs.v.nindir :: Ptr(fs.v, fs.dev, blk, i) == 0
  {
    var z := ZeroBlock(fs.v.Bsize());
    fs.WtBlk(blk, z);
  }

  /** The free list holds what is asked of it. */
  predicate Affordable(alloc: bool, missing: nat, s: seq<nat>) { alloc ==> missing <= |s| }

  /** The block number a lookup comes up with when the free list held too little: 0 when
      only the data block itself could not be had.  An indirect block that could not be
      had is gone into all the same, through a buffer that nothing fills any more; stray
      stands for the number found there. */
  function StarvedAnswer(missing: nat, free: nat, stray: nat): nat {
    if missing == free + 1 then 0 else stray
  }

  /** The free list ran out on the way: the handle has failed, and all it wrote before
      that lies in m. */
  ghost predicate Starved(fs: S5FS, d: Disk, m: multiset<nat>)
    reads fs
  {
    fs.error && Sized(fs.v, fs.dev) && ChangedIn(d, fs.dev, m)
  }

  /** The same for a tree: what it referred to it still refers to. */
  ghost predicate StarvedTree(fs: S5FS, d: Disk, s: seq<nat>, p: nat, l: nat)
    reads fs
  {
    Starved(fs, d, Refs(fs.v, d, p, l) + multiset(s)) && Refs(fs.v, d, p, l) <= Refs(fs.v, fs.dev, p, l)
  }

  /** The mapping below p is the same in d' as in d, except down one path. */
  ghost predicate SameMapBut(v: Vol, d: Disk, d': Disk, p: nat, path: seq<nat>) {
    forall other | |other| == |path| && IsPath(v, other) && other != path ::
      Descend(v, d', p, other) == Descend(v, d, p, other)
  }

  /** The first n free blocks were taken. */
  ghost predicate Taken(s: seq<nat>, s': seq<nat>, n: nat) { n <= |s| && s' == s[n..] }

  /** What looking up (alloc false) or filling in (alloc true) a path does below a
      pointer that goes from p to q: blocks only move from the free list to the tree, as
      many as were missing and from the top; no other path changes, and only indirect
      blocks of the tree are written. */
  ghost predicate SlotMapped(v: Vol, d: Disk, s: seq<nat>, p: nat, d': Disk, s': seq<nat>, q: nat,
                             path: seq<nat>, alloc: bool, phys: nat) {
    && Refs(v, d', q, |path|) + multiset(s') == Refs(v, d, p, |path|) + multiset(s)
    && ChangedIn(d, d', Inds(v, d', q, |path|))
    && (forall other | |other| == |path| && IsPath(v, other) && other != path ::
          Descend(v, d', q, other) == Descend(v, d, p, other))
    && phys == Descend(v, d', q, path)
    && (alloc ==> phys != 0 && Taken(s, s', Missing(v, d, p, path)))
    && (!alloc || Descend(v, d, p, path) != 0 ==> d' == d && s' == s && q == p)
    && (p == 0 || q == p)
  }

  /** The same below a block that is there already. */
  ghost predicate Mapped(v: Vol, d: Disk, s: seq<nat>, d': Disk, s': seq<nat>,
                         p: nat, path: seq<nat>, alloc: bool, phys: nat) {
    SlotMapped(v, d, s, p, d', s', p, path, alloc, phys)
  }

  lemma MappedSame(v: Vol, d: Disk, s: seq<nat>, p: nat, path: seq<nat>, alloc: bool)
    requires alloc ==> Descend(v, d, p, path) != 0
    ensures Mapped(v, d, s, d, s, p, path, alloc, Descend(v, d, p, path))
  {
    if alloc {
      NothingMissing(v, d, p, path);
    }
  }

  lemma {:induction false} NothingMissing(v: Vol, d: Disk, p: nat, path: seq<nat>)
    requires Descend(v, d, p, path) != 0
    ensures Missing(v, d, p, path) == 0
    decreases |path|
  {
    if path != [] {
      NothingMissing(v, d, Ptr(v, d, p, path[0]), path[1..]);
    }
  }

  /** Fill the empty entry e of a single-indirect block with a free block. */
  lemma FillEntry(v: Vol, d: Disk, d': Disk, p: nat, e: nat, q: nat, s: seq<nat>)
    requires e < v.nindir && v.InData(p) && v.InData(q)
    requires s != [] && s[0] == q && Apart(v, Refs(v, d, p, 1), s)
    requires Ptr(v, d, p, e) == 0 && Ptr(v, d', p, e) == q
    requires ChangedIn(d, d', multiset{p}) && SamePtrsBut(v, d, d', p, e)
    ensures Mapped(v, d, s, d', s[1..], p, [e], true, q)
  {
    FillEntryRefs(v, d, d', p, e, q, multiset(s));
    PopMultiset(s);
    SingleInds(v, d', p);
    SingleMap(v, d, d', p, e);
  }

  lemma FillEntryRefs(v: Vol, d: Disk, d': Disk, p: nat, e: nat, q: nat, m: multiset<nat>)
    requires e < v.nindir && v.InData(p) && v.InData(q)
    requires Distinct(Refs(v, d, p, 1) + m)
    requires Ptr(v, d, p, e) == 0 && Ptr(v, d', p, e) == q
    requires ChangedIn(d, d', multiset{p}) && SamePtrsBut(v, d, d', p, e)
    ensures Refs(v, d', p, 1) == Refs(v, d, p, 1) + multiset{q}
  {
    KidChange(v, d, d', p, 1, e, m);
    assert Refs(v, d, 0, 0) == multiset{};
    assert Refs(v, d', q, 0) == multiset{q};
  }

  lemma SingleMap(v: Vol, d: Disk, d': Disk, p: nat, e: nat)
    requires e < v.nindir && p != 0 && SamePtrsBut(v, d, d', p, e)
    ensures SameMapBut(v, d, d', p, [e])
    ensures Descend(v, d', p, [e]) == Ptr(v, d', p, e)
    ensures Descend(v, d, p, [e]) == Ptr(v, d, p, e)
    ensures Missing(v, d, p, [e]) == if Ptr(v, d, p, e) == 0 then 1 else 0
  {
    assert [e][1..] == [];
    forall other | |other| == 1 && IsPath(v, other) && other != [e]
      ensures Descend(v, d', p, other) == Descend(v, d, p, other)
    {
      assert other[1..] == [] && other == [other[0]];
    }
  }

  lemma PopMultiset(s: seq<nat>)
    requires s != []
    ensures multiset(s) == multiset{s[0]} + multiset(s[1..])
  {
    assert s == [s[0]] + s[1..];
  }

  /** The single-indirect case of ind_map. */
  method IndMapSingle(fs: S5FS, iblk: nat, idx: nat, alloc: bool) returns (phys: nat)
    requires fs.Valid() && idx < fs.v.nindir && fs.v.InData(iblk)
    requires Apart(fs.v, Refs(fs.v, fs.dev, iblk, 1), fs.stack)
    modifies fs, fs.s_free
    ensures if old(Affordable(alloc, Missing(fs.v, fs.dev, iblk, [idx]), fs.stack)) then
              && fs.Valid() && fs.s_tfree - |fs.stack| == old(fs.s_tfree) - |old(fs.stack)|
              && Mapped(fs.v, old(fs.dev), old(fs.stack), fs.dev, fs.stack, iblk, [idx], alloc, phys)
            else
              && phys == 0 && StarvedTree(fs, old(fs.dev), old(fs.stack), iblk, 1)
              && old(Missing(fs.v, fs.dev, iblk, [idx]) == |fs.stack| + 1)
  {
    ghost var v, d, s := fs.v, fs.dev, fs.stack;
    assert [idx][1..] == [];
    var ib := fs.RdBlk(iblk);
    phys := Get32(fs.v.order, ib, 4 * idx);
    if phys == 0 && alloc {
      ApartFromStack(v, Refs(v, d, iblk, 1), s, iblk);
      assert Missing(v, d, iblk, [idx]) == 1;
      phys := fs.Alloc();
      if fs.error {
        return;
      }
      StorePtr(fs, iblk, ib, idx, phys);
      FillEntry(v, d, fs.dev, iblk, idx, phys, s);
    } else {
      MappedSame(v, d, s, iblk, [idx], alloc);
    }
  }

  /** A change at entry e of p leaves every path through another entry alone. */
  lemma OtherPaths(v: Vol, d: Disk, d': Disk, p: nat, l: nat, e: nat, m: multiset<nat>, path: seq<nat>)
    requires l > 0 && e < v.nindir && v.InData(p)
    requires |path| == l && IsPath(v, path) && path[0] != e
    requires AllData(v, Refs(v, d, p, l)) && Distinct(Refs(v, d, p, l) + m)
    requires ChangedIn(d, d', multiset{p} + Refs(v, d, Ptr(v, d, p, e), l - 1) + m)
    requires SamePtrsBut(v, d, d', p, e)
    ensures Descend(v, d', p, path) == Descend(v, d, p, path)
  {
    RefsFromMono(v, d, p, l, 0, 1);
    NodeParts(v, d, p, l, path[0]);
    SiblingFrame(v, d, d', p, l, e, m, path[0]);
    DescendFrame(v, d, d', Ptr(v, d, p, path[0]), path[1..]);
  }

  /** Link the freshly cleared block child behind the empty entry e of p. */
  lemma LinkChild(v: Vol, d: Disk, d': Disk, p: nat, l: nat, e: nat, child: nat, s: seq<nat>)
    requires l > 1 && e < v.nindir && v.InData(p) && v.InData(child)
    requires Apart(v, Refs(v, d, p, l), s) && child in s
    requires Ptr(v, d, p, e) == 0 && Ptr(v, d', p, e) == child
    requires ChangedIn(d, d', multiset{p} + multiset{child}) && SamePtrsBut(v, d, d', p, e)
    requires forall i | 0 <= i < v.nindir :: Ptr(v, d', child, i) == 0
    ensures Refs(v, d', p, l) == Refs(v, d, p, l) + multiset{child}
    ensures Refs(v, d', child, l - 1) == multiset{child}
    ensures forall path | |path| == l && IsPath(v, path) ::
              Descend(v, d', p, path) == Descend(v, d, p, path)
    ensures forall path | |path| == l - 1 && IsPath(v, path) ::
              Missing(v, d', child, path) == l - 1
  {
    var m := multiset(s);
    EmptyNode(v, d', child, l - 1);
    KidChange(v, d, d', p, l, e, m);
    assert Refs(v, d, 0, l - 1) == multiset{};
    forall path | |path| == l && IsPath(v, path)
      ensures Descend(v, d', p, path) == Descend(v, d, p, path)
    {
      if path[0] != e {
        OtherPaths(v, d, d', p, l, e, m, path);
      } else {
        assert IsPath(v, path[1..]);
      }
    }
  }

  /** A step below entry e of p, seen from p. */
  lemma MappedBelow(v: Vol, d: Disk, s: seq<nat>, d': Disk, s': seq<nat>, p: nat, path: seq<nat>,
                    alloc: bool, phys: nat)
    requires path != [] && IsPath(v, path) && v.InData(p)
    requires Apart(v, Refs(v, d, p, |path|), s) && AllInData(v, s)
    requires Mapped(v, d, s, d', s', Ptr(v, d, p, path[0]), path[1..], alloc, phys)
    requires Ptr(v, d, p, path[0]) != 0
    ensures Mapped(v, d, s, d', s', p, path, alloc, phys)
  {
    BelowRefs(v, d, s, d', s', p, path, alloc, phys);
    BelowPaths(v, d, s, d', s', p, path);
    AllDataOf(v, Refs(v, d, p, |path|), s, Refs(v, d', p, |path|));
    RefsFromMono(v, d', p, |path|, 0, 1);
    NodeParts(v, d', p, |path|, path[0]);
  }

  lemma MappedParts(v: Vol, d: Disk, s: seq<nat>, d': Disk, s': seq<nat>, p: nat, path: seq<nat>,
                    alloc: bool, phys: nat)
    requires Mapped(v, d, s, d', s', p, path, alloc, phys)
    ensures Refs(v, d', p, |path|) + multiset(s') == Refs(v, d, p, |path|) + multiset(s)
    ensures ChangedIn(d, d', Inds(v, d', p, |path|))
  {
  }

  lemma IndsInRefs(v: Vol, d: Disk, p: nat, l: nat)
    ensures Inds(v, d, p, l) <= Refs(v, d, p, l)
  {
    RefsFromMono(v, d, p, l, 0, 1);
  }

  /** A change behind entry e and in the free list leaves the block itself alone. */
  lemma AloneInTree(v: Vol, d: Disk, d': Disk, p: nat, l: nat, e: nat, m: multiset<nat>)
    requires l > 0 && e < v.nindir && v.InData(p) && Distinct(Refs(v, d, p, l) + m)
    ensures ChangedIn(d, d', Refs(v, d, Ptr(v, d, p, e), l - 1) + m) ==>
              (p < |d| ==> d'[p] == d[p]) && SamePtrsBut(v, d, d', p, e)
              && Ptr(v, d', p, e) == Ptr(v, d, p, e)
  {
    NodeRefs(v, d, p, l, e, m);
  }

  lemma BelowRefs(v: Vol, d: Disk, s: seq<nat>, d': Disk, s': seq<nat>, p: nat, path: seq<nat>,
                  alloc: bool, phys: nat)
    requires path != [] && IsPath(v, path) && v.InData(p)
    requires Apart(v, Refs(v, d, p, |path|), s)
    requires Mapped(v, d, s, d', s', Ptr(v, d, p, path[0]), path[1..], alloc, phys)
    ensures ChangedIn(d, d', Refs(v, d, Ptr(v, d, p, path[0]), |path| - 1) + multiset(s))
    ensures p < |d| ==> d'[p] == d[p]
    ensures Refs(v, d', p, |path|) + multiset(s') == Refs(v, d, p, |path|) + multiset(s)
  {
    hide Mapped, SlotMapped, Refs, Inds, Ptr, Distinct, AllData, Missing, Descend;
    var l, e, m := |path|, path[0], multiset(s);
    var c := Ptr(v, d, p, e);
    MappedParts(v, d, s, d', s', c, path[1..], alloc, phys);
    assert |path[1..]| == l - 1;
    AloneInTree(v, d, d', p, l, e, m);
    IndsInRefs(v, d', c, l - 1);
    PartOfSum(Inds(v, d', c, l - 1), Refs(v, d', c, l - 1), multiset(s'), Refs(v, d, c, l - 1) + m);
    ChangedMono(d, d', Inds(v, d', c, l - 1), Refs(v, d, c, l - 1) + m);
    NodeRefs(v, d, p, l, e, m);
    ChangedMono(d, d', Refs(v, d, c, l - 1) + m, multiset{p} + Refs(v, d, c, l - 1) + m);
    KidChange(v, d, d', p, l, e, m);
    Cancel(Refs(v, d', p, l), Refs(v, d, c, l - 1), Refs(v, d, p, l), Refs(v, d', c, l - 1),
           multiset(s'), m);
  }

  lemma BelowPaths(v: Vol, d: Disk, s: seq<nat>, d': Disk, s': seq<nat>, p: nat, path: seq<nat>)
    requires path != [] && IsPath(v, path) && v.InData(p)
    requires Apart(v, Refs(v, d, p, |path|), s)
    requires ChangedIn(d, d', Refs(v, d, Ptr(v, d, p, path[0]), |path| - 1) + multiset(s))
    requires p < |d| ==> d'[p] == d[p]
    requires SameMapBut(v, d, d', Ptr(v, d, p, path[0]), path[1..])
    ensures SameMapBut(v, d, d', p, path)
  {
    hide Refs, Missing, Distinct, AllData;
    forall other | |other| == |path| && IsPath(v, other) && other != path
      ensures Descend(v, d', p, other) == Descend(v, d, p, other)
    {
      if other[0] != path[0] {
        OtherPaths(v, d, d', p, |path|, path[0], multiset(s), other);
      } else {
        TailsDiffer(v, path, other);
        assert Descend(v, d', Ptr(v, d, p, path[0]), other[1..])
            == Descend(v, d, Ptr(v, d, p, path[0]), other[1..]);
      }
    }
  }

  lemma TailsDiffer(v: Vol, path: seq<nat>, other: seq<nat>)
    requires |path| == |other| && path != [] && path[0] == other[0] && path != other
    requires IsPath(v, other)
    ensures path[1..] != other[1..] && IsPath(v, other[1..])
  {
    assert other == [other[0]] + other[1..] && path == [path[0]] + path[1..];
  }

  lemma AllDataOf(v: Vol, refs: multiset<nat>, s: seq<nat>, refs': multiset<nat>)
    requires AllData(v, refs) && AllInData(v, s) && refs' <= refs + multiset(s)
    ensures AllData(v, refs')
  {
    forall b | b in refs' ensures v.InData(b) {
      assert b in refs || b in multiset(s);
    }
  }

  /** Linking a cleared free block and then filling in below it is one step. */
  lemma MappedAfterLink(v: Vol, d: Disk, s: seq<nat>, d1: Disk, d2: Disk, s2: seq<nat>,
                        p: nat, path: seq<nat>, phys: nat)
    requires |path| > 1 && IsPath(v, path) && v.InData(p) && s != [] && v.InData(s[0])
    requires Apart(v, Refs(v, d, p, |path|), s) && AllInData(v, s)
    requires Ptr(v, d, p, path[0]) == 0 && Ptr(v, d1, p, path[0]) == s[0]
    requires ChangedIn(d, d1, multiset{p} + multiset{s[0]}) && SamePtrsBut(v, d, d1, p, path[0])
    requires forall i | 0 <= i < v.nindir :: Ptr(v, d1, s[0], i) == 0
    requires Mapped(v, d1, s[1..], d2, s2, s[0], path[1..], true, phys)
    ensures Mapped(v, d, s, d2, s2, p, path, true, phys)
  {
    var l, e, child := |path|, path[0], s[0];
    LinkChild(v, d, d1, p, l, e, child, s);
    PopMultiset(s);
    assert AllInData(v, s[1..]);
    assert Refs(v, d1, p, l) + multiset(s[1..]) == Refs(v, d, p, l) + multiset(s);
    AllDataOf(v, Refs(v, d, p, l), s, Refs(v, d1, p, l));
    BelowRefs(v, d1, s[1..], d2, s2, p, path, true, phys);
    MappedBelow(v, d1, s[1..], d2, s2, p, path, true, phys);
    LinkedChanges(v, d, s, d1, d2, s2, p, path, phys);
  }

  lemma LinkedChanges(v: Vol, d: Disk, s: seq<nat>, d1: Disk, d2: Disk, s2: seq<nat>,
                      p: nat, path: seq<nat>, phys: nat)
    requires |path| > 1 && IsPath(v, path) && v.InData(p) && s != [] && v.InData(s[0])
    requires AllData(v, Refs(v, d, p, |path|)) && AllInData(v, s)
    requires ChangedIn(d, d1, multiset{p} + multiset{s[0]})
    requires Ptr(v, d2, p, path[0]) == s[0]
    requires Refs(v, d2, p, |path|) <= Refs(v, d, p, |path|) + multiset(s)
    requires ChangedIn(d1, d2, Inds(v, d2, p, |path|))
    ensures ChangedIn(d, d2, Inds(v, d2, p, |path|))
  {
    RefsFromMono(v, d2, p, |path|, 0, 1);
    AllDataOf(v, Refs(v, d, p, |path|), s, Refs(v, d2, p, |path|));
    NodeParts(v, d2, p, |path|, path[0]);
    assert s[0] in Inds(v, d2, s[0], |path| - 1);
    assert p in Inds(v, d2, p, |path|);
  }

  /** Take a free block, clear it and put it behind entry e of iblk. */
  method NewChild(fs: S5FS, iblk: nat, ib: Block, e: nat) returns (child: nat)
    requires fs.Valid() && fs.v.InData(iblk) && iblk !in fs.stack
    requires ib == fs.dev[iblk] && e < fs.v.nindir
    modifies fs, fs.s_free
    ensures old(fs.stack) == [] ==> child == 0 && fs.error && fs.dev == old(fs.dev) && Sized(fs.v, fs.dev)
    ensures old(fs.stack) != [] ==>
              && fs.Valid() && fs.s_tfree - |fs.stack| == old(fs.s_tfree) - |old(fs.stack)|
              && fs.stack == old(fs.stack)[1..] && child == old(fs.stack)[0]
              && Ptr(fs.v, fs.dev, iblk, e) == child
              && ChangedIn(old(fs.dev), fs.dev, multiset{iblk} + multiset{child})
              && SamePtrsBut(fs.v, old(fs.dev), fs.dev, iblk, e)
              && forall i | 0 <= i < fs.v.nindir :: Ptr(fs.v, fs.dev, child, i) == 0
  {
    child := fs.Alloc();
    if fs.error {
      return;
    }
    assert child == old(fs.stack)[0] && child != iblk;
    StoreZeros(fs, child);
    ghost var d1 := fs.dev;
    StorePtr(fs, iblk, ib, e, child);
    forall i | 0 <= i < fs.v.nindir ensures Ptr(fs.v, fs.dev, child, i) == 0 {
      assert Ptr(fs.v, d1, child, i) == 0;
    }
  }

  /** A path is missing as much as its rest behind the entry it starts with. */
  lemma MissingStep(v: Vol, d: Disk, p: nat, path: seq<nat>)
    requires p != 0 && path != []
    ensures var c := Ptr(v, d, p, path[0]);
            && Missing(v, d, p, path) == Missing(v, d, c, path[1..])
            && Descend(v, d, p, path) == Descend(v, d, c, path[1..])
            && (c == 0 ==> Missing(v, d, p, path) == |path| && Descend(v, d, p, path) == 0)
  {
  }

  lemma ReadyNow(fs: S5FS)
    requires fs.Valid()
    ensures fs.Ready() && AllInData(fs.v, fs.stack) && Sized(fs.v, fs.dev)
  {
  }

  /** ind_map: the block at offset idx of the tree of level `levels` at iblk,
      filling in what is missing when asked to. */
  method IndMap(fs: S5FS, iblk: nat, idx: nat, levels: nat, alloc: bool, stray: nat) returns (phys: nat)
    requires fs.Valid() && levels >= 1 && idx < Pow(fs.v.nindir, levels) && fs.v.InData(iblk)
    requires Apart(fs.v, Refs(fs.v, fs.dev, iblk, levels), fs.stack)
    modifies fs, fs.s_free
    ensures var path := Digits(fs.v.nindir, idx, levels);
            if old(Affordable(alloc, Missing(fs.v, fs.dev, iblk, path), fs.stack)) then
              && fs.Valid() && fs.s_tfree - |fs.stack| == old(fs.s_tfree) - |old(fs.stack)|
              && Mapped(fs.v, old(fs.dev), old(fs.stack), fs.dev, fs.stack, iblk, path, alloc, phys)
            else
              && StarvedTree(fs, old(fs.dev), old(fs.stack), iblk, levels)
              && phys == old(StarvedAnswer(Missing(fs.v, fs.dev, iblk, path), |fs.stack|, stray))
    decreases levels, 1
  {
    hide Mapped, Refs, Apart, Starved, Missing, Descend, Inds, S5FS.Valid, Digits, Pow, S5FS.Ready;
    if levels == 1 {
      DigitsSingle(fs.v, idx);
      phys := IndMapSingle(fs, iblk, idx, alloc);
      return;
    }
    ghost var path := Digits(fs.v.nindir, idx, levels);
    ReadyNow(fs);
    var ib, e, rest, child := EntryOf(fs, iblk, idx, levels);
    DigitsArePath(fs.v, idx, levels);
    MissingStep(fs.v, fs.dev, iblk, path);
    if child == 0 && !alloc {
      MappedSame(fs.v, fs.dev, fs.stack, iblk, path, alloc);
      phys := 0;
    } else if child == 0 {
      phys := IndMapNew(fs, iblk, ib, e, rest, levels, stray);
    } else {
      ghost var d, s := fs.dev, fs.stack;
      ChildApart(fs.v, d, iblk, levels, e, s);
      phys := IndMap(fs, child, rest, levels - 1, alloc, stray);
      if Affordable(alloc, Missing(fs.v, d, iblk, path), s) {
        MappedBelow(fs.v, d, s, fs.dev, fs.stack, iblk, path, alloc, phys);
      } else {
        StarvedBelow(fs, d, s, iblk, levels, e, child);
      }
    }
  }

  /** The entry of block iblk that leads to offset idx, and the offset behind it. */
  method EntryOf(fs: S5FS, iblk: nat, idx: nat, levels: nat) returns (ib: Block, e: nat, rest: nat, child: nat)
    requires fs.Ready() && levels > 1 && idx < Pow(fs.v.nindir, levels) && iblk < |fs.dev|
    ensures ib == fs.dev[iblk] && e < fs.v.nindir && child == Ptr(fs.v, fs.dev, iblk, e)
    ensures rest < Pow(fs.v.nindir, levels - 1)
    ensures Digits(fs.v.nindir, idx, levels) == [e] + Digits(fs.v.nindir, rest, levels - 1)
  {
    ib := fs.RdBlk(iblk);
    var per := PerAt(fs.v, levels);
    e, rest := idx / per, idx % per;
    DigitLeading(fs.v.nindir, idx, levels);
    child := Get32(fs.v.order, ib, 4 * e);
  }

  /** The step of ind_map that has to add an indirect block behind entry e. */
  method IndMapNew(fs: S5FS, iblk: nat, ib: Block, e: nat, rest: nat, levels: nat, stray: nat)
    returns (phys: nat)
    requires fs.Valid() && levels > 1 && rest < Pow(fs.v.nindir, levels - 1)
    requires fs.v.InData(iblk) && ib == fs.dev[iblk] && e < fs.v.nindir
    requires Ptr(fs.v, fs.dev, iblk, e) == 0
    requires Apart(fs.v, Refs(fs.v, fs.dev, iblk, levels), fs.stack)
    modifies fs, fs.s_free
    ensures if levels <= old(|fs.stack|) then
              && fs.Valid() && fs.s_tfree - |fs.stack| == old(fs.s_tfree) - |old(fs.stack)|
              && Mapped(fs.v, old(fs.dev), old(fs.stack), fs.dev, fs.stack,
                        iblk, [e] + Digits(fs.v.nindir, rest, levels - 1), true, phys)
            else
              && StarvedTree(fs, old(fs.dev), old(fs.stack), iblk, levels)
              && phys == old(StarvedAnswer(levels, |fs.stack|, stray))
    decreases levels, 0
  {
    ghost var v, d, s := fs.v, fs.dev, fs.stack;
    ghost var path := [e] + Digits(v.nindir, rest, levels - 1);
    assert path[1..] == Digits(v.nindir, rest, levels - 1);
    DigitsArePath(v, rest, levels - 1);
    ApartFromStack(v, Refs(v, d, iblk, levels), s, iblk);
    var child := NewChild(fs, iblk, ib, e);
    if child == 0 {
      // the original goes on into block 0 on a failed handle
      return stray;
    }
    ghost var d1 := fs.dev;
    LinkChild(v, d, d1, iblk, levels, e, child, s);
    FreshApart(v, Refs(v, d, iblk, levels), s);
    phys := IndMap(fs, child, rest, levels - 1, true, stray);
    if fs.error {
      StarvedAfterLink(fs, d, s, d1, iblk, levels, e, child);
    } else {
      MappedAfterLink(v, d, s, d1, fs.dev, fs.stack, iblk, path, phys);
    }
  }

  /** What failed below a child failed in the tree. */
  lemma StarvedBelow(fs: S5FS, d: Disk, s: seq<nat>, p: nat, l: nat, e: nat, child: nat)
    requires l > 0 && e < fs.v.nindir && fs.v.InData(p) && Apart(fs.v, Refs(fs.v, d, p, l), s)
    requires child == Ptr(fs.v, d, p, e) && StarvedTree(fs, d, s, child, l - 1)
    ensures StarvedTree(fs, d, s, p, l)
  {
    hide Refs, Distinct, AllData, Ptr;
    var m := multiset(s);
    NodeRefs(fs.v, d, p, l, e, m);
    AloneInTree(fs.v, d, fs.dev, p, l, e, m);
    ChangedMono(d, fs.dev, Refs(fs.v, d, child, l - 1) + m, multiset{p} + Refs(fs.v, d, child, l - 1) + m);
    KidChange(fs.v, d, fs.dev, p, l, e, m);
    MoreThan(Refs(fs.v, fs.dev, p, l), Refs(fs.v, d, child, l - 1), Refs(fs.v, d, p, l),
             Refs(fs.v, fs.dev, child, l - 1));
  }

  lemma MoreThan(a: multiset<nat>, b: multiset<nat>, c: multiset<nat>, e: multiset<nat>)
    requires a + b == c + e && b <= e
    ensures c <= a
  {
    forall x ensures c[x] <= a[x] {
      assert (a + b)[x] == (c + e)[x];
    }
  }

  /** A child was added, then the list ran out below it. */
  lemma StarvedAfterLink(fs: S5FS, d: Disk, s: seq<nat>, d1: Disk, p: nat, l: nat, e: nat, child: nat)
    requires s != [] && child == s[0] && fs.v.InData(child) && fs.v.InData(p) && l > 1 && e < fs.v.nindir
    requires Apart(fs.v, Refs(fs.v, d, p, l), s) && ChangedIn(d, d1, multiset{p} + multiset{child})
    requires Refs(fs.v, d1, p, l) == Refs(fs.v, d, p, l) + multiset{child} && Ptr(fs.v, d1, p, e) == child
    requires Refs(fs.v, d1, child, l - 1) == multiset{child} && StarvedTree(fs, d1, s[1..], child, l - 1)
    ensures StarvedTree(fs, d, s, p, l)
  {
    hide Distinct, AllData, Ptr;
    PopMultiset(s);
    assert multiset{child} + multiset(s[1..]) == multiset(s);
    assert Refs(fs.v, d1, p, l) + multiset(s[1..]) == Refs(fs.v, d, p, l) + multiset(s);
    LinkApart(fs.v, Refs(fs.v, d, p, l), Refs(fs.v, d1, p, l), s);
    StarvedBelow(fs, d1, s[1..], p, l, e, child);
    assert p in Refs(fs.v, d, p, l);
  }

  lemma LinkApart(v: Vol, refs: multiset<nat>, refs': multiset<nat>, s: seq<nat>)
    requires s != [] && v.InData(s[0]) && Apart(v, refs, s) && refs' == refs + multiset{s[0]}
    ensures Apart(v, refs', s[1..])
  {
    PopMultiset(s);
    assert refs' + multiset(s[1..]) == refs + multiset(s);
  }

  /** What holds of a tree beside the free list holds of each of its subtrees. */
  lemma ChildApart(v: Vol, d: Disk, p: nat, l: nat, e: nat, s: seq<nat>)
    requires l > 0 && e < v.nindir && v.InData(p) && Apart(v, Refs(v, d, p, l), s)
    ensures var c := Ptr(v, d, p, e);
            Apart(v, Refs(v, d, c, l - 1), s) && (c != 0 ==> v.InData(c))
  {
    var c := Ptr(v, d, p, e);
    NodeRefs(v, d, p, l, e, multiset(s));
    SubDistinct(Refs(v, d, c, l - 1) + multiset(s), Refs(v, d, p, l) + multiset(s));
    if c != 0 {
      assert c in Refs(v, d, c, l - 1);
    }
  }

  lemma SubDistinct(a: multiset<nat>, b: multiset<nat>)
    requires a <= b && Distinct(b)
    ensures Distinct(a)
  {
    forall x ensures a[x] <= 1 {
      assert a[x] <= b[x];
    }
  }

  /** The block on top of the free list is apart from the rest of it. */
  lemma FreshApart(v: Vol, refs: multiset<nat>, s: seq<nat>)
    requires s != [] && v.InData(s[0]) && Apart(v, refs, s)
    ensures Apart(v, multiset{s[0]}, s[1..])
  {
    PopMultiset(s);
    SubDistinct(multiset(s), refs + multiset(s));
  }

  lemma NodeRefs(v: Vol, d: Disk, p: nat, l: nat, e: nat, m: multiset<nat>)
    requires l > 0 && e < v.nindir && v.InData(p)
    requires Distinct(Refs(v, d, p, l) + m)
    ensures p !in Refs(v, d, Ptr(v, d, p, e), l - 1) + m
    ensures Refs(v, d, Ptr(v, d, p, e), l - 1) <= Refs(v, d, p, l)
  {
    SumHas(KidsFrom(v, d, p, l, 0), e);
    assert multiset{p} + Refs(v, d, Ptr(v, d, p, e), l - 1) <= Refs(v, d, p, l);
    assert (Refs(v, d, p, l) + m)[p] <= 1;
  }

  lemma PartOfSum(a: multiset<nat>, b: multiset<nat>, x: multiset<nat>, y: multiset<nat>)
    requires a <= b && b + x == y
    ensures a <= y
  {
    assert b <= b + x;
  }

  lemma Cancel(a: multiset<nat>, b: multiset<nat>, c: multiset<nat>, e: multiset<nat>,
               x: multiset<nat>, y: multiset<nat>)
    requires a + b == c + e && e + x == b + y
    ensures a + x == c + y
  {
    forall k ensures (a + x)[k] == (c + y)[k] {
      assert (a + b)[k] == (c + e)[k];
      assert (e + x)[k] == (b + y)[k];
    }
  }

  lemma ApartFromStack(v: Vol, refs: multiset<nat>, s: seq<nat>, b: nat)
    requires Apart(v, refs, s) && b in refs
    ensures b !in s
  {
    assert (refs + multiset(s))[b] <= 1;
  }
}

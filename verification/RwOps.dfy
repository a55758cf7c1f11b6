/** The mutation engine's operations on one inode's block map, on the caller's
    copy of its di_addr slots. */
module RwOps {
  import opened Arith
  import opened Endian
  import opened Layout
  import opened FreeList
  import opened Allocator
  import opened BlockMap
  import opened BlockTree
  import opened InodeMap
  import opened MapOps
  import opened Multisets

  /** The reader's bmap: descend by closed-form digits, 0 for a hole. */
  method Bmap(v: Vol, d: Disk, addr: seq<nat>, lbn: nat) returns (phys: nat)
    requires IsMap(v, addr)
    ensures phys == MapOf(v, d, addr, lbn)
  {
    RouteRange(v, lbn);
    var r := LbnRoute(v, lbn);
    if r.Unmapped? {
      return 0;
    }
    phys := addr[r.slot];
    ghost var path := Digits(v.nindir, r.idx, r.level);
    var l := r.level;
    while l >= 1 && phys != 0
      invariant 0 <= l <= r.level
      invariant Descend(v, d, addr[r.slot], path) == Descend(v, d, phys, path[r.level - l..])
    {
      DigitsClosedForm(v.nindir, r.idx, r.level, r.level - l);
      var e := IndIndex(v, r.idx, l);
      assert path[r.level - l..][0] == e;
      assert path[r.level - l..][1..] == path[r.level - l + 1..];
      if phys < |d| && 4 * e + 4 <= |d[phys]| {
        phys := Get32(v.order, d[phys], 4 * e);
      } else {
        return 0; // the block cannot be read
      }
      l := l - 1;
    }
  }

  /** A freshly allocated block in an empty slot, as data or as the root of an
      indirect tree. */
  lemma SlotData(v: Vol, d: Disk, s: seq<nat>)
    requires s != [] && v.InData(s[0])
    ensures SlotMapped(v, d, s, 0, d, s[1..], s[0], [], true, s[0])
  {
    PopMultiset(s);
    assert Refs(v, d, 0, 0) == multiset{} && Refs(v, d, s[0], 0) == multiset{s[0]};
  }

  lemma SlotRoot(v: Vol, d: Disk, s: seq<nat>, d1: Disk, d2: Disk, s2: seq<nat>,
                 path: seq<nat>, phys: nat)
    requires path != [] && IsPath(v, path) && s != [] && AllInData(v, s)
    requires ChangedIn(d, d1, multiset{s[0]})
    requires forall i | 0 <= i < v.nindir :: Ptr(v, d1, s[0], i) == 0
    requires Mapped(v, d1, s[1..], d2, s2, s[0], path, true, phys)
    ensures SlotMapped(v, d, s, 0, d2, s2, s[0], path, true, phys)
  {
    PopMultiset(s);
    EmptyNode(v, d1, s[0], |path|);
    assert Refs(v, d, 0, |path|) == multiset{};
    assert s[0] in Inds(v, d2, s[0], |path|);
  }

  /** What rw_bmap leaves: the step it was asked for when the free list could serve it,
      and a failed handle when it could not. */
  ghost predicate MappedOrStarved(fs: S5FS, d: Disk, s: seq<nat>, t: int, addr: seq<nat>, addr': seq<nat>,
                                  lbn: nat, alloc: bool, stray: nat, phys: nat, dirty: bool)
    requires IsMap(fs.v, addr)
    reads fs, fs.s_free
  {
    if Affordable(alloc, MissingAt(fs.v, d, addr, lbn), s) then
      && fs.Valid() && fs.s_tfree - |fs.stack| == t - |s| && (dirty <==> addr' != addr)
      && InodeMapped(fs.v, d, s, addr, fs.dev, fs.stack, addr', lbn, alloc, phys)
    else
      phys == StarvedAnswer(MissingAt(fs.v, d, addr, lbn), |s|, stray) && StarvedInode(fs, d, s, addr)
  }

  /** The list ran out while inode addr was growing: only its own blocks and free ones
      were written, and what the dinode on the image refers to is still there. */
  ghost predicate StarvedInode(fs: S5FS, d: Disk, s: seq<nat>, addr: seq<nat>)
    reads fs
  {
    Starved(fs, d, InodeRefs(fs.v, d, addr) + multiset(s)) && Extends(fs.v, d, addr, fs.dev, addr)
  }

  /** The handle has failed exactly when the free list held too little. */
  lemma ServedOrNot(fs: S5FS, d: Disk, s: seq<nat>, t: int, addr: seq<nat>, addr': seq<nat>,
                    lbn: nat, stray: nat, phys: nat, dirty: bool)
    requires IsMap(fs.v, addr) && MappedOrStarved(fs, d, s, t, addr, addr', lbn, true, stray, phys, dirty)
    ensures fs.error <==> MissingAt(fs.v, d, addr, lbn) > |s|
    ensures fs.error ==> StarvedInode(fs, d, s, addr)
    ensures fs.error ==> phys == StarvedAnswer(MissingAt(fs.v, d, addr, lbn), |s|, stray)
    ensures !fs.error ==>
              && fs.Valid() && fs.s_tfree - |fs.stack| == t - |s| && (dirty <==> addr' != addr)
              && InodeMapped(fs.v, d, s, addr, fs.dev, fs.stack, addr', lbn, true, phys)
  {
    hide InodeRefs, MissingAt, InodeMapped;
  }

  lemma StarvedSlot(fs: S5FS, d: Disk, s: seq<nat>, addr: seq<nat>, slot: nat)
    requires slot < |addr| && StarvedTree(fs, d, s, addr[slot], SlotLevel(fs.v, slot))
    requires Apart(fs.v, InodeRefs(fs.v, d, addr), s)
    ensures StarvedInode(fs, d, s, addr)
  {
    hide Refs, InodeRefs, Extends;
    SlotInRefs(fs.v, d, addr, slot);
    SlotExtends(fs.v, d, fs.dev, addr, slot, addr[slot], multiset(s));
    assert addr[slot := addr[slot]] == addr;
  }

  lemma SlotInRefs(v: Vol, d: Disk, addr: seq<nat>, slot: nat)
    requires slot < |addr|
    ensures Refs(v, d, addr[slot], SlotLevel(v, slot)) <= InodeRefs(v, d, addr)
  {
    SlotPart(v, d, addr, slot, 0);
  }

  /** Nothing but free blocks was written. */
  lemma StarvedOutside(fs: S5FS, d: Disk, s: seq<nat>, addr: seq<nat>)
    requires IsMap(fs.v, addr) && Apart(fs.v, InodeRefs(fs.v, d, addr), s) && Starved(fs, d, multiset(s))
    ensures StarvedInode(fs, d, s, addr)
  {
    forall b | b in InodeRefs(fs.v, d, addr) ensures b !in multiset(s) {
      ApartFromStack(fs.v, InodeRefs(fs.v, d, addr), s, b);
    }
    SlotsFrame(fs.v, d, fs.dev, addr);
    ChangedMono(d, fs.dev, multiset(s), InodeRefs(fs.v, d, addr) + multiset(s));
  }

  /** The direct-slot case of rw_bmap. */
  method RwBmapDirect(fs: S5FS, ds: array<nat>, lbn: nat, alloc: bool, ghost stray: nat)
    returns (phys: nat, dirty: bool)
    requires fs.Valid() && ds.Length == Naddr(fs.v) && ds as object != fs.s_free as object
    requires lbn < fs.v.laddr && Apart(fs.v, InodeRefs(fs.v, fs.dev, ds[..]), fs.stack)
    modifies fs, fs.s_free, ds
    ensures MappedOrStarved(fs, old(fs.dev), old(fs.stack), old(fs.s_tfree), old(ds[..]), ds[..],
                            lbn, alloc, stray, phys, dirty)
  {
    hide InodeRefs, InodeMapped, StarvedInode, Chain, NoDup, Apart;
    ghost var v, d, s, addr := fs.v, fs.dev, fs.stack, ds[..];
    MissingSlot(v, d, addr, lbn);
    dirty := false;
    phys := ds[lbn];
    if phys == 0 && alloc {
      phys := fs.Alloc();
      ds[lbn] := phys;
      dirty := true;
      if fs.error {
        StarvedOutside(fs, d, s, addr);
        return;
      }
      SlotData(v, d, s);
      assert ds[lbn] != addr[lbn];
    }
    SlotStep(v, d, s, addr, fs.dev, fs.stack, ds[lbn], lbn, alloc, phys);
    assert ds[..] == addr[lbn := ds[lbn]];
  }

  /** rw_bmap's step that starts a slot's indirect tree. */
  method RwBmapRoot(fs: S5FS, idx: nat, level: nat, stray: nat) returns (iblk: nat, phys: nat)
    requires fs.Valid() && level >= 1 && idx < Pow(fs.v.nindir, level)
    modifies fs, fs.s_free
    ensures if level + 1 <= old(|fs.stack|) then
              && fs.Valid() && fs.s_tfree - |fs.stack| == old(fs.s_tfree) - |old(fs.stack)| && iblk != 0
              && SlotMapped(fs.v, old(fs.dev), old(fs.stack), 0, fs.dev, fs.stack, iblk,
                            Digits(fs.v.nindir, idx, level), true, phys)
            else
              && Starved(fs, old(fs.dev), multiset(old(fs.stack)))
              && phys == old(StarvedAnswer(level + 1, |fs.stack|, stray))
  {
    ghost var v, d, s := fs.v, fs.dev, fs.stack;
    DigitsArePath(v, idx, level);
    iblk := fs.Alloc();
    if fs.error {
      // the original goes on into block 0 on a failed handle
      return iblk, stray;
    }
    StoreZeros(fs, iblk);
    ghost var d1 := fs.dev;
    EmptyNode(v, d1, iblk, level);
    NoDupApart(v, s);
    phys := IndMap(fs, iblk, idx, level, true, stray);
    PopMultiset(s);
    if fs.error {
      return;
    }
    SlotRoot(v, d, s, d1, fs.dev, fs.stack, Digits(v.nindir, idx, level), phys);
  }

  lemma NoDupApart(v: Vol, s: seq<nat>)
    requires s != [] && v.InData(s[0]) && NoDup(s)
    ensures Apart(v, multiset{s[0]}, s[1..])
  {
    PopMultiset(s);
    NoDupDistinct(s);
  }

  lemma {:induction false} NoDupDistinct(s: seq<nat>)
    requires NoDup(s)
    ensures Distinct(multiset(s))
  {
    if s != [] {
      PopMultiset(s);
      NoDupDistinct(s[1..]);
      assert s[0] !in s[1..];
    }
  }

  /** rw_bmap: the block of logical block lbn, allocating data and indirect
      blocks when asked to.  A fresh data block is not cleared.  stray: what is found
      behind an indirect block that could not be had. */
  method RwBmap(fs: S5FS, ds: array<nat>, lbn: nat, alloc: bool, stray: nat) returns (phys: nat, dirty: bool)
    requires fs.Valid() && ds.Length == Naddr(fs.v) && ds as object != fs.s_free as object
    requires Apart(fs.v, InodeRefs(fs.v, fs.dev, ds[..]), fs.stack)
    modifies fs, fs.s_free, ds
    ensures MappedOrStarved(fs, old(fs.dev), old(fs.stack), old(fs.s_tfree), old(ds[..]), ds[..],
                            lbn, alloc, stray, phys, dirty)
  {
    RouteRange(fs.v, lbn);
    var r := LbnRoute(fs.v, lbn);
    if r.Unmapped? {
      return 0, false;
    }
    if r.level == 0 {
      phys, dirty := RwBmapDirect(fs, ds, lbn, alloc, stray);
    } else {
      phys, dirty := RwBmapTree(fs, ds, lbn, r, alloc, stray);
    }
  }

  lemma SlotHole(v: Vol, d: Disk, s: seq<nat>, path: seq<nat>)
    ensures SlotMapped(v, d, s, 0, d, s, 0, path, false, 0)
  {
  }

  lemma MappedIsSlot(v: Vol, d: Disk, s: seq<nat>, d': Disk, s': seq<nat>, p: nat, path: seq<nat>,
                     alloc: bool, phys: nat)
    requires Mapped(v, d, s, d', s', p, path, alloc, phys)
    ensures SlotMapped(v, d, s, p, d', s', p, path, alloc, phys)
  {
  }

  /** The indirect case of rw_bmap. */
  method RwBmapTree(fs: S5FS, ds: array<nat>, lbn: nat, r: Route, alloc: bool, stray: nat)
    returns (phys: nat, dirty: bool)
    requires fs.Valid() && ds.Length == Naddr(fs.v) && ds as object != fs.s_free as object
    requires lbn < Capacity(fs.v) && r == LbnRoute(fs.v, lbn)
    requires r.Route? && r.level >= 1
    requires Apart(fs.v, InodeRefs(fs.v, fs.dev, ds[..]), fs.stack)
    modifies fs, fs.s_free, ds
    ensures MappedOrStarved(fs, old(fs.dev), old(fs.stack), old(fs.s_tfree), old(ds[..]), ds[..],
                            lbn, alloc, stray, phys, dirty)
  {
    hide InodeRefs, Refs, Apart, Missing, MissingAt, Descend, Digits, StarvedInode, SlotMapped, Mapped, InodeMapped;
    hide LbnRoute, Pow, Chain, NoDup, AllInData;
    ghost var v, d, s, addr := fs.v, fs.dev, fs.stack, ds[..];
    RoutePath(v, lbn);
    SlotApart(v, d, addr, r.slot, s);
    var iblk := ds[r.slot];
    MissingSlot(v, d, addr, lbn);
    SlotHole(v, d, s, Digits(v.nindir, r.idx, r.level));
    dirty := false;
    if iblk == 0 && !alloc {
      phys := 0;
    } else if iblk == 0 {
      iblk, phys := RwBmapRoot(fs, r.idx, r.level, stray);
      ds[r.slot] := iblk;
      dirty := true;
      if fs.error {
        StarvedOutside(fs, d, s, addr);
        return;
      }
      assert ds[..][r.slot] != addr[r.slot];
    } else {
      phys := IndMap(fs, iblk, r.idx, r.level, alloc, stray);
      if fs.error {
        StarvedSlot(fs, d, s, addr, r.slot);
        return;
      }
      MappedIsSlot(v, d, s, fs.dev, fs.stack, iblk, Digits(v.nindir, r.idx, r.level), alloc, phys);
    }
    SlotStep(v, d, s, addr, fs.dev, fs.stack, iblk, lbn, alloc, phys);
    assert ds[..] == addr[r.slot := iblk];
  }
}

/** Giving blocks back: one logical block (truncate), one indirect tree, or a
    whole inode. */
module FreeOps {
  import opened Arith
  import opened Endian
  import opened Layout
  import opened Allocator
  import opened BlockMap
  import opened BlockTree
  import opened InodeMap
  import opened MapOps
  import opened Multisets

  /** The single-indirect block a path goes through, 0 when an ancestor is missing. */
  function LeafBlock(v: Vol, d: Disk, p: nat, path: seq<nat>): nat
    requires path != []
    decreases |path|
  {
    if |path| == 1 || p == 0 then p else LeafBlock(v, d, Ptr(v, d, p, path[0]), path[1..])
  }

  lemma {:induction false} DescendLeaf(v: Vol, d: Disk, p: nat, path: seq<nat>)
    requires path != []
    ensures var b := LeafBlock(v, d, p, path);
            Descend(v, d, p, path) == if b == 0 then 0 else Ptr(v, d, b, path[|path| - 1])
    decreases |path|
  {
    if |path| == 1 {
      assert path[1..] == [];
    } else if p != 0 {
      DescendLeaf(v, d, Ptr(v, d, p, path[0]), path[1..]);
    }
  }

  lemma {:induction false} LeafBlockPart(v: Vol, d: Disk, p: nat, path: seq<nat>)
    requires path != [] && IsPath(v, path) && LeafBlock(v, d, p, path) != 0
    requires AllData(v, Inds(v, d, p, |path|))
    ensures LeafBlock(v, d, p, path) in Inds(v, d, p, |path|)
    decreases |path|
  {
    if |path| == 1 {
      assert p in Inds(v, d, p, 1);
    } else {
      NodeParts(v, d, p, |path|, path[0]);
      LeafBlockPart(v, d, Ptr(v, d, p, path[0]), path[1..]);
    }
  }

  /** d' is d with the entry at the end of the path cleared, apart from what the
      freed block b now holds. */
  ghost predicate Cleared(v: Vol, d: Disk, d': Disk, p: nat, path: seq<nat>, b: nat)
    requires path != []
  {
    var leaf := LeafBlock(v, d, p, path);
    var named := leaf != 0 && b != 0 && Ptr(v, d, leaf, path[|path| - 1]) == b;
    var written :=
      && ChangedIn(d, d', multiset{leaf} + multiset{b})
      && Ptr(v, d', leaf, path[|path| - 1]) == 0
      && SamePtrsBut(v, d, d', leaf, path[|path| - 1]);
    named && written
  }

  lemma ClearSingle(v: Vol, d: Disk, d': Disk, p: nat, path: seq<nat>, b: nat)
    requires |path| == 1 && IsPath(v, path) && v.InData(p) && Cleared(v, d, d', p, path, b)
    requires AllData(v, Refs(v, d, p, 1)) && Distinct(Refs(v, d, p, 1))
    ensures Refs(v, d', p, 1) + multiset{b} == Refs(v, d, p, 1)
    ensures SameMapBut(v, d, d', p, path) && Descend(v, d', p, path) == 0
  {
    assert path == [path[0]];
    SingleMap(v, d, d', p, path[0]);
    ClearEntryRefs(v, d, d', p, path[0], b);
  }

  lemma ClearEntryRefs(v: Vol, d: Disk, d': Disk, p: nat, e: nat, b: nat)
    requires e < v.nindir && v.InData(p) && b != 0
    requires Ptr(v, d, p, e) == b && Ptr(v, d', p, e) == 0 && SamePtrsBut(v, d, d', p, e)
    requires ChangedIn(d, d', multiset{p} + multiset{b}) && Distinct(Refs(v, d, p, 1))
    ensures Refs(v, d', p, 1) + multiset{b} == Refs(v, d, p, 1)
  {
    assert Refs(v, d, p, 1) + multiset{} == Refs(v, d, p, 1);
    assert Refs(v, d, b, 0) == multiset{b} && Refs(v, d', 0, 0) == multiset{};
    KidChange(v, d, d', p, 1, e, multiset{});
  }

  /** Clearing one entry takes exactly that block out of the tree and leaves every
      other path alone. */
  lemma {:induction false} ClearLeaf(v: Vol, d: Disk, d': Disk, p: nat, path: seq<nat>, b: nat)
    requires path != [] && IsPath(v, path) && Cleared(v, d, d', p, path, b)
    requires AllData(v, Refs(v, d, p, |path|)) && Distinct(Refs(v, d, p, |path|))
    ensures Refs(v, d', p, |path|) + multiset{b} == Refs(v, d, p, |path|)
    ensures SameMapBut(v, d, d', p, path) && Descend(v, d', p, path) == 0
    decreases |path|
  {
    if |path| == 1 {
      assert v.InData(p);
      ClearSingle(v, d, d', p, path, b);
    } else {
      ClearDown(v, d, d', p, path, b);
      ClearLeaf(v, d, d', Ptr(v, d, p, path[0]), path[1..], b);
      ClearedAbove(v, d, d', p, path, b);
    }
  }

  /** A clearing below p is a clearing below p's child on the path. */
  lemma ClearDown(v: Vol, d: Disk, d': Disk, p: nat, path: seq<nat>, b: nat)
    requires |path| > 1 && IsPath(v, path) && Cleared(v, d, d', p, path, b)
    requires AllData(v, Refs(v, d, p, |path|)) && Distinct(Refs(v, d, p, |path|))
    ensures v.InData(p) && IsPath(v, path[1..])
    ensures var c := Ptr(v, d, p, path[0]);
            && Cleared(v, d, d', c, path[1..], b)
            && AllData(v, Refs(v, d, c, |path| - 1)) && Distinct(Refs(v, d, c, |path| - 1))
            && p !in Refs(v, d, c, |path| - 1)
            && ChangedIn(d, d', Refs(v, d, c, |path| - 1))
  {
    assert p in Refs(v, d, p, |path|);
    SubtreeDistinct(v, d, p, |path|, path[0]);
    ClearedInside(v, d, d', Ptr(v, d, p, path[0]), path[1..], b);
  }

  lemma SubtreeDistinct(v: Vol, d: Disk, p: nat, l: nat, e: nat)
    requires l > 0 && e < v.nindir && v.InData(p)
    requires AllData(v, Refs(v, d, p, l)) && Distinct(Refs(v, d, p, l))
    ensures var below := Refs(v, d, Ptr(v, d, p, e), l - 1);
            AllData(v, below) && Distinct(below) && p !in below
    ensures AllData(v, Inds(v, d, Ptr(v, d, p, e), l - 1))
  {
    var none, below := multiset{}, Refs(v, d, Ptr(v, d, p, e), l - 1);
    assert Refs(v, d, p, l) + none == Refs(v, d, p, l);
    NodeRefs(v, d, p, l, e, none);
    assert below + none == below;
    SubDistinct(below, Refs(v, d, p, l));
    RefsFromMono(v, d, Ptr(v, d, p, e), l - 1, 0, 1);
  }

  lemma ClearedInside(v: Vol, d: Disk, d': Disk, p: nat, path: seq<nat>, b: nat)
    requires path != [] && IsPath(v, path) && Cleared(v, d, d', p, path, b)
    requires AllData(v, Inds(v, d, p, |path|))
    ensures ChangedIn(d, d', Refs(v, d, p, |path|))
  {
    DescendLeaf(v, d, p, path);
    LeafBlockPart(v, d, p, path);
    LeafPart(v, d, p, path);
    RefsFromMono(v, d, p, |path|, 0, 1);
  }

  lemma ClearedAbove(v: Vol, d: Disk, d': Disk, p: nat, path: seq<nat>, b: nat)
    requires |path| > 1 && IsPath(v, path) && v.InData(p)
    requires AllData(v, Refs(v, d, p, |path|)) && Distinct(Refs(v, d, p, |path|))
    requires var c := Ptr(v, d, p, path[0]);
             && p !in Refs(v, d, c, |path| - 1)
             && ChangedIn(d, d', Refs(v, d, c, |path| - 1))
             && Refs(v, d', c, |path| - 1) + multiset{b} == Refs(v, d, c, |path| - 1)
             && SameMapBut(v, d, d', c, path[1..]) && Descend(v, d', c, path[1..]) == 0
    ensures Refs(v, d', p, |path|) + multiset{b} == Refs(v, d, p, |path|)
    ensures SameMapBut(v, d, d', p, path) && Descend(v, d', p, path) == 0
  {
    var l, c := |path|, Ptr(v, d, p, path[0]);
    assert Refs(v, d, p, l) + multiset{} == Refs(v, d, p, l);
    assert Refs(v, d, c, l - 1) + multiset([]) == Refs(v, d, c, l - 1);
    KidChange(v, d, d', p, l, path[0], multiset{});
    Cancel(Refs(v, d', p, l), Refs(v, d, c, l - 1), Refs(v, d, p, l), Refs(v, d', c, l - 1),
           multiset{b}, multiset{});
    assert Refs(v, d, p, l) + multiset{} == Refs(v, d, p, l);
    BelowPaths(v, d, [], d', [], p, path);
  }

  /** What unmapping logical block lbn does: the block mapped there, if any, moves
      to the top of the free list; no other logical block changes. */
  ghost predicate InodeUnmapped(v: Vol, d: Disk, s: seq<nat>, addr: seq<nat>,
                                d': Disk, s': seq<nat>, addr': seq<nat>, lbn: nat)
    requires IsMap(v, addr)
  {
    var b := MapOf(v, d, addr, lbn);
    && IsMap(v, addr')
    && MapOf(v, d', addr', lbn) == 0
    && (forall other: nat | other != lbn :: MapOf(v, d', addr', other) == MapOf(v, d, addr, other))
    && InodeRefs(v, d', addr') + multiset(s') == InodeRefs(v, d, addr) + multiset(s)
    && ChangedIn(d, d', InodeRefs(v, d, addr))
    && ChangedIn(d, d', InodeInds(v, d, addr) + multiset{b})
    && if b == 0 then d' == d && s' == s && addr' == addr else s' == [b] + s
  }

  /** The slot-level step behind it: pointer p becomes q, block b is let go. */
  ghost predicate SlotUnmapped(v: Vol, d: Disk, p: nat, d': Disk, q: nat, path: seq<nat>, b: nat) {
    && b != 0 && b == Descend(v, d, p, path)
    && Refs(v, d', q, |path|) + multiset{b} == Refs(v, d, p, |path|)
    && ChangedIn(d, d', Refs(v, d, p, |path|))
    && ChangedIn(d, d', Inds(v, d, p, |path|) + multiset{b})
    && Descend(v, d', q, path) == 0
    && (forall other | |other| == |path| && IsPath(v, other) && other != path ::
          Descend(v, d', q, other) == Descend(v, d, p, other))
  }

  lemma SlotUnmapStep(v: Vol, d: Disk, s: seq<nat>, addr: seq<nat>, d': Disk, q: nat,
                      lbn: nat, b: nat)
    requires IsMap(v, addr) && lbn < Capacity(v)
    requires Apart(v, InodeRefs(v, d, addr), s)
    requires LbnRoute(v, lbn).Route? && LbnRoute(v, lbn).slot < |addr|
    requires var r := LbnRoute(v, lbn);
             SlotUnmapped(v, d, addr[r.slot], d', q, Digits(v.nindir, r.idx, r.level), b)
    ensures InodeUnmapped(v, d, s, addr, d', [b] + s, addr[LbnRoute(v, lbn).slot := q], lbn)
  {
    var r := LbnRoute(v, lbn);
    var l, addr' := SlotLevel(v, r.slot), addr[r.slot := q];
    RoutePath(v, lbn);
    ChangedMono(d, d', Refs(v, d, addr[r.slot], l), Refs(v, d, addr[r.slot], l) + multiset(s));
    SlotUnmapRefs(v, d, s, addr, d', r.slot, q, b);
    SlotPart(v, d, addr, r.slot, 0);
    SlotPart(v, d, addr, r.slot, 1);
    ChangedMono(d, d', Refs(v, d, addr[r.slot], l), InodeRefs(v, d, addr));
    ChangedMono(d, d', Inds(v, d, addr[r.slot], l) + multiset{b}, InodeInds(v, d, addr) + multiset{b});
    forall other: nat | other != lbn
      ensures MapOf(v, d', addr', other) == MapOf(v, d, addr, other)
    {
      UnmapOther(v, d, s, addr, d', q, lbn, b, other);
    }
  }

  lemma SlotUnmapRefs(v: Vol, d: Disk, s: seq<nat>, addr: seq<nat>, d': Disk, slot: nat, q: nat, b: nat)
    requires slot < |addr| && Apart(v, InodeRefs(v, d, addr), s)
    requires ChangedIn(d, d', Refs(v, d, addr[slot], SlotLevel(v, slot)) + multiset(s))
    requires Refs(v, d', q, SlotLevel(v, slot)) + multiset{b} == Refs(v, d, addr[slot], SlotLevel(v, slot))
    ensures InodeRefs(v, d', addr[slot := q]) + multiset([b] + s) == InodeRefs(v, d, addr) + multiset(s)
  {
    var l := SlotLevel(v, slot);
    SlotChange(v, d, d', addr, slot, q, multiset(s));
    assert Refs(v, d', q, l) + multiset{b} == Refs(v, d, addr[slot], l) + multiset{};
    Cancel(InodeRefs(v, d', addr[slot := q]), Refs(v, d, addr[slot], l), InodeRefs(v, d, addr),
           Refs(v, d', q, l), multiset{b}, multiset{});
    PopMultiset([b] + s);
    assert ([b] + s)[1..] == s;
    var kept := InodeRefs(v, d', addr[slot := q]);
    assert kept + multiset([b] + s) == (kept + multiset{b}) + multiset(s);
  }

  lemma UnmapOther(v: Vol, d: Disk, s: seq<nat>, addr: seq<nat>, d': Disk, q: nat,
                   lbn: nat, b: nat, other: nat)
    requires IsMap(v, addr) && lbn < Capacity(v) && other != lbn
    requires Apart(v, InodeRefs(v, d, addr), s)
    requires LbnRoute(v, lbn).Route? && LbnRoute(v, lbn).slot < |addr|
    requires var r := LbnRoute(v, lbn);
             && SlotUnmapped(v, d, addr[r.slot], d', q, Digits(v.nindir, r.idx, r.level), b)
             && ChangedIn(d, d', Refs(v, d, addr[r.slot], SlotLevel(v, r.slot)) + multiset(s))
    ensures MapOf(v, d', addr[LbnRoute(v, lbn).slot := q], other) == MapOf(v, d, addr, other)
  {
    var r, o := LbnRoute(v, lbn), LbnRoute(v, other);
    RouteRange(v, other);
    if o.Route? {
      RoutePath(v, lbn);
      RoutePath(v, other);
      RoutesApart(v, lbn, other);
      if o.slot != r.slot {
        OtherSlotLookup(v, d, s, addr, d', r.slot, q, other);
      }
    }
  }

  /** One step down: the entry and the remaining offset by division and remainder. */
  method LeafStep(fs: S5FS, iblk: nat, idx: nat, l: nat, ghost path: seq<nat>)
    returns (child: nat, rest: nat)
    requires fs.Valid() && l > 1 && iblk != 0 && path == Digits(fs.v.nindir, idx, l)
    requires IsPath(fs.v, path) && AllData(fs.v, Inds(fs.v, fs.dev, iblk, l))
    ensures child == Ptr(fs.v, fs.dev, iblk, path[0])
    ensures Digits(fs.v.nindir, rest, l - 1) == path[1..]
    ensures AllData(fs.v, Inds(fs.v, fs.dev, child, l - 1))
  {
    NodeParts(fs.v, fs.dev, iblk, l, path[0]);
    var d := PerAt(fs.v, l);
    var ib := fs.RdBlk(iblk);
    var e := idx / d;
    assert e == path[0];
    child := Get32(fs.v.order, ib, 4 * e);
    rest := idx % d;
  }

  /** bfree_at's descent: the single-indirect block for the path, by running
      division and remainder. */
  method FindLeafBlock(fs: S5FS, root: nat, idx0: nat, level: nat)
    returns (iblk: nat, idx: nat)
    requires fs.Valid() && level >= 1 && idx0 < Pow(fs.v.nindir, level)
    requires AllData(fs.v, Inds(fs.v, fs.dev, root, level))
    ensures iblk == LeafBlock(fs.v, fs.dev, root, Digits(fs.v.nindir, idx0, level))
    ensures iblk != 0 ==> idx == Digits(fs.v.nindir, idx0, level)[level - 1] && fs.v.InData(iblk)
  {
    ghost var path := Digits(fs.v.nindir, idx0, level);
    DigitsArePath(fs.v, idx0, level);
    iblk, idx := root, idx0;
    var l := level;
    ghost var tail := path;
    while l > 1 && iblk != 0
      invariant 1 <= l <= level && tail == Digits(fs.v.nindir, idx, l) && IsPath(fs.v, tail)
      invariant tail[l - 1] == path[level - 1]
      invariant LeafBlock(fs.v, fs.dev, root, path) == LeafBlock(fs.v, fs.dev, iblk, tail)
      invariant AllData(fs.v, Inds(fs.v, fs.dev, iblk, l))
    {
      iblk, idx := LeafStep(fs, iblk, idx, l, tail);
      tail := tail[1..];
      l := l - 1;
    }
    if iblk != 0 {
      DigitsSingle(fs.v, idx);
      assert iblk in Inds(fs.v, fs.dev, iblk, 1);
    } else if l > 1 {
      assert LeafBlock(fs.v, fs.dev, 0, tail) == 0;
    }
  }

  /** bfree_at: give logical block lbn back.  Indirect blocks stay, even empty ones. */
  method BfreeAt(fs: S5FS, ds: array<nat>, lbn: nat)
    requires fs.Valid() && ds.Length == Naddr(fs.v) && ds as object != fs.s_free as object
    requires Apart(fs.v, InodeRefs(fs.v, fs.dev, ds[..]), fs.stack)
    modifies fs, fs.s_free, ds
    ensures fs.s_tfree - |fs.stack| == old(fs.s_tfree) - |old(fs.stack)|
    ensures fs.Valid()
    ensures InodeUnmapped(fs.v, old(fs.dev), old(fs.stack), old(ds[..]),
                          fs.dev, fs.stack, ds[..], lbn)
  {
    RouteRange(fs.v, lbn);
    var r := LbnRoute(fs.v, lbn);
    if r.Unmapped? {
      return;
    }
    if r.level == 0 {
      BfreeDirect(fs, ds, lbn);
    } else {
      BfreeBelow(fs, ds, lbn, r);
    }
  }

  method BfreeDirect(fs: S5FS, ds: array<nat>, lbn: nat)
    requires fs.Valid() && ds.Length == Naddr(fs.v) && ds as object != fs.s_free as object
    requires lbn < fs.v.laddr && Apart(fs.v, InodeRefs(fs.v, fs.dev, ds[..]), fs.stack)
    modifies fs, fs.s_free, ds
    ensures fs.s_tfree - |fs.stack| == old(fs.s_tfree) - |old(fs.stack)|
    ensures fs.Valid()
    ensures InodeUnmapped(fs.v, old(fs.dev), old(fs.stack), old(ds[..]),
                          fs.dev, fs.stack, ds[..], lbn)
  {
    ghost var v, d, s, addr := fs.v, fs.dev, fs.stack, ds[..];
    var b := ds[lbn];
    if b != 0 {
      SlotApart(v, d, addr, lbn, s);
      assert b in Refs(v, d, b, 0);
      ApartFromStack(v, Refs(v, d, b, 0), s, b);
      fs.Bfree(b);
      ds[lbn] := 0;
      assert Refs(v, d, b, 0) == multiset{b} && Refs(v, fs.dev, 0, 0) == multiset{};
      SlotUnmapStep(v, d, s, addr, fs.dev, 0, lbn, b);
      assert ds[..] == addr[lbn := 0];
    }
  }

  method BfreeBelow(fs: S5FS, ds: array<nat>, lbn: nat, r: Route)
    requires fs.Valid() && ds.Length == Naddr(fs.v) && ds as object != fs.s_free as object
    requires lbn < Capacity(fs.v) && r == LbnRoute(fs.v, lbn) && r.Route? && r.level >= 1
    requires Apart(fs.v, InodeRefs(fs.v, fs.dev, ds[..]), fs.stack)
    modifies fs, fs.s_free
    ensures fs.s_tfree - |fs.stack| == old(fs.s_tfree) - |old(fs.stack)|
    ensures fs.Valid()
    ensures InodeUnmapped(fs.v, old(fs.dev), old(fs.stack), old(ds[..]),
                          fs.dev, fs.stack, ds[..], lbn)
  {
    ghost var v, d, s, addr := fs.v, fs.dev, fs.stack, ds[..];
    RoutePath(v, lbn);
    SlotApart(v, d, addr, r.slot, s);
    ghost var b := BfreePath(fs, ds[r.slot], r.idx, r.level);
    if b != 0 {
      SlotUnmapStep(v, d, s, addr, fs.dev, addr[r.slot], lbn, b);
      assert addr[r.slot := addr[r.slot]] == addr;
    }
  }

  /** Unmap offset idx0 below an indirect root; b is the block let go, if any. */
  method BfreePath(fs: S5FS, root: nat, idx0: nat, level: nat) returns (ghost b: nat)
    requires fs.Valid() && level >= 1 && idx0 < Pow(fs.v.nindir, level)
    requires Apart(fs.v, Refs(fs.v, fs.dev, root, level), fs.stack)
    modifies fs, fs.s_free
    ensures fs.s_tfree - |fs.stack| == old(fs.s_tfree) - |old(fs.stack)|
    ensures fs.Valid()
    ensures b == Descend(fs.v, old(fs.dev), root, Digits(fs.v.nindir, idx0, level))
    ensures b == 0 ==> fs.dev == old(fs.dev) && fs.stack == old(fs.stack)
    ensures b != 0 ==> fs.stack == [b] + old(fs.stack)
                       && SlotUnmapped(fs.v, old(fs.dev), root, fs.dev, root,
                                       Digits(fs.v.nindir, idx0, level), b)
  {
    ghost var v, d, s := fs.v, fs.dev, fs.stack;
    ghost var path := Digits(v.nindir, idx0, level);
    DigitsArePath(v, idx0, level);
    DescendLeaf(v, d, root, path);
    RefsFromMono(v, d, root, level, 0, 1);
    var iblk, idx := FindLeafBlock(fs, root, idx0, level);
    b := 0;
    if iblk != 0 {
      var ib := fs.RdBlk(iblk);
      var x := Get32(fs.v.order, ib, 4 * idx);
      b := x;
      if x != 0 {
        FreeEntry(fs, iblk, ib, idx, x, root, path);
        ClearedSlot(v, d, fs.dev, root, path, x, s);
      }
    }
  }

  lemma ClearedSlot(v: Vol, d: Disk, d': Disk, p: nat, path: seq<nat>, b: nat, s: seq<nat>)
    requires path != [] && IsPath(v, path) && Cleared(v, d, d', p, path, b)
    requires Apart(v, Refs(v, d, p, |path|), s)
    ensures SlotUnmapped(v, d, p, d', p, path, b)
  {
    SubDistinct(Refs(v, d, p, |path|), Refs(v, d, p, |path|) + multiset(s));
    RefsFromMono(v, d, p, |path|, 0, 1);
    DescendLeaf(v, d, p, path);
    ClearLeaf(v, d, d', p, path, b);
    ClearedInside(v, d, d', p, path, b);
    LeafBlockPart(v, d, p, path);
    ChangedMono(d, d', multiset{LeafBlock(v, d, p, path)} + multiset{b},
                Inds(v, d, p, |path|) + multiset{b});
  }

  /** Free data block b, then clear the entry that named it. */
  method FreeEntry(fs: S5FS, iblk: nat, ib: Block, e: nat, b: nat, ghost p: nat, ghost path: seq<nat>)
    requires fs.Valid() && fs.v.InData(iblk) && ib == fs.dev[iblk]
    requires path != [] && IsPath(fs.v, path) && e == path[|path| - 1]
    requires iblk == LeafBlock(fs.v, fs.dev, p, path)
    requires b != 0 && b == Ptr(fs.v, fs.dev, iblk, e)
    requires Apart(fs.v, Refs(fs.v, fs.dev, p, |path|), fs.stack)
    modifies fs, fs.s_free
    ensures fs.s_tfree - |fs.stack| == old(fs.s_tfree) - |old(fs.stack)|
    ensures fs.Valid() && fs.stack == [b] + old(fs.stack)
    ensures Cleared(fs.v, old(fs.dev), fs.dev, p, path, b)
  {
    ghost var v, d, s := fs.v, fs.dev, fs.stack;
    DescendLeaf(v, d, p, path);
    LeafAndBlock(v, d, p, path, s);
    fs.Bfree(b);
    StorePtr(fs, iblk, ib, e, 0);
  }

  /** The block at the end of a path and the indirect block that names it are two
      blocks, both in the data region and neither free. */
  lemma LeafAndBlock(v: Vol, d: Disk, p: nat, path: seq<nat>, s: seq<nat>)
    requires path != [] && IsPath(v, path) && Apart(v, Refs(v, d, p, |path|), s)
    requires Descend(v, d, p, path) != 0
    ensures var b, leaf := Descend(v, d, p, path), LeafBlock(v, d, p, path);
            && v.InData(b) && v.InData(leaf) && b != leaf && b !in s && leaf !in s
            && leaf != 0 && b == Ptr(v, d, leaf, path[|path| - 1])
  {
    var l := |path|;
    RefsFromMono(v, d, p, l, 0, 1);
    DescendLeaf(v, d, p, path);
    LeafBlockPart(v, d, p, path);
    LeafPart(v, d, p, path);
    var b, leaf := Descend(v, d, p, path), LeafBlock(v, d, p, path);
    assert (Inds(v, d, p, l) + multiset{b})[b] <= Refs(v, d, p, l)[b]
           <= (Refs(v, d, p, l) + multiset(s))[b] <= 1;
    ApartFromStack(v, Refs(v, d, p, l), s, b);
    ApartFromStack(v, Refs(v, d, p, l), s, leaf);
  }

  /** The blocks of m moved to the free list, and only they may have been written. */
  ghost predicate Freed(d: Disk, s: seq<nat>, d': Disk, s': seq<nat>, m: multiset<nat>) {
    multiset(s') == multiset(s) + m && ChangedIn(d, d', m)
  }

  /** Several trees that share no block with each other or with the free list. */
  ghost predicate TreesApart(v: Vol, k: seq<multiset<nat>>, s: seq<nat>) {
    Distinct(Sum(k) + multiset(s)) && forall i | 0 <= i < |k| :: AllData(v, k[i])
  }

  /** After the first i of several disjoint trees are freed, the next one is still
      what it was and still apart from the free list. */
  lemma NextTree(v: Vol, d: Disk, s: seq<nat>, d': Disk, s': seq<nat>,
                 k: seq<multiset<nat>>, i: nat, p: nat, l: nat)
    requires i < |k| && k[i] == Refs(v, d, p, l)
    requires Freed(d, s, d', s', Sum(k[..i])) && AllData(v, k[i]) && Distinct(Sum(k) + multiset(s))
    ensures Refs(v, d', p, l) == k[i] && Apart(v, k[i], s')
    ensures Sum(k[..i + 1]) == Sum(k[..i]) + k[i]
  {
    assert k[..i + 1] == k[..i] + [k[i]];
    SumSnoc(k[..i], k[i]);
    PrefixSum(k, i + 1);
    assert k[i] + multiset(s') == Sum(k[..i + 1]) + multiset(s);
    SubDistinct(k[i] + multiset(s'), Sum(k) + multiset(s));
    RefsFromMono(v, d, p, l, 0, 1);
    forall b | b in Inds(v, d, p, l) && b < |d| ensures d'[b] == d[b] {
      assert (Sum(k[..i]) + k[i])[b] <= (Sum(k) + multiset(s))[b] <= 1;
    }
    RefsFrame(v, d, d', p, l, 0);
  }

  lemma {:induction false} PrefixSum(k: seq<multiset<nat>>, i: nat)
    requires i <= |k|
    ensures Sum(k[..i]) <= Sum(k)
    decreases |k| - i
  {
    if i < |k| {
      assert k[..i + 1] == k[..i] + [k[i]];
      SumSnoc(k[..i], k[i]);
      PrefixSum(k, i + 1);
    } else {
      assert k[..i] == k;
    }
  }

  lemma FreedMore(d: Disk, s: seq<nat>, d1: Disk, s1: seq<nat>, d2: Disk, s2: seq<nat>,
                  m: multiset<nat>, x: multiset<nat>)
    requires Freed(d, s, d1, s1, m) && Freed(d1, s1, d2, s2, x)
    ensures Freed(d, s, d2, s2, m + x)
  {
    assert multiset(s2) == multiset(s) + (m + x);
  }

  /** ind_free: everything below an indirect block, then the block itself. */
  method IndFree(fs: S5FS, iblk: nat, levels: nat)
    requires fs.Valid() && levels >= 1
    requires Apart(fs.v, Refs(fs.v, fs.dev, iblk, levels), fs.stack)
    modifies fs, fs.s_free
    ensures fs.Valid()
    ensures Freed(old(fs.dev), old(fs.stack), fs.dev, fs.stack,
                  Refs(fs.v, old(fs.dev), iblk, levels))
    ensures fs.s_tfree == old(fs.s_tfree) + |Refs(fs.v, old(fs.dev), iblk, levels)|
    decreases levels, 1
  {
    if iblk == 0 {
      return;
    }
    ghost var v, d, s := fs.v, fs.dev, fs.stack;
    assert iblk in Refs(v, d, iblk, levels);
    FreeKids(fs, iblk, levels);
    RootLeft(v, d, iblk, levels, s, fs.stack);
    ghost var d1, s1 := fs.dev, fs.stack;
    FreeBlock(fs, iblk);
    ghost var k := KidsFrom(v, d, iblk, levels, 0);
    FreedMore(d, s, d1, s1, fs.dev, fs.stack, Sum(k), multiset{iblk});
    assert multiset{iblk} + Sum(k) == Sum(k) + multiset{iblk};
  }

  /** Read an indirect block and decode its entries. */
  method ReadPtrs(fs: S5FS, blk: nat) returns (ptrs: seq<nat>)
    requires fs.Ready() && blk < |fs.dev|
    ensures |ptrs| == fs.v.nindir
    ensures forall i | 0 <= i < |ptrs| :: ptrs[i] == Ptr(fs.v, fs.dev, blk, i)
  {
    var ib := fs.RdBlk(blk);
    ptrs := seq(fs.v.nindir, i requires 0 <= i < fs.v.nindir => Get32(fs.v.order, ib, 4 * i));
  }

  /** ind_free's loop over the entries of one indirect block. */
  method FreeKids(fs: S5FS, iblk: nat, levels: nat)
    requires fs.Valid() && levels >= 1 && fs.v.InData(iblk)
    requires Apart(fs.v, Refs(fs.v, fs.dev, iblk, levels), fs.stack)
    modifies fs, fs.s_free
    ensures fs.Valid()
    ensures Freed(old(fs.dev), old(fs.stack), fs.dev, fs.stack,
                  Sum(KidsFrom(fs.v, old(fs.dev), iblk, levels, 0)))
    ensures fs.s_tfree == old(fs.s_tfree) + |Sum(KidsFrom(fs.v, old(fs.dev), iblk, levels, 0))|
    decreases levels, 0
  {
    KidsApart(fs.v, fs.dev, iblk, levels, fs.stack);
    var ptrs := ReadPtrs(fs, iblk);
    FreeAll(fs, ptrs, levels - 1, KidsFrom(fs.v, fs.dev, iblk, levels, 0));
  }

  /** Free what each of several level-l pointers stands for. */
  method FreeAll(fs: S5FS, ptrs: seq<nat>, l: nat, ghost k: seq<multiset<nat>>)
    requires fs.Valid() && |ptrs| == |k| && TreesApart(fs.v, k, fs.stack)
    requires forall i | 0 <= i < |ptrs| :: k[i] == Refs(fs.v, fs.dev, ptrs[i], l)
    modifies fs, fs.s_free
    ensures fs.Valid() && Freed(old(fs.dev), old(fs.stack), fs.dev, fs.stack, Sum(k))
    ensures fs.s_tfree == old(fs.s_tfree) + |Sum(k)|
    decreases l, 4
  {
    ghost var d, s := fs.dev, fs.stack;
    for i := 0 to |ptrs|
      invariant fs.Valid() && Freed(d, s, fs.dev, fs.stack, Sum(k[..i]))
      invariant fs.s_tfree == old(fs.s_tfree) + |Sum(k[..i])|
    {
      FreeNext(fs, ptrs[i], l, d, s, k, i);
    }
    assert k[..|k|] == k;
  }

  /** Free the i-th of several disjoint trees, after the first i of them. */
  method FreeNext(fs: S5FS, b: nat, l: nat,
                  ghost d: Disk, ghost s: seq<nat>, ghost k: seq<multiset<nat>>, ghost i: nat)
    requires fs.Valid() && i < |k| && k[i] == Refs(fs.v, d, b, l)
    requires Freed(d, s, fs.dev, fs.stack, Sum(k[..i]))
    requires TreesApart(fs.v, k, s)
    modifies fs, fs.s_free
    ensures fs.Valid() && Freed(d, s, fs.dev, fs.stack, Sum(k[..i + 1]))
    ensures fs.s_tfree - |Sum(k[..i + 1])| == old(fs.s_tfree) - |Sum(k[..i])|
    decreases l, 3
  {
    NextTree(fs.v, d, s, fs.dev, fs.stack, k, i, b, l);
    ghost var d1, s1 := fs.dev, fs.stack;
    if b != 0 {
      FreeTree(fs, b, l);
    }
    FreedMore(d, s, d1, s1, fs.dev, fs.stack, Sum(k[..i]), k[i]);
  }

  /** Free what a level-l pointer stands for: a data block or an indirect tree. */
  method FreeTree(fs: S5FS, b: nat, l: nat)
    requires fs.Valid() && b != 0 && Apart(fs.v, Refs(fs.v, fs.dev, b, l), fs.stack)
    modifies fs, fs.s_free
    ensures fs.Valid()
    ensures Freed(old(fs.dev), old(fs.stack), fs.dev, fs.stack, Refs(fs.v, old(fs.dev), b, l))
    ensures fs.s_tfree == old(fs.s_tfree) + |Refs(fs.v, old(fs.dev), b, l)|
    decreases l, 2
  {
    if l == 0 {
      assert b in Refs(fs.v, fs.dev, b, 0);
      ApartFromStack(fs.v, Refs(fs.v, fs.dev, b, 0), fs.stack, b);
      FreeBlock(fs, b);
      assert Refs(fs.v, old(fs.dev), b, 0) == multiset{b};
    } else {
      IndFree(fs, b, l);
    }
  }

  method FreeBlock(fs: S5FS, b: nat)
    requires fs.Valid() && fs.v.InData(b) && b !in fs.stack
    modifies fs, fs.s_free
    ensures fs.Valid() && Freed(old(fs.dev), old(fs.stack), fs.dev, fs.stack, multiset{b})
    ensures fs.s_tfree == old(fs.s_tfree) + 1
  {
    fs.Bfree(b);
    PushMultiset(old(fs.stack), b);
  }

  lemma PushMultiset(s: seq<nat>, b: nat)
    ensures multiset([b] + s) == multiset(s) + multiset{b}
  {
  }

  lemma KidsApart(v: Vol, d: Disk, p: nat, l: nat, s: seq<nat>)
    requires l > 0 && v.InData(p) && Apart(v, Refs(v, d, p, l), s)
    ensures TreesApart(v, KidsFrom(v, d, p, l, 0), s)
  {
    var k := KidsFrom(v, d, p, l, 0);
    assert Sum(k) <= Refs(v, d, p, l);
    SubDistinct(Sum(k) + multiset(s), Refs(v, d, p, l) + multiset(s));
    forall i | 0 <= i < |k| ensures AllData(v, k[i]) {
      SumHas(k, i);
    }
  }

  lemma RootLeft(v: Vol, d: Disk, p: nat, l: nat, s: seq<nat>, s': seq<nat>)
    requires l > 0 && v.InData(p) && Apart(v, Refs(v, d, p, l), s)
    requires multiset(s') == multiset(s) + Sum(KidsFrom(v, d, p, l, 0))
    ensures p !in s'
  {
    var k := Sum(KidsFrom(v, d, p, l, 0));
    assert (multiset{p} + k + multiset(s))[p] <= 1;
    assert p !in multiset(s');
  }

  /** ifree_blocks: every block of an inode that is a regular file or directory. */
  method IfreeBlocks(fs: S5FS, ds: seq<nat>)
    requires fs.Valid() && IsMap(fs.v, ds)
    requires Apart(fs.v, InodeRefs(fs.v, fs.dev, ds), fs.stack)
    modifies fs, fs.s_free
    ensures fs.Valid()
    ensures Freed(old(fs.dev), old(fs.stack), fs.dev, fs.stack, InodeRefs(fs.v, old(fs.dev), ds))
    ensures fs.s_tfree == old(fs.s_tfree) + |InodeRefs(fs.v, old(fs.dev), ds)|
  {
    SlotsApart(fs.v, fs.dev, ds, fs.stack);
    FreeSlots(fs, ds, SlotRefs(fs.v, fs.dev, ds, 0));
  }

  method FreeSlots(fs: S5FS, ds: seq<nat>, ghost k: seq<multiset<nat>>)
    requires fs.Valid() && |ds| == |k| == fs.v.laddr + 3 && TreesApart(fs.v, k, fs.stack)
    requires forall i | 0 <= i < |k| :: k[i] == Refs(fs.v, fs.dev, ds[i], SlotLevel(fs.v, i))
    modifies fs, fs.s_free
    ensures fs.Valid() && Freed(old(fs.dev), old(fs.stack), fs.dev, fs.stack, Sum(k))
    ensures fs.s_tfree == old(fs.s_tfree) + |Sum(k)|
  {
    ghost var d, s := fs.dev, fs.stack;
    var n := fs.v.laddr;
    DirectApart(fs.v, k, n, s);
    FreeAll(fs, ds[..n], 0, k[..n]);
    FreeNext(fs, ds[n], 1, d, s, k, n);
    FreeNext(fs, ds[n + 1], 2, d, s, k, n + 1);
    FreeNext(fs, ds[n + 2], 3, d, s, k, n + 2);
    assert k[..n + 3] == k;
  }

  lemma DirectApart(v: Vol, k: seq<multiset<nat>>, n: nat, s: seq<nat>)
    requires n <= |k| && TreesApart(v, k, s)
    ensures TreesApart(v, k[..n], s)
  {
    PrefixSum(k, n);
    SubDistinct(Sum(k[..n]) + multiset(s), Sum(k) + multiset(s));
  }

  lemma SlotsApart(v: Vol, d: Disk, addr: seq<nat>, s: seq<nat>)
    requires Apart(v, InodeRefs(v, d, addr), s)
    ensures TreesApart(v, SlotRefs(v, d, addr, 0), s)
  {
    var k := SlotRefs(v, d, addr, 0);
    forall i | 0 <= i < |k| ensures AllData(v, k[i]) {
      SumHas(k, i);
    }
  }
}

/** Block ownership over whole runs of map operations on many inodes. */
module Ownership {
  import opened Layout
  import opened Allocator
  import opened BlockMap
  import opened BlockTree
  import opened InodeMap
  import opened MapOps
  import opened RwOps
  import opened FreeOps
  import opened FileBytes
  import opened Multisets
  import opened BlockCheck

  /** References of every inode that has a block map. */
  function FsRefs(v: Vol, d: Disk, maps: seq<seq<nat>>): multiset<nat> {
    Sum(MapRefs(v, d, maps))
  }

  function MapRefs(v: Vol, d: Disk, maps: seq<seq<nat>>): (s: seq<multiset<nat>>)
    ensures |s| == |maps|
  {
    seq(|maps|, i requires 0 <= i < |maps| => InodeRefs(v, d, maps[i]))
  }

  ghost predicate AllMaps(v: Vol, maps: seq<seq<nat>>) {
    forall i | 0 <= i < |maps| :: IsMap(v, maps[i])
  }

  /** A step on one inode, seen from the whole volume. */
  lemma InodeChange(v: Vol, d: Disk, s: seq<nat>, d': Disk, s': seq<nat>,
                    maps: seq<seq<nat>>, i: nat, addr': seq<nat>)
    requires i < |maps| && Partition(v, FsRefs(v, d, maps), s)
    requires InodeRefs(v, d', addr') + multiset(s') == InodeRefs(v, d, maps[i]) + multiset(s)
    requires ChangedIn(d, d', InodeRefs(v, d, maps[i]) + multiset(s))
    ensures FsRefs(v, d', maps[i := addr']) + multiset(s') == FsRefs(v, d, maps) + multiset(s)
    ensures Partition(v, FsRefs(v, d', maps[i := addr']), s')
  {
    var k, k' := MapRefs(v, d, maps), MapRefs(v, d', maps[i := addr']);
    forall j | 0 <= j < |maps| && j != i ensures k'[j] == k[j] {
      OtherInode(v, d, s, d', maps, i, j);
      InodeFrame(v, d, d', maps[j]);
    }
    SumUpdate(k, i, k'[i]);
    assert k' == k[i := k'[i]];
    Cancel(Sum(k'), k[i], Sum(k), k'[i], multiset(s'), multiset(s));
  }

  /** The other inodes' indirect blocks are untouched. */
  lemma OtherInode(v: Vol, d: Disk, s: seq<nat>, d': Disk, maps: seq<seq<nat>>, i: nat, j: nat)
    requires i < |maps| && j < |maps| && i != j && Partition(v, FsRefs(v, d, maps), s)
    requires ChangedIn(d, d', InodeRefs(v, d, maps[i]) + multiset(s))
    ensures forall b | b in InodeRefs(v, d, maps[j]) && b < |d| :: d'[b] == d[b]
  {
    var k := MapRefs(v, d, maps);
    SumHasTwo(k, i, j);
    forall b | b in InodeRefs(v, d, maps[j]) && b < |d| ensures d'[b] == d[b] {
      assert (k[i] + k[j] + multiset(s))[b] <= (FsRefs(v, d, maps) + multiset(s))[b] <= 1;
    }
  }

  lemma OwnerApart(v: Vol, d: Disk, s: seq<nat>, maps: seq<seq<nat>>, i: nat)
    requires i < |maps| && Partition(v, FsRefs(v, d, maps), s)
    ensures Apart(v, InodeRefs(v, d, maps[i]), s)
  {
    OfPartition(v, FsRefs(v, d, maps), s);
    SumHas(MapRefs(v, d, maps), i);
    var all := FsRefs(v, d, maps) + multiset(s);
    forall b: nat ensures all[b] <= 1 {
      assert all[b] == if v.InData(b) then 1 else 0;
    }
    SubDistinct(InodeRefs(v, d, maps[i]) + multiset(s), all);
  }

  /** Nothing is mapped elsewhere, and nothing gone, than at lbn of inode ino. */
  ghost predicate OnlyAt(v: Vol, d: Disk, maps: seq<seq<nat>>, d': Disk, maps': seq<seq<nat>>, ino: nat, lbn: nat)
    requires AllMaps(v, maps) && AllMaps(v, maps')
  {
    |maps'| == |maps|
    && forall i: nat, l: nat | i < |maps| && (i != ino || l != lbn) ::
         MapOf(v, d', maps'[i], l) == MapOf(v, d, maps[i], l)
  }

  /** A step on inode i leaves the maps of the others as they are. */
  lemma OtherMaps(v: Vol, d: Disk, s: seq<nat>, d': Disk, maps: seq<seq<nat>>, i: nat)
    requires i < |maps| && AllMaps(v, maps) && Partition(v, FsRefs(v, d, maps), s)
    requires ChangedIn(d, d', InodeRefs(v, d, maps[i]) + multiset(s))
    ensures forall j: nat, l: nat | j < |maps| && j != i :: MapOf(v, d', maps[j], l) == MapOf(v, d, maps[j], l)
  {
    hide FsRefs, Partition, InodeRefs, InodeInds, MapOf, MissingAt;
    forall j: nat, l: nat | j < |maps| && j != i ensures MapOf(v, d', maps[j], l) == MapOf(v, d, maps[j], l) {
      OwnerApart(v, d, s, maps, j);
      OtherInode(v, d, s, d', maps, i, j);
      IndsWithin(v, d, maps[j]);
      LookupFrame(v, d, d', maps[j], l);
    }
  }

  lemma MissingSmall(v: Vol, d: Disk, addr: seq<nat>, lbn: nat)
    requires IsMap(v, addr)
    ensures MissingAt(v, d, addr, lbn) <= 4
  {
    RouteRange(v, lbn);
    var r := LbnRoute(v, lbn);
    if r.Route? {
      PathMissing(v, d, addr[r.slot], Digits(v.nindir, r.idx, r.level));
    }
  }

  lemma {:induction false} PathMissing(v: Vol, d: Disk, p: nat, path: seq<nat>)
    ensures Missing(v, d, p, path) <= |path| + 1
    decreases |path|
  {
    if p != 0 && path != [] {
      PathMissing(v, d, Ptr(v, d, p, path[0]), path[1..]);
    }
  }

  /** rw_bmap with alloc, bfree_at, and the release of a whole inode. */
  datatype MapOp = Map(ino: nat, lbn: nat) | Unmap(ino: nat, lbn: nat) | Release(ino: nat)

  ghost predicate Owned(fs: S5FS, maps: seq<seq<nat>>)
    reads fs, fs.s_free
  {
    var counted := fs.Valid() && fs.s_tfree == |fs.stack|;
    var owned := AllMaps(fs.v, maps) && Partition(fs.v, FsRefs(fs.v, fs.dev, maps), fs.stack);
    counted && owned
  }

  /** rw_bmap with alloc on inode ino, then the dinode written back.  An allocation
      that the free list cannot serve is not attempted. */
  method MapBlock(fs: S5FS, maps: seq<seq<nat>>, ino: nat, lbn: nat)
    returns (maps': seq<seq<nat>>, served: bool)
    requires Owned(fs, maps) && ino < |maps|
    modifies fs, fs.s_free
    ensures |maps'| == |maps| && Owned(fs, maps')
    ensures served <==> MissingAt(fs.v, old(fs.dev), maps[ino], lbn) <= |old(fs.stack)|
    ensures !served ==> fs.dev == old(fs.dev) && maps' == maps
    ensures served && lbn < Capacity(fs.v) ==> MapOf(fs.v, fs.dev, maps'[ino], lbn) != 0
    ensures served && lbn >= Capacity(fs.v) ==> MapOf(fs.v, fs.dev, maps'[ino], lbn) == 0
    ensures OnlyAt(fs.v, old(fs.dev), maps, fs.dev, maps', ino, lbn)
    ensures |old(fs.stack)| <= |fs.stack| + 4
  {
    hide InodeRefs, InodeInds, MapOf, MissingAt, Capacity, InodeMapped, StarvedInode, Extends, Partition, FsRefs;
    ghost var v, d, s := fs.v, fs.dev, fs.stack;
    OwnerApart(v, d, s, maps, ino);
    MissingSmall(v, d, maps[ino], lbn);
    served := MissingAt(fs.v, fs.dev, maps[ino], lbn) <= fs.s_tfree;
    if !served {
      return maps, served;
    }
    var ds := new nat[|maps[ino]|](i requires 0 <= i < |maps[ino]| => maps[ino][i]);
    assert ds[..] == maps[ino];
    var phys, dirty := RwBmap(fs, ds, lbn, true, 0);
    maps' := maps[ino := ds[..]];
    MappedChange(v, d, s, maps[ino], fs.dev, fs.stack, ds[..], lbn, phys);
    InodeChange(v, d, s, fs.dev, fs.stack, maps, ino, ds[..]);
    OtherMaps(v, d, s, fs.dev, maps, ino);
    if Capacity(v) <= lbn {
      PastReach(v, fs.dev, ds[..], lbn);
    }
  }

  lemma PastReach(v: Vol, d: Disk, addr: seq<nat>, lbn: nat)
    requires IsMap(v, addr) && Capacity(v) <= lbn
    ensures MapOf(v, d, addr, lbn) == 0
  {
    RouteRange(v, lbn);
  }

  lemma MappedChange(v: Vol, d: Disk, s: seq<nat>, addr: seq<nat>, d': Disk, s': seq<nat>,
                     addr': seq<nat>, lbn: nat, phys: nat)
    requires IsMap(v, addr) && InodeMapped(v, d, s, addr, d', s', addr', lbn, true, phys)
    ensures ChangedIn(d, d', InodeRefs(v, d, addr) + multiset(s))
    ensures IsMap(v, addr') && forall l: nat | l != lbn :: MapOf(v, d', addr', l) == MapOf(v, d, addr, l)
    ensures lbn < Capacity(v) ==> MapOf(v, d', addr', lbn) != 0
    ensures InodeRefs(v, d', addr') + multiset(s') == InodeRefs(v, d, addr) + multiset(s)
    ensures |s| <= |s'| + MissingAt(v, d, addr, lbn)
  {
    SumMono(SlotRefs(v, d', addr', 1), SlotRefs(v, d', addr', 0)) by {
      forall i | 0 <= i < |addr'|
        ensures SlotRefs(v, d', addr', 1)[i] <= SlotRefs(v, d', addr', 0)[i]
      {
        RefsFromMono(v, d', addr'[i], SlotLevel(v, i), 0, 1);
      }
    }
    PartOfSum(InodeInds(v, d', addr'), InodeRefs(v, d', addr'), multiset(s'),
              InodeRefs(v, d, addr) + multiset(s));
    ChangedMono(d, d', InodeInds(v, d', addr'), InodeRefs(v, d, addr) + multiset(s));
  }

  /** bfree_at on inode ino: the data block goes, its indirect blocks stay. */
  method UnmapBlock(fs: S5FS, maps: seq<seq<nat>>, ino: nat, lbn: nat) returns (maps': seq<seq<nat>>)
    requires Owned(fs, maps) && ino < |maps|
    modifies fs, fs.s_free
    ensures |maps'| == |maps| && Owned(fs, maps')
    ensures MapOf(fs.v, fs.dev, maps'[ino], lbn) == 0
    ensures OnlyAt(fs.v, old(fs.dev), maps, fs.dev, maps', ino, lbn) && |fs.stack| >= |old(fs.stack)|
  {
    ghost var v, d, s := fs.v, fs.dev, fs.stack;
    OwnerApart(v, d, s, maps, ino);
    var ds := new nat[|maps[ino]|](i requires 0 <= i < |maps[ino]| => maps[ino][i]);
    assert ds[..] == maps[ino];
    BfreeAt(fs, ds, lbn);
    maps' := maps[ino := ds[..]];
    ChangedMono(d, fs.dev, InodeRefs(v, d, maps[ino]), InodeRefs(v, d, maps[ino]) + multiset(s));
    InodeChange(v, d, s, fs.dev, fs.stack, maps, ino, ds[..]);
    OtherMaps(v, d, s, fs.dev, maps, ino);
  }

  /** ifree_blocks, then the dinode zeroed. */
  method ReleaseInode(fs: S5FS, maps: seq<seq<nat>>, ino: nat) returns (maps': seq<seq<nat>>)
    requires Owned(fs, maps) && ino < |maps|
    modifies fs, fs.s_free
    ensures |maps'| == |maps| && Owned(fs, maps')
    ensures InodeRefs(fs.v, fs.dev, maps'[ino]) == multiset{}
    ensures |fs.stack| == |old(fs.stack)| + |InodeRefs(fs.v, old(fs.dev), maps[ino])|
    ensures forall l: nat :: MapOf(fs.v, fs.dev, maps'[ino], l) == 0
    ensures forall i: nat, l: nat | i < |maps| && i != ino ::
              MapOf(fs.v, fs.dev, maps'[i], l) == MapOf(fs.v, old(fs.dev), maps[i], l)
  {
    ghost var v, d, s := fs.v, fs.dev, fs.stack;
    OwnerApart(v, d, s, maps, ino);
    IfreeBlocks(fs, maps[ino]);
    var none := seq(|maps[ino]|, _ => 0);
    NoRefs(v, fs.dev, none);
    maps' := maps[ino := none];
    ChangedMono(d, fs.dev, InodeRefs(v, d, maps[ino]), InodeRefs(v, d, maps[ino]) + multiset(s));
    assert multiset{} + multiset(fs.stack) == InodeRefs(v, d, maps[ino]) + multiset(s);
    InodeChange(v, d, s, fs.dev, fs.stack, maps, ino, none);
    OtherMaps(v, d, s, fs.dev, maps, ino);
    forall l: nat ensures MapOf(v, fs.dev, none, l) == 0 {
      NoneMapped(v, fs.dev, none, l);
    }
  }

  lemma NoneMapped(v: Vol, d: Disk, addr: seq<nat>, lbn: nat)
    requires IsMap(v, addr) && forall i | 0 <= i < |addr| :: addr[i] == 0
    ensures MapOf(v, d, addr, lbn) == 0
  {
    RouteRange(v, lbn);
    var r := LbnRoute(v, lbn);
    if r.Route? {
      NothingBelow(v, d, Digits(v.nindir, r.idx, r.level));
    }
  }

  lemma NothingBelow(v: Vol, d: Disk, path: seq<nat>)
    ensures Descend(v, d, 0, path) == 0
  {
  }

  /** Whether logical block l of inode i is mapped once ops have run; outs tells which of
      the mappings were served. */
  function MappedAfter(v: Vol, ops: seq<MapOp>, outs: seq<bool>, i: nat, l: nat, was: bool): bool
    requires |outs| == |ops|
  {
    if ops == [] then was
    else
      var n := |ops| - 1;
      var before := MappedAfter(v, ops[..n], outs[..n], i, l, was);
      AfterOp(v, ops[n], outs[n], i, l, before)
  }

  function AfterOp(v: Vol, op: MapOp, ok: bool, i: nat, l: nat, before: bool): bool {
    match op
    case Map(ino, lbn) => before || (ino == i && lbn == l && ok && l < Capacity(v))
    case Unmap(ino, lbn) => before && !(ino == i && lbn == l)
    case Release(ino) => before && ino != i
  }

  /** Every sequence of operations keeps each data block owned by exactly one
      position of one inode's tree, or free, never both; and mapped in the end is just
      what the operations left so. */
  method RunOps(fs: S5FS, maps: seq<seq<nat>>, ops: seq<MapOp>) returns (maps': seq<seq<nat>>, outs: seq<bool>)
    requires Owned(fs, maps) && forall op | op in ops :: op.ino < |maps|
    modifies fs, fs.s_free
    ensures |maps'| == |maps| && Owned(fs, maps') && |outs| == |ops|
    ensures forall i: nat, l: nat | i < |maps| ::
              MapOf(fs.v, fs.dev, maps'[i], l) != 0
              <==> MappedAfter(fs.v, ops, outs, i, l, MapOf(fs.v, old(fs.dev), maps[i], l) != 0)
    // no operation takes more than four blocks
    ensures 4 * |ops| <= |old(fs.stack)| ==> forall k | 0 <= k < |outs| :: outs[k]
  {
    hide Owned, MapOf, OnlyAt, MissingAt, Capacity;
    ghost var v, d := fs.v, fs.dev;
    OwnedMaps(fs, maps);
    maps', outs := maps, [];
    for i := 0 to |ops|
      invariant |maps'| == |maps| && Owned(fs, maps') && |outs| == i && AllMaps(v, maps')
      invariant forall j: nat, l: nat | j < |maps| ::
                  MapOf(v, fs.dev, maps'[j], l) != 0
                  <==> MappedAfter(v, ops[..i], outs, j, l, MapOf(v, d, maps[j], l) != 0)
      invariant 4 * i + |fs.stack| >= |old(fs.stack)|
      invariant 4 * |ops| <= |old(fs.stack)| ==> forall k | 0 <= k < i :: outs[k]
    {
      assert ops[i] in ops;
      ghost var d1, maps1, outs1 := fs.dev, maps', outs;
      var ok;
      maps', ok := RunOp(fs, maps', ops[i]);
      outs := outs + [ok];
      OwnedMaps(fs, maps');
      assert ops[..i + 1][..i] == ops[..i] && outs[..i] == outs1;
      forall j: nat, l: nat | j < |maps|
        ensures MapOf(v, fs.dev, maps'[j], l) != 0
                <==> MappedAfter(v, ops[..i + 1], outs, j, l, MapOf(v, d, maps[j], l) != 0)
      {
        assert MapOf(v, d1, maps1[j], l) != 0
               <==> MappedAfter(v, ops[..i], outs1, j, l, MapOf(v, d, maps[j], l) != 0);
      }
    }
    assert ops[..|ops|] == ops;
  }

  lemma OwnedMaps(fs: S5FS, maps: seq<seq<nat>>)
    requires Owned(fs, maps)
    ensures AllMaps(fs.v, maps)
  {
  }

  method RunOp(fs: S5FS, maps: seq<seq<nat>>, op: MapOp) returns (maps': seq<seq<nat>>, ok: bool)
    requires Owned(fs, maps) && op.ino < |maps|
    modifies fs, fs.s_free
    ensures |maps'| == |maps| && Owned(fs, maps')
    ensures forall i: nat, l: nat | i < |maps| ::
              MapOf(fs.v, fs.dev, maps'[i], l) != 0
              <==> AfterOp(fs.v, op, ok, i, l, MapOf(fs.v, old(fs.dev), maps[i], l) != 0)
    ensures |old(fs.stack)| <= |fs.stack| + 4 && (4 <= |old(fs.stack)| ==> ok)
  {
    hide Owned, MapOf, MissingAt, Capacity;
    OwnedMaps(fs, maps);
    ok := true;
    match op {
      case Map(ino, lbn) =>
        MissingSmall(fs.v, fs.dev, maps[ino], lbn);
        if Capacity(fs.v) <= lbn {
          PastReach(fs.v, fs.dev, maps[ino], lbn);
        }
        maps', ok := MapBlock(fs, maps, ino, lbn);
      case Unmap(ino, lbn) => maps' := UnmapBlock(fs, maps, ino, lbn);
      case Release(ino) => maps' := ReleaseInode(fs, maps, ino);
    }
    OwnedMaps(fs, maps');
  }
}

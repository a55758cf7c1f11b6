/** Whole volumes: every inode's tree and the free list together partition the data
    region, and a change to one inode keeps it so. */
module Volumes {
  import opened Arith
  import opened Endian
  import opened Layout
  import opened Allocator
  import opened BlockTree
  import opened InodeMap
  import opened MapOps
  import opened Multisets
  import opened BlockCheck
  import opened FileBytes

  /** A mounted volume the block check has nothing to say about. */
  ghost predicate Whole(fs: S5FS)
    reads fs, fs.s_free
  {
    var counted := fs.Valid() && fs.s_tfree == |fs.stack|;
    counted && Partition(fs.v, VolumeRefs(fs.v, fs.dev), fs.stack)
  }

  lemma PartitionDistinct(v: Vol, m: multiset<nat>, s: seq<nat>)
    requires Partition(v, m, s)
    ensures Distinct(m + multiset(s))
  {
    forall b: nat ensures (m + multiset(s))[b] <= 1 {
      assert (m + multiset(s))[b] == if v.InData(b) then 1 else 0;
    }
  }

  /** Several owners: each one's blocks are its own. */
  lemma OwnerOf(v: Vol, k: seq<multiset<nat>>, s: seq<nat>, i: nat)
    requires Partition(v, Sum(k), s) && i < |k|
    ensures Apart(v, k[i], s)
  {
    OfPartition(v, Sum(k), s);
    SumHas(k, i);
    PartitionDistinct(v, Sum(k), s);
    SubDistinct(k[i] + multiset(s), Sum(k) + multiset(s));
  }

  lemma TwoOwners(v: Vol, k: seq<multiset<nat>>, s: seq<nat>, i: nat, j: nat)
    requires Partition(v, Sum(k), s) && i < |k| && j < |k| && i != j
    ensures forall b | b in k[j] :: v.InData(b) && b !in k[i] + multiset(s)
  {
    OwnerOf(v, k, s, j);
    SumHasTwo(k, i, j);
    PartitionDistinct(v, Sum(k), s);
    forall b | b in k[j] ensures b !in k[i] + multiset(s) {
      assert (k[i] + k[j] + multiset(s))[b] <= (Sum(k) + multiset(s))[b] <= 1;
    }
  }

  lemma OwnerStep(v: Vol, k: seq<multiset<nat>>, s: seq<nat>, k': seq<multiset<nat>>, s': seq<nat>,
                  i: nat)
    requires Partition(v, Sum(k), s) && i < |k| == |k'|
    requires forall j | 0 <= j < |k| && j != i :: k'[j] == k[j]
    requires k'[i] + multiset(s') == k[i] + multiset(s)
    ensures Partition(v, Sum(k'), s')
  {
    SumUpdate(k, i, k'[i]);
    assert k' == k[i := k'[i]];
    Cancel(Sum(k'), k[i], Sum(k), k'[i], multiset(s'), multiset(s));
  }

  lemma VolumeSum(v: Vol, d: Disk)
    requires Sized(v, d)
    ensures VolumeRefs(v, d) == Sum(PerInode(v, d)) && |PerInode(v, d)| == Ninodes(v)
  {
    hide Sum;
    hide InoRefs;
    hide PerInode;
  }

  lemma InodeOwns(v: Vol, d: Disk, s: seq<nat>, ino: nat)
    requires Sized(v, d) && Partition(v, VolumeRefs(v, d), s) && 1 <= ino <= Ninodes(v)
    ensures Apart(v, InoRefs(v, d, ino), s)
  {
    hide *;
    VolumeSum(v, d);
    PerInodeAt(v, d, ino - 1);
    OwnerOf(v, PerInode(v, d), s, ino - 1);
  }

  /** Only blocks counted in own, and blocks outside the data region, changed. */
  ghost predicate OnlyBlocks(v: Vol, d: Disk, d': Disk, own: multiset<nat>) {
    |d'| == |d| && forall b: nat | v.InData(b) && b !in own && b < |d| :: d'[b] == d[b]
  }

  /** Outside inode ino, its blocks and the free blocks, nothing of the volume changed. */
  ghost predicate OnlyInode(v: Vol, d: Disk, s: seq<nat>, d': Disk, ino: nat)
    requires Sized(v, d) && Sized(v, d') && 1 <= ino
  {
    var blocks := OnlyBlocks(v, d, d', InoRefs(v, d, ino) + multiset(s));
    var inodes := forall other: nat | 1 <= other <= Ninodes(v) && other != ino ::
      ReadDinode(v, d', other) == ReadDinode(v, d, other);
    blocks && inodes
  }

  lemma OnlyInodeParts(v: Vol, d: Disk, s: seq<nat>, d': Disk, ino: nat, other: nat)
    requires Sized(v, d) && Sized(v, d') && 1 <= ino && OnlyInode(v, d, s, d', ino)
    ensures |d'| == |d| && OnlyBlocks(v, d, d', InoRefs(v, d, ino) + multiset(s))
    ensures 1 <= other <= Ninodes(v) && other != ino ==>
              ReadDinode(v, d', other) == ReadDinode(v, d, other)
  {
    hide InoRefs;
    hide ReadDinode;
    hide Ninodes;
  }

  /** Another owner's blocks hold the same bytes. */
  lemma OthersKept(v: Vol, d: Disk, d': Disk, k: seq<multiset<nat>>, s: seq<nat>, i: nat, j: nat)
    requires Sized(v, d) && Partition(v, Sum(k), s) && i < |k| && j < |k| && i != j
    requires OnlyBlocks(v, d, d', k[i] + multiset(s))
    ensures AllData(v, k[j]) && forall b | b in k[j] :: d'[b] == d[b]
  {
    TwoOwners(v, k, s, i, j);
  }

  /** And it references the same blocks, at the same places of its map. */
  lemma OtherKept(v: Vol, d: Disk, d': Disk, di: Dinode)
    requires Sized(v, d) && Sized(v, d') && |d'| == |d| && IsMap(v, di.addr) && di.HasMap()
    requires AllData(v, InodeRefs(v, d, di.addr))
    requires forall b | b in InodeRefs(v, d, di.addr) :: d'[b] == d[b]
    ensures InodeRefs(v, d', di.addr) == InodeRefs(v, d, di.addr)
    ensures forall lbn: nat :: MapOf(v, d', di.addr, lbn) == MapOf(v, d, di.addr, lbn)
  {
    IndsWithin(v, d, di.addr);
    MapFrame(v, d, d', di.addr);
  }

  lemma InodeRefsKept(v: Vol, d: Disk, d': Disk, ino: nat, refs: multiset<nat>)
    requires Sized(v, d) && Sized(v, d') && |d'| == |d| && 1 <= ino
    requires refs == InoRefs(v, d, ino) && AllData(v, refs)
    requires forall b | b in refs :: d'[b] == d[b]
    requires ReadDinode(v, d', ino) == ReadDinode(v, d, ino)
    ensures InoRefs(v, d', ino) == refs
  {
    var di := ReadDinode(v, d, ino);
    if di.HasMap() {
      OtherKept(v, d, d', di);
    }
  }

  /** All inodes but one reference what they did. */
  lemma OthersRefs(v: Vol, d: Disk, s: seq<nat>, d': Disk, k: seq<multiset<nat>>, ino: nat, j: nat)
    requires Sized(v, d) && Sized(v, d') && |d'| == |d| && Partition(v, Sum(k), s)
    requires 1 <= ino <= |k| && j < |k| && j != ino - 1
    requires OnlyBlocks(v, d, d', k[ino - 1] + multiset(s)) && k[j] == InoRefs(v, d, j + 1)
    requires ReadDinode(v, d', j + 1) == ReadDinode(v, d, j + 1)
    ensures InoRefs(v, d', j + 1) == k[j]
  {
    hide *;
    OthersKept(v, d, d', k, s, ino - 1, j);
    InodeRefsKept(v, d, d', j + 1, k[j]);
  }

  /** A step that only moves blocks between one inode and the free list keeps the
      partition of the whole volume. */
  lemma StepWhole(v: Vol, d: Disk, s: seq<nat>, d': Disk, s': seq<nat>, ino: nat)
    requires Sized(v, d) && Sized(v, d') && Partition(v, VolumeRefs(v, d), s)
    requires 1 <= ino <= Ninodes(v) && OnlyInode(v, d, s, d', ino)
    requires InoRefs(v, d', ino) + multiset(s') == InoRefs(v, d, ino) + multiset(s)
    ensures Partition(v, VolumeRefs(v, d'), s')
  {
    hide *;
    var k, k' := PerInode(v, d), PerInode(v, d');
    VolumeSum(v, d);
    VolumeSum(v, d');
    PerInodeAt(v, d, ino - 1);
    PerInodeAt(v, d', ino - 1);
    forall j: nat | j < |k| && j != ino - 1 ensures k'[j] == k[j] {
      PerInodeAt(v, d, j);
      PerInodeAt(v, d', j);
      OnlyInodeParts(v, d, s, d', ino, j + 1);
      OthersRefs(v, d, s, d', k, ino, j);
    }
    OwnerStep(v, k, s, k', s', ino - 1);
  }

  /** Two dinodes of one block do not overlap. */
  lemma DinodesApart(v: Vol, i: nat, j: nat)
    requires 1 <= i && 1 <= j && i != j && InodeBlock(v, i) == InodeBlock(v, j)
    ensures InodeOffset(v, i) + DINODESZ <= InodeOffset(v, j)
            || InodeOffset(v, j) + DINODESZ <= InodeOffset(v, i)
  {
    var n, x, y := v.Inopb(), i + 2 * v.Inopb() - 1, j + 2 * v.Inopb() - 1;
    if Mod(x, n) == Mod(y, n) {
      DivModApart(x, y, n);
    }
  }

  /** Dinode bytes [k, k + 64) of block a changed: the other dinodes did not. */
  lemma DinodeFrame(v: Vol, a: Block, b: Block, k: nat, j: nat)
    requires |a| == v.Bsize() && SameBut(a, b, k, DINODESZ) && j + DINODESZ <= |a|
    requires k + DINODESZ <= j || j + DINODESZ <= k
    ensures InodeAt(v, b, j) == InodeAt(v, a, j)
  {
    Get16Frame(v.order, a, b, k, DINODESZ, j + DI_MODE);
    Get16Frame(v.order, a, b, k, DINODESZ, j + DI_NLINK);
    Get32Frame(v.order, a, b, k, DINODESZ, j + DI_SIZE);
    forall i | 0 <= i < v.laddr + 3
      ensures Get24(v.order, b, j + DI_ADDR + 3 * i) == Get24(v.order, a, j + DI_ADDR + 3 * i)
    {
      Get24Frame(v.order, a, b, k, DINODESZ, j + DI_ADDR + 3 * i);
    }
    assert InodeAt(v, b, j).addr == InodeAt(v, a, j).addr;
  }

  /** Rewriting one dinode in its i-list block leaves every other dinode alone. */
  lemma OtherDinodes(v: Vol, d: Disk, d': Disk, ino: nat, other: nat)
    requires Sized(v, d) && Sized(v, d') && |d'| == |d| && 1 <= ino <= Ninodes(v)
    requires 1 <= other <= Ninodes(v) && other != ino
    requires InodeBlock(v, ino) < |d|
    requires SameBut(d[InodeBlock(v, ino)], d'[InodeBlock(v, ino)], InodeOffset(v, ino), DINODESZ)
    requires forall b: nat | b < v.isize && b != InodeBlock(v, ino) :: d'[b] == d[b]
    ensures ReadDinode(v, d', other) == ReadDinode(v, d, other)
  {
    InodeInList(v, other);
    if InodeBlock(v, other) == InodeBlock(v, ino) {
      DinodesApart(v, ino, other);
      DinodeFrame(v, d[InodeBlock(v, ino)], d'[InodeBlock(v, ino)], InodeOffset(v, ino),
                  InodeOffset(v, other));
    }
  }

  /** A change outside the data region leaves a file's map and bytes alone. */
  lemma BelowData(v: Vol, d: Disk, d': Disk, addr: seq<nat>, s: seq<nat>)
    requires IsMap(v, addr) && |d| == |d'| && Apart(v, InodeRefs(v, d, addr), s)
    requires forall b: nat | v.InData(b) && b < |d| :: d'[b] == d[b]
    ensures InodeRefs(v, d', addr) == InodeRefs(v, d, addr)
    ensures forall lbn: nat :: MapOf(v, d', addr, lbn) == MapOf(v, d, addr, lbn)
    ensures forall lbn: nat :: MissingAt(v, d', addr, lbn) == MissingAt(v, d, addr, lbn)
    ensures forall p: nat :: FileByte(v, d', addr, p) == FileByte(v, d, addr, p)
  {
    IndsWithin(v, d, addr);
    MapFrame(v, d, d', addr);
    forall p: nat ensures FileByte(v, d', addr, p) == FileByte(v, d, addr, p) {
      if MapOf(v, d, addr, BlockOf(v, p)) != 0 {
        DataBlock(v, d, addr, s, BlockOf(v, p));
      }
    }
  }
}

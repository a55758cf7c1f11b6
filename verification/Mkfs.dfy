/** Making a filesystem: the free list, the bad-block inode, the root and lost+found
    with its spare blocks, and the superblock. */
module Mkfs {
  import opened Arith
  import opened Endian
  import opened Layout
  import opened FreeList
  import opened Allocator
  import opened BlockMap
  import opened BlockTree
  import opened InodeMap
  import opened Multisets
  import opened BlockCheck
  import opened Volumes
  import opened FileOps
  import opened DiskTree
  import opened Names
  import Builder

  const ISVTX_BITS: nat := 0x200
  const LOSTMODE: nat := IFDIR + ISVTX_BITS + 0x1FF
  const ROOTMODE: nat := IFDIR + 0x1FF
  // ----- the i-list

  function NoInode(v: Vol): Dinode { Dinode(0, 0, 0, seq(v.laddr + 3, _ => 0)) }

  /** The i-list holds exactly these inodes. */
  ghost predicate Ilist(v: Vol, d: Disk, inodes: map<nat, Dinode>)
    requires Sized(v, d)
  {
    forall ino: nat | 1 <= ino <= Ninodes(v) ::
      ReadDinode(v, d, ino) == if ino in inodes then inodes[ino] else NoInode(v)
  }

  lemma ZeroDinode(v: Vol, b: Block, k: nat)
    requires |b| == v.Bsize() && k + DINODESZ <= |b| && forall i | 0 <= i < |b| :: b[i] == 0
    ensures InodeAt(v, b, k) == NoInode(v)
  {
    forall i | 0 <= i < v.laddr + 3 ensures Get24(v.order, b, k + DI_ADDR + 3 * i) == 0 {}
    assert InodeAt(v, b, k).addr == NoInode(v).addr;
  }

  /** s5fs_begin: zero the i-list, blocks 2 to isize - 1. */
  method ZeroIlist(fs: S5FS)
    requires fs.Ready()
    modifies fs`dev
    ensures fs.Ready() && |fs.dev| == |old(fs.dev)| && Ilist(fs.v, fs.dev, map[])
    ensures fs.s_nfree == old(fs.s_nfree)
  {
    hide ReadDinode, Ninodes;
    var z := ZeroBlock(fs.v.Bsize());
    for b := 2 to fs.v.isize
      invariant fs.Ready() && |fs.dev| == |old(fs.dev)|
      invariant forall i | 2 <= i < b :: fs.dev[i] == z
    {
      fs.WtBlk(b, z);
    }
    forall ino: nat | 1 <= ino <= Ninodes(fs.v)
      ensures ReadDinode(fs.v, fs.dev, ino) == NoInode(fs.v)
    {
      InodeInList(fs.v, ino);
      ZeroDinode(fs.v, z, InodeOffset(fs.v, ino));
      ReadIs(fs.v, fs.dev, ino);
    }
  }

  /** Writing blocks of the data region leaves the i-list alone. */
  lemma IlistKept(v: Vol, d: Disk, d': Disk, inodes: map<nat, Dinode>)
    requires Sized(v, d) && Sized(v, d') && Ilist(v, d, inodes)
    requires forall b | 2 <= b < v.isize :: d'[b] == d[b]
    ensures Ilist(v, d', inodes)
  {
    hide ReadDinode, Ninodes;
    forall ino: nat | 1 <= ino <= Ninodes(v) ensures ReadDinode(v, d', ino) == ReadDinode(v, d, ino) {
      InodeInList(v, ino);
      ReadIs(v, d, ino);
      ReadIs(v, d', ino);
    }
  }

  /** The dinode part of s5fs_iput. */
  method PutDinode(fs: S5FS, ino: nat, di: Dinode, ghost inodes: map<nat, Dinode>)
    requires fs.Valid() && 1 <= ino <= Ninodes(fs.v) && Ilist(fs.v, fs.dev, inodes)
    requires di.mode < 0x1_0000 && di.nlink < 0x1_0000 && di.size < 0x1_0000_0000
    requires IsMap(fs.v, di.addr) && forall i | 0 <= i < |di.addr| :: di.addr[i] < 0x100_0000
    modifies fs`dev
    ensures fs.Valid() && |fs.dev| == |old(fs.dev)| && Ilist(fs.v, fs.dev, inodes[ino := di])
    ensures forall b: nat | b < |fs.dev| && (b < 2 || b >= fs.v.isize) :: fs.dev[b] == old(fs.dev)[b]
  {
    hide ReadDinode, Ninodes, InodeBlock, InodeOffset;
    ghost var v, d := fs.v, fs.dev;
    InodeInList(v, ino);
    var k := InodeOffset(fs.v, ino);
    var pb := fs.RdBlk(InodeBlock(fs.v, ino));
    var pb' := PutHead(fs.v, pb, k, di.mode, di.nlink);
    pb' := StoreDinode(fs.v, pb', k, di.size, di.addr);
    assert SameBut(pb, pb', k, DINODESZ);
    fs.WtBlk(InodeBlock(fs.v, ino), pb');
    ReadIs(v, fs.dev, ino);
    forall other: nat | 1 <= other <= Ninodes(v) && other != ino
      ensures ReadDinode(v, fs.dev, other) == ReadDinode(v, d, other)
    {
      OtherDinodes(v, d, fs.dev, ino, other);
    }
  }

  method PutHead(v: Vol, pb: Block, k: nat, mode: nat, nlink: nat) returns (r: Block)
    requires |pb| == v.Bsize() && k + DINODESZ <= |pb| && mode < 0x1_0000 && nlink < 0x1_0000
    ensures SameBut(pb, r, k, DINODESZ)
    ensures InodeAt(v, r, k).mode == mode && InodeAt(v, r, k).nlink == nlink
  {
    var a := Put16(v.order, pb, k + DI_MODE, mode);
    r := Put16(v.order, a, k + DI_NLINK, nlink);
    SmallMod(mode, 0x1_0000);
    SmallMod(nlink, 0x1_0000);
    Get16Frame(v.order, a, r, k + DI_NLINK, 2, k + DI_MODE);
  }

  // ----- references of the new inodes

  function NonZeros(s: seq<nat>): multiset<nat> {
    if s == [] then multiset{}
    else NonZeros(s[..|s| - 1]) + if s[|s| - 1] == 0 then multiset{} else multiset{s[|s| - 1]}
  }

  lemma {:induction false} NonZerosPadded(s: seq<nat>, k: nat)
    requires k <= |s| && (forall i | 0 <= i < k :: s[i] != 0) && (forall i | k <= i < |s| :: s[i] == 0)
    ensures NonZeros(s) == multiset(s[..k])
    decreases |s|
  {
    if s != [] {
      var n := |s| - 1;
      if k == |s| {
        NonZerosPadded(s[..n], n);
        assert s[..k] == s[..n][..n] + [s[n]];
      } else {
        NonZerosPadded(s[..n], k);
        assert s[..n][..k] == s[..k];
        assert NonZeros(s) == NonZeros(s[..n]) + multiset{};
      }
    }
  }

  /** A map whose indirect blocks hold no pointers references just its slots. */
  lemma BareRefs(v: Vol, d: Disk, addr: seq<nat>)
    requires IsMap(v, addr) && forall i | 0 <= i < |addr| && addr[i] != 0 :: v.InData(addr[i])
    requires forall i, j | v.laddr <= i < |addr| && 0 <= j < v.nindir && addr[i] != 0 :: Ptr(v, d, addr[i], j) == 0
    ensures InodeRefs(v, d, addr) == NonZeros(addr)
  {
    hide RefsFrom, Ptr;
    var k := SlotRefs(v, d, addr, 0);
    forall i | 0 <= i < |addr|
      ensures k[i] == if addr[i] == 0 then multiset{} else multiset{addr[i]}
    {
      BareSlot(v, d, addr[i], SlotLevel(v, i));
    }
    SinglesSum(k, addr);
  }

  lemma BareSlot(v: Vol, d: Disk, p: nat, l: nat)
    requires p != 0 ==> v.InData(p)
    requires l > 0 && p != 0 ==> forall j | 0 <= j < v.nindir :: Ptr(v, d, p, j) == 0
    ensures RefsFrom(v, d, p, l, 0) == if p == 0 then multiset{} else multiset{p}
  {
    if p != 0 && l > 0 {
      EmptyNode(v, d, p, l);
    }
  }

  lemma {:induction false} SinglesSum(k: seq<multiset<nat>>, s: seq<nat>)
    requires |k| == |s|
    requires forall i | 0 <= i < |k| :: k[i] == if s[i] == 0 then multiset{} else multiset{s[i]}
    ensures Sum(k) == NonZeros(s)
  {
    if s != [] {
      SinglesSum(k[..|k| - 1], s[..|s| - 1]);
    }
  }

  /** Only inodes 1, 2 and 3 reference anything. */
  lemma ThreeInodes(v: Vol, d: Disk)
    requires Sized(v, d) && Ninodes(v) >= 3
    requires forall ino: nat | 4 <= ino <= Ninodes(v) :: InoRefs(v, d, ino) == multiset{}
    ensures VolumeRefs(v, d) == InoRefs(v, d, 1) + InoRefs(v, d, 2) + InoRefs(v, d, 3)
  {
    hide InoRefs, VolumeRefs, Ninodes, Sum, PerInode;
    var k := PerInode(v, d);
    VolumeSum(v, d);
    forall i: nat | i < |k| ensures k[i] == InoRefs(v, d, i + 1) {
      PerInodeAt(v, d, i);
    }
    Builder.SumPad(k, 3);
    assert k[..3] == (([] + [k[0]]) + [k[1]]) + [k[2]];
    SumSnoc([], k[0]);
    SumSnoc([] + [k[0]], k[1]);
    SumSnoc(([] + [k[0]]) + [k[1]], k[2]);
    SumEmpty([]);
  }

  // ----- blocks

  /** s5fs_newblk's allocation and write; it fails when the list has run out. */
  method NewBlk(fs: S5FS, db: Block) returns (ok: bool, bno: nat)
    requires fs.Valid() && |db| == fs.v.Bsize()
    modifies fs, fs.s_free
    ensures ok <==> old(fs.stack) != []
    ensures fs.s_tfree == old(fs.s_tfree) - 1
    ensures ok ==> fs.Valid() && bno == old(fs.stack)[0] && fs.stack == old(fs.stack)[1..]
                   && fs.dev == old(fs.dev)[bno := db]
  {
    ghost var s := fs.stack;
    bno := fs.Alloc();
    ok := !fs.error;
    if ok {
      assert bno !in fs.stack by { assert forall i | 0 <= i < |s[1..]| :: s[1..][i] == s[i + 1]; }
      fs.WtBlk(bno, db);
    }
  }

  /** s5fs_mklost's blocks: the first with the two dot entries, the others empty, and
      the indirect block s5fs_iput adds because all direct slots are taken. */
  method LostBlocks(fs: S5FS, lb: Block) returns (ok: bool, addr: seq<nat>)
    requires fs.Valid() && |lb| == fs.v.Bsize() && fs.s_tfree == |fs.stack|
    modifies fs, fs.s_free
    ensures ok <==> |old(fs.stack)| > fs.v.laddr
    ensures ok ==>
              && fs.Valid() && fs.s_tfree == |fs.stack| && |fs.dev| == |old(fs.dev)|
              && addr == old(fs.stack)[..fs.v.laddr + 1]
              && fs.stack == old(fs.stack)[fs.v.laddr + 1..]
              && (forall b: nat | b < |fs.dev| && !fs.v.InData(b) :: fs.dev[b] == old(fs.dev)[b])
              && |addr| == fs.v.laddr + 1 && (forall i | 0 <= i < |addr| :: fs.v.InData(addr[i]))
              && fs.dev[addr[0]] == lb
              && (forall i, j | 1 <= i < |addr| && 0 <= j < fs.v.Bsize() :: fs.dev[addr[i]][j] == 0)
  {
    ghost var s, d := fs.stack, fs.dev;
    var z := ZeroBlock(fs.v.Bsize());
    addr := [];
    for i := 0 to fs.v.laddr + 1
      invariant fs.Valid() && fs.s_tfree == |fs.stack| && |fs.dev| == |d|
      invariant i <= |s| && addr == s[..i] && fs.stack == s[i..]
      invariant forall b: nat | b < |d| && !fs.v.InData(b) :: fs.dev[b] == d[b]
      invariant forall j | 0 <= j < i :: fs.dev[s[j]] == if j == 0 then lb else z
    {
      var bno;
      ok, bno := NewBlk(fs, if i == 0 then lb else z);
      if !ok {
        return;
      }
      addr := addr + [bno];
      assert s[i..][1..] == s[i + 1..];
    }
    ok := true;
    assert addr[0] == s[0];
    forall i | 0 <= i < |addr| ensures addr[i] == s[i] && fs.v.InData(addr[i]) {}
  }

  /** lost+found's first block, and the root's. */
  method LostEntries(v: Vol) returns (db: Block)
    ensures |db| == v.Bsize()
    ensures BlockSlots(v, db)[0] == Slot(3, DOT) && BlockSlots(v, db)[1] == Slot(2, DOTDOT)
    ensures AllFree(BlockSlots(v, db)[2..])
  {
    db := ZeroBlock(v.Bsize());
    ZeroSlots(v, db);
    ghost var s := BlockSlots(v, db);
    db := PutEntry(v, db, 0, 3, DOT);
    db := PutEntry(v, db, 1, 2, DOTDOT);
    assert forall k | 2 <= k < |s| :: BlockSlots(v, db)[k] == s[k];
  }

  method RootEntries(v: Vol) returns (db: Block)
    ensures |db| == v.Bsize()
    ensures BlockSlots(v, db)[0] == Slot(2, DOT) && BlockSlots(v, db)[1] == Slot(2, DOTDOT)
    ensures BlockSlots(v, db)[2] == Slot(3, LOSTFOUND)
    ensures AllFree(BlockSlots(v, db)[3..])
  {
    db := ZeroBlock(v.Bsize());
    ZeroSlots(v, db);
    ghost var s := BlockSlots(v, db);
    db := PutEntry(v, db, 0, 2, DOT);
    db := PutEntry(v, db, 1, 2, DOTDOT);
    db := PutEntry(v, db, 2, 3, LOSTFOUND);
    assert forall k | 3 <= k < |s| :: BlockSlots(v, db)[k] == s[k];
  }

  /** The three inodes mkfs writes: lost's blocks and the root's one. */
  function BadBlockInode(v: Vol): Dinode { Dinode(IFREG, 0, 0, seq(v.laddr + 3, _ => 0)) }

  function LostInode(v: Vol, addr: seq<nat>): Dinode {
    Dinode(LOSTMODE, 2, v.Bsize() * v.laddr, addr + [0, 0])
  }

  function RootInode(v: Vol, r: nat): Dinode {
    Dinode(ROOTMODE, 3, 3 * DIRENTSZ, [r] + seq(v.laddr + 2, _ => 0))
  }

  ghost predicate Inodes(v: Vol, d: Disk, addr: seq<nat>, r: nat)
    requires Sized(v, d)
  {
    Ilist(v, d, map[1 := BadBlockInode(v), 3 := LostInode(v, addr), 2 := RootInode(v, r)])
  }

  /** What is on the disk once the three inodes are written. */
  ghost predicate Populated(v: Vol, d: Disk, s0: seq<nat>, s: seq<nat>, addr: seq<nat>, r: nat)
    requires Sized(v, d)
  {
    var shape := |s0| >= v.laddr + 2 && addr == s0[..v.laddr + 1] && r == s0[v.laddr + 1]
      && s == s0[v.laddr + 2..] && |addr| == v.laddr + 1;
    var data := shape && v.InData(r) && forall i | 0 <= i < |addr| :: v.InData(addr[i]);
    var bare := data && forall j | 0 <= j < v.nindir :: Ptr(v, d, addr[v.laddr], j) == 0;
    bare && Inodes(v, d, addr, r)
  }

  lemma SmallIlist(v: Vol)
    requires v.isize >= 3
    ensures Ninodes(v) >= 8
  {
    assert Times(v.isize - 2, v.Inopb()) == Times(v.isize - 3, v.Inopb()) + v.Inopb();
  }

  /** The new inodes reference exactly the blocks taken off the list. */
  lemma PopulatedRefs(v: Vol, d: Disk, s0: seq<nat>, s: seq<nat>, addr: seq<nat>, r: nat)
    requires Sized(v, d) && v.isize >= 3 && Populated(v, d, s0, s, addr, r)
    ensures VolumeRefs(v, d) + multiset(s) == multiset(s0)
  {
    hide Ninodes, VolumeRefs, InodeRefs, Ptr;
    SmallIlist(v);
    forall ino: nat | 1 <= ino <= Ninodes(v)
      ensures InoRefs(v, d, ino) == if ino == 2 then multiset{r} else if ino == 3 then multiset(addr) else multiset{}
    {
      NewInodeRefs(v, d, addr, r, ino);
    }
    hide InoRefs;
    ThreeInodes(v, d);
    assert VolumeRefs(v, d) == multiset{} + multiset{r} + multiset(addr);
    assert s0 == addr + ([r] + s);
  }

  lemma NewInodeRefs(v: Vol, d: Disk, addr: seq<nat>, r: nat, ino: nat)
    requires Sized(v, d) && 1 <= ino <= Ninodes(v) && Inodes(v, d, addr, r) && v.InData(r)
    requires |addr| == v.laddr + 1 && forall i | 0 <= i < |addr| :: v.InData(addr[i])
    requires forall j | 0 <= j < v.nindir :: Ptr(v, d, addr[v.laddr], j) == 0
    ensures InoRefs(v, d, ino) == if ino == 2 then multiset{r} else if ino == 3 then multiset(addr) else multiset{}
  {
    hide ReadDinode, Ninodes, InodeRefs, Ptr, NonZeros;
    var di := ReadDinode(v, d, ino);
    if ino == 1 || ino == 2 || ino == 3 {
      BareRefs(v, d, di.addr);
      PaddedRefs(di.addr, if ino == 1 then [] else if ino == 2 then [r] else addr);
    }
  }

  lemma PaddedRefs(s: seq<nat>, a: seq<nat>)
    requires |a| <= |s| && s[..|a|] == a && (forall i | 0 <= i < |a| :: a[i] != 0)
    requires forall i | |a| <= i < |s| :: s[i] == 0
    ensures NonZeros(s) == multiset(a)
  {
    hide NonZeros;
    assert forall i | 0 <= i < |a| :: s[i] == s[..|a|][i];
    NonZerosPadded(s, |a|);
  }

  /** The whole disk after the two directories are in place. */
  method Populate(fs: S5FS) returns (ok: bool, ghost addr: seq<nat>, ghost r: nat)
    requires fs.Valid() && fs.v.isize >= 3 && fs.s_tfree == |fs.stack|
    requires Ilist(fs.v, fs.dev, map[1 := BadBlockInode(fs.v)])
    modifies fs, fs.s_free
    ensures ok <==> |old(fs.stack)| >= fs.v.laddr + 2
    ensures ok ==> |fs.stack| == |old(fs.stack)| - (fs.v.laddr + 2)
    ensures ok ==>
              && fs.Valid() && fs.s_tfree == |fs.stack| && |fs.dev| == |old(fs.dev)|
              && Populated(fs.v, fs.dev, old(fs.stack), fs.stack, addr, r)
              && Directories(fs.v, fs.dev, addr, r)
  {
    hide Ilist, Ninodes, Populated, Directories, ReadDinode, Chain, NoDup;
    ghost var v, s0, d0 := fs.v, fs.stack, fs.dev;
    SmallIlist(v);
    var rb := RootEntries(fs.v);
    var lb := LostEntries(fs.v);
    var lost;
    ok, lost := LostBlocks(fs, lb);
    addr, r := lost, 0;
    if !ok {
      return;
    }
    ghost var d1 := fs.dev;
    IlistKept(v, d0, d1, map[1 := BadBlockInode(v)]);
    PutDinode(fs, 3, LostInode(fs.v, lost), map[1 := BadBlockInode(v)]);
    ghost var d2, s2 := fs.dev, fs.stack;
    var root;
    ok, root := NewBlk(fs, rb);
    r := root;
    if !ok {
      return;
    }
    ghost var d3 := fs.dev;
    ghost var m := map[1 := BadBlockInode(v)][3 := LostInode(v, lost)];
    IlistKept(v, d2, d3, m);
    PutDinode(fs, 2, RootInode(fs.v, root), m);
    assert m[2 := RootInode(v, root)] == map[1 := BadBlockInode(v), 3 := LostInode(v, lost), 2 := RootInode(v, root)];
    PopulatedNow(v, d1, fs.dev, s0, fs.stack, addr, r, lb, rb);
  }

  /** The directory blocks hold their entries. */
  ghost predicate Directories(v: Vol, d: Disk, addr: seq<nat>, r: nat)
    requires Sized(v, d)
  {
    var shape := |addr| == v.laddr + 1 && r < |d| && forall i | 0 <= i < |addr| :: addr[i] < |d|;
    var root := shape && var s := BlockSlots(v, d[r]);
      s[0] == Slot(2, DOT) && s[1] == Slot(2, DOTDOT) && s[2] == Slot(3, LOSTFOUND) && AllFree(s[3..]);
    var lost := shape && var s := BlockSlots(v, d[addr[0]]);
      s[0] == Slot(3, DOT) && s[1] == Slot(2, DOTDOT) && AllFree(s[2..]);
    var spare := shape && forall i | 1 <= i < v.laddr :: AllFree(BlockSlots(v, d[addr[i]]));
    root && lost && spare
  }

  lemma PopulatedNow(v: Vol, d1: Disk, d: Disk, s0: seq<nat>, s: seq<nat>, addr: seq<nat>, r: nat,
                     lb: Block, rb: Block)
    requires Sized(v, d1) && Sized(v, d) && |d| == |d1| && NoDup(s0) && AllInData(v, s0)
    requires |s0| >= v.laddr + 2 && addr == s0[..v.laddr + 1] && r == s0[v.laddr + 1]
    requires s == s0[v.laddr + 2..] && Inodes(v, d, addr, r)
    requires forall b: nat | v.InData(b) && b != r :: d[b] == d1[b]
    requires d[r] == rb && |lb| == v.Bsize() && d1[addr[0]] == lb
    requires forall i, j | 1 <= i < |addr| && 0 <= j < v.Bsize() :: d1[addr[i]][j] == 0
    requires var t := BlockSlots(v, rb);
             t[0] == Slot(2, DOT) && t[1] == Slot(2, DOTDOT) && t[2] == Slot(3, LOSTFOUND) && AllFree(t[3..])
    requires var t := BlockSlots(v, lb);
             t[0] == Slot(3, DOT) && t[1] == Slot(2, DOTDOT) && AllFree(t[2..])
    ensures Populated(v, d, s0, s, addr, r) && Directories(v, d, addr, r)
  {
    hide Inodes, BlockSlots, AllFree;
    forall i | 0 <= i < |addr| ensures v.InData(addr[i]) && addr[i] != r && d[addr[i]] == d1[addr[i]] {
      assert addr[i] == s0[i];
    }
    forall j | 0 <= j < v.nindir ensures Ptr(v, d, addr[v.laddr], j) == 0 {}
    forall i | 1 <= i < v.laddr ensures AllFree(BlockSlots(v, d[addr[i]])) {
      ZeroSlots(v, d[addr[i]]);
    }
  }
}

/** A new filesystem against its own checker. */
module MkfsCheck {
  import opened Arith
  import opened Endian
  import opened Layout
  import opened FreeList
  import opened Allocator
  import opened InodeMap
  import opened Multisets
  import opened BlockCheck
  import opened FileBytes
  import opened Interleave
  import opened Superblock
  import opened DiskTree
  import opened Names
  import opened LinkCheck
  import opened LinkRepair
  import opened RepairCounts
  import opened NewImage
  import opened Mkfs

  // ----- what the disk shows

  /** A direct block of a map. */
  lemma DirectBlock(v: Vol, d: Disk, addr: seq<nat>, lbn: nat)
    requires IsMap(v, addr) && lbn < v.laddr
    ensures MapOf(v, d, addr, lbn) == addr[lbn]
  {
  }

  /** lost+found: its first block's slots, then nothing but free ones. */
  lemma {:induction false} LostSlots(v: Vol, d: Disk, addr: seq<nat>, n: nat)
    requires Sized(v, d) && IsMap(v, addr) && 1 <= n <= v.laddr
    requires forall i | 0 <= i < n :: 0 < addr[i] < |d|
    requires forall i | 1 <= i < n :: AllFree(BlockSlots(v, d[addr[i]]))
    ensures var s, b := DirSlots(v, d, addr, n), BlockSlots(v, d[addr[0]]);
            |b| <= |s| == n * Ndirect(v) && s[..|b|] == b && AllFree(s[|b|..])
  {
    hide BlockSlots, MapOf, Ndirect, AllFree;
    MulStep(n, Ndirect(v));
    DirectBlock(v, d, addr, n - 1);
    if n == 1 {
      assert DirSlots(v, d, addr, 0) == [];
      NoneFree(BlockSlots(v, d[addr[0]]));
    } else {
      LostSlots(v, d, addr, n - 1);
      FreeJoin(BlockSlots(v, d[addr[0]]), DirSlots(v, d, addr, n - 1), BlockSlots(v, d[addr[n - 1]]));
    }
  }

  lemma FreeJoin(b: seq<Slot>, s: seq<Slot>, x: seq<Slot>)
    requires |b| <= |s| && s[..|b|] == b && AllFree(s[|b|..]) && AllFree(x)
    ensures (s + x)[..|b|] == b && AllFree((s + x)[|b|..])
  {
    assert (s + x)[|b|..] == s[|b|..] + x;
  }

  lemma NoneFree(b: seq<Slot>)
    ensures AllFree([]) && b[|b|..] == [] && b[..|b|] == b && b + [] == b && [] + b == b
  {
  }

  lemma LostBlocksCount(v: Vol)
    ensures BlocksFor(v, v.Bsize() * v.laddr) == v.laddr && BlocksFor(v, 3 * DiskTree.DIRENTSZ) == 1
  {
    var n, x := v.Bsize(), v.Bsize() * v.laddr + v.Bsize() - 1;
    assert x == v.laddr * n + (n - 1);
    DivModUnique(x, n, v.laddr, n - 1);
    DivModUnique(3 * DiskTree.DIRENTSZ + n - 1, n, 1, 3 * DiskTree.DIRENTSZ - 1);
  }

  lemma MulStep(n: nat, k: nat)
    requires n > 0
    ensures n * k == (n - 1) * k + k && (n == 1 ==> n * k == k)
  {
  }

  /** The slots of lost+found's direct blocks. */
  function LostCount(v: Vol): nat { v.laddr * Ndirect(v) }

  /** Its size covers all its slots. */
  lemma LostLive(v: Vol)
    ensures 2 <= v.laddr * Ndirect(v) <= (v.Bsize() * v.laddr + DiskTree.DIRENTSZ - 1) / DiskTree.DIRENTSZ
    ensures Ndirect(v) >= 2
  {
    var q, n := v.laddr * Ndirect(v), v.nindir;
    LostSize(v.laddr, n, Ndirect(v));
    DivAtLeast(4 * n * v.laddr + 15, 16, q);
  }

  lemma LostSize(a: nat, n: nat, k: nat)
    requires 4 * k <= n && k >= 2 && a >= 1
    ensures 2 <= a * k && a * k * 16 <= 4 * n * a
  {
    assert a * (4 * k) <= a * n by {
      MulMono(4 * k, n, a);
    }
    assert a * k >= k by {
      MulMono(1, a, k);
    }
  }

  lemma MulMono(x: nat, y: nat, a: nat)
    requires x <= y
    ensures x * a <= y * a && a * x <= a * y
  {
  }

  lemma DiskIsFresh(v: Vol, d: Disk, addr: seq<nat>, r: nat)
    requires Sized(v, d) && v.isize >= 3 && Inodes(v, d, addr, r) && Directories(v, d, addr, r)
    requires v.InData(r) && |addr| == v.laddr + 1 && forall i | 0 <= i < |addr| :: v.InData(addr[i])
    ensures FreshTree(TreeOf(v, d), LostCount(v))
  {
    hide ReadDinode, Ninodes, DirSlots, BlockSlots, BlocksFor, AllFree, TreeOf, Directories;
    var t := TreeOf(v, d);
    SmallIlist(v);
    LostBlocksCount(v);
    forall i: nat | 1 <= i < |t.ilist|
      ensures t.ilist[i] == InodeOf(v, d, i) && t.dirs[i] == SlotsOf(v, d, i) && t.ilist[0] == FREE
    {
      TreeAt(v, d, i);
    }
    RootShown(v, d, addr, r);
    LostShown(v, d, addr, r);
    hide SlotsOf;
  }

  lemma RootShown(v: Vol, d: Disk, addr: seq<nat>, r: nat)
    requires Sized(v, d) && v.isize >= 3 && Inodes(v, d, addr, r) && Directories(v, d, addr, r)
    requires v.InData(r)
    ensures var s := SlotsOf(v, d, 2);
            |s| >= 3 && s[0] == Slot(2, DOT) && s[1] == Slot(2, DOTDOT) && s[2] == Slot(3, LOSTFOUND)
            && AllFree(s[3..]) && InodeOf(v, d, 2) == Inode(Dir, 3, 3)
  {
    hide ReadDinode, Ninodes, BlockSlots, BlocksFor, MapOf;
    SmallIlist(v);
    LostBlocksCount(v);
    var di := RootInode(v, r);
    assert ReadDinode(v, d, 2) == di;
    DirectBlock(v, d, di.addr, 0);
    assert DirSlots(v, d, di.addr, 0) == [];
    assert DirSlots(v, d, di.addr, 1) == [] + BlockSlots(v, d[r]);
    assert [] + BlockSlots(v, d[r]) == BlockSlots(v, d[r]);
  }

  lemma LostShown(v: Vol, d: Disk, addr: seq<nat>, r: nat)
    requires Sized(v, d) && v.isize >= 3 && Inodes(v, d, addr, r) && Directories(v, d, addr, r)
    requires |addr| == v.laddr + 1 && forall i | 0 <= i < |addr| :: v.InData(addr[i])
    ensures var s := SlotsOf(v, d, 3);
            |s| == LostCount(v) >= 2 && s[0] == Slot(3, DOT) && s[1] == Slot(2, DOTDOT) && AllFree(s[2..])
            && InodeOf(v, d, 3) == Inode(Dir, 2, |s|)
  {
    hide ReadDinode, Ninodes, BlockSlots, BlocksFor, MapOf, DirSlots, Ndirect;
    SmallIlist(v);
    LostBlocksCount(v);
    LostLive(v);
    var di := LostInode(v, addr);
    assert ReadDinode(v, d, 3) == di;
    LostSlots(v, d, di.addr, v.laddr);
    var s, b := DirSlots(v, d, di.addr, v.laddr), BlockSlots(v, d[addr[0]]);
    assert |b| == Ndirect(v);
    forall k | 2 <= k < |s| ensures s[k].ino == 0 {
      if k < |b| {
        assert s[k] == s[..|b|][k] == b[2..][k - 2];
      } else {
        assert s[k] == s[|b|..][k - |b|];
      }
    }
    assert s[0] == s[..|b|][0] && s[1] == s[..|b|][1];
  }

  // ----- mkfs

  lemma FirstIn(s: seq<nat>)
    ensures s != [] ==> s[0] in s
  {
  }

  /** Distinct numbers that fill a range are as many as the range holds. */
  lemma {:induction false} RangeSize(s: seq<nat>, lo: nat, hi: nat)
    requires NoDup(s) && lo <= hi && forall b: nat :: b in s <==> lo <= b < hi
    ensures |s| == hi - lo
    decreases hi
  {
    if lo < hi {
      assert hi - 1 in s;
      var i :| 0 <= i < |s| && s[i] == hi - 1;
      var t := s[..i] + s[i + 1..];
      forall b: nat ensures b in t <==> lo <= b < hi - 1 {
        if b in s && b != hi - 1 {
          var j :| 0 <= j < |s| && s[j] == b;
          assert t[if j < i then j else j - 1] == b;
        }
        if b in t {
          var j :| 0 <= j < |t| && t[j] == b;
          assert s[if j < i then j else j + 1] == b;
        }
      }
      RangeSize(t, lo, hi - 1);
    } else {
      FirstIn(s);
    }
  }

  /** Blocks the free list is built from. */
  function FreeCount(v: Vol, n: nat): nat
    requires n >= 1
  {
    v.fsize - v.isize - if (v.fsize - 1) % n == 0 then 1 else 0
  }

  lemma ListSize(v: Vol, s: seq<nat>, n: nat)
    requires n >= 1 && NoDup(s)
    requires forall b: nat :: b in s <==> v.InData(b) && !(b == v.fsize - 1 && (v.fsize - 1) % n == 0)
    ensures |s| == FreeCount(v, n)
  {
    RangeSize(s, v.isize, if (v.fsize - 1) % n == 0 then v.fsize - 1 else v.fsize);
  }

  /** What mkfs leaves partitions the data region exactly when its free list covered it. */
  lemma FreshBlocks(v: Vol, d: Disk, s0: seq<nat>, s: seq<nat>)
    requires Sized(v, d) && VolumeRefs(v, d) + multiset(s) == multiset(s0)
    requires NoDup(s0) && AllInData(v, s0)
    ensures Partition(v, VolumeRefs(v, d), s) <==> forall b: nat | v.InData(b) :: b in s0
  {
    hide VolumeRefs;
    var all := VolumeRefs(v, d) + multiset(s);
    forall b: nat ensures all[b] == if b in s0 then 1 else 0 {
      CountOnce(s0, b);
    }
    if forall b: nat | v.InData(b) :: b in s0 {
      forall b: nat ensures all[b] == if v.InData(b) then 1 else 0 {}
    }
    if Partition(v, VolumeRefs(v, d), s) {
      forall b: nat | v.InData(b) ensures b in s0 {
        assert all[b] == 1;
      }
    }
  }

  /** s5fs_mkfs on a volume of a given geometry, with interleave n, m, over whatever the
      image held before.  It succeeds exactly when the list has the blocks the two
      directories need; the image then always passes the link check, and passes the
      block check exactly when n does not divide fsize - 1. */
  method MakeFs(v: Vol, image: Disk, n: nat, m: nat, sysv: bool) returns (fs: S5FS, ok: bool)
    requires Sized(v, image) && SUPERBLK < |image| && v.isize >= 3 && n >= 1
    ensures fresh(fs) && fs.v == v && (ok ==> Sized(v, fs.dev) && SUPERBLK < |fs.dev|)
    ensures ok <==> FreeCount(v, n) >= v.laddr + 2
    // lost+found has its direct blocks full of slots, two of them taken
    ensures ok ==> IsNew(TreeOf(v, fs.dev), v.laddr * (v.Bsize() / 16)) && LinksClean(TreeOf(v, fs.dev))
    ensures ok ==> FreshModes(v, fs.dev)
    ensures ok ==> (CleanBlocks(v, fs.dev) <==> (v.fsize - 1) % n != 0)
    ensures ok ==> SbTfree(v, fs.dev[SUPERBLK]) == FreeCount(v, n) - (v.laddr + 2)
    ensures ok ==>
              && SbTinode(v, fs.dev[SUPERBLK]) == ((v.isize - 2) * v.Inopb() - 3) % 0x1_0000
              && IsSysv(v, fs.dev[SUPERBLK]) == sysv
              && Get16(v.order, fs.dev[SUPERBLK], SB_ISIZE) == v.isize % 0x1_0000
              && Get32(v.order, fs.dev[SUPERBLK], SB_FSIZE) == v.fsize
  {
    hide Ilist, Populated, Directories, VolumeRefs, Partition, LinksClean, CleanBlocks, TreeOf, Ninodes;
    hide NearlySorted, Chain, FreshModes, FreshTree, IsNew, Woven, Stepped, IsPermutation;
    fs := new S5FS(v, image);
    ZeroIlist(fs);
    ghost var d0 := fs.dev;
    ghost var offsets := BuildFreeList(fs, n, m);
    ListSize(v, fs.stack, n);
    ghost var s0 := fs.stack;
    IlistKept(v, d0, fs.dev, map[]);
    SmallIlist(v);
    PutDinode(fs, 1, BadBlockInode(v), map[]);
    assert map[][1 := BadBlockInode(v)] == map[1 := BadBlockInode(v)];
    ghost var addr, r;
    ok, addr, r := Populate(fs);
    if !ok {
      return;
    }
    ghost var d1 := fs.dev;
    StackFits(v, fs.stack);
    CacheSmall(fs);
    Finish(fs, sysv, Ninodes(v) - 3);
    Made(v, d1, fs.dev, s0, fs.stack, addr, r);
    PopulatedKept(v, d1, fs.dev, s0, fs.stack, addr, r);
    ModesNow(v, fs.dev, s0, fs.stack, addr, r);
    InodesTimes(v);
    NewTree(v, TreeOf(v, fs.dev));
  }

  lemma NewTree(v: Vol, t: Tree)
    requires FreshTree(t, LostCount(v))
    ensures IsNew(t, v.laddr * (v.Bsize() / 16)) && LinksClean(t)
  {
    hide FreshTree, LinksClean, Consistent, Refers, LostFound, Places;
    FreshIsNew(t, LostCount(v));
    assert v.Bsize() / 16 == Ndirect(v);
  }

  /** Modes and sizes: an empty bad-block file, a root that all may write to, and a
      lost+found as long as its direct blocks, with the sticky bit. */
  ghost predicate FreshModes(v: Vol, d: Disk)
    requires Sized(v, d)
  {
    var bad, root, lost := ReadDinode(v, d, 1), ReadDinode(v, d, 2), ReadDinode(v, d, 3);
    && bad.mode == 0x8000 && bad.size == 0
    && root.mode == 0x41FF && root.size == 48
    && lost.mode == 0x43FF && lost.size == v.laddr * v.Bsize()
  }

  lemma ModesShown(v: Vol, d: Disk, addr: seq<nat>, r: nat)
    requires Sized(v, d) && v.isize >= 3 && Inodes(v, d, addr, r)
    ensures FreshModes(v, d)
  {
    hide ReadDinode, Ninodes;
    SmallIlist(v);
  }

  lemma InodesTimes(v: Vol)
    requires v.isize >= 3
    ensures Ninodes(v) == (v.isize - 2) * v.Inopb() >= 8
  {
    SmallIlist(v);
    TimesIs(v.isize - 2, v.Inopb());
  }

  lemma ModesNow(v: Vol, d: Disk, s0: seq<nat>, s: seq<nat>, addr: seq<nat>, r: nat)
    requires Sized(v, d) && v.isize >= 3 && Populated(v, d, s0, s, addr, r)
    ensures FreshModes(v, d)
  {
    hide Inodes, FreshModes;
    ModesShown(v, d, addr, r);
  }

  lemma Made(v: Vol, d1: Disk, d: Disk, s0: seq<nat>, s: seq<nat>, addr: seq<nat>, r: nat)
    requires Sized(v, d1) && Sized(v, d) && |d| == |d1| && SUPERBLK < |d| && v.isize >= 3
    requires Populated(v, d1, s0, s, addr, r) && Directories(v, d1, addr, r)
    requires NoDup(s0) && AllInData(v, s0)
    requires forall b: nat | b < |d| && b != SUPERBLK :: d[b] == d1[b]
    requires Chain(v, d, SbCache(v, d[SUPERBLK]), s)
    ensures FreshTree(TreeOf(v, d), LostCount(v))
    ensures CleanBlocks(v, d) <==> forall b: nat | v.InData(b) :: b in s0
  {
    hide VolumeRefs, Partition, FreshModes, TreeOf, Chain, Inodes, BlockSlots;
    PopulatedKept(v, d1, d, s0, s, addr, r);
    PopulatedRefs(v, d, s0, s, addr, r);
    FreshBlocks(v, d, s0, s);
    DiskIsFresh(v, d, addr, r);
    if CleanBlocks(v, d) {
      var t: seq<nat> :| Chain(v, d, SbCache(v, d[SUPERBLK]), t) && Partition(v, VolumeRefs(v, d), t);
      ChainUnique(v, d, SbCache(v, d[SUPERBLK]), s, t);
    }
  }

  lemma PopulatedKept(v: Vol, d1: Disk, d: Disk, s0: seq<nat>, s: seq<nat>, addr: seq<nat>, r: nat)
    requires Sized(v, d1) && Sized(v, d) && |d| == |d1|
    requires Populated(v, d1, s0, s, addr, r) && Directories(v, d1, addr, r)
    requires forall b: nat | b < |d| && b != SUPERBLK :: d[b] == d1[b]
    ensures Populated(v, d, s0, s, addr, r) && Directories(v, d, addr, r)
  {
    hide Ilist, BlockSlots;
    IlistKept(v, d1, d, map[1 := BadBlockInode(v), 3 := LostInode(v, addr), 2 := RootInode(v, r)]);
    forall i | 0 <= i < |addr| ensures addr[i] < |d| && d[addr[i]] == d1[addr[i]] {
      assert v.InData(addr[i]);
    }
    assert d[r] == d1[r];
    assert Inodes(v, d, addr, r);
    var p := addr[v.laddr];
    assert d[p] == d1[p];
    forall j | 0 <= j < v.nindir ensures Ptr(v, d, p, j) == 0 {
      assert Ptr(v, d1, p, j) == 0;
    }
  }

  /** mkfs, then both halves of fsck. */
  method MakeThenCheck(v: Vol, image: Disk, n: nat, m: nat, sysv: bool)
    returns (ok: bool, blocks: nat, links: nat)
    requires Sized(v, image) && SUPERBLK < |image| && v.isize >= 3 && n >= 1
    ensures ok <==> FreeCount(v, n) >= v.laddr + 2
    ensures ok ==> links == 0 && (blocks == 0 <==> (v.fsize - 1) % n != 0)
  {
    hide CleanBlocks, LinksClean, TreeOf;
    var fs;
    fs, ok := MakeFs(v, image, n, m, sysv);
    if !ok {
      return ok, 0, 0;
    }
    SmallIlist(v);
    TreeShape(v, fs.dev);
    var ck := new CK(v, fs.dev);
    var missing, both, freec := ck.CheckBlocks();
    blocks := ck.errors;
    links := CheckLinks(TreeOf(v, fs.dev));
  }
}

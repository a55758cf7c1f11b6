/** Writing the superblock back, and what the block check then says. */
module Superblock {
  import opened Arith
  import opened Endian
  import opened Layout
  import opened FreeList
  import opened Allocator
  import opened BlockCheck
  import opened Salvage
  import opened Volumes

  /** s5fs_finish: a fresh superblock with geometry, free cache and totals. */
  method Finish(fs: S5FS, sysv: bool, tinode: nat)
    requires fs.Ready() && fs.s_nfree <= NICFREE && 0 <= fs.s_tfree < 0x1_0000_0000
    requires SUPERBLK < |fs.dev|
    modifies fs`dev
    ensures fs.Ready() && |fs.dev| == |old(fs.dev)|
    ensures forall b: nat | b < |fs.dev| && b != SUPERBLK :: fs.dev[b] == old(fs.dev)[b]
    ensures old(fs.Valid()) ==> fs.Valid()
    ensures var sb := fs.dev[SUPERBLK];
            && SbCache(fs.v, sb) == fs.Cached()
            && SbTfree(fs.v, sb) == fs.s_tfree && SbTinode(fs.v, sb) == tinode % 0x1_0000
            && IsSysv(fs.v, sb) == sysv
            && Get16(fs.v.order, sb, SB_ISIZE) == fs.v.isize % 0x1_0000
            && Get32(fs.v.order, sb, SB_FSIZE) == fs.v.fsize
  {
    var sb := FreshSuper(fs.v, sysv);
    sb := EncodeFree(fs.v, sb, Cache(fs.s_nfree, fs.s_free[..]), fs.s_tfree, tinode);
    assert old(fs.Valid()) ==> SUPERBLK !in fs.stack;
    fs.WtBlk(SUPERBLK, sb);
  }

  method FreshSuper(v: Vol, sysv: bool) returns (sb: Block)
    ensures |sb| == v.Bsize() && IsSysv(v, sb) == sysv
    ensures Get16(v.order, sb, SB_ISIZE) == v.isize % 0x1_0000
    ensures Get32(v.order, sb, SB_FSIZE) == v.fsize
  {
    var z := ZeroBlock(v.Bsize());
    var a := Put16(v.order, z, SB_ISIZE, v.isize);
    var b := Put32(v.order, a, SB_FSIZE, v.fsize);
    SmallMod(v.fsize, 0x1_0000_0000);
    Get16Frame(v.order, a, b, SB_FSIZE, 4, SB_ISIZE);
    if sysv {
      sb := Put32(v.order, b, SB_MAGIC, FS_MAGIC);
      SmallMod(FS_MAGIC, 0x1_0000_0000);
      Get16Frame(v.order, b, sb, SB_MAGIC, 4, SB_ISIZE);
      Get32Frame(v.order, b, sb, SB_MAGIC, 4, SB_FSIZE);
    } else {
      sb := b;
      Get32Frame(v.order, z, a, SB_ISIZE, 2, SB_MAGIC);
      Get32Frame(v.order, a, b, SB_FSIZE, 4, SB_MAGIC);
    }
  }

  lemma StackFits(v: Vol, s: seq<nat>)
    requires NoDup(s) && AllInData(v, s)
    ensures |s| < 0x1_0000_0000
  {
    NoDupBound(s, v.fsize);
  }

  /** rw_sync on a volume in order: the image it leaves is one the block check passes. */
  method Sync(fs: S5FS, sysv: bool, tinode: nat)
    requires Whole(fs) && SUPERBLK < |fs.dev|
    modifies fs`dev
    ensures Whole(fs) && |fs.dev| == |old(fs.dev)| && CleanBlocks(fs.v, fs.dev)
    ensures forall b: nat | b < |fs.dev| && b != SUPERBLK :: fs.dev[b] == old(fs.dev)[b]
    ensures SbTfree(fs.v, fs.dev[SUPERBLK]) == fs.s_tfree && SbCache(fs.v, fs.dev[SUPERBLK]) == fs.Cached()
    ensures SbTinode(fs.v, fs.dev[SUPERBLK]) == tinode % 0x1_0000
  {
    hide VolumeRefs, Partition;
    ghost var d := fs.dev;
    StackFits(fs.v, fs.stack);
    CacheSmall(fs);
    Finish(fs, sysv, tinode);
    SuperWritten(fs.v, d, fs.dev, fs.stack);
  }

  lemma CacheSmall(fs: S5FS)
    requires fs.Valid()
    ensures fs.s_nfree <= NICFREE
  {
  }

  lemma SuperWritten(v: Vol, d: Disk, d': Disk, s: seq<nat>)
    requires Sized(v, d) && Sized(v, d') && |d'| == |d| && SUPERBLK < |d|
    requires Partition(v, VolumeRefs(v, d), s) && Chain(v, d', SbCache(v, d'[SUPERBLK]), s)
    requires forall b: nat | b < |d| && b != SUPERBLK :: d'[b] == d[b]
    ensures Partition(v, VolumeRefs(v, d'), s) && CleanBlocks(v, d')
  {
    hide VolumeRefs, Chain, Partition;
    RefsKept(v, d, d');
  }
}

/** Volumes and files on which a put does not keep what it sets out to keep. */
module PutWitnesses {
  import opened Arith
  import opened Endian
  import opened Layout
  import opened FreeList
  import opened Allocator
  import opened BlockMap
  import opened InodeMap
  import opened Multisets
  import opened BlockCheck
  import opened FileBytes
  import opened Volumes
  import opened FileOps
  import opened PutFile
  import opened PutRun
  import opened PutCheck
  import opened Space
  import opened Superblock
  import Interleave
  import Mkfs
  import MkfsCheck

  const FILE: nat := 3

  function EmptyFile(v: Vol): Dinode { Dinode(IFREG, 1, 0, seq(v.laddr + 3, _ => 0)) }

  lemma InodeNone(v: Vol, d: Disk, ino: nat)
    requires Sized(v, d) && 1 <= ino <= Ninodes(v) && Mkfs.Ilist(v, d, map[FILE := EmptyFile(v)])
    ensures InoRefs(v, d, ino) == multiset{}
  {
    hide ReadDinode, Ninodes, InodeRefs;
    NoRefs(v, d, ReadDinode(v, d, ino).addr);
  }

  lemma NothingReferenced(v: Vol, d: Disk)
    requires Sized(v, d) && v.isize >= 3 && Mkfs.Ilist(v, d, map[FILE := EmptyFile(v)])
    ensures FILE <= Ninodes(v) && ReadDinode(v, d, FILE) == EmptyFile(v)
    ensures InoRefs(v, d, FILE) == multiset{} && VolumeRefs(v, d) == multiset{}
  {
    Mkfs.SmallIlist(v);
    hide ReadDinode, Ninodes, InoRefs, VolumeRefs, PerInode, Sum;
    VolumeSum(v, d);
    InodeNone(v, d, FILE);
    forall j: nat | j < Ninodes(v) ensures PerInode(v, d)[j] == multiset{} {
      PerInodeAt(v, d, j);
      InodeNone(v, d, j + 1);
    }
    SumEmpty(PerInode(v, d));
  }

  /** An otherwise empty image: one empty file in inode 3, neither a root nor lost+found, and
      every data block free. */
  method NewVolume(v: Vol, n: nat, m: nat) returns (fs: S5FS)
    requires v.isize >= 3 && n >= 1 && (v.fsize - 1) % n != 0
    ensures fresh(fs) && fresh(fs.s_free) && fs.v == v && Whole(fs) && Synced(fs) && |fs.stack| == v.fsize - v.isize
    ensures FILE <= Ninodes(v) && ReadDinode(v, fs.dev, FILE) == EmptyFile(v) && InoRefs(v, fs.dev, FILE) == multiset{}
  {
    hide ReadDinode, Ninodes, InodeRefs, VolumeRefs, Interleave.NearlySorted, Chain, Mkfs.Ilist;
    var z := ZeroBlock(v.Bsize());
    fs := new S5FS(v, seq(v.fsize, _ => z));
    Mkfs.ZeroIlist(fs);
    ghost var d0 := fs.dev;
    ghost var offsets := Interleave.BuildFreeList(fs, n, m);
    Mkfs.IlistKept(v, d0, fs.dev, map[]);
    Mkfs.SmallIlist(v);
    Mkfs.PutDinode(fs, FILE, EmptyFile(v), map[]);
    assert map[][FILE := EmptyFile(v)] == map[FILE := EmptyFile(v)];
    NothingReferenced(v, fs.dev);
    MkfsCheck.ListSize(v, fs.stack, n);
    MkfsCheck.FreshBlocks(v, fs.dev, fs.stack, fs.stack);
    ghost var d1 := fs.dev;
    Sync(fs, true, 0);
    Mkfs.IlistKept(v, d1, fs.dev, map[FILE := EmptyFile(v)]);
    NothingReferenced(v, fs.dev);
  }

  // ----- out of space

  /** A volume of 1 KiB blocks, `free` of them data blocks. */
  function Tiny(free: nat): Vol
    requires 4 <= free <= 70
  {
    Volume(Pdp11, 256, 4, 3, free + 3)
  }

  /** Something that looks right wherever a failed handle looks. */
  function LooksRight(): (u: Stray)
    ensures Silent(u)
  {
    Stray(_ => false, _ => 1)
  }

  lemma Within(v: Vol, count: nat)
    requires count <= v.laddr + v.nindir
    ensures count <= Capacity(v)
  {
  }

  lemma KiloBlocks(free: nat, k: nat)
    requires 4 <= free <= 70
    ensures BlocksFor(Tiny(free), 1024 * k) == k
  {
    DivModUnique(1024 * k + 1023, 1024, k, 1023);
  }

  /** What 1 KiB blocks cost with four direct slots: one indirect block from the fifth on. */
  lemma TinyCost(free: nat, k: nat)
    requires 4 <= free <= 70 && k <= 260
    ensures Cost(Tiny(free), k) == if k <= 4 then k else k + 1
  {
    var v := Tiny(free);
    if k <= 4 {
      DirectCost(v, k);
    } else {
      SingleCost(v, k);
    }
  }

  lemma TinyFits(free: nat, all: seq<byte>, k: nat)
    requires 4 <= free <= 70 && k <= 260 && |all| == 1024 * k
    ensures var v := Tiny(free);
            && BlocksFor(v, |all|) == k <= Capacity(v)
            && (Fits(v, free, all) <==> (if k <= 4 then k else k + 1) <= free)
            && (Short(v, free, all) <==> (if k <= 4 then k else k + 1) > free)
            && (4 < k && free <= k ==> (LacksData(v, free, all) <==> free != 4))
  {
    hide Cost, Capacity, BlocksFor;
    var v := Tiny(free);
    KiloBlocks(free, k);
    NoBlocks(v);
    Within(v, k);
    forall b: nat | b <= k ensures Cost(v, b) == if b <= 4 then b else b + 1 {
      TinyCost(free, b);
    }
    if 4 < free <= k {
      assert Cost(v, free) == free + 1;
    }
  }

  lemma TwoChunks(a: seq<byte>, b: seq<byte>)
    ensures Flat([a]) == a && Flat([a, b]) == a + b
  {
    assert [a][..0] == [] && [a, b][..1] == [a];
  }

  lemma NewFileEmptied(v: Vol, d: Disk, ino: nat)
    requires Sized(v, d) && 1 <= ino && InoRefs(v, d, ino) == multiset{}
    ensures Emptied(v, d, ino, false)
  {
  }

  /** 70 free blocks, 100 KiB to put: the first 64 KiB go in and are stored; the rest does
      not fit, the superblock on the image stays as it was before the put, and the check
      finds blocks both in the file and on the free list. */
  method SeventyBlocks(u: Stray) returns (rc: int, errors: nat)
    ensures rc != 0 && errors != 0
  {
    hide ReadDinode, InoRefs, VolumeRefs, Partition, Fits, BlocksFor, Capacity, Cost, Ninodes, Chain, Short;
    hide Silent, LacksData, Emptied;
    var fs := NewVolume(Tiny(70), 10, 5);
    var chunks: seq<seq<byte>> := [seq(65536, _ => 0), seq(36864, _ => 0)];
    TwoChunks(chunks[0], chunks[1]);
    TinyFits(70, chunks[0], 64);
    TinyFits(70, Flat(chunks), 100);
    assert chunks[..0 + 1] == [chunks[0]];
    NewFileEmptied(fs.v, fs.dev, FILE);
    ghost var k, took;
    rc, errors, k, took := PutThenCheck(fs, FILE, false, chunks, u, true, 0);
    if fs.error && k == 0 {
      assert false;
    }
  }

  /** 4 free blocks, 5 KiB to put in one piece: the fifth block would need an indirect
      block, which is not to be had.  When all looks right on the failed handle the put
      answers 0, and the file does not read back. */
  method FourBlocks() returns (rc: int, back: seq<byte>, all: seq<byte>)
    ensures |all| == 5120 && rc == 0 && back != all
  {
    hide ReadDinode, InoRefs, VolumeRefs, Partition, Fits, BlocksFor, Capacity, Cost, Ninodes, Chain, Short;
    hide Silent, LacksData, Emptied;
    var fs := NewVolume(Tiny(4), 10, 5);
    all := seq(5120, _ => 0);
    TinyFits(4, all, 5);
    OneChunk(all);
    NewFileEmptied(fs.v, fs.dev, FILE);
    rc, back := PutThenRead(fs, FILE, false, [all], LooksRight(), |all|, true, 0);
  }

  /** The same 5 KiB, read as 4 KiB and then 1 KiB: the put answers 0, and the check finds
      fault with the image. */
  method TwoReads() returns (rc: int, errors: nat)
    ensures rc == 0 && errors != 0
  {
    hide ReadDinode, InoRefs, VolumeRefs, Partition, Fits, BlocksFor, Capacity, Cost, Ninodes, Chain, Short;
    hide Silent, LacksData, Emptied;
    var fs := NewVolume(Tiny(4), 10, 5);
    var chunks: seq<seq<byte>> := [seq(4096, _ => 0), seq(1024, _ => 0)];
    TwoChunks(chunks[0], chunks[1]);
    TinyFits(4, chunks[0], 4);
    TinyFits(4, Flat(chunks), 5);
    assert chunks[..0 + 1] == [chunks[0]];
    NewFileEmptied(fs.v, fs.dev, FILE);
    ghost var k, took;
    rc, errors, k, took := PutThenCheck(fs, FILE, false, chunks, LooksRight(), true, 0);
    if fs.error && k == 0 {
      assert false;
    }
  }

  // ----- 2 GiB

  /** The largest volume of 2 KiB blocks. */
  const LARGE: Vol := Volume(Pdp11, 512, 10, 2048, 0x100_0000)

  lemma LargeBlocks()
    ensures BlocksFor(LARGE, 0x8000_0000) == 0x10_0000 && 0x10_0000 <= Capacity(LARGE)
  {
    assert 512 * 512 * 512 == 0x800_0000;
  }

  lemma LargeFits(all: seq<byte>)
    requires |all| == 0x8000_0000
    ensures Fits(LARGE, LARGE.fsize - LARGE.isize, all)
  {
    hide Cost, Capacity, BlocksFor;
    LargeBlocks();
    NoBlocks(LARGE);
    CostBound(LARGE, 0x10_0000);
  }

  /** 2 GiB are put without complaint, and do not read back. */
  method TwoGigabytes() returns (rc: int, back: seq<byte>, all: seq<byte>)
    ensures |all| == 0x8000_0000 && rc == 0 && back != all
  {
    hide ReadDinode, InoRefs, VolumeRefs, Partition, Fits, BlocksFor, Capacity, Cost, Ninodes, Chain;
    var fs := NewVolume(LARGE, 10, 5);
    all := seq(0x8000_0000, _ => 0);
    LargeFits(all);
    OneChunk(all);
    rc, back := PutThenRead(fs, FILE, false, [all], LooksRight(), |all|, true, 0);
  }

  lemma OneChunk(a: seq<byte>)
    ensures Flat([a]) == a
  {
    assert [a][..0] == [];
  }
}

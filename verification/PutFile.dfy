/** Truncate and read, and what a whole file copied in chunk by chunk has come to. */
module PutFile {
  import opened Arith
  import opened Errno
  import opened Endian
  import opened Layout
  import opened FreeList
  import opened Allocator
  import opened BlockMap
  import opened BlockTree
  import opened InodeMap
  import opened MapOps
  import opened FreeOps
  import opened Multisets
  import opened BlockCheck
  import opened FileBytes
  import opened Volumes
  import opened FileOps
  import opened Space
  import opened Superblock

  /** Logical blocks [lo, hi) are gone; the others, and what they hold, are as before. */
  ghost predicate Cut(v: Vol, d: Disk, addr: seq<nat>, d': Disk, addr': seq<nat>, lo: nat, hi: nat)
    requires IsMap(v, addr) && IsMap(v, addr')
  {
    var mapped := forall lbn: nat ::
      MapOf(v, d', addr', lbn) == if lo <= lbn < hi then 0 else MapOf(v, d, addr, lbn);
    var bytes := forall p: nat | !(lo <= BlockOf(v, p) < hi) ::
      FileByte(v, d', addr', p) == FileByte(v, d, addr, p);
    mapped && bytes
  }

  /** How many of the logical blocks [lo, hi) are mapped. */
  ghost function MappedIn(v: Vol, d: Disk, addr: seq<nat>, lo: nat, hi: nat): nat
    requires IsMap(v, addr)
  {
    if hi <= lo then 0
    else MappedIn(v, d, addr, lo, hi - 1) + if MapOf(v, d, addr, hi - 1) == 0 then 0 else 1
  }

  lemma CutNothing(v: Vol, d: Disk, addr: seq<nat>, lo: nat)
    requires IsMap(v, addr)
    ensures Cut(v, d, addr, d, addr, lo, lo)
  {
    hide MapOf, FileByte;
  }

  lemma CutMore(v: Vol, d0: Disk, addr0: seq<nat>, d: Disk, s: seq<nat>, addr: seq<nat>,
                d': Disk, s': seq<nat>, addr': seq<nat>, lo: nat, hi: nat)
    requires IsMap(v, addr0) && IsMap(v, addr) && lo <= hi && Cut(v, d0, addr0, d, addr, lo, hi)
    requires Sized(v, d) && Apart(v, InodeRefs(v, d, addr), s)
    requires InodeUnmapped(v, d, s, addr, d', s', addr', hi)
    ensures IsMap(v, addr') && Cut(v, d0, addr0, d', addr', lo, hi + 1)
  {
    hide MapOf, InodeRefs, BlockOf, ByteIn;
    forall p: nat | !(lo <= BlockOf(v, p) < hi + 1)
      ensures FileByte(v, d', addr', p) == FileByte(v, d0, addr0, p)
    {
      var q := MapOf(v, d, addr, BlockOf(v, p));
      assert MapOf(v, d', addr', BlockOf(v, p)) == q;
      if q != 0 {
        DataBlock(v, d, addr, s, BlockOf(v, p));
        DataBlocksDiffer(v, d, addr, s, BlockOf(v, p), hi);
        var gone := MapOf(v, d, addr, hi);
        assert q !in InodeInds(v, d, addr) + multiset{gone};
        assert d'[q] == d[q];
      }
    }
  }

  lemma CutCount(v: Vol, d0: Disk, addr0: seq<nat>, d: Disk, s: seq<nat>, addr: seq<nat>,
                 d': Disk, s': seq<nat>, addr': seq<nat>, lo: nat, hi: nat)
    requires IsMap(v, addr0) && IsMap(v, addr) && lo <= hi && Cut(v, d0, addr0, d, addr, lo, hi)
    requires InodeUnmapped(v, d, s, addr, d', s', addr', hi)
    ensures |s'| == |s| + if MapOf(v, d0, addr0, hi) == 0 then 0 else 1
  {
    hide MapOf, FileByte, InodeRefs, InodeInds;
  }

  lemma UnmappedMoved(v: Vol, d: Disk, s: seq<nat>, addr: seq<nat>, d': Disk, s': seq<nat>,
                      addr': seq<nat>, lbn: nat)
    requires IsMap(v, addr) && Apart(v, InodeRefs(v, d, addr), s) && AllInData(v, s)
    requires InodeUnmapped(v, d, s, addr, d', s', addr', lbn)
    ensures Moved(v, d, s, addr, d', s', addr') && Apart(v, InodeRefs(v, d', addr'), s')
  {
    hide MapOf, InodeRefs;
    ChangedMono(d, d', InodeRefs(v, d, addr), InodeRefs(v, d, addr) + multiset(s));
    AllDataOf(v, InodeRefs(v, d, addr), s, InodeRefs(v, d', addr'));
  }

  /** Give logical blocks [lo, hi) back. */
  method CutBlocks(fs: S5FS, ds: array<nat>, lo: nat, hi: nat)
    requires Engine(fs, ds[..]) && ds as object != fs.s_free as object
    modifies fs, fs.s_free, ds
    ensures Engine(fs, ds[..])
    ensures Moved(fs.v, old(fs.dev), old(fs.stack), old(ds[..]), fs.dev, fs.stack, ds[..])
    ensures Cut(fs.v, old(fs.dev), old(ds[..]), fs.dev, ds[..], lo, if lo <= hi then hi else lo)
    ensures |fs.stack| == old(|fs.stack| + MappedIn(fs.v, fs.dev, ds[..], lo, hi))
  {
    hide Cut, Moved, MapOf, InodeRefs, InodeUnmapped;
    ghost var v, d0, s0, addr0 := fs.v, fs.dev, fs.stack, ds[..];
    CutNothing(v, d0, addr0, lo);
    MovedNothing(v, d0, s0, addr0);
    var lb := lo;
    while lb < hi
      invariant lo <= lb && (lb <= hi || lb == lo)
      invariant Engine(fs, ds[..])
      invariant Moved(v, d0, s0, addr0, fs.dev, fs.stack, ds[..])
      invariant Cut(v, d0, addr0, fs.dev, ds[..], lo, lb)
      invariant |fs.stack| == |s0| + MappedIn(v, d0, addr0, lo, lb)
    {
      ghost var d1, s1, addr1 := fs.dev, fs.stack, ds[..];
      BfreeAt(fs, ds, lb);
      CutMore(v, d0, addr0, d1, s1, addr1, fs.dev, fs.stack, ds[..], lo, lb);
      CutCount(v, d0, addr0, d1, s1, addr1, fs.dev, fs.stack, ds[..], lo, lb);
      UnmappedMoved(v, d1, s1, addr1, fs.dev, fs.stack, ds[..], lb);
      MovedMore(v, d0, s0, addr0, d1, s1, addr1, fs.dev, fs.stack, ds[..]);
      lb := lb + 1;
    }
  }

  /** The logical blocks rw_truncate unmaps: those wholly past len, up to the old end. */
  function CutEnd(v: Vol, size: nat, len: nat): nat
    requires size < 0x1_0000_0000
  {
    if len < Signed32(size) then BlocksFor(v, Signed32(size)) else 0
  }

  /** File ino now has length len; shrinking unmapped the blocks wholly past it, and no
      remaining block was touched. */
  ghost predicate Truncated(v: Vol, d: Disk, d': Disk, ino: nat, len: nat)
    requires Sized(v, d) && Sized(v, d') && 1 <= ino
  {
    var di, di' := ReadDinode(v, d, ino), ReadDinode(v, d', ino);
    var lo, hi := BlocksFor(v, len), CutEnd(v, di.size, len);
    var sized := di' == di.(size := len % 0x1_0000_0000, addr := di'.addr);
    sized && Cut(v, d, di.addr, d', di'.addr, lo, if lo <= hi then hi else lo)
  }

  /** Free blocks that truncating file ino to len gains. */
  ghost function Released(v: Vol, d: Disk, ino: nat, len: nat): nat
    requires Sized(v, d) && 1 <= ino
  {
    var di := ReadDinode(v, d, ino);
    MappedIn(v, d, di.addr, BlocksFor(v, len), CutEnd(v, di.size, len))
  }

  /** The superblock on the image holds the cache in memory. */
  ghost predicate Synced(fs: S5FS)
    reads fs, fs.s_free
  {
    && SUPERBLK < |fs.dev| && |fs.dev[SUPERBLK]| == fs.v.Bsize()
    && SbCache(fs.v, fs.dev[SUPERBLK]) == fs.Cached()
  }

  /** Writing the superblock is no step of file ino. */
  lemma SyncStep(v: Vol, d: Disk, s: seq<nat>, d': Disk, ino: nat)
    requires Sized(v, d) && Sized(v, d') && |d'| == |d| && Partition(v, VolumeRefs(v, d), s)
    requires 1 <= ino <= Ninodes(v) && ReadDinode(v, d, ino).HasMap()
    requires forall b: nat | b < |d| && b != SUPERBLK :: d'[b] == d[b]
    ensures FileStep(v, d, s, d', s, ino) && ReadDinode(v, d', ino) == ReadDinode(v, d, ino)
    ensures var addr := ReadDinode(v, d, ino).addr;
            && (forall lbn: nat :: MapOf(v, d', addr, lbn) == MapOf(v, d, addr, lbn))
            && forall p: nat :: FileByte(v, d', addr, p) == FileByte(v, d, addr, p)
  {
    hide InodeRefs, Partition, VolumeRefs, MapOf, FileByte, Ninodes, InodeBlock, InodeOffset;
    InodeOwns(v, d, s, ino);
    forall other: nat | 1 <= other <= Ninodes(v) ensures ReadDinode(v, d', other) == ReadDinode(v, d, other) {
      InodeInList(v, other);
    }
    BelowData(v, d, d', ReadDinode(v, d, ino).addr, s);
  }

  lemma TruncatedSynced(v: Vol, d0: Disk, d1: Disk, d2: Disk, ino: nat, len: nat)
    requires Sized(v, d0) && Sized(v, d1) && Sized(v, d2) && 1 <= ino && Truncated(v, d0, d1, ino, len)
    requires var di := ReadDinode(v, d1, ino);
             && ReadDinode(v, d2, ino) == di
             && (forall lbn: nat :: MapOf(v, d2, di.addr, lbn) == MapOf(v, d1, di.addr, lbn))
             && (forall p: nat :: FileByte(v, d2, di.addr, p) == FileByte(v, d1, di.addr, p))
    ensures Truncated(v, d0, d2, ino, len)
  {
    hide Cut, ReadDinode, MapOf, FileByte, BlocksFor;
    var di0, di := ReadDinode(v, d0, ino), ReadDinode(v, d1, ino);
    SizeFits(v, d0, ino);
    var lo, hi := BlocksFor(v, len), CutEnd(v, di0.size, len);
    CutBelow(v, d0, di0.addr, d1, d2, di.addr, lo, if lo <= hi then hi else lo);
  }

  /** rw_truncate, which ends with a sync. */
  method RwTruncate(fs: S5FS, ino: nat, len: nat, sysv: bool, tinode: nat) returns (rc: int)
    requires Whole(fs) && 1 <= ino <= Ninodes(fs.v)
    requires ReadDinode(fs.v, fs.dev, ino).HasMap()
    modifies fs, fs.s_free
    ensures Whole(fs) && FileStep(fs.v, old(fs.dev), old(fs.stack), fs.dev, fs.stack, ino)
    ensures rc == if IsDir(ReadDinode(fs.v, old(fs.dev), ino)) then -EISDIR else 0
    ensures rc == 0 ==> Truncated(fs.v, old(fs.dev), fs.dev, ino, len) && Synced(fs)
    ensures rc == 0 ==> |fs.stack| == old(|fs.stack| + Released(fs.v, fs.dev, ino, len))
    ensures rc != 0 ==> fs.dev == old(fs.dev) && fs.stack == old(fs.stack)
  {
    hide Moved, MapOf, InodeRefs, Partition, VolumeRefs, FileStep, Truncated, FileByte, BlocksFor;
    hide OnlyInode, Ninodes, Capacity, InodeOffset, SameBut, Cut, MappedIn, CleanBlocks;
    ghost var v, d0, s0 := fs.v, fs.dev, fs.stack;
    InodeInList(v, ino);
    InodeOwns(v, d0, s0, ino);
    SameStep(v, d0, s0, ino);
    var pb := fs.RdBlk(InodeBlock(fs.v, ino));
    var di := InodeAt(fs.v, pb, InodeOffset(fs.v, ino));
    if IsDir(di) {
      return -EISDIR;
    }
    var ds := LoadAddr(fs.v, pb, InodeOffset(fs.v, ino));
    var lo, hi := BlocksFor(fs.v, len), CutEnd(fs.v, di.size, len);
    CutBlocks(fs, ds, lo, hi);
    FinishTruncate(fs, ino, pb, di, ds, len, lo, hi, d0, s0);
    ghost var d1 := fs.dev;
    FileStepWhole(v, d0, s0, d1, fs.stack, ino);
    TruncatedMap(v, d0, d1, ino, len);
    Sync(fs, sysv, tinode);
    SyncStep(v, d1, fs.stack, fs.dev, ino);
    FileStepMore(v, d0, s0, d1, fs.stack, fs.dev, fs.stack, ino);
    TruncatedSynced(v, d0, d1, fs.dev, ino, len);
    rc := 0;
  }

  lemma TruncatedMap(v: Vol, d: Disk, d': Disk, ino: nat, len: nat)
    requires Sized(v, d) && Sized(v, d') && 1 <= ino && Truncated(v, d, d', ino, len)
    ensures ReadDinode(v, d', ino).mode == ReadDinode(v, d, ino).mode
    ensures ReadDinode(v, d', ino).size == len % 0x1_0000_0000
  {
    hide ReadDinode, Cut;
  }

  method FinishTruncate(fs: S5FS, ino: nat, pb: Block, di: Dinode, ds: array<nat>, len: nat,
                        ghost lo: nat, ghost hi: nat, ghost d0: Disk, ghost s0: seq<nat>)
    requires Sized(fs.v, d0) && 1 <= ino <= Ninodes(fs.v) && InodeBlock(fs.v, ino) < |d0|
    requires pb == d0[InodeBlock(fs.v, ino)] && di == ReadDinode(fs.v, d0, ino) && di.HasMap()
    requires Engine(fs, ds[..]) && AllInData(fs.v, s0) && AllData(fs.v, InodeRefs(fs.v, d0, di.addr))
    requires Moved(fs.v, d0, s0, di.addr, fs.dev, fs.stack, ds[..])
    requires di.size < 0x1_0000_0000 && lo == BlocksFor(fs.v, len)
    requires hi == CutEnd(fs.v, di.size, len)
    requires Cut(fs.v, d0, di.addr, fs.dev, ds[..], lo, if lo <= hi then hi else lo)
    modifies fs`dev
    ensures fs.Valid() && FileStep(fs.v, d0, s0, fs.dev, fs.stack, ino)
    ensures Truncated(fs.v, d0, fs.dev, ino, len)
  {
    hide Moved, MapOf, MissingAt, FileByte, InodeRefs, FileStep;
    hide OnlyInode, Ninodes, InodeOffset, SameBut, IsMap, Cut, BlocksFor;
    ghost var v, d1, s1 := fs.v, fs.dev, fs.stack;
    InodeInList(v, ino);
    MovedBelow(v, d0, s0, di.addr, d1, s1, ds[..]);
    StoreBack(fs, ino, pb, len % 0x1_0000_0000, ds);
    StoredBack(v, d0, s0, d1, s1, fs.dev, ino, ds[..]);
    CutBelow(v, d0, di.addr, d1, fs.dev, ds[..], lo, if lo <= hi then hi else lo);
  }

  lemma CutBelow(v: Vol, d: Disk, addr: seq<nat>, d1: Disk, d2: Disk, addr': seq<nat>, lo: nat, hi: nat)
    requires IsMap(v, addr) && IsMap(v, addr') && Cut(v, d, addr, d1, addr', lo, hi)
    requires forall lbn: nat :: MapOf(v, d2, addr', lbn) == MapOf(v, d1, addr', lbn)
    requires forall p: nat :: FileByte(v, d2, addr', p) == FileByte(v, d1, addr', p)
    ensures Cut(v, d, addr, d2, addr', lo, hi)
  {
    hide FileByte, MapOf;
  }

  /** How much fsr_readfile tries to return. */
  function Wanted(di: Dinode, size: nat, off: nat): nat
    requires di.size < 0x1_0000_0000
  {
    var end := Signed32(di.size);
    if off >= end then 0 else if off + size > end then end - off else size
  }

  /** fsr_readfile: holes read as zeros; an unreadable block ends the read early. */
  method ReadFile(v: Vol, d: Disk, di: Dinode, size: nat, off: nat) returns (buf: seq<byte>)
    requires Sized(v, d) && IsMap(v, di.addr) && di.size < 0x1_0000_0000
    // no more than asked for, none past the size, and less only at a block past the image
    ensures |buf| <= size && (buf == [] || off + |buf| <= Signed32(di.size))
    ensures |buf| < size && off + |buf| < Signed32(di.size) ==> MapOf(v, d, di.addr, BlockOf(v, off + |buf|)) >= |d|
    ensures |buf| <= Wanted(di, size, off)
    ensures forall k | 0 <= k < |buf| :: buf[k] == FileByte(v, d, di.addr, off + k)
    ensures |buf| < Wanted(di, size, off) ==>
              MapOf(v, d, di.addr, BlockOf(v, off + |buf|)) >= |d|
  {
    hide MapOf, BlockOf, ByteIn;
    buf := [];
    var want := Wanted(di, size, off);
    while |buf| < want
      invariant |buf| <= want
      invariant forall k | 0 <= k < |buf| :: buf[k] == FileByte(v, d, di.addr, off + k)
    {
      var lbn, boff := BlockOf(v, off + |buf|), ByteIn(v, off + |buf|);
      var n := v.Bsize() - boff;
      if n > want - |buf| {
        n := want - |buf|;
      }
      var phys := RwOps.Bmap(v, d, di.addr, lbn);
      var part;
      if phys == 0 {
        part := seq(n, _ => 0);
      } else {
        if phys >= |d| {
          break;
        }
        part := d[phys][boff..boff + n];
      }
      PartRead(v, d, di.addr, off + |buf|, phys, part, n);
      buf := buf + part;
    }
  }

  lemma PartRead(v: Vol, d: Disk, addr: seq<nat>, at: nat, phys: nat, part: seq<byte>, n: nat)
    requires Sized(v, d) && IsMap(v, addr) && 0 < n && ByteIn(v, at) + n <= v.Bsize()
    requires phys == MapOf(v, d, addr, BlockOf(v, at)) && phys < |d| && |part| == n
    requires forall i | 0 <= i < n ::
               part[i] == if phys == 0 then 0 else d[phys][ByteIn(v, at) + i]
    ensures forall i | 0 <= i < n :: part[i] == FileByte(v, d, addr, at + i)
  {
    hide MapOf, BlockOf, ByteIn;
    forall i | 0 <= i < n ensures part[i] == FileByte(v, d, addr, at + i) {
      ChunkPositions(v, at, n, at + i);
      SamePosition(v, at + i, at);
    }
  }

  function Flat(chunks: seq<seq<byte>>): seq<byte> {
    if chunks == [] then [] else Flat(chunks[..|chunks| - 1]) + chunks[|chunks| - 1]
  }

  lemma FileStepMore(v: Vol, d: Disk, s: seq<nat>, d1: Disk, s1: seq<nat>, d2: Disk, s2: seq<nat>, ino: nat)
    requires Sized(v, d) && Sized(v, d1) && Sized(v, d2) && 1 <= ino
    requires FileStep(v, d, s, d1, s1, ino) && FileStep(v, d1, s1, d2, s2, ino)
    ensures FileStep(v, d, s, d2, s2, ino)
  {
    hide InoRefs, ReadDinode, Ninodes;
  }

  /** All of `all`, and no more, is in regular file ino, paid for from the top of the free
      list; the volume is in order. */
  ghost predicate PutSoFar(v: Vol, d0: Disk, s0: seq<nat>, d: Disk, s: seq<nat>, ino: nat, all: seq<byte>)
    requires Sized(v, d0) && Sized(v, d) && 1 <= ino
  {
    var di0, di := ReadDinode(v, d0, ino), ReadDinode(v, d, ino);
    && FileStep(v, d0, s0, d, s, ino) && Partition(v, VolumeRefs(v, d), s) && Shrunk(s0, s)
    && IsReg(di) && di.size == |all| % 0x1_0000_0000
    && Wrote(v, d0, di0.addr, d, di.addr, 0, all)
    && Paid(v, d0, s0, di0.addr, d, s, di.addr, 0, BlocksFor(v, |all|))
  }

  /** Put stopped for want of free blocks: up to (d, s) all of `all` was put and stored;
      what came after changed no dinode. */
  ghost predicate PutHalted(fs: S5FS, d0: Disk, s0: seq<nat>, d: Disk, s: seq<nat>, ino: nat, all: seq<byte>)
    requires Sized(fs.v, d0) && 1 <= ino
    reads fs
  {
    Sized(fs.v, d) && PutSoFar(fs.v, d0, s0, d, s, ino, all) && StarvedFile(fs, d, s, ino)
  }

  lemma NoBlocks(v: Vol)
    ensures BlocksFor(v, 0) == 0 && Cost(v, 0) == 0
  {
    DivModUnique(v.Bsize() - 1, v.Bsize(), 0, v.Bsize() - 1);
    NeedToNone(v, Naddr(v));
  }

  lemma PutStart(v: Vol, d: Disk, s: seq<nat>, ino: nat)
    requires Sized(v, d) && 1 <= ino && Partition(v, VolumeRefs(v, d), s)
    requires IsReg(ReadDinode(v, d, ino)) && ReadDinode(v, d, ino).size == 0
    ensures PutSoFar(v, d, s, d, s, ino, [])
  {
    hide Partition, VolumeRefs, FileStep, Wrote, Filled, BlocksFor, Cost;
    SameStep(v, d, s, ino);
    NoBlocks(v);
    WroteNothing(v, d, ReadDinode(v, d, ino).addr, 0);
  }

  lemma PutMore(v: Vol, d0: Disk, s0: seq<nat>, d1: Disk, s1: seq<nat>, d2: Disk, s2: seq<nat>,
                ino: nat, all: seq<byte>, data: seq<byte>)
    requires Sized(v, d0) && Sized(v, d1) && Sized(v, d2) && 1 <= ino && data != []
    requires PutSoFar(v, d0, s0, d1, s1, ino, all) && FileStep(v, d1, s1, d2, s2, ino)
    requires Pwritten(v, d1, s1, d2, s2, ino, |all|, data) && Partition(v, VolumeRefs(v, d2), s2)
    ensures PutSoFar(v, d0, s0, d2, s2, ino, all + data)
  {
    hide Partition, VolumeRefs, FileStep, Wrote, Filled, BlocksFor, Cost, ReadDinode;
    FileStepMore(v, d0, s0, d1, s1, d2, s2, ino);
    var di0, di1, di2 := ReadDinode(v, d0, ino), ReadDinode(v, d1, ino), ReadDinode(v, d2, ino);
    WroteMore(v, d0, di0.addr, d1, di1.addr, d2, di2.addr, 0, all, data);
  }

  /** What a put that came through took, against what was there for it. */
  lemma PutRoom(v: Vol, d0: Disk, s0: seq<nat>, d: Disk, s: seq<nat>, ino: nat, all: seq<byte>)
    requires Sized(v, d0) && Sized(v, d) && 1 <= ino <= Ninodes(v) && PutSoFar(v, d0, s0, d, s, ino, all)
    requires ReadDinode(v, d0, ino).HasMap()
    ensures Fits(v, |s0| + |InoRefs(v, d0, ino)|, all)
    ensures |s0| <= |s| + Cost(v, BlocksFor(v, |all|))
    ensures |s0| + |InoRefs(v, d0, ino)| >= |s| + Cost(v, BlocksFor(v, |all|))
  {
    hide Partition, VolumeRefs, Wrote, OnlyInode, BlocksFor, Cost, ReadDinode, InodeRefs, Filled, Ninodes;
    var di, b := ReadDinode(v, d, ino), BlocksFor(v, |all|);
    NoBlocks(v);
    NoneToFill(v, d0, ReadDinode(v, d0, ino).addr);
    FilledReach(v, d, di.addr, b);
    InodeOwns(v, d, s, ino);
    IndsWithin(v, d, di.addr);
    RefsCost(v, d, di.addr, b);
    assert |InoRefs(v, d, ino) + multiset(s)| == |InoRefs(v, d0, ino) + multiset(s0)|;
  }

  /** `free` blocks hold a file of these bytes, its indirect blocks included. */
  predicate Fits(v: Vol, free: nat, all: seq<byte>) { Room(v, free, 0, BlocksFor(v, |all|)) }

  lemma FitsLess(v: Vol, free: nat, some: seq<byte>, all: seq<byte>)
    requires |some| <= |all| && Fits(v, free, all)
    ensures Fits(v, free, some)
  {
    hide BlocksFor, Cost, Capacity;
    BlocksMono(v, |some|, |all|);
    CostMono(v, BlocksFor(v, |some|), BlocksFor(v, |all|));
  }

  lemma NoneToFill(v: Vol, d: Disk, addr: seq<nat>)
    requires IsMap(v, addr)
    ensures Filled(v, d, addr, 0)
  {
  }

  lemma FilledReach(v: Vol, d: Disk, addr: seq<nat>, count: nat)
    requires IsMap(v, addr) && Filled(v, d, addr, count)
    ensures count <= Capacity(v)
  {
    RouteRange(v, Capacity(v));
    assert MapOf(v, d, addr, Capacity(v)) == 0;
  }

  /** With room for all chunks the next one can be paid for. */
  lemma NextPayable(v: Vol, d0: Disk, s0: seq<nat>, d: Disk, s: seq<nat>, ino: nat, all: seq<byte>,
                    data: seq<byte>, total: seq<byte>)
    requires Sized(v, d0) && Sized(v, d) && 1 <= ino && PutSoFar(v, d0, s0, d, s, ino, all)
    requires |all| + |data| <= |total| && Fits(v, |s0|, total)
    ensures Payable(v, d, s, ino, |all|, data)
  {
    hide Partition, VolumeRefs, FileStep, Wrote, BlocksFor, Cost, ReadDinode, Filled, Capacity;
    NoBlocks(v);
    NoneToFill(v, d0, ReadDinode(v, d0, ino).addr);
    BlocksMono(v, |all| + |data|, |total|);
    CostMono(v, BlocksFor(v, |all| + |data|), BlocksFor(v, |total|));
  }

  lemma {:induction false} FlatPrefix(chunks: seq<seq<byte>>, i: nat)
    requires i <= |chunks|
    ensures Flat(chunks[..i]) <= Flat(chunks)
    ensures i < |chunks| ==> Flat(chunks[..i + 1]) == Flat(chunks[..i]) + chunks[i]
  {
    if i < |chunks| {
      assert chunks[..i + 1][..i] == chunks[..i];
      FlatPrefix(chunks[..|chunks| - 1], i);
      assert chunks[..|chunks| - 1][..i] == chunks[..i];
    } else {
      assert chunks[..i] == chunks;
    }
  }

  lemma PastCapacity(v: Vol, p: nat, n: nat)
    requires p < n && Capacity(v) <= BlockOf(v, p)
    ensures Capacity(v) < BlocksFor(v, n)
  {
    BlockBelow(p, n, v.Bsize());
  }

  lemma RegularNow(v: Vol, d0: Disk, s0: seq<nat>, d: Disk, s: seq<nat>, ino: nat, all: seq<byte>)
    requires Sized(v, d0) && Sized(v, d) && 1 <= ino && PutSoFar(v, d0, s0, d, s, ino, all)
    ensures ReadDinode(v, d, ino).HasMap() && !IsDir(ReadDinode(v, d, ino))
  {
    hide FileStep, Partition, Shrunk, Wrote, Paid, ReadDinode;
  }

  /** What can be put into file ino: its cost, against the free blocks and, for a file
      that is there already, what truncating it gives back. */
  ghost function RoomFor(v: Vol, d: Disk, s: seq<nat>, ino: nat, existing: bool): nat
    requires Sized(v, d) && 1 <= ino
  {
    |s| + if existing then Released(v, d, ino, 0) else 0
  }

  /** The sync that ends a put that came through. */
  method SyncPut(fs: S5FS, ino: nat, ghost all: seq<byte>, sysv: bool, tinode: nat,
                 ghost d1: Disk, ghost s1: seq<nat>)
    requires Whole(fs) && 1 <= ino <= Ninodes(fs.v) && Sized(fs.v, d1) && ReadDinode(fs.v, d1, ino).HasMap()
    requires PutSoFar(fs.v, d1, s1, fs.dev, fs.stack, ino, all)
    modifies fs`dev
    ensures Whole(fs) && FileStep(fs.v, d1, s1, fs.dev, fs.stack, ino)
    ensures Synced(fs) && CleanBlocks(fs.v, fs.dev)
    ensures var di := ReadDinode(fs.v, fs.dev, ino);
            && IsReg(di) && di.size == |all| % 0x1_0000_0000
            && forall p: nat | p < |all| :: FileByte(fs.v, fs.dev, di.addr, p) == all[p]
    ensures Fits(fs.v, |s1| + |InoRefs(fs.v, d1, ino)|, all)
  {
    hide PutSoFar, Partition, VolumeRefs, FileStep, ReadDinode, Ninodes, FileByte, MapOf, Fits, CleanBlocks, InoRefs;
    ghost var v, d2 := fs.v, fs.dev;
    PutRoom(v, d1, s1, d2, fs.stack, ino, all);
    RegularNow(v, d1, s1, d2, fs.stack, ino, all);
    PutBytes(v, d1, s1, d2, fs.stack, ino, all);
    StepOf(v, d1, s1, d2, fs.stack, ino, all);
    Sync(fs, sysv, tinode);
    SyncStep(v, d2, fs.stack, fs.dev, ino);
    FileStepMore(v, d1, s1, d2, fs.stack, fs.dev, fs.stack, ino);
  }

  lemma StepOf(v: Vol, d0: Disk, s0: seq<nat>, d: Disk, s: seq<nat>, ino: nat, all: seq<byte>)
    requires Sized(v, d0) && Sized(v, d) && 1 <= ino && PutSoFar(v, d0, s0, d, s, ino, all)
    ensures FileStep(v, d0, s0, d, s, ino)
  {
    hide FileStep, Partition, Shrunk, Paid, ReadDinode, Wrote;
  }

  lemma SomeCost(v: Vol, chunks: seq<seq<byte>>, k: nat)
    requires k <= |chunks| && forall c | c in chunks :: c != []
    ensures Cost(v, BlocksFor(v, |Flat(chunks[..k])|)) > 0 <==> k > 0
  {
    hide BlocksFor;
    if k > 0 {
      FlatPrefix(chunks, k - 1);
      assert chunks[k - 1] in chunks;
      BlocksMono(v, 1, |Flat(chunks[..k])|);
      ChunkBlocks(v, 0, 1);
    } else {
      NoBlocks(v);
      assert chunks[..0] == [];
    }
  }

  lemma PutConserved(v: Vol, d: Disk, s: seq<nat>, d': Disk, s': seq<nat>, ino: nat)
    requires Sized(v, d) && Sized(v, d') && 1 <= ino && FileStep(v, d, s, d', s', ino)
    ensures |s'| + |InoRefs(v, d', ino)| == |s| + |InoRefs(v, d, ino)|
  {
    hide InoRefs, OnlyInode;
    assert |InoRefs(v, d', ino) + multiset(s')| == |InoRefs(v, d, ino) + multiset(s)|;
  }

  lemma PutBytes(v: Vol, d0: Disk, s0: seq<nat>, d: Disk, s: seq<nat>, ino: nat, all: seq<byte>)
    requires Sized(v, d0) && Sized(v, d) && 1 <= ino && PutSoFar(v, d0, s0, d, s, ino, all)
    ensures var di := ReadDinode(v, d, ino);
            && IsReg(di) && di.size == |all| % 0x1_0000_0000
            && forall p: nat | p < |all| :: FileByte(v, d, di.addr, p) == all[p]
  {
    hide FileStep, Partition, Shrunk, Paid, ReadDinode, FileByte;
  }

  /** The dinode stored last refers to blocks that the superblock written before still
      lists as free. */
  lemma HaltedDirty(fs: S5FS, d0: Disk, s0: seq<nat>, d: Disk, s: seq<nat>, ino: nat, all: seq<byte>, c: Cache)
    requires Sized(fs.v, d0) && 1 <= ino <= Ninodes(fs.v) && PutHalted(fs, d0, s0, d, s, ino, all)
    requires Partition(fs.v, VolumeRefs(fs.v, d0), s0) && Chain(fs.v, d0, c, s0) && SameSuper(d0, fs.dev)
    ensures Sized(fs.v, fs.dev) && |s| <= |s0|
    ensures |s| < |s0| && SbCache(fs.v, d0[SUPERBLK]) == c ==> !CleanBlocks(fs.v, fs.dev)
    ensures InoRefs(fs.v, d0, ino) == multiset{} && ReadDinode(fs.v, d0, ino).HasMap() ==>
              |s0| - |s| == Cost(fs.v, BlocksFor(fs.v, |all|))
  {
    hide Partition, VolumeRefs, FileStep, Wrote, Paid, ReadDinode, Ninodes, InoRefs, InodeRefs, Extends;
    hide BlocksFor, Cost;
    if ReadDinode(fs.v, d0, ino).HasMap() {
      PutRoom(fs.v, d0, s0, d, s, ino, all);
    }
    if |s| < |s0| && SbCache(fs.v, d0[SUPERBLK]) == c {
      TopReferenced(fs, d0, s0, d, s, ino);
      forall t | Chain(fs.v, fs.dev, c, t) ensures !Partition(fs.v, VolumeRefs(fs.v, fs.dev), t) {
        SameTop(fs.v, d0, fs.dev, c, s0, t);
        BothCounted(fs.v, fs.dev, ino, s0[0], t);
      }
    }
  }

  /** Whatever list a record starts, its top is the one in the record. */
  lemma SameTop(v: Vol, d: Disk, d': Disk, c: Cache, s: seq<nat>, t: seq<nat>)
    requires Sized(v, d) && Sized(v, d') && Chain(v, d, c, s) && Chain(v, d', c, t) && s != []
    ensures t != [] && t[0] == s[0]
  {
  }

  lemma BothCounted(v: Vol, d: Disk, ino: nat, b: nat, s: seq<nat>)
    requires Sized(v, d) && 1 <= ino <= Ninodes(v) && b in InoRefs(v, d, ino) && b in s
    ensures !Partition(v, VolumeRefs(v, d), s)
  {
    hide InoRefs, VolumeRefs, PerInode, Ninodes;
    VolumeSum(v, d);
    PerInodeAt(v, d, ino - 1);
    SumHas(PerInode(v, d), ino - 1);
    assert (VolumeRefs(v, d) + multiset(s))[b] >= 2;
  }

  lemma TopReferenced(fs: S5FS, d0: Disk, s0: seq<nat>, d: Disk, s: seq<nat>, ino: nat)
    requires Sized(fs.v, d0) && Sized(fs.v, d) && 1 <= ino <= Ninodes(fs.v)
    requires FileStep(fs.v, d0, s0, d, s, ino) && Shrunk(s0, s) && |s| < |s0|
    requires ReadDinode(fs.v, d, ino).HasMap() && StarvedFile(fs, d, s, ino)
    requires Partition(fs.v, VolumeRefs(fs.v, d0), s0)
    ensures Sized(fs.v, fs.dev) && s0[0] in InoRefs(fs.v, fs.dev, ino)
  {
    hide Partition, VolumeRefs, OnlyInode, InodeRefs, Extends, InodeBlock, InodeOffset, Ninodes;
    var v, addr := fs.v, ReadDinode(fs.v, d, ino).addr;
    InodeInList(v, ino);
    ExtendsOld(v, d, addr, fs.dev, addr);
    assert ReadDinode(v, fs.dev, ino) == ReadDinode(v, d, ino);
    NotBelow(v, VolumeRefs(v, d0), s0, s);
    assert (InoRefs(v, d, ino) + multiset(s))[s0[0]] == (InoRefs(v, d0, ino) + multiset(s0))[s0[0]];
  }

  lemma NotBelow(v: Vol, m: multiset<nat>, s0: seq<nat>, s: seq<nat>)
    requires Partition(v, m, s0) && Shrunk(s0, s) && |s| < |s0|
    ensures s0[0] !in s && multiset(s)[s0[0]] == 0
  {
    var b := s0[0];
    PopMultiset(s0);
    assert (m + multiset(s0))[b] <= 1;
    forall i | 0 <= i < |s| ensures s[i] != b {
      assert s[i] == s0[1..][|s0| - |s| - 1 + i];
    }
  }

  lemma SizeFits(v: Vol, d: Disk, ino: nat)
    requires Sized(v, d) && 1 <= ino
    ensures ReadDinode(v, d, ino).size < 0x1_0000_0000
  {
  }

  lemma ReadWhole(v: Vol, d: Disk, s: seq<nat>, ino: nat, all: seq<byte>, size: nat, back: seq<byte>)
    requires Sized(v, d) && Partition(v, VolumeRefs(v, d), s) && 1 <= ino <= Ninodes(v)
    requires |all| <= size && ReadDinode(v, d, ino).HasMap()
    requires ReadDinode(v, d, ino).size == |all| % 0x1_0000_0000
    requires forall p: nat | p < |all| :: FileByte(v, d, ReadDinode(v, d, ino).addr, p) == all[p]
    requires var di := ReadDinode(v, d, ino);
             && |back| <= Wanted(di, size, 0)
             && (forall k | 0 <= k < |back| :: back[k] == FileByte(v, d, di.addr, 0 + k))
             && (|back| < Wanted(di, size, 0) ==> MapOf(v, d, di.addr, BlockOf(v, 0 + |back|)) >= |d|)
    ensures back == all <==> |all| < 0x8000_0000
  {
    hide Partition, VolumeRefs, Ninodes, FileByte, MapOf, InodeRefs, ReadDinode, BlockOf;
    InodeOwns(v, d, s, ino);
    var addr := ReadDinode(v, d, ino).addr;
    var b := MapOf(v, d, addr, BlockOf(v, |back|));
    if b != 0 {
      DataBlock(v, d, addr, s, BlockOf(v, |back|));
    }
    assert |back| == Wanted(ReadDinode(v, d, ino), size, 0);
    if |all| < 0x8000_0000 {
      SmallMod(|all|, 0x1_0000_0000);
      assert |back| == |all|;
      assert forall k | 0 <= k < |back| :: back[k] == all[k];
    }
  }

  /** On a file without holes, a write within it or at its end changes no byte outside
      its own range. */
  lemma HoleFreeWrite(v: Vol, d: Disk, addr: seq<nat>, d': Disk, addr': seq<nat>,
                      off: nat, data: seq<byte>, size: nat, p: nat)
    requires IsMap(v, addr) && IsMap(v, addr') && Wrote(v, d, addr, d', addr', off, data)
    requires forall lbn: nat | lbn < BlocksFor(v, size) :: MapOf(v, d, addr, lbn) != 0
    requires p < size && !(off <= p < off + |data|)
    ensures FileByte(v, d', addr', p) == FileByte(v, d, addr, p)
  {
    hide MapOf, FileByte;
    BlockBelow(p, size, v.Bsize());
  }

  lemma BlockBelow(p: nat, size: nat, n: nat)
    requires p < size && n > 0
    ensures Quotient(p, n) < Quotient(size + n - 1, n)
  {
    DivAtLeast(size + n - 1, n, p / n + 1) by {
      assert p / n * n <= p;
      assert (p / n + 1) * n == p / n * n + n;
    }
  }
}

/** The on-disk structures the block layer reads and writes, as views of raw
    blocks: indirect blocks and free-list chain blocks. */
module Layout {
  import opened Arith
  import opened Endian

  const NICFREE: nat := 50

  /** The facts every layer shares about one volume: byte order, pointers per
      indirect block, direct slots per inode, first data block, block count. */
  datatype Volume = Volume(order: Order, nindir: nat, laddr: nat, isize: nat, fsize: nat)
  {
    ghost predicate Sane() {
      // blocks of 512 to 2048 bytes: 64-byte dinodes, 4-byte pointers
      && 128 <= nindir <= 512
      // at most 13 three-byte addresses per dinode, the last three indirect
      && 1 <= laddr <= 10
      // block numbers fit three bytes
      && 2 <= isize < fsize <= 0x100_0000
    }
    function Bsize(): nat { 4 * nindir }
    predicate InData(b: nat) { isize <= b < fsize }
    /** 64-byte dinodes per block. */
    function Inopb(): nat { nindir / 16 }
  }

  type Vol = v: Volume | v.Sane() witness Volume(Pdp11, 256, 4, 3, 8)

  /** The image: one array of blocks, of which a volume uses the first fsize. */
  type Disk = seq<Block>

  ghost predicate Sized(v: Vol, d: Disk) {
    v.fsize <= |d| && forall b | 0 <= b < |d| :: |d[b]| == v.Bsize()
  }

  /** Entry i of block p read as an indirect block; 0 when p cannot be read. */
  function Ptr(v: Vol, d: Disk, p: nat, i: nat): (q: nat)
    ensures q < 0x1_0000_0000
  {
    if p < |d| && 4 * i + 4 <= |d[p]| then Get32(v.order, d[p], 4 * i) else 0
  }

  /** A superblock free cache, or the same record in a chain block. */
  datatype Cache = Cache(nfree: nat, free: seq<u32>)

  /** The clamp applied to every count that comes off the disk (a signed short). */
  function ClampNfree(w: nat): (n: nat)
    requires w < 0x1_0000
    ensures n <= NICFREE
    ensures w <= NICFREE ==> n == w
  {
    if w >= 0x8000 then 0 else if w > NICFREE then NICFREE else w
  }

  /** Block b read as struct fblk. */
  function ChainBlock(v: Vol, b: Block): (c: Cache)
    requires |b| == v.Bsize()
    ensures |c.free| == NICFREE
  {
    Cache(ClampNfree(Get16(v.order, b, 0)),
          seq(NICFREE, i requires 0 <= i < NICFREE => Get32(v.order, b, 2 + 4 * i)))
  }

  /** A fresh buffer (memset 0). */
  method ZeroBlock(n: nat) returns (b: Block)
    ensures |b| == n && forall i | 0 <= i < n :: b[i] == 0
  {
    b := seq(n, _ => 0);
  }

  /** Store NICFREE addresses from byte offset k on. */
  method PutFreeArray(o: Order, b: Block, k: nat, free: seq<u32>) returns (r: Block)
    requires |free| == NICFREE && k + 4 * NICFREE <= |b|
    ensures SameBut(b, r, k, 4 * NICFREE)
    ensures forall i | 0 <= i < NICFREE :: Get32(o, r, k + 4 * i) == free[i]
  {
    r := b;
    for i := 0 to NICFREE
      invariant SameBut(b, r, k, 4 * NICFREE)
      invariant forall j | 0 <= j < i :: Get32(o, r, k + 4 * j) == free[j]
    {
      ghost var was := r;
      r := Put32(o, r, k + 4 * i, free[i]);
      forall j | 0 <= j < i ensures Get32(o, r, k + 4 * j) == free[j] {
        Get32Frame(o, was, r, k + 4 * i, 4, k + 4 * j);
      }
    }
  }

  /** The bytes of a chain block. */
  method EncodeChain(v: Vol, c: Cache) returns (b: Block)
    requires |c.free| == NICFREE && c.nfree <= NICFREE
    ensures |b| == v.Bsize() && ChainBlock(v, b) == c
  {
    b := ZeroBlock(v.Bsize());
    b := Put16(v.order, b, 0, c.nfree);
    ghost var was := b;
    b := PutFreeArray(v.order, b, 2, c.free);
    Get16Frame(v.order, was, b, 2, 4 * NICFREE, 0);
  }

  // ----- superblock and dinode fields

  const SUPERBLK: nat := 1
  const ILISTSTART: nat := 2
  const SB_ISIZE: nat := 0
  const SB_FSIZE: nat := 2
  const SB_NFREE: nat := 6
  const SB_FREE: nat := 8

  const DINODESZ: nat := 64
  const DI_MODE: nat := 0
  const DI_NLINK: nat := 2
  const DI_SIZE: nat := 8
  const DI_ADDR: nat := 12

  const IFDIR: nat := 0x4000
  const IFCHR: nat := 0x2000
  const IFBLK: nat := 0x6000
  const IFREG: nat := 0x8000

  /** The free cache held by superblock sb. */
  function SbCache(v: Vol, sb: Block): (c: Cache)
    requires |sb| == v.Bsize()
    ensures |c.free| == NICFREE && c.nfree <= NICFREE
  {
    Cache(ClampNfree(Get16(v.order, sb, SB_NFREE)),
          seq(NICFREE, i requires 0 <= i < NICFREE => Get32(v.order, sb, SB_FREE + 4 * i)))
  }

  /** Block and byte offset of a dinode: 1-based numbers, the i-list at block 2. */
  function InodeBlock(v: Vol, ino: nat): nat
    requires 1 <= ino
  {
    Div(ino + 2 * v.Inopb() - 1, v.Inopb())
  }

  function InodeOffset(v: Vol, ino: nat): (k: nat)
    requires 1 <= ino
    ensures k + DINODESZ <= v.Bsize()
  {
    Mod(ino + 2 * v.Inopb() - 1, v.Inopb()) * DINODESZ
  }

  /** A dinode as the checker decodes it. */
  datatype Dinode = Dinode(mode: nat, nlink: nat, size: nat, addr: seq<nat>)
  {
    predicate HasMap() { mode / 0x1000 * 0x1000 == IFREG || mode / 0x1000 * 0x1000 == IFDIR }
  }

  function InodeAt(v: Vol, b: Block, k: nat): Dinode
    requires |b| == v.Bsize() && k + DINODESZ <= |b|
  {
    Dinode(Get16(v.order, b, k + DI_MODE),
           Get16(v.order, b, k + DI_NLINK),
           Get32(v.order, b, k + DI_SIZE),
           seq(v.laddr + 3, i requires 0 <= i < v.laddr + 3 =>
             Get24(v.order, b, k + DI_ADDR + 3 * i)))
  }

  const SB_TFREE: nat := 418
  const SB_TINODE: nat := 422
  const SB_SVTFREE: nat := 426
  const SB_SVTINODE: nat := 430
  const SB_MAGIC: nat := 504
  const FS_MAGIC: nat := 0xfd18_7e20

  /** The System V dialect moves the totals. */
  function IsSysv(v: Vol, sb: Block): bool
    requires |sb| == v.Bsize()
  {
    Get32(v.order, sb, SB_MAGIC) == FS_MAGIC
  }

  /** A 32-bit word as a signed C integer. */
  function Signed32(w: nat): int
    requires w < 0x1_0000_0000
  {
    if w < 0x8000_0000 then w else w - 0x1_0000_0000
  }

  function SbTfree(v: Vol, sb: Block): (n: nat)
    requires |sb| == v.Bsize()
    ensures n < 0x1_0000_0000
  {
    Get32(v.order, sb, if IsSysv(v, sb) then SB_SVTFREE else SB_TFREE)
  }

  function SbTinode(v: Vol, sb: Block): (n: nat)
    requires |sb| == v.Bsize()
  {
    Get16(v.order, sb, if IsSysv(v, sb) then SB_SVTINODE else SB_TINODE)
  }

  /** The sizes in superblock sb make a volume. */
  predicate Plausible(v: Vol, sb: Block)
    requires |sb| == v.Bsize()
  {
    ILISTSTART <= Get16(v.order, sb, SB_ISIZE) < Get32(v.order, sb, SB_FSIZE)
  }

  /** Store a free cache and the totals in an existing superblock. */
  method EncodeFree(v: Vol, sb: Block, c: Cache, tfree: nat, tinode: nat) returns (r: Block)
    requires |sb| == v.Bsize() && |c.free| == NICFREE && c.nfree <= NICFREE
    requires tfree < 0x1_0000_0000
    ensures |r| == v.Bsize() && SbCache(v, r) == c
    ensures SbTfree(v, r) == tfree && SbTinode(v, r) == tinode % 0x1_0000
    ensures IsSysv(v, r) == IsSysv(v, sb)
    ensures Get16(v.order, r, SB_ISIZE) == Get16(v.order, sb, SB_ISIZE)
    ensures Get32(v.order, r, SB_FSIZE) == Get32(v.order, sb, SB_FSIZE)
  {
    var r1 := Put16(v.order, sb, SB_NFREE, c.nfree);
    var r2 := PutFreeArray(v.order, r1, SB_FREE, c.free);
    HeadWrite(v, sb, r1, r2, c);
    r := PutTotals(v, r2, tfree, tinode);
  }

  method PutTotals(v: Vol, a: Block, tfree: nat, tinode: nat) returns (r: Block)
    requires |a| == v.Bsize() && tfree < 0x1_0000_0000
    ensures |r| == v.Bsize() && SbCache(v, r) == SbCache(v, a)
    ensures SbTfree(v, r) == tfree && SbTinode(v, r) == tinode % 0x1_0000
    ensures IsSysv(v, r) == IsSysv(v, a)
    ensures Get16(v.order, r, SB_ISIZE) == Get16(v.order, a, SB_ISIZE)
    ensures Get32(v.order, r, SB_FSIZE) == Get32(v.order, a, SB_FSIZE)
  {
    var at := if IsSysv(v, a) then SB_SVTFREE else SB_TFREE;
    var b := Put32(v.order, a, at, tfree);
    r := Put16(v.order, b, at + 4, tinode);
    Get32Frame(v.order, b, r, at + 4, 2, at);
    TailWrite(v, a, r);
  }

  /** Writing the totals leaves everything before them, and the magic, alone. */
  lemma TailWrite(v: Vol, a: Block, r: Block)
    requires |a| == |r| == v.Bsize()
    requires forall i | 0 <= i < |a| && !(SB_TFREE <= i < SB_SVTINODE + 2) :: r[i] == a[i]
    ensures SbCache(v, r) == SbCache(v, a) && IsSysv(v, r) == IsSysv(v, a)
    ensures Get16(v.order, r, SB_ISIZE) == Get16(v.order, a, SB_ISIZE)
    ensures Get32(v.order, r, SB_FSIZE) == Get32(v.order, a, SB_FSIZE)
  {
    var n := SB_SVTINODE + 2 - SB_TFREE;
    Get16Frame(v.order, a, r, SB_TFREE, n, SB_NFREE);
    Get16Frame(v.order, a, r, SB_TFREE, n, SB_ISIZE);
    Get32Frame(v.order, a, r, SB_TFREE, n, SB_FSIZE);
    Get32Frame(v.order, a, r, SB_TFREE, n, SB_MAGIC);
    forall i | 0 <= i < NICFREE ensures SbCache(v, r).free[i] == SbCache(v, a).free[i] {
      Get32Frame(v.order, a, r, SB_TFREE, n, SB_FREE + 4 * i);
    }
  }

  /** Writing count and array sets the cache and leaves the sizes and magic alone. */
  lemma HeadWrite(v: Vol, sb: Block, r1: Block, r2: Block, c: Cache)
    requires |sb| == v.Bsize() && |c.free| == NICFREE && c.nfree <= NICFREE
    requires SameBut(sb, r1, SB_NFREE, 2) && Get16(v.order, r1, SB_NFREE) == c.nfree
    requires SameBut(r1, r2, SB_FREE, 4 * NICFREE)
    requires forall i | 0 <= i < NICFREE :: Get32(v.order, r2, SB_FREE + 4 * i) == c.free[i]
    ensures SbCache(v, r2) == c && IsSysv(v, r2) == IsSysv(v, sb)
    ensures Get16(v.order, r2, SB_ISIZE) == Get16(v.order, sb, SB_ISIZE)
    ensures Get32(v.order, r2, SB_FSIZE) == Get32(v.order, sb, SB_FSIZE)
  {
    var n := 4 * NICFREE;
    Get16Frame(v.order, r1, r2, SB_FREE, n, SB_NFREE);
    Get16Frame(v.order, r1, r2, SB_FREE, n, SB_ISIZE);
    Get32Frame(v.order, r1, r2, SB_FREE, n, SB_FSIZE);
    Get32Frame(v.order, r1, r2, SB_FREE, n, SB_MAGIC);
    Get16Frame(v.order, sb, r1, SB_NFREE, 2, SB_ISIZE);
    Get32Frame(v.order, sb, r1, SB_NFREE, 2, SB_FSIZE);
    Get32Frame(v.order, sb, r1, SB_NFREE, 2, SB_MAGIC);
    assert SbCache(v, r2).free == c.free;
  }
}

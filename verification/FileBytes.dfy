/** The bytes of a file: what a position reads as, and what storing a chunk in one
    logical block does to every position. */
module FileBytes {
  import opened Arith
  import opened Endian
  import opened Layout
  import opened FreeList
  import opened Allocator
  import opened BlockMap
  import opened BlockTree
  import opened InodeMap
  import opened MapOps
  import opened RwOps
  import opened Multisets

  /** Logical block of a byte position, and the place inside that block. */
  function BlockOf(v: Vol, pos: nat): nat { Quotient(pos, v.Bsize()) }

  function ByteIn(v: Vol, pos: nat): (k: nat)
    ensures k < v.Bsize()
  {
    pos % v.Bsize()
  }

  /** Blocks that hold the first n bytes. */
  function BlocksFor(v: Vol, n: nat): nat { Quotient(n + v.Bsize() - 1, v.Bsize()) }

  function DiskByte(d: Disk, b: nat, k: nat): byte {
    if b < |d| && k < |d[b]| then d[b][k] else 0
  }

  /** What a reader sees at pos: 0 in a hole. */
  function FileByte(v: Vol, d: Disk, addr: seq<nat>, pos: nat): byte
    requires IsMap(v, addr)
  {
    var b := MapOf(v, d, addr, BlockOf(v, pos));
    if b == 0 then 0 else DiskByte(d, b, ByteIn(v, pos))
  }

  lemma SamePosition(v: Vol, p: nat, q: nat)
    requires BlockOf(v, p) == BlockOf(v, q)
    ensures p - q == ByteIn(v, p) - ByteIn(v, q)
  {
    var n := v.Bsize();
    assert p == p / n * n + p % n && q == q / n * n + q % n;
  }

  /** Byte k of logical block lbn is byte lbn * Bsize + k of the file. */
  lemma Position(v: Vol, lbn: nat, k: nat)
    requires k < v.Bsize()
    ensures BlockOf(v, lbn * v.Bsize() + k) == lbn && ByteIn(v, lbn * v.Bsize() + k) == k
  {
    DivModUnique(lbn * v.Bsize() + k, v.Bsize(), lbn, k);
  }

  /** The positions of a chunk that fits in one block. */
  lemma ChunkPositions(v: Vol, at: nat, len: nat, p: nat)
    requires 0 < len && ByteIn(v, at) + len <= v.Bsize()
    ensures at <= p < at + len <==>
              BlockOf(v, p) == BlockOf(v, at) && ByteIn(v, at) <= ByteIn(v, p) < ByteIn(v, at) + len
  {
    if BlockOf(v, p) == BlockOf(v, at) {
      SamePosition(v, p, at);
    } else if at <= p < at + len {
      var n, b := v.Bsize(), at / v.Bsize();
      DivModUnique(p, n, b, at % n + (p - at));
    }
  }

  /** A chunk that ends within its block ends the blocks in use there. */
  lemma ChunkBlocks(v: Vol, at: nat, len: nat)
    requires 0 < len && ByteIn(v, at) + len <= v.Bsize()
    ensures BlocksFor(v, at + len) == BlockOf(v, at) + 1
    ensures BlocksFor(v, at) == BlockOf(v, at) + if ByteIn(v, at) == 0 then 0 else 1
  {
    var n, b, k := v.Bsize(), at / v.Bsize(), at % v.Bsize();
    assert (b + 1) * n == b * n + n;
    DivModUnique(at + len + n - 1, n, b + 1, k + len - 1);
    if k == 0 {
      DivModUnique(at + n - 1, n, b, n - 1);
    } else {
      DivModUnique(at + n - 1, n, b + 1, k - 1);
    }
  }

  lemma BlocksMono(v: Vol, m: nat, n: nat)
    requires m <= n
    ensures BlocksFor(v, m) <= BlocksFor(v, n)
  {
    var k, q := v.Bsize(), BlocksFor(v, m);
    assert q * k <= m + k - 1;
    DivAtLeast(n + k - 1, k, q);
  }

  /** A block counts exactly when its first byte is one of the n. */
  lemma BlocksExact(v: Vol, n: nat, lbn: nat)
    ensures lbn < BlocksFor(v, n) <==> lbn * v.Bsize() < n
  {
    var k := v.Bsize();
    if lbn * k < n {
      assert (lbn + 1) * k == lbn * k + k;
      DivAtLeast(n + k - 1, k, lbn + 1);
    } else {
      assert (lbn + 1) * k == lbn * k + k;
      DivBound(n + k - 1, k, lbn + 1);
    }
  }

  /** A mapped data block is counted apart from the inode's indirect blocks. */
  lemma DataPart(v: Vol, d: Disk, addr: seq<nat>, lbn: nat)
    requires IsMap(v, addr) && AllData(v, InodeRefs(v, d, addr)) && MapOf(v, d, addr, lbn) != 0
    ensures InodeInds(v, d, addr) + multiset{MapOf(v, d, addr, lbn)} <= InodeRefs(v, d, addr)
  {
    RouteRange(v, lbn);
    RoutePath(v, lbn);
    var r := LbnRoute(v, lbn);
    var k0, k1 := SlotRefs(v, d, addr, 0), SlotRefs(v, d, addr, 1);
    forall i | 0 <= i < |addr| ensures k1[i] <= k0[i] {
      RefsFromMono(v, d, addr[i], SlotLevel(v, i), 0, 1);
    }
    SlotData(v, d, addr, r.slot);
    LeafPart(v, d, addr[r.slot], Digits(v.nindir, r.idx, r.level));
    SumMonoAdd(k1, k0, r.slot, multiset{MapOf(v, d, addr, lbn)});
  }

  lemma SlotData(v: Vol, d: Disk, addr: seq<nat>, slot: nat)
    requires slot < |addr| && AllData(v, InodeRefs(v, d, addr))
    ensures AllData(v, Inds(v, d, addr[slot], SlotLevel(v, slot)))
  {
    SlotPart(v, d, addr, slot, 0);
    RefsFromMono(v, d, addr[slot], SlotLevel(v, slot), 0, 1);
  }

  /** Two mapped logical blocks are counted twice. */
  lemma DataPair(v: Vol, d: Disk, addr: seq<nat>, i: nat, j: nat)
    requires IsMap(v, addr) && AllData(v, InodeRefs(v, d, addr)) && i != j
    requires MapOf(v, d, addr, i) != 0 && MapOf(v, d, addr, j) != 0
    ensures multiset{MapOf(v, d, addr, i)} + multiset{MapOf(v, d, addr, j)} <= InodeRefs(v, d, addr)
  {
    RouteRange(v, i);
    RouteRange(v, j);
    RoutesApart(v, i, j);
    RoutePath(v, i);
    RoutePath(v, j);
    var r, q := LbnRoute(v, i), LbnRoute(v, j);
    SlotData(v, d, addr, r.slot);
    SlotData(v, d, addr, q.slot);
    if r.slot == q.slot {
      LeafPair(v, d, addr[r.slot], Digits(v.nindir, r.idx, r.level), Digits(v.nindir, q.idx, q.level));
      SlotPart(v, d, addr, r.slot, 0);
    } else {
      LeafPart(v, d, addr[r.slot], Digits(v.nindir, r.idx, r.level));
      LeafPart(v, d, addr[q.slot], Digits(v.nindir, q.idx, q.level));
      SumTwoParts(SlotRefs(v, d, addr, 0), r.slot, q.slot,
                  multiset{MapOf(v, d, addr, i)}, multiset{MapOf(v, d, addr, j)});
    }
  }

  lemma DataBlock(v: Vol, d: Disk, addr: seq<nat>, s: seq<nat>, lbn: nat)
    requires IsMap(v, addr) && Apart(v, InodeRefs(v, d, addr), s) && MapOf(v, d, addr, lbn) != 0
    ensures var b := MapOf(v, d, addr, lbn);
            v.InData(b) && b !in s && b !in InodeInds(v, d, addr) && b in InodeRefs(v, d, addr)
  {
    var b := MapOf(v, d, addr, lbn);
    DataPart(v, d, addr, lbn);
    assert (InodeInds(v, d, addr) + multiset{b})[b] <= InodeRefs(v, d, addr)[b];
    assert (InodeRefs(v, d, addr) + multiset(s))[b] <= 1;
    ApartFromStack(v, InodeRefs(v, d, addr), s, b);
  }

  lemma DataBlocksDiffer(v: Vol, d: Disk, addr: seq<nat>, s: seq<nat>, i: nat, j: nat)
    requires IsMap(v, addr) && Apart(v, InodeRefs(v, d, addr), s) && i != j
    requires MapOf(v, d, addr, i) != 0
    ensures MapOf(v, d, addr, i) != MapOf(v, d, addr, j)
  {
    if MapOf(v, d, addr, j) != 0 {
      DataPair(v, d, addr, i, j);
      CountedTwice(InodeRefs(v, d, addr), multiset(s), MapOf(v, d, addr, i), MapOf(v, d, addr, j));
    }
  }

  lemma CountedTwice(m: multiset<nat>, k: multiset<nat>, b: nat, c: nat)
    requires multiset{b} + multiset{c} <= m && Distinct(m + k)
    ensures b != c
  {
    assert (multiset{b} + multiset{c})[b] <= m[b] <= (m + k)[b] <= 1;
  }

  /** Whatever leaves the indirect blocks alone leaves the map alone. */
  lemma MapFrame(v: Vol, d: Disk, d': Disk, addr: seq<nat>)
    requires IsMap(v, addr) && |d| == |d'| && AllData(v, InodeRefs(v, d, addr))
    requires forall b | b in InodeInds(v, d, addr) && b < |d| :: d'[b] == d[b]
    ensures SlotRefs(v, d', addr, 0) == SlotRefs(v, d, addr, 0)
    ensures InodeRefs(v, d', addr) == InodeRefs(v, d, addr)
    ensures forall lbn: nat :: MapOf(v, d', addr, lbn) == MapOf(v, d, addr, lbn)
    ensures forall lbn: nat :: MissingAt(v, d', addr, lbn) == MissingAt(v, d, addr, lbn)
  {
    var k, k' := SlotRefs(v, d, addr, 0), SlotRefs(v, d', addr, 0);
    forall i | 0 <= i < |addr| ensures k'[i] == k[i] {
      SlotPart(v, d, addr, i, 1);
      RefsFrame(v, d, d', addr[i], SlotLevel(v, i), 0);
    }
    assert k' == k;
    forall lbn: nat
      ensures MapOf(v, d', addr, lbn) == MapOf(v, d, addr, lbn)
      ensures MissingAt(v, d', addr, lbn) == MissingAt(v, d, addr, lbn)
    {
      LookupFrame(v, d, d', addr, lbn);
    }
  }

  lemma LookupFrame(v: Vol, d: Disk, d': Disk, addr: seq<nat>, lbn: nat)
    requires IsMap(v, addr) && |d| == |d'| && AllData(v, InodeRefs(v, d, addr))
    requires forall b | b in InodeInds(v, d, addr) && b < |d| :: d'[b] == d[b]
    ensures MapOf(v, d', addr, lbn) == MapOf(v, d, addr, lbn)
    ensures MissingAt(v, d', addr, lbn) == MissingAt(v, d, addr, lbn)
  {
    RouteRange(v, lbn);
    var r := LbnRoute(v, lbn);
    if r.Route? {
      RoutePath(v, lbn);
      SlotData(v, d, addr, r.slot);
      SlotPart(v, d, addr, r.slot, 1);
      DescendFrame(v, d, d', addr[r.slot], Digits(v.nindir, r.idx, r.level));
    }
  }

  /** Some position of the n bytes at `at` lies in logical block lbn. */
  ghost predicate Touched(v: Vol, at: nat, n: nat, lbn: nat) {
    exists p: nat :: at <= p < at + n && BlockOf(v, p) == lbn
  }

  /** Storing data at byte position `at`: the data reads back; every other position
      whose block was mapped, or is not touched at all, reads as before. */
  ghost predicate Wrote(v: Vol, d: Disk, addr: seq<nat>, d': Disk, addr': seq<nat>,
                        at: nat, data: seq<byte>)
    requires IsMap(v, addr) && IsMap(v, addr')
  {
    var stored := forall p: nat | at <= p < at + |data| ::
      FileByte(v, d', addr', p) == data[p - at] && MapOf(v, d', addr', BlockOf(v, p)) != 0;
    var kept := forall p: nat | !(at <= p < at + |data|) ::
      MapOf(v, d, addr, BlockOf(v, p)) != 0 || !Touched(v, at, |data|, BlockOf(v, p)) ==>
        FileByte(v, d', addr', p) == FileByte(v, d, addr, p);
    var mapped := forall lbn: nat | MapOf(v, d, addr, lbn) != 0 ::
      MapOf(v, d', addr', lbn) == MapOf(v, d, addr, lbn);
    stored && kept && mapped
  }

  lemma WroteNothing(v: Vol, d: Disk, addr: seq<nat>, at: nat)
    requires IsMap(v, addr)
    ensures Wrote(v, d, addr, d, addr, at, [])
  {
  }

  /** Two stores in a row make one: the second finds the block they share mapped. */
  lemma WroteMore(v: Vol, d: Disk, addr: seq<nat>, d1: Disk, addr1: seq<nat>, d2: Disk,
                  addr2: seq<nat>, at: nat, x: seq<byte>, y: seq<byte>)
    requires IsMap(v, addr) && IsMap(v, addr1) && IsMap(v, addr2)
    requires Wrote(v, d, addr, d1, addr1, at, x) && Wrote(v, d1, addr1, d2, addr2, at + |x|, y)
    ensures Wrote(v, d, addr, d2, addr2, at, x + y)
  {
    forall p: nat | at <= p < at + |x + y|
      ensures FileByte(v, d2, addr2, p) == (x + y)[p - at]
      ensures MapOf(v, d2, addr2, BlockOf(v, p)) != 0
    {
      if p < at + |x| {
        assert MapOf(v, d1, addr1, BlockOf(v, p)) != 0;
      }
    }
    forall p: nat | !(at <= p < at + |x + y|)
      && (MapOf(v, d, addr, BlockOf(v, p)) != 0 || !Touched(v, at, |x + y|, BlockOf(v, p)))
      ensures FileByte(v, d2, addr2, p) == FileByte(v, d, addr, p)
    {
      var b := BlockOf(v, p);
      if MapOf(v, d, addr, b) != 0 {
        assert MapOf(v, d1, addr1, b) != 0;
      } else {
        TouchedParts(v, at, |x|, |y|, b);
      }
    }
  }

  lemma TouchedParts(v: Vol, at: nat, n: nat, k: nat, lbn: nat)
    requires !Touched(v, at, n + k, lbn)
    ensures !Touched(v, at, n, lbn) && !Touched(v, at + n, k, lbn)
  {
  }

  /** data laid over block b from byte k on. */
  ghost predicate Overlaid(b: Block, b': Block, k: nat, data: seq<byte>) {
    |b'| == |b| && k + |data| <= |b| && SameBut(b, b', k, |data|)
    && forall i | 0 <= i < |data| :: b'[k + i] == data[i]
  }

  method Overlay(b: Block, k: nat, data: seq<byte>) returns (b': Block)
    requires k + |data| <= |b|
    ensures Overlaid(b, b', k, data)
  {
    b' := b[..k] + data + b[k + |data|..];
  }

  /** A store of one chunk, seen from one position. */
  lemma ChunkByte(v: Vol, d: Disk, addr: seq<nat>, d1: Disk, d2: Disk, addr1: seq<nat>,
                  s1: seq<nat>, at: nat, data: seq<byte>, phys: nat, p: nat)
    requires Sized(v, d) && IsMap(v, addr) && IsMap(v, addr1)
    requires data != [] && ByteIn(v, at) + |data| <= v.Bsize()
    requires Apart(v, InodeRefs(v, d1, addr1), s1)
    requires ChangedIn(d, d1, InodeInds(v, d1, addr1)) && ChangedIn(d1, d2, multiset{phys})
    requires phys == MapOf(v, d1, addr1, BlockOf(v, at)) != 0 && phys < |d|
    requires Overlaid(d[phys], d2[phys], ByteIn(v, at), data)
    requires var l := BlockOf(v, p); MapOf(v, d2, addr1, l) == MapOf(v, d1, addr1, l)
    requires forall l: nat | l != BlockOf(v, at) :: MapOf(v, d1, addr1, l) == MapOf(v, d, addr, l)
    ensures at <= p < at + |data| ==> FileByte(v, d2, addr1, p) == data[p - at]
    ensures !(at <= p < at + |data|) && BlockOf(v, p) == BlockOf(v, at) ==>
              FileByte(v, d2, addr1, p) == DiskByte(d, phys, ByteIn(v, p))
    ensures BlockOf(v, p) != BlockOf(v, at) ==>
              FileByte(v, d2, addr1, p) == FileByte(v, d, addr, p)
  {
    var l, q := BlockOf(v, p), MapOf(v, d1, addr1, BlockOf(v, p));
    ChunkPositions(v, at, |data|, p);
    if l == BlockOf(v, at) {
      SamePosition(v, p, at);
    } else if q != 0 {
      DataBlocksDiffer(v, d1, addr1, s1, l, BlockOf(v, at));
      DataBlock(v, d1, addr1, s1, l);
      assert d2[q] == d1[q] == d[q];
    }
  }

  /** The same for all positions. */
  lemma ChunkWrote(v: Vol, d: Disk, s: seq<nat>, addr: seq<nat>, d1: Disk, d2: Disk,
                   s1: seq<nat>, addr1: seq<nat>, at: nat, data: seq<byte>, phys: nat)
    requires Sized(v, d) && IsMap(v, addr)
    requires data != [] && ByteIn(v, at) + |data| <= v.Bsize()
    requires InodeMapped(v, d, s, addr, d1, s1, addr1, BlockOf(v, at), true, phys) && phys != 0
    requires Apart(v, InodeRefs(v, d1, addr1), s1) && ChangedIn(d1, d2, multiset{phys})
    requires phys < |d| && Overlaid(d[phys], d2[phys], ByteIn(v, at), data)
    requires forall l: nat :: MapOf(v, d2, addr1, l) == MapOf(v, d1, addr1, l)
    ensures Wrote(v, d, addr, d2, addr1, at, data)
    ensures forall p: nat | !(at <= p < at + |data|) && BlockOf(v, p) == BlockOf(v, at) ::
              FileByte(v, d2, addr1, p) == DiskByte(d, phys, ByteIn(v, p))
  {
    forall p: nat
      ensures at <= p < at + |data| ==>
                FileByte(v, d2, addr1, p) == data[p - at] && BlockOf(v, p) == BlockOf(v, at)
      ensures !(at <= p < at + |data|) && BlockOf(v, p) == BlockOf(v, at) ==>
                FileByte(v, d2, addr1, p) == DiskByte(d, phys, ByteIn(v, p))
      ensures BlockOf(v, p) != BlockOf(v, at) ==>
                FileByte(v, d2, addr1, p) == FileByte(v, d, addr, p)
    {
      ChunkByte(v, d, addr, d1, d2, addr1, s1, at, data, phys, p);
      ChunkPositions(v, at, |data|, p);
    }
    assert at <= at < at + |data|;
    assert Touched(v, at, |data|, BlockOf(v, at));
  }

  /** A handle whose totals are right, and an inode whose blocks are its own. */
  ghost predicate Engine(fs: S5FS, addr: seq<nat>)
    reads fs, fs.s_free
  {
    var counted := fs.Valid() && fs.s_tfree == |fs.stack|;
    counted && IsMap(fs.v, addr) && Apart(fs.v, InodeRefs(fs.v, fs.dev, addr), fs.stack)
  }

  /** Blocks moved between the inode and the free list, and nothing else was written. */
  ghost predicate Moved(v: Vol, d: Disk, s: seq<nat>, addr: seq<nat>,
                        d': Disk, s': seq<nat>, addr': seq<nat>) {
    var all := InodeRefs(v, d, addr) + multiset(s);
    var same := InodeRefs(v, d', addr') + multiset(s') == all;
    same && ChangedIn(d, d', all)
  }

  lemma MovedNothing(v: Vol, d: Disk, s: seq<nat>, addr: seq<nat>)
    ensures Moved(v, d, s, addr, d, s, addr)
  {
  }

  lemma MovedMore(v: Vol, d: Disk, s: seq<nat>, addr: seq<nat>, d1: Disk, s1: seq<nat>,
                  addr1: seq<nat>, d2: Disk, s2: seq<nat>, addr2: seq<nat>)
    requires Moved(v, d, s, addr, d1, s1, addr1) && Moved(v, d1, s1, addr1, d2, s2, addr2)
    ensures Moved(v, d, s, addr, d2, s2, addr2)
  {
  }

  /** One turn of the copy loop with enough free blocks: it is refused past the map's
      reach, takes what the block was missing, and stores the chunk. */
  ghost predicate ChunkPut(v: Vol, d: Disk, s: seq<nat>, addr: seq<nat>, d': Disk, s': seq<nat>,
                           addr': seq<nat>, at: nat, data: seq<byte>, ok: bool)
    requires IsMap(v, addr) && IsMap(v, addr')
  {
    && (ok <==> BlockOf(v, at) < Capacity(v))
    && Moved(v, d, s, addr, d', s', addr') && Extends(v, d, addr, d', addr')
    && if ok then
         Wrote(v, d, addr, d', addr', at, data) && Taken(s, s', MissingAt(v, d, addr, BlockOf(v, at)))
       else
         d' == d && s' == s && addr' == addr
  }

  /** One turn of the copy loop: map the block, lay the chunk over it.  When the free
      list runs out the handle has failed, which shows only if the data block was all
      that could not be had. */
  method PutChunk(fs: S5FS, ds: array<nat>, at: nat, data: seq<byte>, stray: nat)
    returns (ok: bool, dirty: bool)
    requires Engine(fs, ds[..]) && ds as object != fs.s_free as object
    requires data != [] && ByteIn(fs.v, at) + |data| <= fs.v.Bsize()
    modifies fs, fs.s_free, ds
    ensures fs.error <==> old(MissingAt(fs.v, fs.dev, ds[..], BlockOf(fs.v, at)) > |fs.stack|)
    ensures fs.error ==> StarvedInode(fs, old(fs.dev), old(fs.stack), old(ds[..]))
    ensures fs.error ==>
              (ok <==> old(StarvedAnswer(MissingAt(fs.v, fs.dev, ds[..], BlockOf(fs.v, at)), |fs.stack|, stray)) != 0)
    ensures !fs.error ==> Engine(fs, ds[..]) && (dirty <==> ds[..] != old(ds[..]))
    ensures !fs.error ==>
              ChunkPut(fs.v, old(fs.dev), old(fs.stack), old(ds[..]), fs.dev, fs.stack, ds[..], at, data, ok)
    // the rest of the block is what the disk block held, fresh or not
    ensures !fs.error && ok ==> forall p: nat |
                     !(at <= p < at + |data|) && BlockOf(fs.v, p) == BlockOf(fs.v, at) ::
                     FileByte(fs.v, fs.dev, ds[..], p)
                     == DiskByte(old(fs.dev), MapOf(fs.v, fs.dev, ds[..], BlockOf(fs.v, at)),
                                 ByteIn(fs.v, p))
  {
    hide MapOf, MissingAt, InodeRefs, InodeInds, InodeMapped, Wrote, Moved, StarvedInode, MappedOrStarved;
    hide Naddr, Capacity, Apart, Chain, NoDup, FileByte, Starved, ChunkPut, BlockOf, Extends, SlotRefs;
    ghost var v, d, s, addr := fs.v, fs.dev, fs.stack, ds[..];
    var lbn, boff := BlockOf(fs.v, at), ByteIn(fs.v, at);
    var phys;
    phys, dirty := RwBmap(fs, ds, lbn, true, stray);
    ServedOrNot(fs, d, s, old(fs.s_tfree), addr, ds[..], lbn, stray, phys, dirty);
    if fs.error {
      // the write below is refused; the chunk counts when a number was found
      return phys != 0, dirty;
    }
    ghost var d1, s1, addr1 := fs.dev, fs.stack, ds[..];
    MappedMoved(v, d, s, addr, d1, s1, addr1, lbn, phys);
    ok := phys != 0;
    if ok {
      FreshUntouched(v, d, s, addr, d1, s1, addr1, lbn, phys);
      var blk := fs.RdBlk(phys);
      var blk' := Overlay(blk, boff, data);
      fs.WtBlk(phys, blk');
      MapFrame(v, d1, fs.dev, addr1);
      ChunkWrote(v, d, s, addr, d1, fs.dev, s1, addr1, at, data, phys);
      ThenWritten(v, d, s, addr, d1, s1, addr1, fs.dev, phys);
    }
    ChunkDone(v, d, s, addr, fs.dev, fs.stack, ds[..], at, data, ok);
  }

  lemma ChunkDone(v: Vol, d: Disk, s: seq<nat>, addr: seq<nat>, d': Disk, s': seq<nat>,
                  addr': seq<nat>, at: nat, data: seq<byte>, ok: bool)
    requires IsMap(v, addr) && IsMap(v, addr') && (ok <==> BlockOf(v, at) < Capacity(v))
    requires Moved(v, d, s, addr, d', s', addr') && Extends(v, d, addr, d', addr')
    requires ok ==> Wrote(v, d, addr, d', addr', at, data)
    requires ok ==> Taken(s, s', MissingAt(v, d, addr, BlockOf(v, at)))
    requires !ok ==> d' == d && s' == s && addr' == addr
    ensures ChunkPut(v, d, s, addr, d', s', addr', at, data, ok)
  {
    hide Wrote, Moved, MissingAt, Capacity;
  }

  /** The block just mapped is the inode's own and still holds what it held. */
  lemma FreshUntouched(v: Vol, d: Disk, s: seq<nat>, addr: seq<nat>, d1: Disk, s1: seq<nat>,
                       addr1: seq<nat>, lbn: nat, phys: nat)
    requires Sized(v, d) && IsMap(v, addr) && InodeMapped(v, d, s, addr, d1, s1, addr1, lbn, true, phys)
    requires phys != 0 && Apart(v, InodeRefs(v, d1, addr1), s1)
    ensures v.InData(phys) && phys !in s1 && phys !in InodeInds(v, d1, addr1) && phys in InodeRefs(v, d1, addr1)
    ensures phys < |d| == |d1| && d1[phys] == d[phys]
  {
    hide InodeRefs, InodeInds;
    DataBlock(v, d1, addr1, s1, lbn);
  }

  lemma ThenWritten(v: Vol, d: Disk, s: seq<nat>, addr: seq<nat>, d1: Disk, s1: seq<nat>,
                    addr1: seq<nat>, d2: Disk, phys: nat)
    requires Moved(v, d, s, addr, d1, s1, addr1) && phys in InodeRefs(v, d1, addr1)
    requires ChangedIn(d1, d2, multiset{phys}) && SlotRefs(v, d2, addr1, 0) == SlotRefs(v, d1, addr1, 0)
    requires Extends(v, d, addr, d1, addr1)
    ensures Moved(v, d, s, addr, d2, s1, addr1) && Extends(v, d, addr, d2, addr1)
  {
    assert InodeRefs(v, d2, addr1) == InodeRefs(v, d1, addr1);
    hide InodeRefs;
    assert phys in InodeRefs(v, d1, addr1) + multiset(s1);
  }

  lemma MappedMoved(v: Vol, d: Disk, s: seq<nat>, addr: seq<nat>, d': Disk, s': seq<nat>,
                    addr': seq<nat>, lbn: nat, phys: nat)
    requires IsMap(v, addr) && Apart(v, InodeRefs(v, d, addr), s) && AllInData(v, s)
    requires InodeMapped(v, d, s, addr, d', s', addr', lbn, true, phys)
    ensures Moved(v, d, s, addr, d', s', addr') && Apart(v, InodeRefs(v, d', addr'), s')
    ensures Extends(v, d, addr, d', addr')
    ensures phys == MapOf(v, d', addr', lbn) && (phys == 0 <==> Capacity(v) <= lbn)
    ensures phys == 0 ==> d' == d && s' == s && addr' == addr
    ensures phys != 0 ==> Taken(s, s', MissingAt(v, d, addr, lbn))
  {
    RouteRange(v, lbn);
    IndsWithin(v, d', addr');
    PartOfSum(InodeInds(v, d', addr'), InodeRefs(v, d', addr'), multiset(s'),
              InodeRefs(v, d, addr) + multiset(s));
    ChangedMono(d, d', InodeInds(v, d', addr'), InodeRefs(v, d, addr) + multiset(s));
    AllDataOf(v, InodeRefs(v, d, addr), s, InodeRefs(v, d', addr'));
  }

  lemma IndsWithin(v: Vol, d: Disk, addr: seq<nat>)
    ensures InodeInds(v, d, addr) <= InodeRefs(v, d, addr)
  {
    var k0, k1 := SlotRefs(v, d, addr, 0), SlotRefs(v, d, addr, 1);
    forall i | 0 <= i < |addr| ensures k1[i] <= k0[i] {
      RefsFromMono(v, d, addr[i], SlotLevel(v, i), 0, 1);
    }
    SumMono(k1, k0);
  }
}

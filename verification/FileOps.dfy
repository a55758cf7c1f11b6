/** Byte-range writes, truncation, the copy-in loop and the reader, on the image. */
module FileOps {
  import opened Arith
  import opened Errno
  import opened Endian
  import opened Layout
  import opened FreeList
  import opened Allocator
  import opened BlockMap
  import opened BlockTree
  import opened InodeMap
  import opened MapOps
  import opened RwOps
  import opened BlockCheck
  import opened FileBytes
  import opened Space
  import opened Volumes

  predicate IsDir(di: Dinode) { di.mode / 0x1000 * 0x1000 == IFDIR }

  predicate IsReg(di: Dinode) { di.mode / 0x1000 * 0x1000 == IFREG }

  /** Free blocks were taken from the top. */
  ghost predicate Shrunk(s: seq<nat>, s': seq<nat>) { |s'| <= |s| && s' == s[|s| - |s'|..] }

  /** A file whose first lo blocks were mapped now has its first hi mapped, and took no
      more for them than its cost grew by. */
  ghost predicate Paid(v: Vol, d0: Disk, s0: seq<nat>, addr0: seq<nat>, d: Disk, s: seq<nat>,
                       addr: seq<nat>, lo: nat, hi: nat)
    requires IsMap(v, addr0) && IsMap(v, addr)
  {
    Filled(v, d0, addr0, lo) ==> Filled(v, d, addr, hi) && |s0| + Cost(v, lo) <= |s| + Cost(v, hi)
  }

  /** `free` blocks let a file without holes grow from lo to hi blocks. */
  predicate Room(v: Vol, free: nat, lo: nat, hi: nat) {
    hi <= Capacity(v) && Cost(v, hi) <= free + Cost(v, lo)
  }

  /** data went into the blocks of one inode at off, with blocks from the top of the
      free list. */
  ghost predicate Copied(v: Vol, d0: Disk, s0: seq<nat>, addr0: seq<nat>, d: Disk, s: seq<nat>,
                         addr: seq<nat>, off: nat, data: seq<byte>)
    requires IsMap(v, addr0) && IsMap(v, addr)
  {
    && Moved(v, d0, s0, addr0, d, s, addr) && Extends(v, d0, addr0, d, addr) && Shrunk(s0, s)
    && Wrote(v, d0, addr0, d, addr, off, data)
    && Paid(v, d0, s0, addr0, d, s, addr, BlocksFor(v, off), BlocksFor(v, off + |data|))
  }

  lemma CopiedNothing(v: Vol, d: Disk, s: seq<nat>, addr: seq<nat>, off: nat)
    requires IsMap(v, addr)
    ensures Copied(v, d, s, addr, d, s, addr, off, [])
  {
    hide Moved, Wrote, Filled, Cost, BlocksFor;
    MovedNothing(v, d, s, addr);
    WroteNothing(v, d, addr, off);
  }

  lemma CopyMore(v: Vol, d0: Disk, s0: seq<nat>, addr0: seq<nat>, d1: Disk, s1: seq<nat>,
                 addr1: seq<nat>, d2: Disk, s2: seq<nat>, addr2: seq<nat>,
                 off: nat, buf: seq<byte>, done: nat, want: nat)
    requires IsMap(v, addr0) && IsMap(v, addr1) && IsMap(v, addr2) && 0 < want && done + want <= |buf|
    requires ByteIn(v, off + done) + want <= v.Bsize()
    requires Copied(v, d0, s0, addr0, d1, s1, addr1, off, buf[..done])
    requires ChunkPut(v, d1, s1, addr1, d2, s2, addr2, off + done, buf[done..done + want], true)
    ensures Copied(v, d0, s0, addr0, d2, s2, addr2, off, buf[..done + want])
  {
    hide Moved, Wrote, Extends, Filled, Cost, BlocksFor, BlockOf, MissingAt, Capacity;
    MovedMore(v, d0, s0, addr0, d1, s1, addr1, d2, s2, addr2);
    ExtendsMore(v, d0, addr0, d1, addr1, d2, addr2);
    WroteMore(v, d0, addr0, d1, addr1, d2, addr2, off, buf[..done], buf[done..done + want]);
    assert buf[..done] + buf[done..done + want] == buf[..done + want];
    if Filled(v, d0, addr0, BlocksFor(v, off)) {
      ChunkPaid(v, d1, s1, addr1, d2, s2, addr2, off + done, buf[done..done + want]);
    }
  }

  /** A chunk at the end of a file without holes, or within it. */
  lemma ChunkPaid(v: Vol, d: Disk, s: seq<nat>, addr: seq<nat>, d': Disk, s': seq<nat>,
                  addr': seq<nat>, at: nat, data: seq<byte>)
    requires IsMap(v, addr) && IsMap(v, addr') && data != [] && ByteIn(v, at) + |data| <= v.Bsize()
    requires ChunkPut(v, d, s, addr, d', s', addr', at, data, true)
    requires Filled(v, d, addr, BlocksFor(v, at))
    ensures Filled(v, d', addr', BlocksFor(v, at + |data|))
    ensures |s| + Cost(v, BlocksFor(v, at)) <= |s'| + Cost(v, BlocksFor(v, at + |data|))
  {
    hide Moved, Extends, BlocksFor, BlockOf, ByteIn, MapOf, MissingAt, Capacity, Cost, FileByte, Touched;
    var lbn := BlockOf(v, at);
    ChunkBlocks(v, at, |data|);
    forall b: nat | b <= lbn ensures MapOf(v, d', addr', b) != 0 {
      assert at <= at < at + |data|;
    }
    NextCost(v, d, addr, at);
  }

  /** What the block at position `at` is missing, in terms of the file's cost. */
  lemma NextCost(v: Vol, d: Disk, addr: seq<nat>, at: nat)
    requires IsMap(v, addr) && Filled(v, d, addr, BlocksFor(v, at)) && BlockOf(v, at) < Capacity(v)
    ensures MissingAt(v, d, addr, BlockOf(v, at)) + Cost(v, BlocksFor(v, at)) <= Cost(v, BlockOf(v, at) + 1)
  {
    hide Cost, BlocksFor, BlockOf, ByteIn, MapOf, MissingAt, Capacity;
    var lbn := BlockOf(v, at);
    ChunkBlocks(v, at, 1);
    if ByteIn(v, at) == 0 {
      StepCost(v, d, addr, lbn);
    } else {
      MappedNothingMissing(v, d, addr, lbn);
    }
  }

  lemma MappedNothingMissing(v: Vol, d: Disk, addr: seq<nat>, lbn: nat)
    requires IsMap(v, addr) && MapOf(v, d, addr, lbn) != 0
    ensures MissingAt(v, d, addr, lbn) == 0
  {
    RouteRange(v, lbn);
    var r := LbnRoute(v, lbn);
    NothingMissing(v, d, addr[r.slot], Digits(v.nindir, r.idx, r.level));
  }

  /** With room for the whole write its next block can be had. */
  lemma NextServed(v: Vol, d0: Disk, s0: seq<nat>, addr0: seq<nat>, d: Disk, s: seq<nat>,
                   addr: seq<nat>, off: nat, buf: seq<byte>, done: nat)
    requires IsMap(v, addr0) && IsMap(v, addr) && done < |buf|
    requires Copied(v, d0, s0, addr0, d, s, addr, off, buf[..done])
    requires Filled(v, d0, addr0, BlocksFor(v, off))
    requires Room(v, |s0|, BlocksFor(v, off), BlocksFor(v, off + |buf|))
    ensures BlockOf(v, off + done) < Capacity(v)
    ensures MissingAt(v, d, addr, BlockOf(v, off + done)) <= |s|
  {
    hide Moved, Wrote, Extends, Shrunk, Filled, Cost, BlocksFor, BlockOf, MissingAt, Capacity;
    var lbn, hi := BlockOf(v, off + done), BlocksFor(v, off + |buf|);
    ChunkBlocks(v, off + done, 1);
    BlocksMono(v, off + done + 1, off + |buf|);
    NextCost(v, d, addr, off + done);
    CostMono(v, lbn + 1, hi);
  }

  /** The free list ran out after part of the data had been copied. */
  lemma CopyStarved(fs: S5FS, d0: Disk, s0: seq<nat>, addr0: seq<nat>, d: Disk, s: seq<nat>,
                    addr: seq<nat>, off: nat, data: seq<byte>)
    requires IsMap(fs.v, addr0) && IsMap(fs.v, addr)
    requires Copied(fs.v, d0, s0, addr0, d, s, addr, off, data) && StarvedInode(fs, d, s, addr)
    ensures StarvedInode(fs, d0, s0, addr0)
  {
    hide Wrote, Extends, Shrunk, Paid, InodeRefs;
    ExtendsMore(fs.v, d0, addr0, d, addr, fs.dev, addr);
    ExtendsOld(fs.v, d0, addr0, fs.dev, addr);
  }

  // ----- past the point where the free list ran out

  /** What a failed handle comes up with where nothing is read any more: whether the
      dinode of a write at a byte position looks like a directory, and the block number
      found for the block at a byte position. */
  datatype Stray = Stray(dir: nat -> bool, phys: nat -> nat)

  /** The copy loop counts the block at byte position `at` as written. */
  predicate GoesOn(v: Vol, u: Stray, at: nat) { BlockOf(v, at) < Capacity(v) && u.phys(at) != 0 }

  /** How many of n bytes at off the loop has counted when it stops, on a failed handle
      and with `done` behind it. */
  function DeadCopy(v: Vol, u: Stray, off: nat, n: nat, done: nat): (r: nat)
    requires done <= n
    ensures done <= r <= n
    decreases n - done
  {
    if done == n || !GoesOn(v, u, off + done) then done
    else DeadCopy(v, u, off, n, done + Min(v.Bsize() - ByteIn(v, off + done), n - done))
  }

  /** Where the free list ran out in a copy: the volume and the inode's addresses before
      that turn, and the bytes stored by then. */
  datatype Halt = Halt(d: Disk, s: seq<nat>, addr: seq<nat>, done: nat)

  ghost predicate HaltedAt(v: Vol, d0: Disk, s0: seq<nat>, addr0: seq<nat>, h: Halt, off: nat, buf: seq<byte>)
    requires IsMap(v, addr0)
  {
    && IsMap(v, h.addr) && h.done < |buf| && Apart(v, InodeRefs(v, h.d, h.addr), h.s)
    && Copied(v, d0, s0, addr0, h.d, h.s, h.addr, off, buf[..h.done])
    && MissingAt(v, h.d, h.addr, BlockOf(v, off + h.done)) > |h.s|
  }

  /** All that could not be had was the data block. */
  ghost predicate OnlyData(v: Vol, h: Halt, off: nat)
    requires IsMap(v, h.addr)
  {
    MissingAt(v, h.d, h.addr, BlockOf(v, off + h.done)) == |h.s| + 1
  }

  /** How many of n bytes the copy has counted when it stops. */
  ghost function HaltedCount(v: Vol, u: Stray, h: Halt, off: nat, n: nat): nat
    requires IsMap(v, h.addr) && h.done <= n
  {
    if OnlyData(v, h, off) then h.done else DeadCopy(v, u, off, n, h.done)
  }

  lemma MissingReach(v: Vol, d: Disk, addr: seq<nat>, lbn: nat)
    requires IsMap(v, addr) && MissingAt(v, d, addr, lbn) > 0
    ensures lbn < Capacity(v)
  {
    RouteRange(v, lbn);
  }

  /** The copy loop of rw_pwrite.  It stops at the first block no number was found for;
      once the handle has failed it may run on without writing anything. */
  method CopyIn(fs: S5FS, ds: array<nat>, buf: seq<byte>, off: nat, u: Stray)
    returns (done: nat, dirty: bool, ghost h: Halt)
    requires Engine(fs, ds[..]) && ds as object != fs.s_free as object
    modifies fs, fs.s_free, ds
    ensures done <= |buf|
    ensures fs.error ==>
              && StarvedInode(fs, old(fs.dev), old(fs.stack), old(ds[..]))
              && HaltedAt(fs.v, old(fs.dev), old(fs.stack), old(ds[..]), h, off, buf)
              && done == HaltedCount(fs.v, u, h, off, |buf|)
    ensures !fs.error ==> Engine(fs, ds[..])
    ensures !fs.error ==>
              Copied(fs.v, old(fs.dev), old(fs.stack), old(ds[..]), fs.dev, fs.stack, ds[..], off, buf[..done])
    ensures !fs.error && !dirty ==> ds[..] == old(ds[..])
    ensures !fs.error && done == 0 ==>
              fs.dev == old(fs.dev) && ds[..] == old(ds[..]) && fs.stack == old(fs.stack)
    ensures !fs.error && done < |buf| ==> Capacity(fs.v) <= BlockOf(fs.v, off + done)
    ensures old(Filled(fs.v, fs.dev, ds[..], BlocksFor(fs.v, off))
                && Room(fs.v, |fs.stack|, BlocksFor(fs.v, off), BlocksFor(fs.v, off + |buf|))) ==>
              !fs.error && done == |buf|
  {
    hide Copied, ChunkPut, StarvedInode, MissingAt, InodeRefs, Apart, Capacity, Naddr, BlockOf, BlocksFor, Filled, Room;
    ghost var v, d0, s0, addr0 := fs.v, fs.dev, fs.stack, ds[..];
    ghost var room := Filled(v, d0, addr0, BlocksFor(v, off))
      && Room(v, |s0|, BlocksFor(v, off), BlocksFor(v, off + |buf|));
    done, dirty, h := 0, false, Halt(d0, s0, addr0, 0);
    CopiedNothing(v, d0, s0, addr0, off);
    assert buf[..0] == [];
    while done < |buf|
      invariant done <= |buf|
      invariant !fs.error ==> Engine(fs, ds[..])
      invariant !fs.error ==> Copied(v, d0, s0, addr0, fs.dev, fs.stack, ds[..], off, buf[..done])
      invariant !fs.error && !dirty ==> ds[..] == addr0
      invariant !fs.error && done == 0 ==> fs.dev == d0 && ds[..] == addr0 && fs.stack == s0
      invariant fs.error ==>
                  && StarvedInode(fs, d0, s0, addr0) && HaltedAt(v, d0, s0, addr0, h, off, buf)
                  && !OnlyData(v, h, off) && !room
                  && DeadCopy(v, u, off, |buf|, h.done) == DeadCopy(v, u, off, |buf|, done)
    {
      var boff := ByteIn(fs.v, off + done);
      var want := fs.v.Bsize() - boff;
      if want > |buf| - done {
        want := |buf| - done;
      }
      var ok := GoesOn(fs.v, u, off + done);
      if !fs.error {
        ghost var d1, s1, addr1 := fs.dev, fs.stack, ds[..];
        if room {
          NextServed(v, d0, s0, addr0, d1, s1, addr1, off, buf, done);
        }
        var changed;
        ok, changed := PutChunk(fs, ds, off + done, buf[done..done + want], u.phys(off + done));
        dirty := dirty || changed;
        if fs.error {
          CopyStarved(fs, d0, s0, addr0, d1, s1, addr1, off, buf[..done]);
          MissingReach(v, d1, addr1, BlockOf(v, off + done));
          h := Halt(d1, s1, addr1, done);
        } else if ok {
          CopyMore(v, d0, s0, addr0, d1, s1, addr1, fs.dev, fs.stack, ds[..], off, buf, done, want);
        } else {
          ChunkRefused(v, d1, s1, addr1, fs.dev, fs.stack, ds[..], off + done, buf[done..done + want], ok);
        }
      }
      if !ok {
        break;
      }
      done := done + want;
    }
  }

  lemma ChunkRefused(v: Vol, d: Disk, s: seq<nat>, addr: seq<nat>, d': Disk, s': seq<nat>,
                     addr': seq<nat>, at: nat, data: seq<byte>, ok: bool)
    requires IsMap(v, addr) && IsMap(v, addr') && ChunkPut(v, d, s, addr, d', s', addr', at, data, ok)
    ensures ok <==> BlockOf(v, at) < Capacity(v)
    ensures !ok ==> d' == d && s' == s && addr' == addr
  {
  }

  /** The di_addr slots of a dinode, as a working copy. */
  method LoadAddr(v: Vol, pb: Block, k: nat) returns (ds: array<nat>)
    requires |pb| == v.Bsize() && k + DINODESZ <= |pb|
    ensures fresh(ds) && ds[..] == InodeAt(v, pb, k).addr
  {
    ds := new nat[v.laddr + 3](i requires 0 <= i < v.laddr + 3 =>
      Get24(v.order, pb, k + DI_ADDR + 3 * i));
  }

  /** Store size and block addresses back into the dinode. */
  method StoreDinode(v: Vol, pb: Block, k: nat, size: nat, addr: seq<nat>) returns (pb': Block)
    requires |pb| == v.Bsize() && k + DINODESZ <= |pb| && IsMap(v, addr)
    requires size < 0x1_0000_0000 && forall i | 0 <= i < |addr| :: addr[i] < 0x100_0000
    ensures SameBut(pb, pb', k, DINODESZ)
    ensures InodeAt(v, pb', k) == InodeAt(v, pb, k).(size := size, addr := addr)
  {
    var b1 := Put32(v.order, pb, k + DI_SIZE, size);
    pb' := b1;
    ghost var at, n := k + DI_ADDR, 3 * |addr|;
    for i := 0 to |addr|
      invariant SameBut(b1, pb', at, n)
      invariant forall j | 0 <= j < i :: Get24(v.order, pb', at + 3 * j) == addr[j]
    {
      ghost var was := pb';
      pb' := Put24(v.order, pb', k + DI_ADDR + 3 * i, addr[i]);
      SmallMod(addr[i], 0x100_0000);
      forall j | 0 <= j < i ensures Get24(v.order, pb', at + 3 * j) == addr[j] {
        Get24Frame(v.order, was, pb', at + 3 * i, 3, at + 3 * j);
      }
    }
    SmallMod(size, 0x1_0000_0000);
    DinodeStored(v, pb, b1, pb', k, size, addr);
  }

  lemma DinodeStored(v: Vol, pb: Block, b1: Block, pb': Block, k: nat, size: nat, addr: seq<nat>)
    requires |pb| == v.Bsize() && k + DINODESZ <= |pb| && IsMap(v, addr)
    requires SameBut(pb, b1, k + DI_SIZE, 4) && Get32(v.order, b1, k + DI_SIZE) == size
    requires SameBut(b1, pb', k + DI_ADDR, 3 * |addr|)
    requires forall j | 0 <= j < |addr| :: Get24(v.order, pb', k + DI_ADDR + 3 * j) == addr[j]
    ensures InodeAt(v, pb', k) == InodeAt(v, pb, k).(size := size, addr := addr)
  {
    var at, n := k + DI_ADDR, 3 * |addr|;
    Get32Frame(v.order, b1, pb', at, n, k + DI_SIZE);
    Get16Frame(v.order, b1, pb', at, n, k + DI_MODE);
    Get16Frame(v.order, b1, pb', at, n, k + DI_NLINK);
    Get16Frame(v.order, pb, b1, k + DI_SIZE, 4, k + DI_MODE);
    Get16Frame(v.order, pb, b1, k + DI_SIZE, 4, k + DI_NLINK);
    assert InodeAt(v, pb', k).addr == addr;
  }

  /** An inode's addresses fit the three bytes they are stored in. */
  lemma AddrFits(v: Vol, d: Disk, addr: seq<nat>, s: seq<nat>)
    requires IsMap(v, addr) && Apart(v, InodeRefs(v, d, addr), s)
    ensures forall i | 0 <= i < |addr| :: addr[i] < 0x100_0000
  {
    forall i | 0 <= i < |addr| ensures addr[i] < 0x100_0000 {
      SlotApart(v, d, addr, i, s);
    }
  }

  /** Everything a write to file ino may have done to the volume. */
  ghost predicate FileStep(v: Vol, d: Disk, s: seq<nat>, d': Disk, s': seq<nat>, ino: nat)
    requires Sized(v, d) && Sized(v, d') && 1 <= ino
  {
    var moved := InoRefs(v, d', ino) + multiset(s') == InoRefs(v, d, ino) + multiset(s);
    moved && OnlyInode(v, d, s, d', ino)
  }

  /** A file operation worked on a copy of the dinode and then stored it back. */
  lemma StoredBack(v: Vol, d0: Disk, s0: seq<nat>, d1: Disk, s1: seq<nat>, d2: Disk, ino: nat,
                   addr1: seq<nat>)
    requires Sized(v, d0) && Sized(v, d1) && Sized(v, d2) && |d2| == |d1|
    requires 1 <= ino <= Ninodes(v) && InodeBlock(v, ino) < |d0|
    requires var di, di' := ReadDinode(v, d0, ino), ReadDinode(v, d2, ino);
             di.HasMap() && di'.HasMap() && di'.addr == addr1 && IsMap(v, addr1)
             && Moved(v, d0, s0, di.addr, d1, s1, addr1) && AllData(v, InodeRefs(v, d0, di.addr))
    requires AllInData(v, s0) && Apart(v, InodeRefs(v, d1, addr1), s1)
    requires forall b: nat | v.InData(b) :: d2[b] == d1[b]
    requires forall b: nat | b < v.isize && b != InodeBlock(v, ino) :: d2[b] == d1[b]
    requires SameBut(d1[InodeBlock(v, ino)], d2[InodeBlock(v, ino)], InodeOffset(v, ino), DINODESZ)
    ensures FileStep(v, d0, s0, d2, s1, ino)
    ensures forall lbn: nat :: MapOf(v, d2, addr1, lbn) == MapOf(v, d1, addr1, lbn)
    ensures forall lbn: nat :: MissingAt(v, d2, addr1, lbn) == MissingAt(v, d1, addr1, lbn)
    ensures forall p: nat :: FileByte(v, d2, addr1, p) == FileByte(v, d1, addr1, p)
  {
    hide InodeRefs, ReadDinode, Ninodes, InodeBlock, InodeOffset, FileByte, MapOf, MissingAt;
    BelowData(v, d1, d2, addr1, s1);
    MovedBelow(v, d0, s0, ReadDinode(v, d0, ino).addr, d1, s1, addr1);
    InodeInList(v, ino);
    assert d1[InodeBlock(v, ino)] == d0[InodeBlock(v, ino)];
    forall other: nat | 1 <= other <= Ninodes(v) && other != ino
      ensures ReadDinode(v, d2, other) == ReadDinode(v, d0, other)
    {
      OtherDinodes(v, d0, d2, ino, other);
    }
  }

  /** Moving blocks of the data region changes nothing below it. */
  lemma MovedBelow(v: Vol, d: Disk, s: seq<nat>, addr: seq<nat>, d': Disk, s': seq<nat>, addr': seq<nat>)
    requires Moved(v, d, s, addr, d', s', addr') && AllData(v, InodeRefs(v, d, addr))
    requires AllInData(v, s)
    ensures |d'| == |d| && forall b: nat | b < v.isize && b < |d| :: d'[b] == d[b]
    ensures OnlyBlocks(v, d, d', InodeRefs(v, d, addr) + multiset(s))
  {
    hide InodeRefs;
    AllDataOf(v, InodeRefs(v, d, addr), s, InodeRefs(v, d, addr) + multiset(s));
  }

  lemma WroteBelow(v: Vol, d: Disk, addr: seq<nat>, d1: Disk, d2: Disk, addr': seq<nat>,
                   at: nat, data: seq<byte>)
    requires IsMap(v, addr) && IsMap(v, addr') && Wrote(v, d, addr, d1, addr', at, data)
    requires forall lbn: nat :: MapOf(v, d2, addr', lbn) == MapOf(v, d1, addr', lbn)
    requires forall p: nat :: FileByte(v, d2, addr', p) == FileByte(v, d1, addr', p)
    ensures Wrote(v, d, addr, d2, addr', at, data)
  {
    hide FileByte, MapOf, Touched;
  }

  function NewSize(size: nat, end: nat): nat
    requires size < 0x1_0000_0000
  {
    if end > Signed32(size) then end % 0x1_0000_0000 else size
  }

  /** The size and addresses of dinode ino, stored; the rest of its block as read. */
  method StoreBack(fs: S5FS, ino: nat, pb: Block, size: nat, ds: array<nat>)
    requires fs.Valid() && 1 <= ino <= Ninodes(fs.v) && IsMap(fs.v, ds[..])
    requires InodeBlock(fs.v, ino) < |fs.dev| && pb == fs.dev[InodeBlock(fs.v, ino)]
    requires Apart(fs.v, InodeRefs(fs.v, fs.dev, ds[..]), fs.stack) && size < 0x1_0000_0000
    modifies fs`dev
    ensures fs.Valid() && |fs.dev| == |old(fs.dev)|
    ensures forall b: nat | b < |fs.dev| && b != InodeBlock(fs.v, ino) :: fs.dev[b] == old(fs.dev)[b]
    ensures var b := InodeBlock(fs.v, ino);
            SameBut(old(fs.dev)[b], fs.dev[b], InodeOffset(fs.v, ino), DINODESZ)
    ensures ReadDinode(fs.v, fs.dev, ino)
            == ReadDinode(fs.v, old(fs.dev), ino).(size := size, addr := ds[..])
  {
    InodeInList(fs.v, ino);
    AddrFits(fs.v, fs.dev, ds[..], fs.stack);
    assert InodeBlock(fs.v, ino) !in fs.stack;
    var pb' := StoreDinode(fs.v, pb, InodeOffset(fs.v, ino), size, ds[..]);
    fs.WtBlk(InodeBlock(fs.v, ino), pb');
  }

  lemma FileStepWhole(v: Vol, d: Disk, s: seq<nat>, d': Disk, s': seq<nat>, ino: nat)
    requires Sized(v, d) && Sized(v, d') && Partition(v, VolumeRefs(v, d), s)
    requires 1 <= ino <= Ninodes(v) && FileStep(v, d, s, d', s', ino)
    ensures Partition(v, VolumeRefs(v, d'), s')
  {
    hide *;
    FileStepParts(v, d, s, d', s', ino);
    StepWhole(v, d, s, d', s', ino);
  }

  lemma FileStepParts(v: Vol, d: Disk, s: seq<nat>, d': Disk, s': seq<nat>, ino: nat)
    requires Sized(v, d) && Sized(v, d') && 1 <= ino && FileStep(v, d, s, d', s', ino)
    ensures InoRefs(v, d', ino) + multiset(s') == InoRefs(v, d, ino) + multiset(s)
    ensures OnlyInode(v, d, s, d', ino)
  {
    hide InoRefs, OnlyInode;
  }

  lemma SameStep(v: Vol, d: Disk, s: seq<nat>, ino: nat)
    requires Sized(v, d) && 1 <= ino
    ensures FileStep(v, d, s, d, s, ino)
  {
  }

  /** data went into file ino at off: its size is adjusted, the rest of its dinode is as
      before, and the blocks it took came from the top of the free list. */
  ghost predicate Pwritten(v: Vol, d: Disk, s: seq<nat>, d': Disk, s': seq<nat>, ino: nat, off: nat, data: seq<byte>)
    requires Sized(v, d) && Sized(v, d') && 1 <= ino
  {
    var di, di' := ReadDinode(v, d, ino), ReadDinode(v, d', ino);
    var sized := di' == di.(size := NewSize(di.size, off + |data|), addr := di'.addr);
    && sized && Wrote(v, d, di.addr, d', di'.addr, off, data) && Shrunk(s, s')
    && Paid(v, d, s, di.addr, d', s', di'.addr, BlocksFor(v, off), BlocksFor(v, off + |data|))
  }

  /** Store back what a copy loop did. */
  method FinishPwrite(fs: S5FS, ino: nat, pb: Block, di: Dinode, ds: array<nat>, off: nat,
                      dirty: bool, n: nat, ghost data: seq<byte>, ghost d0: Disk, ghost s0: seq<nat>)
    requires Sized(fs.v, d0) && 1 <= ino <= Ninodes(fs.v) && InodeBlock(fs.v, ino) < |d0|
    requires pb == d0[InodeBlock(fs.v, ino)] && di == ReadDinode(fs.v, d0, ino) && di.HasMap()
    requires Engine(fs, ds[..]) && AllInData(fs.v, s0) && AllData(fs.v, InodeRefs(fs.v, d0, di.addr))
    requires Copied(fs.v, d0, s0, di.addr, fs.dev, fs.stack, ds[..], off, data) && |data| == n
    requires !dirty ==> ds[..] == di.addr
    requires di.size < 0x1_0000_0000
    modifies fs`dev
    ensures fs.Valid() && FileStep(fs.v, d0, s0, fs.dev, fs.stack, ino)
    ensures Pwritten(fs.v, d0, s0, fs.dev, fs.stack, ino, off, data)
    ensures SameSuper(d0, fs.dev)
  {
    hide Wrote, Moved, MapOf, MissingAt, FileByte, InodeRefs, FileStep, Extends, Paid, Shrunk, BlocksFor;
    hide OnlyInode, Ninodes, InodeOffset, SameBut, IsMap;
    ghost var v, d1, s1 := fs.v, fs.dev, fs.stack;
    InodeInList(v, ino);
    MovedBelow(v, d0, s0, di.addr, d1, s1, ds[..]);
    var size := NewSize(di.size, off + n);
    if dirty || off + n > Signed32(di.size) {
      StoreBack(fs, ino, pb, size, ds);
    } else {
      SameButItself(d1[InodeBlock(v, ino)], InodeOffset(v, ino));
    }
    assert ReadDinode(v, fs.dev, ino) == di.(size := size, addr := ds[..]);
    StoredBack(v, d0, s0, d1, s1, fs.dev, ino, ds[..]);
    WroteBelow(v, d0, di.addr, d1, fs.dev, ds[..], off, data);
    PaidBelow(v, d0, s0, di.addr, d1, fs.dev, s1, ds[..], BlocksFor(v, off), BlocksFor(v, off + n));
  }

  lemma PaidBelow(v: Vol, d0: Disk, s0: seq<nat>, addr0: seq<nat>, d1: Disk, d2: Disk, s1: seq<nat>,
                  addr1: seq<nat>, lo: nat, hi: nat)
    requires IsMap(v, addr0) && IsMap(v, addr1) && Paid(v, d0, s0, addr0, d1, s1, addr1, lo, hi)
    requires forall lbn: nat :: MapOf(v, d2, addr1, lbn) == MapOf(v, d1, addr1, lbn)
    ensures Paid(v, d0, s0, addr0, d2, s1, addr1, lo, hi)
  {
    hide MapOf, Cost;
  }

  lemma SameButItself(b: Block, k: nat)
    ensures SameBut(b, b, k, DINODESZ)
  {
  }

  /** Writing all of buf at off can be paid for, in a file without holes below off. */
  ghost predicate Payable(v: Vol, d: Disk, s: seq<nat>, ino: nat, off: nat, buf: seq<byte>)
    requires Sized(v, d) && 1 <= ino
  {
    var di := ReadDinode(v, d, ino);
    !IsDir(di) && Filled(v, d, di.addr, BlocksFor(v, off))
    && Room(v, |s|, BlocksFor(v, off), BlocksFor(v, off + |buf|))
  }

  /** The free list ran out while ino was written to: the dinode on the image is the old
      one, and only blocks it refers to and free blocks were written. */
  ghost predicate StarvedFile(fs: S5FS, d: Disk, s: seq<nat>, ino: nat)
    requires Sized(fs.v, d) && 1 <= ino
    reads fs
  {
    var addr := ReadDinode(fs.v, d, ino).addr;
    StarvedInode(fs, d, s, addr) && AllData(fs.v, InodeRefs(fs.v, d, addr)) && AllInData(fs.v, s)
  }

  /** The superblock on the image is as it was. */
  ghost predicate SameSuper(d: Disk, d': Disk) { SUPERBLK < |d| == |d'| && d'[SUPERBLK] == d[SUPERBLK] }

  lemma StarvedSuper(fs: S5FS, d: Disk, s: seq<nat>, ino: nat)
    requires Sized(fs.v, d) && 1 <= ino && StarvedFile(fs, d, s, ino)
    ensures SameSuper(d, fs.dev)
  {
    hide InodeRefs, Extends, ReadDinode;
    assert !fs.v.InData(SUPERBLK);
  }

  /** The answer of rw_pwrite to a copy that counted `done` of n bytes. */
  function Reply(done: nat, n: nat): int { if done == 0 && n > 0 then -EFBIG else done }

  /** rw_pwrite.  A handle that has failed no longer stores the dinode; it answers as if it
      had. */
  method RwPwrite(fs: S5FS, ino: nat, buf: seq<byte>, off: nat, u: Stray)
    returns (done: int, ghost h: Halt)
    requires Whole(fs) && 1 <= ino <= Ninodes(fs.v)
    requires ReadDinode(fs.v, fs.dev, ino).HasMap()
    modifies fs, fs.s_free
    ensures done == -EISDIR <==> IsDir(ReadDinode(fs.v, old(fs.dev), ino))
    ensures fs.error ==> StarvedFile(fs, old(fs.dev), old(fs.stack), ino)
    ensures fs.error ==>
              && HaltedAt(fs.v, old(fs.dev), old(fs.stack), ReadDinode(fs.v, old(fs.dev), ino).addr, h, off, buf)
              && done == Reply(HaltedCount(fs.v, u, h, off, |buf|), |buf|)
    ensures !fs.error ==> Whole(fs) && FileStep(fs.v, old(fs.dev), old(fs.stack), fs.dev, fs.stack, ino)
    ensures !fs.error && done < 0 ==> fs.dev == old(fs.dev) && fs.stack == old(fs.stack)
    ensures done < 0 && done != -EISDIR ==> done == -EFBIG && buf != []
    ensures 0 <= done ==> done <= |buf| && (done == 0 ==> buf == [])
    ensures !fs.error && 0 <= done <= |buf| ==>
              Pwritten(fs.v, old(fs.dev), old(fs.stack), fs.dev, fs.stack, ino, off, buf[..done])
    ensures !fs.error && done != -EISDIR && done < |buf| ==>
              Capacity(fs.v) <= BlockOf(fs.v, off + if done < 0 then 0 else done)
    ensures old(Payable(fs.v, fs.dev, fs.stack, ino, off, buf)) ==> !fs.error && done == |buf|
    ensures SameSuper(old(fs.dev), fs.dev)
  {
    hide Copied, MapOf, MissingAt, FileByte, InodeRefs, Partition, VolumeRefs, FileStep, Filled, Room;
    hide OnlyInode, Ninodes, Capacity, InodeOffset, SameBut, Pwritten, StarvedInode, BlockOf, BlocksFor;
    ghost var v, d0, s0 := fs.v, fs.dev, fs.stack;
    h := Halt(d0, s0, [], 0);
    InodeInList(v, ino);
    InodeOwns(v, d0, s0, ino);
    SameStep(v, d0, s0, ino);
    var pb := fs.RdBlk(InodeBlock(fs.v, ino));
    var di := InodeAt(fs.v, pb, InodeOffset(fs.v, ino));
    if IsDir(di) {
      return -EISDIR, h;
    }
    var ds := LoadAddr(fs.v, pb, InodeOffset(fs.v, ino));
    var n, dirty;
    n, dirty, h := CopyIn(fs, ds, buf, off, u);
    if fs.error {
      // the dinode is still put together, but the write of it is refused
      StarvedSuper(fs, d0, s0, ino);
      return Reply(n, |buf|), h;
    }
    if n == 0 && |buf| > 0 {
      return -EFBIG, h;
    }
    done := n;
    FinishPwrite(fs, ino, pb, di, ds, off, dirty, n, buf[..n], d0, s0);
    FileStepWhole(v, d0, s0, fs.dev, fs.stack, ino);
  }

  /** rw_pwrite on a handle that has failed: nothing is read and nothing is written. */
  method PwriteDead(v: Vol, n: nat, off: nat, u: Stray) returns (done: int)
    ensures done == if u.dir(off) then -EISDIR else Reply(DeadCopy(v, u, off, n, 0), n)
    ensures !u.dir(off) ==> (if done < 0 then done == -EFBIG && n > 0 else done <= n && (done == 0 ==> n == 0))
  {
    if u.dir(off) {
      return -EISDIR;
    }
    var k := 0;
    while k < n
      invariant k <= n && DeadCopy(v, u, off, n, 0) == DeadCopy(v, u, off, n, k)
    {
      if !GoesOn(v, u, off + k) {
        break;
      }
      k := k + Min(v.Bsize() - ByteIn(v, off + k), n - k);
    }
    done := Reply(k, n);
  }
}

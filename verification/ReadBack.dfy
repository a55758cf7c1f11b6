/** What a file reads like after it was written to, or cut, in the middle. */
module ReadBack {
  import opened Errno
  import opened Endian
  import opened Layout
  import opened Allocator
  import opened BlockMap
  import opened InodeMap
  import opened BlockCheck
  import opened FileBytes
  import opened Space
  import opened Volumes
  import opened FileOps
  import opened PutFile

  /** The bytes of a file once data went in at off. */
  function Overlaid(was: seq<byte>, off: nat, data: seq<byte>): seq<byte>
    requires off <= |was|
  {
    was[..off] + data + if off + |data| < |was| then was[off + |data|..] else []
  }

  /** As long as the size in the dinode says, and byte for byte what the blocks hold. */
  ghost predicate Reads(v: Vol, d: Disk, di: Dinode, buf: seq<byte>)
    requires IsMap(v, di.addr) && di.size < 0x1_0000_0000
  {
    && |buf| == (if di.size < 0x8000_0000 then di.size else 0)
    && forall p: nat | p < |buf| :: buf[p] == FileByte(v, d, di.addr, p)
  }

  /** In a volume in order the reader gets all of a file. */
  method ReadAll(v: Vol, d: Disk, ino: nat, ghost s: seq<nat>) returns (buf: seq<byte>)
    requires Sized(v, d) && Partition(v, VolumeRefs(v, d), s) && 1 <= ino <= Ninodes(v)
    requires ReadDinode(v, d, ino).HasMap()
    ensures ReadDinode(v, d, ino).size < 0x1_0000_0000 && Reads(v, d, ReadDinode(v, d, ino), buf)
  {
    hide Partition, VolumeRefs, ReadDinode, InodeRefs, MapOf, FileByte, BlockOf, Ninodes;
    var di := ReadDinode(v, d, ino);
    SizeFits(v, d, ino);
    buf := ReadFile(v, d, di, di.size, 0);
    InodeOwns(v, d, s, ino);
    if MapOf(v, d, di.addr, BlockOf(v, |buf|)) != 0 {
      DataBlock(v, d, di.addr, s, BlockOf(v, |buf|));
    }
    forall p: nat | p < |buf| ensures buf[p] == FileByte(v, d, di.addr, p) {
      assert buf[p] == FileByte(v, d, di.addr, 0 + p);
    }
  }

  /** Below the old end the bytes are overlaid; the new end is the larger one. */
  lemma OverlaidReads(v: Vol, d: Disk, s: seq<nat>, d': Disk, s': seq<nat>, ino: nat, off: nat, data: seq<byte>,
                      was: seq<byte>, back: seq<byte>)
    requires Sized(v, d) && Sized(v, d') && 1 <= ino && off <= |was|
    requires ReadDinode(v, d, ino).size < 0x1_0000_0000 && Reads(v, d, ReadDinode(v, d, ino), was)
    requires ReadDinode(v, d', ino).size < 0x1_0000_0000 && Reads(v, d', ReadDinode(v, d', ino), back)
    requires Pwritten(v, d, s, d', s', ino, off, data)
    requires Filled(v, d, ReadDinode(v, d, ino).addr, BlocksFor(v, |was|))
    ensures back == Overlaid(was, off, data) <==> |Overlaid(was, off, data)| < 0x8000_0000
  {
    hide ReadDinode, Filled, Wrote, Paid, FileByte, MapOf, BlocksFor;
    var di, di', all := ReadDinode(v, d, ino), ReadDinode(v, d', ino), Overlaid(was, off, data);
    if |all| < 0x8000_0000 {
      assert |back| == |all|;
      forall p: nat | p < |all| ensures FileByte(v, d', di'.addr, p) == all[p] {
        OverlaidByte(v, d, di.addr, d', di'.addr, off, data, was, p);
      }
    }
  }

  lemma OverlaidByte(v: Vol, d: Disk, addr: seq<nat>, d': Disk, addr': seq<nat>, off: nat, data: seq<byte>,
                     was: seq<byte>, p: nat)
    requires IsMap(v, addr) && IsMap(v, addr') && Wrote(v, d, addr, d', addr', off, data) && off <= |was|
    requires forall q: nat | q < |was| :: was[q] == FileByte(v, d, addr, q)
    requires Filled(v, d, addr, BlocksFor(v, |was|)) && p < |Overlaid(was, off, data)|
    ensures FileByte(v, d', addr', p) == Overlaid(was, off, data)[p]
  {
    hide FileByte, MapOf, BlocksFor, BlockOf, Touched;
    if !(off <= p < off + |data|) {
      HoleFreeWrite(v, d, addr, d', addr', off, data, |was|, p);
    }
  }

  /** Write into a file, and read it.  Without holes below its end, and from a position
      not past that, it reads as before with the bytes written laid over it - exactly
      when the new length can be stored as a signed number. */
  method WriteThenRead(fs: S5FS, ino: nat, off: nat, data: seq<byte>, u: Stray)
    returns (done: int, was: seq<byte>, back: seq<byte>)
    requires Whole(fs) && 1 <= ino <= Ninodes(fs.v) && ReadDinode(fs.v, fs.dev, ino).HasMap()
    modifies fs, fs.s_free
    ensures fs.error || Whole(fs)
    ensures ReadDinode(fs.v, old(fs.dev), ino).size < 0x1_0000_0000
    ensures Reads(fs.v, old(fs.dev), ReadDinode(fs.v, old(fs.dev), ino), was)
    ensures done <= |data| && (done < 0 ==> done == -EISDIR || done == -EFBIG)
    ensures !fs.error && 0 <= done && off <= |was|
            && Filled(fs.v, old(fs.dev), ReadDinode(fs.v, old(fs.dev), ino).addr, BlocksFor(fs.v, |was|)) ==>
              && done <= |data|
              && (back == Overlaid(was, off, data[..done]) <==> |Overlaid(was, off, data[..done])| < 0x8000_0000)
    ensures !fs.error && -EISDIR != done && done < 0 ==> back == was
    ensures old(Payable(fs.v, fs.dev, fs.stack, ino, off, data)) ==> !fs.error && done == |data|
  {
    hide Partition, VolumeRefs, ReadDinode, FileByte, MapOf, Ninodes, FileStep, Pwritten, Filled, Payable;
    hide StarvedFile, HaltedAt, HaltedCount, BlockOf, BlocksFor, Capacity, Reads, InodeRefs, InoRefs;
    ghost var v, d0, s0 := fs.v, fs.dev, fs.stack;
    was := ReadAll(fs.v, fs.dev, ino, fs.stack);
    ghost var h;
    done, h := RwPwrite(fs, ino, data, off, u);
    back := [];
    if !fs.error {
      StepMap(v, d0, s0, fs.dev, fs.stack, ino, off, data, done);
      back := ReadAll(fs.v, fs.dev, ino, fs.stack);
      if 0 <= done && off <= |was| && Filled(v, d0, ReadDinode(v, d0, ino).addr, BlocksFor(v, |was|)) {
        OverlaidReads(v, d0, s0, fs.dev, fs.stack, ino, off, data[..done], was, back);
      }
      if done < 0 {
        SameReads(v, d0, ReadDinode(v, d0, ino), was, back);
      }
    }
  }

  lemma SameReads(v: Vol, d: Disk, di: Dinode, a: seq<byte>, b: seq<byte>)
    requires IsMap(v, di.addr) && di.size < 0x1_0000_0000 && Reads(v, d, di, a) && Reads(v, d, di, b)
    ensures a == b
  {
    hide FileByte;
    assert forall p: nat | p < |a| :: a[p] == b[p];
  }

  lemma StepMap(v: Vol, d: Disk, s: seq<nat>, d': Disk, s': seq<nat>, ino: nat, off: nat, data: seq<byte>,
                done: int)
    requires Sized(v, d) && Sized(v, d') && 1 <= ino && ReadDinode(v, d, ino).HasMap() && done <= |data|
    requires done < 0 ==> d' == d
    requires 0 <= done ==> Pwritten(v, d, s, d', s', ino, off, data[..done])
    ensures ReadDinode(v, d', ino).HasMap()
  {
    hide ReadDinode, Wrote, Paid, BlocksFor;
  }

  /** No logical block of file ino that begins in bytes [lo, hi) is mapped. */
  ghost predicate UnmappedIn(v: Vol, d: Disk, ino: nat, lo: nat, hi: nat)
    requires Sized(v, d) && 1 <= ino
  {
    var addr := ReadDinode(v, d, ino).addr;
    forall lbn: nat | lo <= lbn * v.Bsize() < hi :: MapOf(v, d, addr, lbn) == 0
  }

  ghost predicate SameMap(v: Vol, d: Disk, d': Disk, ino: nat)
    requires Sized(v, d) && Sized(v, d') && 1 <= ino
  {
    var addr, addr' := ReadDinode(v, d, ino).addr, ReadDinode(v, d', ino).addr;
    forall lbn: nat :: MapOf(v, d', addr', lbn) == MapOf(v, d, addr, lbn)
  }

  /** Cut a file, and read it: what was there up to the new length.  Every logical block
      wholly past that is gone, and back on the free list. */
  method TruncateThenRead(fs: S5FS, ino: nat, len: nat, sysv: bool, tinode: nat)
    returns (rc: int, was: seq<byte>, back: seq<byte>)
    requires Whole(fs) && 1 <= ino <= Ninodes(fs.v) && ReadDinode(fs.v, fs.dev, ino).HasMap()
    modifies fs, fs.s_free
    ensures Whole(fs)
    ensures ReadDinode(fs.v, old(fs.dev), ino).size < 0x1_0000_0000
    ensures Reads(fs.v, old(fs.dev), ReadDinode(fs.v, old(fs.dev), ino), was)
    ensures rc == if IsDir(ReadDinode(fs.v, old(fs.dev), ino)) then -EISDIR else 0
    ensures rc == 0 && len <= |was| ==> back == was[..len]
    ensures rc == 0 && len < |was| ==> UnmappedIn(fs.v, fs.dev, ino, len, |was|)
    ensures rc == 0 && |was| <= len ==> SameMap(fs.v, old(fs.dev), fs.dev, ino)
    ensures rc != 0 ==> fs.dev == old(fs.dev) && back == was
  {
    hide Partition, VolumeRefs, ReadDinode, FileByte, MapOf, Ninodes, FileStep, Truncated, Released;
    hide BlockOf, BlocksFor, Reads, InodeRefs, InoRefs, UnmappedIn, SameMap;
    ghost var v, d0, s0 := fs.v, fs.dev, fs.stack;
    was := ReadAll(fs.v, fs.dev, ino, fs.stack);
    rc := RwTruncate(fs, ino, len, sysv, tinode);
    if rc == 0 {
      CutMap(v, d0, fs.dev, ino, len);
    }
    back := ReadAll(fs.v, fs.dev, ino, fs.stack);
    if rc == 0 {
      CutReads(v, d0, fs.dev, ino, len, was, back);
    } else {
      SameReads(v, d0, ReadDinode(v, d0, ino), was, back);
    }
  }

  lemma CutMap(v: Vol, d: Disk, d': Disk, ino: nat, len: nat)
    requires Sized(v, d) && Sized(v, d') && 1 <= ino && ReadDinode(v, d, ino).HasMap()
    requires Truncated(v, d, d', ino, len)
    ensures ReadDinode(v, d', ino).HasMap()
  {
    hide ReadDinode, Cut, BlocksFor;
  }

  lemma CutReads(v: Vol, d: Disk, d': Disk, ino: nat, len: nat, was: seq<byte>, back: seq<byte>)
    requires Sized(v, d) && Sized(v, d') && 1 <= ino && Truncated(v, d, d', ino, len)
    requires ReadDinode(v, d, ino).size < 0x1_0000_0000 && Reads(v, d, ReadDinode(v, d, ino), was)
    requires ReadDinode(v, d', ino).size < 0x1_0000_0000 && Reads(v, d', ReadDinode(v, d', ino), back)
    ensures len <= |was| ==> back == was[..len]
    ensures len < |was| ==> UnmappedIn(v, d', ino, len, |was|)
    ensures |was| <= len ==> SameMap(v, d, d', ino)
  {
    hide ReadDinode, FileByte, MapOf, BlocksFor;
    var di, di' := ReadDinode(v, d, ino), ReadDinode(v, d', ino);
    if len <= |was| {
      forall p: nat | p < len ensures FileByte(v, d', di'.addr, p) == FileByte(v, d, di.addr, p) {
        BlockBelowLen(v, p, len);
      }
      assert |back| == len;
    }
    if len < |was| {
      forall lbn: nat | len <= lbn * v.Bsize() < |was| ensures MapOf(v, d', di'.addr, lbn) == 0 {
        BlockBetween(v, lbn, len, |was|);
      }
    }
  }

  lemma BlockBelowLen(v: Vol, p: nat, len: nat)
    requires p < len
    ensures BlockOf(v, p) < BlocksFor(v, len)
  {
    BlockBelow(p, len, v.Bsize());
  }

  lemma BlockBetween(v: Vol, lbn: nat, len: nat, size: nat)
    requires len <= lbn * v.Bsize() < size
    ensures BlocksFor(v, len) <= lbn < BlocksFor(v, size)
  {
    BlocksMono(v, len, lbn * v.Bsize());
    BlocksMono(v, lbn * v.Bsize() + 1, size);
    Position(v, lbn, 0);
    ChunkBlocks(v, lbn * v.Bsize(), 1);
  }
}

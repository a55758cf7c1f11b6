/** Dump an inode, restore it elsewhere: the same holes, the same bytes. */
module DumpRestore {
  import opened Arith
  import opened Endian
  import opened Layout
  import opened FreeList
  import opened Allocator
  import opened BlockMap
  import opened InodeMap
  import opened BlockCheck
  import opened FileBytes
  import opened PutFile
  import opened Builder
  import opened TapeRecords
  import opened Dump
  import opened Restore

  // ----- the byte order of the tape

  /** Words of 16 bits are stored alike. */
  predicate SameWords(o: Order) { o != Big }

  lemma Word16(v: Vol, h: Block, k: nat)
    requires k + 2 <= |h| && SameWords(v.order)
    ensures Get16(Pdp11, h, k) == Get16(v.order, h, k)
  {
  }

  lemma {:induction false} SumSame(o: Order, h: Block, n: nat)
    requires 2 * n <= |h| && SameWords(o)
    ensures WordSum(Pdp11, h, n) == WordSum(o, h, n)
  {
    if n > 0 {
      SumSame(o, h, n - 1);
    }
  }

  lemma HeaderSame(v: Vol, h: Block, typ: nat, ino: nat, di: seq<byte>, blks: seq<nat>)
    requires IsHeader(v, h, typ, ino, di, blks) && SameWords(v.order)
    ensures IsHeader(Reader(v), h, typ, ino, di, blks)
  {
    SumSame(v.order, h, Words(v));
  }

  lemma SegmentsSame(v: Vol, d: Disk, parts: seq<seq<Block>>, ino: nat, di: seq<byte>, segs: seq<seq<nat>>)
    requires Segments(v, d, parts, ino, di, segs) && SameWords(v.order)
    ensures Segments(Reader(v), d, parts, ino, di, segs)
  {
    hide IsHeader, Present;
    forall i | 0 <= i < |parts| ensures IsSegment(Reader(v), d, parts[i], TS_ADDR, ino, di, segs[i]) {
      assert IsSegment(v, d, parts[i], TS_ADDR, ino, di, segs[i]);
      HeaderSame(v, parts[i][0], TS_ADDR, ino, di, segs[i]);
    }
  }

  /** A header is accepted exactly when its words are stored in the reader's order. */
  lemma Accepted(v: Vol, h: Block, typ: nat, ino: nat, di: seq<byte>, blks: seq<nat>)
    requires IsHeader(v, h, typ, ino, di, blks)
    ensures SoundHeader(Reader(v), h) <==> SameWords(v.order)
  {
    if SameWords(v.order) {
      HeaderSame(v, h, typ, ino, di, blks);
    }
  }

  /** A size whose 32 bits mean the same to the reader: written in its own order, or
      with two equal halves by a little-endian dump. */
  predicate Readable(o: Order, size: nat) {
    o == Pdp11 || (o == Little && size % 0x1_0000 == size / 0x1_0000)
  }

  /** What the reader makes of a dumped dinode. */
  lemma DinodeRead(v: Vol, h: Block)
    requires |h| == v.Bsize() && SameWords(v.order)
    ensures var got, was := InodeAt(Reader(v), h, C_DINODE), InodeAt(v, h, C_DINODE);
            && got.mode == was.mode && got.nlink == was.nlink
            && (got.size == was.size <==> Readable(v.order, was.size))
  {
    var w0, w1 := Get16(v.order, h, C_DINODE + DI_SIZE), Get16(v.order, h, C_DINODE + DI_SIZE + 2);
    DivModUnique(w1 * 0x1_0000 + w0, 0x1_0000, w1, w0);
  }

  /** What was dumped, followed by another record, is a story the reader can follow. */
  lemma TapeTold(v: Vol, d: Disk, head: seq<Block>, parts: seq<seq<Block>>, segs: seq<seq<nat>>,
                 blks: seq<nat>, src: seq<nat>, ino: nat, di: seq<byte>, rest: seq<Block>)
    requires IsSegment(v, d, head, TS_INODE, ino, di, blks) && Segments(v, d, parts, ino, di, segs)
    requires Spelled(v, blks, segs, src) && Ending(Reader(v), rest) && SameWords(v.order)
    ensures Reading(Reader(v), Story(src, d, ino, di, rest), (head + Flatten(parts) + rest)[1..], head[0], 0, 0,
                    blks, parts, segs)
  {
    hide CksumOk, Present, Flatten, Covers, Spans, Segments;
    HeaderSame(v, head[0], TS_INODE, ino, di, blks);
    SegmentsSame(v, d, parts, ino, di, segs);
    SpansStart(v, blks, segs, src);
    var st := Story(src, d, ino, di, rest);
    assert head == [head[0]] + head[1..];
    assert (head + Flatten(parts) + rest)[1..] == head[1..] + Flatten(parts) + rest;
    assert blks[0..] == blks && src[0 - 0..] == src;
  }

  /** Every block of a mapped inode can be read. */
  lemma MappedReadable(v: Vol, d: Disk, addr: seq<nat>, src: seq<nat>)
    requires Sized(v, d) && FileMapped(v, d, addr, src)
    ensures forall j | 0 <= j < |src| && src[j] != 0 :: v.InData(src[j])
    ensures IsMap(v, addr)
  {
    hide Built, InodeRefs;
    forall j | 0 <= j < |src| && src[j] != 0 ensures v.InData(src[j]) {
      MapReads(v, d, addr, src, j);
      DataPart(v, d, addr, j);
      assert src[j] in InodeInds(v, d, addr) + multiset{src[j]};
    }
  }

  lemma RestoredNumbers(v: Vol, st: Story, d0: Disk, s0: seq<nat>, d1: Disk, s1: seq<nat>, da: seq<nat>)
    requires Restored(st, d0, s0, d1, s1, da) && |da| == |st.src| && AllInData(v, s0)
    ensures Numbers(da) && |s1| == |s0| - Count(st.src)
  {
    hide Count;
    assert st.src[..|da|] == st.src;
    forall i | 0 <= i < |da| ensures da[i] < 0x1_0000_0000 {
      assert GotOne(st.d, st.src, s0, Count(st.src), d1, da, i);
    }
  }

  /** The new map, and what its blocks hold. */
  lemma SameBytes(v: Vol, d: Disk, addr: seq<nat>, src: seq<nat>, w: Vol, d0: Disk, s0: seq<nat>,
                  d1: Disk, s1: seq<nat>, da: seq<nat>, d2: Disk, s2: seq<nat>, ds: seq<nat>,
                  st: Story, p: nat)
    requires Sized(v, d) && FileMapped(v, d, addr, src) && IsMap(v, addr) && IsMap(w, ds)
    requires w.nindir == v.nindir && w.laddr == v.laddr && st.src == src && st.d == d
    requires Restored(st, d0, s0, d1, s1, da) && |da| == |src| && NoDup(s0) && AllInData(w, s0)
    requires SetTo(w, d1, s1, d2, s2, ds, da, Naddr(w))
    requires forall lbn: nat ::
               MapOf(w, d2, ds, lbn) == if lbn < |da| && lbn < Capacity(w) then da[lbn] else 0
    requires BlockOf(v, p) < |src|
    ensures FileByte(w, d2, ds, p) == FileByte(v, d, addr, p)
    ensures MapOf(w, d2, ds, BlockOf(v, p)) == 0 <==> MapOf(v, d, addr, BlockOf(v, p)) == 0
  {
    hide Count, InodeInds, Built, InodeRefs, MapOf, SlotBuilt, Numbers;
    var lbn := BlockOf(v, p);
    MapReads(v, d, addr, src, lbn);
    MappedReadable(v, d, addr, src);
    assert Capacity(w) == Capacity(v);
    var n := Count(src[..|da|]);
    assert GotOne(d, src, s0, n, d1, da, lbn);
    if src[lbn] != 0 {
      var q := da[lbn];
      NotLeft(s0, n, s1, Count(src[..lbn]));
      assert InodeInds(w, d2, ds) + multiset(s2) == multiset(s1);
      assert q !in InodeInds(w, d2, ds) by {
        assert q !in multiset(s1);
        assert (InodeInds(w, d2, ds) + multiset(s2))[q] == 0;
      }
      assert d2[q] == d1[q] && w.InData(q);
    }
    assert BlockOf(w, p) == lbn && ByteIn(w, p) == ByteIn(v, p);
  }

  lemma NotLeft(s0: seq<nat>, n: nat, s1: seq<nat>, r: nat)
    requires NoDup(s0) && r < n <= |s0| && s1 == s0[n..]
    ensures s0[r] !in s1
  {
    forall j | 0 <= j < |s1| ensures s1[j] != s0[r] {
      assert s1[j] == s0[n + j];
    }
  }

  /** Dump one file or directory and look at its header the way restoring does: it is
      accepted unless the volume is big-endian, and its size is right exactly when it is
      Readable. */
  method DumpThenHead(v: Vol, d: Disk, ino: nat, ghost src: seq<nat>, end: Block)
    returns (tape: seq<Block>, dr: DR, ok: bool, hdr: Block, inode: Dinode,
             ghost head: seq<Block>, ghost parts: seq<seq<Block>>, ghost segs: seq<seq<nat>>, ghost bytes: seq<byte>)
    requires Sized(v, d) && 1 <= ino <= Ninodes(v) && |end| == v.Bsize()
    requires var di := ReadDinode(v, d, ino); di.HasMap() && FileMapped(v, d, di.addr, src)
    ensures fresh(dr) && dr.Valid() && dr.v == Reader(v) && dr.tape == tape && |hdr| == v.Bsize()
    ensures ok <==> v.order != Big
    ensures var di := ReadDinode(v, d, ino);
            ok ==> && inode.mode == di.mode && inode.nlink == di.nlink && dr.pos == 1 && hdr == tape[0]
                   && (inode.size == di.size <==> Readable(v.order, di.size))
    ensures var blks := ReadDinode(v, d, ino).addr[..v.laddr];
            && IsSegment(v, d, head, TS_INODE, ino, bytes, blks) && tape == head + Flatten(parts) + [end]
            && Segments(v, d, parts, ino, bytes, segs) && Spelled(v, blks, segs, src)
  {
    hide FileMapped, IsSegment, Segments, Spelled, CksumOk, Flatten, ReadDinode, Ninodes, InodeAt;
    var zero := ZeroBlock(v.Bsize());
    var dumper := new Dumper(v, d, zero);
    head, parts, segs := dumper.DumpInode(ino, src);
    bytes := dumper.Di();
    tape := dumper.out + [end];
    HeadIs(v, d, head, ino, bytes, ReadDinode(v, d, ino).addr[..v.laddr]);
    assert tape[0] == head[0];
    dr := new DR(v, tape);
    ok, hdr := dr.GetHead();
    if !ok {
      hdr, inode := zero, InodeAt(v, zero, C_DINODE);
      return;
    }
    inode := InodeAt(Reader(v), hdr, C_DINODE);
    DinodeRead(v, hdr);
  }

  lemma HeadIs(v: Vol, d: Disk, head: seq<Block>, ino: nat, di: seq<byte>, blks: seq<nat>)
    requires IsSegment(v, d, head, TS_INODE, ino, di, blks)
    ensures |head| >= 1 && |head[0]| == v.Bsize()
    ensures SoundHeader(Reader(v), head[0]) <==> v.order != Big
  {
    hide IsHeader, Present;
    HeaderSize(v, head[0], TS_INODE, ino, di, blks);
    Accepted(v, head[0], TS_INODE, ino, di, blks);
  }

  lemma HeaderSize(v: Vol, h: Block, typ: nat, ino: nat, di: seq<byte>, blks: seq<nat>)
    requires IsHeader(v, h, typ, ino, di, blks)
    ensures |h| == v.Bsize()
  {
  }

  /** Dump one file or directory, read the tape back, and give the blocks a new map on
      another volume of the same block size.  When the size can be read at all, the
      reader stops right behind what was dumped, holes are where they were, and every
      byte below the size is the same. */
  method DumpThenRestore(v: Vol, d: Disk, ino: nat, ghost src: seq<nat>, end: Block, fs: S5FS)
    returns (ok: bool, next: Block, inode: Dinode, ds: array<nat>)
    requires Sized(v, d) && 1 <= ino <= Ninodes(v)
    requires var di := ReadDinode(v, d, ino);
             && di.HasMap() && FileMapped(v, d, di.addr, src) && 0 <= Signed32(di.size)
             && |src| == BlocksFor(v, Signed32(di.size)) && Readable(v.order, di.size)
    requires |end| == v.Bsize() && Ending(Reader(v), [end])
    requires fs.Valid() && fs.v.nindir == v.nindir && fs.v.laddr == v.laddr
    requires Count(src) + NeedTo(fs.v, |src|, Naddr(fs.v)) <= |fs.stack|
    modifies fs, fs.s_free
    ensures var di := ReadDinode(v, d, ino);
            && ok && next == end
            && inode.mode == di.mode && inode.nlink == di.nlink && inode.size == di.size
    ensures fs.Valid() && IsMap(fs.v, ds[..])
    ensures forall lbn: nat | lbn < |src| ::
              MapOf(fs.v, fs.dev, ds[..], lbn) == 0 <==> MapOf(v, d, ReadDinode(v, d, ino).addr, lbn) == 0
    ensures forall p: nat | p < Signed32(inode.size) ::
              FileByte(fs.v, fs.dev, ds[..], p) == FileByte(v, d, ReadDinode(v, d, ino).addr, p)
  {
    hide FileMapped, IsSegment, Segments, Spelled, Reading, CksumOk, Flatten, ReadDinode, Ninodes, MapOf;
    hide FileByte, SetTo, MapBuilt, Restored, NeedTo, Count, InodeAt, Capacity, BlocksFor;
    ghost var addr := ReadDinode(v, d, ino).addr;
    ghost var blks := addr[..v.laddr];
    SizeFits(v, d, ino);
    var tape, dr, hdr;
    ghost var head, parts, segs, bytes;
    tape, dr, ok, hdr, inode, head, parts, segs, bytes := DumpThenHead(v, d, ino, src, end);
    HeadIs(v, d, head, ino, bytes, blks);
    TapeTold(v, d, head, parts, segs, blks, src, ino, bytes, [end]);
    assert hdr == head[0];
    var nblk := BlocksFor(v, Signed32(inode.size));
    var da := new nat[nblk];
    ghost var d0, s0, st := fs.dev, fs.stack, Story(src, d, ino, bytes, [end]);
    MappedReadable(v, d, addr, src);
    RestoredStart(v, st, d0, s0);
    ok, next := ReadBlocks(fs, dr, hdr, da, _ => 0, st, blks, parts, segs);
    ghost var d1, s1, new1 := fs.dev, fs.stack, da[..];
    RestoredNumbers(fs.v, st, d0, s0, d1, s1, new1);
    ds := new nat[Naddr(fs.v)];
    CapacitySame(v, fs.v, d, addr, src);
    var rc := SetBlocks(fs, ds, da[..]);
    Carried(v, d, addr, src, fs.v, d0, s0, d1, s1, new1, fs.dev, fs.stack, ds[..], st, Signed32(inode.size));
  }

  /** An unreadable size: a file of 100 bytes on a little-endian volume is restored as
      one of 6553600. */
  lemma Misread(h: Block, v: Vol)
    requires |h| == v.Bsize() && v.order == Little && InodeAt(v, h, C_DINODE).size == 100
    ensures InodeAt(Reader(v), h, C_DINODE).size == 6553600 && !Readable(v.order, 100)
  {
  }

  lemma RestoredStart(v: Vol, st: Story, d0: Disk, s0: seq<nat>)
    requires forall j | 0 <= j < |st.src| && st.src[j] != 0 :: v.InData(st.src[j])
    requires Sized(v, st.d) && Count(st.src) <= |s0|
    ensures Restored(st, d0, s0, d0, s0, [])
  {
    hide Got;
    GotNothing(st.d, st.src, d0, s0);
  }

  lemma CapacitySame(v: Vol, w: Vol, d: Disk, addr: seq<nat>, src: seq<nat>)
    requires FileMapped(v, d, addr, src) && w.nindir == v.nindir && w.laddr == v.laddr
    ensures |src| <= Capacity(w)
  {
    hide MapBuilt, InodeRefs;
  }

  /** The same for every position below the size. */
  lemma Carried(v: Vol, d: Disk, addr: seq<nat>, src: seq<nat>, w: Vol, d0: Disk, s0: seq<nat>,
                d1: Disk, s1: seq<nat>, da: seq<nat>, d2: Disk, s2: seq<nat>, ds: seq<nat>,
                st: Story, size: nat)
    requires Sized(v, d) && FileMapped(v, d, addr, src) && IsMap(v, addr) && IsMap(w, ds)
    requires w.nindir == v.nindir && w.laddr == v.laddr && st.src == src && st.d == d
    requires Restored(st, d0, s0, d1, s1, da) && |da| == |src| && NoDup(s0) && AllInData(w, s0)
    requires SetTo(w, d1, s1, d2, s2, ds, da, Naddr(w)) && |src| == BlocksFor(v, size)
    requires forall lbn: nat ::
               MapOf(w, d2, ds, lbn) == if lbn < |da| && lbn < Capacity(w) then da[lbn] else 0
    ensures forall lbn: nat | lbn < |src| :: MapOf(w, d2, ds, lbn) == 0 <==> MapOf(v, d, addr, lbn) == 0
    ensures forall p: nat | p < size :: FileByte(w, d2, ds, p) == FileByte(v, d, addr, p)
  {
    hide FileMapped, Restored, SetTo, MapOf, FileByte, Capacity;
    forall p: nat | p < size ensures FileByte(w, d2, ds, p) == FileByte(v, d, addr, p) {
      BlockBelow(p, size, v.Bsize());
      SameBytes(v, d, addr, src, w, d0, s0, d1, s1, da, d2, s2, ds, st, p);
    }
    forall lbn: nat | lbn < |src| ensures MapOf(w, d2, ds, lbn) == 0 <==> MapOf(v, d, addr, lbn) == 0 {
      var p := FirstByte(v, lbn);
      SameBytes(v, d, addr, src, w, d0, s0, d1, s1, da, d2, s2, ds, st, p);
    }
  }

  lemma FirstByte(v: Vol, lbn: nat) returns (p: nat)
    ensures BlockOf(v, p) == lbn
  {
    p := lbn * v.Bsize();
    DivModUnique(p, v.Bsize(), lbn, 0);
  }
}

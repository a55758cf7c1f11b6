/** The block check: count every reference of every inode, walk the free list as
    the allocator would, and sweep the data region. */
module BlockCheck {
  import opened Arith
  import opened Endian
  import opened Layout
  import opened FreeList
  import opened BlockMap
  import opened BlockTree
  import opened InodeMap
  import opened Multisets

  /** read_inode: a free dinode where the number lies past the i-list. */
  function ReadDinode(v: Vol, d: Disk, ino: nat): (di: Dinode)
    requires Sized(v, d) && 1 <= ino
    ensures IsMap(v, di.addr)
  {
    if InodeBlock(v, ino) < v.isize then InodeAt(v, d[InodeBlock(v, ino)], InodeOffset(v, ino))
    else Dinode(0, 0, 0, seq(Naddr(v), _ => 0))
  }

  lemma ReadIs(v: Vol, d: Disk, ino: nat)
    requires Sized(v, d) && 1 <= ino && InodeBlock(v, ino) < v.isize
    ensures ReadDinode(v, d, ino) == InodeAt(v, d[InodeBlock(v, ino)], InodeOffset(v, ino))
  {
  }

  /** What inode ino references, when it is a regular file or a directory. */
  function InoRefs(v: Vol, d: Disk, ino: nat): multiset<nat>
    requires Sized(v, d) && 1 <= ino
  {
    var di := ReadDinode(v, d, ino);
    if di.HasMap() then InodeRefs(v, d, di.addr) else multiset{}
  }

  /** The highest inode number the i-list holds. */
  function Ninodes(v: Vol): nat { Times(v.isize - 2, v.Inopb()) }

  lemma InodeInList(v: Vol, ino: nat)
    requires 1 <= ino <= Ninodes(v)
    ensures 2 <= InodeBlock(v, ino) < v.isize
  {
    var k := v.Inopb();
    TimesIs(v.isize - 2, k);
    assert ino + 2 * k - 1 < v.isize * k by {
      assert (v.isize - 2) * k == v.isize * k - 2 * k;
    }
    DivModIs(ino + 2 * k - 1, k);
    DivBound(ino + 2 * k - 1, k, v.isize);
    DivAtLeast(ino + 2 * k - 1, k, 2);
  }

  /** The i-list holds an inode exactly when its block lies before the data region. */
  lemma IlistHolds(v: Vol, ino: nat)
    requires 1 <= ino
    ensures ino <= Ninodes(v) <==> InodeBlock(v, ino) < v.isize
    ensures 2 <= InodeBlock(v, ino)
  {
    var k := v.Inopb();
    var x := ino + 2 * k - 1;
    TimesIs(v.isize - 2, k);
    assert (v.isize - 2) * k == v.isize * k - 2 * k;
    DivModIs(x, k);
    DivAtLeast(x, k, 2);
    if ino <= Ninodes(v) {
      InodeInList(v, ino);
    } else {
      DivAtLeast(x, k, v.isize);
    }
  }

  /** The e-th 64 bytes of block b lie in the i-list. */
  predicate InIlist(v: Vol, b: nat, e: nat) { 2 <= b < v.isize && 64 * e + 64 <= v.Bsize() }

  /** The slots of the i-list, in order, are the dinodes of 1, 2, and so on. */
  lemma DinodeOf(v: Vol, b: nat, e: nat) returns (ino: nat)
    requires InIlist(v, b, e)
    ensures 1 <= ino <= Ninodes(v) && InodeBlock(v, ino) == b && InodeOffset(v, ino) == 64 * e
    ensures ino == (b - 2) * v.Inopb() + e + 1
  {
    hide Div, Mod, Times, InodeAt;
    var k := v.Inopb();
    BlockDigits(k, b, e);
    ino := (b - 2) * k + e + 1;
    IlistHolds(v, ino);
  }

  lemma BlockDigits(k: nat, b: nat, e: nat)
    requires 2 <= b && e < k
    ensures (b - 2) * k + e + 1 >= 1
    ensures var x := (b - 2) * k + e + 1 + 2 * k - 1;
            Div(x, k) == b && Mod(x, k) == e
  {
    var x := (b - 2) * k + e + 1 + 2 * k - 1;
    assert x == b * k + e by {
      assert (b - 2) * k == b * k - 2 * k;
    }
    DivModUnique(x, k, b, e);
    DivModIs(x, k);
  }

  /** Counted in bytes of the image, the dinodes follow each other from block 2 on. */
  lemma DinodePlace(v: Vol, ino: nat)
    requires 1 <= ino <= Ninodes(v)
    ensures InodeOffset(v, ino) % 64 == 0 && InIlist(v, InodeBlock(v, ino), InodeOffset(v, ino) / 64)
    ensures v.Bsize() % 64 == 0 ==>
              InodeBlock(v, ino) * v.Bsize() + InodeOffset(v, ino) == 2 * v.Bsize() + 64 * (ino - 1)
  {
    hide *;
    IlistHolds(v, ino);
    OffsetIs(v, ino);
    if v.Bsize() % 64 == 0 {
      BytesOf(v, ino);
    }
  }

  lemma OffsetIs(v: Vol, ino: nat)
    requires 1 <= ino && 2 <= InodeBlock(v, ino) < v.isize
    ensures InodeOffset(v, ino) % 64 == 0 && InIlist(v, InodeBlock(v, ino), InodeOffset(v, ino) / 64)
  {
    hide InodeBlock, Mod;
    var r := Mod(ino + 2 * v.Inopb() - 1, v.Inopb());
    assert InodeOffset(v, ino) == 64 * r;
  }

  lemma BytesOf(v: Vol, ino: nat)
    requires 1 <= ino && v.Bsize() % 64 == 0
    ensures InodeBlock(v, ino) * v.Bsize() + InodeOffset(v, ino) == 2 * v.Bsize() + 64 * (ino - 1)
  {
    hide Div, Mod;
    var k := v.Inopb();
    assert v.Bsize() == 64 * k;
    PlaceBytes(k, ino);
  }

  lemma PlaceBytes(k: nat, ino: nat)
    requires k > 0 && ino >= 1
    ensures var x := ino + 2 * k - 1;
            Div(x, k) * (64 * k) + Mod(x, k) * 64 == 2 * (64 * k) + 64 * (ino - 1)
  {
    var x := ino + 2 * k - 1;
    DivModIs(x, k);
    DivMul(x, k);
    var q := x / k;
    assert q * (64 * k) == 64 * (q * k) by { Swap(q, 64, k); }
  }

  lemma DivMul(x: nat, n: nat)
    requires n > 0
    ensures x == x / n * n + x % n
  {
  }

  lemma Swap(a: nat, b: nat, c: nat)
    ensures a * (b * c) == b * (a * c)
  {
  }

  /** What the file in a slot of the i-list refers to. */
  function FileRefs(v: Vol, d: Disk, b: nat, e: nat): multiset<nat>
    requires Sized(v, d) && InIlist(v, b, e)
  {
    var di := InodeAt(v, d[b], 64 * e);
    if di.HasMap() then InodeRefs(v, d, di.addr) else multiset{}
  }

  /** How many of inodes 1..n are allocated. */
  function Allocated(v: Vol, d: Disk, n: nat): (c: nat)
    requires Sized(v, d) && n <= Ninodes(v)
    ensures c <= n
  {
    if n == 0 then 0
    else Allocated(v, d, n - 1) + if ReadDinode(v, d, n).mode != 0 then 1 else 0
  }

  function PerInode(v: Vol, d: Disk): (s: seq<multiset<nat>>)
    requires Sized(v, d)
    ensures |s| == Ninodes(v)
  {
    seq(Ninodes(v), i requires 0 <= i < Ninodes(v) => InoRefs(v, d, i + 1))
  }

  lemma PerInodeAt(v: Vol, d: Disk, i: nat)
    requires Sized(v, d) && i < Ninodes(v)
    ensures PerInode(v, d)[i] == InoRefs(v, d, i + 1)
  {
  }

  /** Every reference made by any inode of the volume. */
  function VolumeRefs(v: Vol, d: Disk): multiset<nat>
    requires Sized(v, d)
  {
    Sum(PerInode(v, d))
  }

  /** The property the check is after: the blocks of the data region are
      partitioned, each occurring once in the inode trees or once on the free list. */
  ghost predicate Partition(v: Vol, refs: multiset<nat>, s: seq<nat>) {
    forall b: nat :: (refs + multiset(s))[b] == if v.InData(b) then 1 else 0
  }

  ghost predicate CleanBlocks(v: Vol, d: Disk)
    requires Sized(v, d) && SUPERBLK < |d|
  {
    exists s: seq<nat> ::
      Chain(v, d, SbCache(v, d[SUPERBLK]), s) && Partition(v, VolumeRefs(v, d), s)
  }

  /** References are in range and none is made twice. */
  ghost predicate CleanRefs(v: Vol, m: multiset<nat>) {
    AllData(v, m) && Distinct(m)
  }

  lemma FileIs(v: Vol, d: Disk, ino: nat)
    requires Sized(v, d) && 1 <= ino <= Ninodes(v)
    ensures InodeOffset(v, ino) % 64 == 0 && InIlist(v, InodeBlock(v, ino), InodeOffset(v, ino) / 64)
    ensures InoRefs(v, d, ino) == FileRefs(v, d, InodeBlock(v, ino), InodeOffset(v, ino) / 64)
  {
    hide InodeRefs, InodeAt, InodeOffset, InodeBlock, InIlist, Ninodes;
    DinodePlace(v, ino);
    ReadIs(v, d, ino) by { IlistHolds(v, ino); }
  }

  lemma FileOf(v: Vol, d: Disk, b: nat, e: nat) returns (ino: nat)
    requires Sized(v, d) && InIlist(v, b, e)
    ensures 1 <= ino <= Ninodes(v) && InodeBlock(v, ino) == b && InodeOffset(v, ino) == 64 * e
    ensures InoRefs(v, d, ino) == FileRefs(v, d, b, e)
  {
    hide InodeRefs, InodeAt, InodeOffset, InodeBlock, Ninodes;
    ino := DinodeOf(v, b, e);
    ReadIs(v, d, ino);
  }

  /** A block is referenced in the volume exactly when some slot of the i-list holds a
      file that refers to it. */
  lemma VolumeFiles(v: Vol, d: Disk, x: nat)
    requires Sized(v, d)
    ensures x in VolumeRefs(v, d) <==> exists b: nat, e: nat :: InIlist(v, b, e) && x in FileRefs(v, d, b, e)
  {
    hide InoRefs, FileRefs, InIlist, Ninodes, InodeBlock, InodeOffset, Sum;
    var k := PerInode(v, d);
    if x in VolumeRefs(v, d) {
      var i := SumWitness(k, x);
      PerInodeAt(v, d, i);
      FileIs(v, d, i + 1);
    }
    if b: nat, e: nat :| InIlist(v, b, e) && x in FileRefs(v, d, b, e) {
      var ino := FileOf(v, d, b, e);
      PerInodeAt(v, d, ino - 1);
      SumHas(k, ino - 1);
      assert x in k[ino - 1];
    }
  }

  /** The files of the i-list stay in the data region and share no block. */
  ghost predicate FilesApart(v: Vol, d: Disk)
    requires Sized(v, d)
  {
    && (forall b: nat, e: nat | InIlist(v, b, e) ::
          AllData(v, FileRefs(v, d, b, e)) && Distinct(FileRefs(v, d, b, e)))
    && (forall b: nat, e: nat, c: nat, g: nat | InIlist(v, b, e) && InIlist(v, c, g) && (b != c || e != g) ::
          FileRefs(v, d, b, e) !! FileRefs(v, d, c, g))
  }

  lemma CleanFiles(v: Vol, d: Disk)
    requires Sized(v, d) && CleanRefs(v, VolumeRefs(v, d))
    ensures FilesApart(v, d)
  {
    hide InoRefs, FileRefs, InIlist, Ninodes, InodeBlock, InodeOffset, Sum;
    var k := PerInode(v, d);
    forall b: nat, e: nat | InIlist(v, b, e)
      ensures AllData(v, FileRefs(v, d, b, e)) && Distinct(FileRefs(v, d, b, e))
    {
      var i := FileOf(v, d, b, e);
      PerInodeAt(v, d, i - 1);
      SumHas(k, i - 1);
      WithinClean(v, FileRefs(v, d, b, e), VolumeRefs(v, d));
    }
    forall b: nat, e: nat, c: nat, g: nat | InIlist(v, b, e) && InIlist(v, c, g) && (b != c || e != g)
      ensures FileRefs(v, d, b, e) !! FileRefs(v, d, c, g)
    {
      var i := FileOf(v, d, b, e);
      var j := FileOf(v, d, c, g);
      PerInodeAt(v, d, i - 1);
      PerInodeAt(v, d, j - 1);
      SumHasTwo(k, i - 1, j - 1);
      TwiceIn(FileRefs(v, d, b, e), FileRefs(v, d, c, g), VolumeRefs(v, d));
    }
  }

  lemma WithinClean(v: Vol, a: multiset<nat>, m: multiset<nat>)
    requires a <= m && CleanRefs(v, m)
    ensures AllData(v, a) && Distinct(a)
  {
    forall x ensures a[x] <= 1 && (x in a ==> x in m) {
      assert a[x] <= m[x];
    }
  }

  lemma TwiceIn(a: multiset<nat>, b: multiset<nat>, m: multiset<nat>)
    requires a + b <= m && Distinct(m)
    ensures a !! b && b !! a
  {
    forall x ensures a[x] == 0 || b[x] == 0 {
      assert (a + b)[x] <= m[x];
    }
  }

  function Saturated(n: nat): nat { if n < 0x7f then n else 0x7f }

  class CK {
    const v: Vol
    const dev: Disk
    /** Per block: 0x7f = references, saturating; 0x80 = on the free list. */
    const use: array<byte>
    var errors: nat

    ghost predicate Valid()
      reads this, use
    {
      Sized(v, dev) && SUPERBLK < |dev| && use.Length == v.fsize
    }

    /** The counters after vis has been walked off the free list, on top of refs m. */
    ghost predicate Walked(m: multiset<nat>, vis: seq<nat>)
      reads this, use
    {
      && Valid() && NoDup(vis) && AllInData(v, vis)
      && (forall b | 0 <= b < v.fsize ::
            use[b] == (if v.InData(b) then Saturated(m[b]) else 0)
                      + (if b in vis then 0x80 else 0))
    }

    /** The counters say exactly what has been referenced so far (m), and an error
        has been reported exactly when some reference was out of range or repeated. */
    ghost predicate Tallied(m: multiset<nat>)
      reads this, use
    {
      var reported := errors == 0 <==> CleanRefs(v, m);
      Walked(m, []) && reported
    }

    constructor (vol: Vol, image: Disk)
      requires Sized(vol, image) && SUPERBLK < |image|
      ensures v == vol && dev == image && errors == 0 && fresh(use)
      ensures Tallied(multiset{})
    {
      v, dev, errors := vol, image, 0;
      use := new byte[vol.fsize](_ => 0);
    }

    method Mark(bno: nat, ghost m: multiset<nat>)
      requires Tallied(m)
      modifies this`errors, use
      ensures Tallied(m + if bno == 0 then multiset{} else multiset{bno})
    {
      if bno == 0 {
        assert m + multiset{} == m;
        return;
      }
      ghost var m' := m + multiset{bno};
      MarkClean(v, m, bno);
      if bno < v.isize || bno >= v.fsize {
        errors := errors + 1;
        return;
      }
      if use[bno] % 0x80 == 0 {
        use[bno] := use[bno] + 1;
      } else {
        if use[bno] % 0x80 < 0x7f {
          use[bno] := use[bno] + 1;
        }
        errors := errors + 1;
      }
      assert m'[bno] == m[bno] + 1 && forall b | b != bno :: m'[b] == m[b];
    }

    method MarkIndirect(bno: nat, level: nat, ghost m: multiset<nat>)
      requires Tallied(m) && level >= 1
      modifies this`errors, use
      ensures Tallied(m + Refs(v, dev, bno, level))
      decreases level, 1
    {
      if bno == 0 {
        assert m + multiset{} == m;
        return;
      }
      Mark(bno, m);
      if bno < v.isize || bno >= v.fsize {
        return;
      }
      MarkEntries(bno, level, m + multiset{bno});
      assert m + multiset{bno} + Sum(KidsFrom(v, dev, bno, level, 0))
          == m + Refs(v, dev, bno, level);
    }

    method MarkEntries(bno: nat, level: nat, ghost m: multiset<nat>)
      requires Tallied(m) && level >= 1 && v.InData(bno)
      modifies this`errors, use
      ensures Tallied(m + Sum(KidsFrom(v, dev, bno, level, 0)))
      decreases level, 0
    {
      ghost var k := KidsFrom(v, dev, bno, level, 0);
      assert m + Sum(k[..0]) == m;
      for i := 0 to v.nindir
        invariant Tallied(m + Sum(k[..i]))
      {
        var e := Get32(v.order, dev[bno], 4 * i);
        assert e == Ptr(v, dev, bno, i);
        MarkTree(e, level - 1, m + Sum(k[..i]));
        SumNext(k, i, m);
      }
      assert k[..|k|] == k;
    }

    /** A pointer of any level: data is marked, an indirect block walked. */
    method MarkTree(bno: nat, level: nat, ghost m: multiset<nat>)
      requires Tallied(m)
      modifies this`errors, use
      ensures Tallied(m + Refs(v, dev, bno, level))
      decreases level, 2
    {
      if level == 0 {
        Mark(bno, m);
      } else {
        MarkIndirect(bno, level, m);
      }
    }
  
    /** Every reference of one regular file or directory. */
    method MarkInode(addr: seq<nat>, ghost m: multiset<nat>)
      requires Tallied(m) && IsMap(v, addr)
      modifies this`errors, use
      ensures Tallied(m + InodeRefs(v, dev, addr))
    {
      MarkSlots(addr, SlotRefs(v, dev, addr, 0), m);
    }

    method MarkSlots(addr: seq<nat>, ghost k: seq<multiset<nat>>, ghost m: multiset<nat>)
      requires Tallied(m) && |addr| == |k| == v.laddr + 3
      requires forall i | 0 <= i < |k| :: k[i] == Refs(v, dev, addr[i], SlotLevel(v, i))
      modifies this`errors, use
      ensures Tallied(m + Sum(k))
    {
      var n := v.laddr;
      assert m + Sum(k[..0]) == m;
      for i := 0 to n
        invariant Tallied(m + Sum(k[..i]))
      {
        MarkSlot(addr[i], 0, k, i, m);
      }
      MarkSlot(addr[n], 1, k, n, m);
      MarkSlot(addr[n + 1], 2, k, n + 1, m);
      MarkSlot(addr[n + 2], 3, k, n + 2, m);
      assert k[..n + 3] == k;
    }

    method MarkSlot(p: nat, level: nat, ghost k: seq<multiset<nat>>, ghost i: nat, ghost m: multiset<nat>)
      requires i < |k| && Tallied(m + Sum(k[..i])) && k[i] == Refs(v, dev, p, level)
      modifies this`errors, use
      ensures Tallied(m + Sum(k[..i + 1]))
    {
      MarkTree(p, level, m + Sum(k[..i]));
      SumNext(k, i, m);
    }

    method ReadInode(ino: nat) returns (di: Dinode)
      requires Valid() && 1 <= ino
      ensures di == ReadDinode(v, dev, ino)
    {
      di := ReadDinode(v, dev, ino);
    }

    /** Phase 1: every allocated inode's block tree; counts the allocated inodes. */
    method MarkInodes() returns (files: nat)
      requires Tallied(multiset{})
      modifies this`errors, use
      ensures Tallied(VolumeRefs(v, dev))
      ensures files == Allocated(v, dev, Ninodes(v))
    {
      hide InoRefs, ReadDinode, InodeRefs, Ninodes;
      ghost var k := PerInode(v, dev);
      ghost var none := multiset{};
      assert none + Sum(k[..0]) == none;
      files := 0;
      for ino := 1 to Ninodes(v) + 1
        invariant Tallied(none + Sum(k[..ino - 1]))
        invariant files == Allocated(v, dev, ino - 1)
      {
        assert k[ino - 1] == InoRefs(v, dev, ino);
        var used := MarkIno(ino, none + Sum(k[..ino - 1]));
        files := files + used;
        SumNext(k, ino - 1, none);
      }
      assert k[..|k|] == k && none + Sum(k) == Sum(k);
    }

    method MarkIno(ino: nat, ghost m: multiset<nat>) returns (used: nat)
      requires Tallied(m) && 1 <= ino
      modifies this`errors, use
      ensures Tallied(m + InoRefs(v, dev, ino))
      ensures used == if ReadDinode(v, dev, ino).mode != 0 then 1 else 0
    {
      var di := ReadInode(ino);
      used := if di.mode != 0 then 1 else 0;
      if di.mode == 0 || !di.HasMap() {
        assert m + multiset{} == m;
        return;
      }
      MarkInode(di.addr, m);
    }

    /** Phase 2: the chained free list, traversed as the allocator would.  Each turn
        either marks a block not marked before or uses up a cache entry, so it ends on
        any contents.  It reports nothing exactly when the list is acceptable. */
    method WalkFree(ghost m: multiset<nat>) returns (ghost vis: seq<nat>)
      requires Walked(m, [])
      modifies this`errors, use
      ensures Walked(m, vis) && errors >= old(errors)
      ensures errors == old(errors) ==> GoodFree(v, dev, SbCache(v, dev[SUPERBLK]), m, vis)
      ensures (exists s :: GoodFree(v, dev, SbCache(v, dev[SUPERBLK]), m, s))
              ==> errors == old(errors)
    {
      hide OnTrack, GoodFree, Chain;
      ghost var c0 := SbCache(v, dev[SUPERBLK]);
      var c := SbCache(v, dev[SUPERBLK]);
      vis := [];
      StartTrack(v, dev, c0, m);
      while true
        invariant |c.free| == NICFREE && c.nfree <= NICFREE
        invariant Walked(m, vis) && errors >= old(errors)
        invariant OnTrack(v, dev, c0, c, m, vis, errors == old(errors))
        decreases v.fsize - |vis|, c.nfree
      {
        ghost var clean := errors == old(errors);
        if c.nfree <= 0 {
          NoneLeft(v, dev, c0, c, m, vis, clean);
          errors := errors + 1;
          break;
        }
        var bno := c.free[c.nfree - 1];
        if bno == 0 {
          EndTrack(v, dev, c0, c, m, vis, clean);
          return;
        }
        if bno < v.isize || bno >= v.fsize {
          BadTop(v, dev, c0, c, m, vis, clean);
          errors := errors + 1;
          c := c.(nfree := c.nfree - 1);
          OffTrack(v, dev, c0, c, m, vis);
          continue;
        }
        if use[bno] % 0x80 != 0 {
          BadTop(v, dev, c0, c, m, vis, clean);
          errors := errors + 1;
        }
        if use[bno] >= 0x80 {
          BadTop(v, dev, c0, c, m, vis, clean);
          errors := errors + 1;
          break;
        }
        NextTrack(v, dev, c0, c, m, vis, clean, errors == old(errors));
        use[bno] := use[bno] + 0x80;
        vis := vis + [bno];
        NoDupBound(vis, v.fsize);
        c := if c.nfree > 1 then c.(nfree := c.nfree - 1) else ChainBlock(v, dev[bno]);
      }
    }

    /** The low seven bits tell whether a block is referenced. */
    lemma UsedBits(m: multiset<nat>, vis: seq<nat>)
      requires Walked(m, vis)
      ensures forall b: nat | v.InData(b) :: use[b] % 0x80 == 0 <==> m[b] == 0
    {
    }

    lemma UseBits(m: multiset<nat>, vis: seq<nat>, i: nat)
      requires Walked(m, vis) && v.InData(i)
      ensures use.Length > i && (use[i] % 0x80 != 0 <==> m[i] != 0) && (use[i] >= 0x80 <==> i in vis)
    {
    }

    lemma WalkedIn(m: multiset<nat>, vis: seq<nat>)
      requires Walked(m, vis)
      ensures AllInData(v, vis) && NoDup(vis) && forall b | b in vis :: b < v.fsize
    {
    }

    lemma SweptNone(m: multiset<nat>, vis: seq<nat>, lo: nat)
      requires Walked(m, vis) && lo == v.isize
      ensures |MissingBlocks(lo, lo, m, vis)| == 0 && |BothBlocks(lo, lo, m, vis)| == 0 && |SeenBelow(vis, lo)| == 0
    {
      assert MissingBlocks(lo, lo, m, vis) == {} && BothBlocks(lo, lo, m, vis) == {} && SeenBelow(vis, lo) == {};
    }

    /** Phase 3: sweep the data region for blocks that are neither used nor free, and
        blocks that are both. */
    method Sweep(ghost m: multiset<nat>, ghost vis: seq<nat>)
      returns (missing: nat, both: nat, freec: nat)
      requires Walked(m, vis)
      modifies this`errors
      ensures missing == |MissingBlocks(v.isize, v.fsize, m, vis)|
      ensures both == |BothBlocks(v.isize, v.fsize, m, vis)| && freec == |vis|
      ensures missing == 0 <==> forall b: nat | v.InData(b) :: m[b] != 0 || b in vis
      ensures both == 0 <==> forall b | b in vis :: m[b] == 0
      ensures errors == old(errors) + (if missing != 0 then 1 else 0) + if both != 0 then 1 else 0
    {
      hide MissingBlocks, BothBlocks, Walked;
      missing, both, freec := 0, 0, 0;
      SweptNone(m, vis, v.isize);
      for i := v.isize to v.fsize
        invariant errors == old(errors) && v.isize <= i <= v.fsize
        invariant missing == |MissingBlocks(v.isize, i, m, vis)|
        invariant both == |BothBlocks(v.isize, i, m, vis)|
        invariant freec == |SeenBelow(vis, i)|
      {
        UseBits(m, vis, i);
        SweptOne(v.isize, i, m, vis);
        var u, f := use[i] % 0x80 != 0, use[i] >= 0x80;
        if f {
          freec := freec + 1;
        }
        if u && f {
          both := both + 1;
        }
        if !u && !f {
          missing := missing + 1;
        }
      }
      WalkedIn(m, vis);
      NoneOf(v, m, vis);
      SeenAll(vis, v.fsize);
      if missing != 0 {
        errors := errors + 1;
      }
      if both != 0 {
        errors := errors + 1;
      }
    }

    /** The whole block check, for any contents of the disk: no error is reported
        exactly when the data region is partitioned between inode trees and the
        free list. */
    method CheckBlocks() returns (missing: nat, both: nat, freec: nat)
      requires Tallied(multiset{})
      modifies this`errors, use
      ensures errors == 0 <==> CleanBlocks(v, dev)
      ensures errors == 0 ==>
                exists s: seq<nat> ::
                  && Chain(v, dev, SbCache(v, dev[SUPERBLK]), s)
                  && Partition(v, VolumeRefs(v, dev), s)
                  && freec == |s|
      ensures forall s | GoodFree(v, dev, SbCache(v, dev[SUPERBLK]), VolumeRefs(v, dev), s) ::
                && freec == |s| && both == 0 && missing == |MissingBlocks(v.isize, v.fsize, VolumeRefs(v, dev), s)|
                && (missing == 0 <==>
                      forall b: nat | v.InData(b) :: VolumeRefs(v, dev)[b] != 0 || b in s)
      // told from the slots of the i-list
      ensures errors == 0 ==> FilesApart(v, dev)
    {
      ghost var m := VolumeRefs(v, dev);
      var files := MarkInodes();
      ghost var vis := WalkFree(m);
      missing, both, freec := Sweep(m, vis);
      forall s | GoodFree(v, dev, SbCache(v, dev[SUPERBLK]), m, s) ensures s == vis {
        ChainUnique(v, dev, SbCache(v, dev[SUPERBLK]), s, vis);
      }
      if errors == 0 {
        assert CleanRefs(v, m) && GoodFree(v, dev, SbCache(v, dev[SUPERBLK]), m, vis);
        PartitionOf(v, m, vis);
        CleanFiles(v, dev);
      }
      if CleanBlocks(v, dev) {
        var s: seq<nat> :| Chain(v, dev, SbCache(v, dev[SUPERBLK]), s) && Partition(v, m, s);
        OfPartition(v, m, s);
        assert GoodFree(v, dev, SbCache(v, dev[SUPERBLK]), m, s);
        ChainUnique(v, dev, SbCache(v, dev[SUPERBLK]), s, vis);
      }
    }
  }

  /** Blocks from lo to hi neither referenced nor on the list, and those that are both. */
  ghost function MissingBlocks(lo: nat, hi: nat, m: multiset<nat>, s: seq<nat>): set<nat> {
    set b: nat | lo <= b < hi && m[b] == 0 && b !in s
  }

  ghost function BothBlocks(lo: nat, hi: nat, m: multiset<nat>, s: seq<nat>): set<nat> {
    set b: nat | lo <= b < hi && m[b] != 0 && b in s
  }

  ghost function SeenBelow(s: seq<nat>, hi: nat): set<nat> { set b | b in s && b < hi }

  lemma SweptOne(lo: nat, i: nat, m: multiset<nat>, s: seq<nat>)
    requires lo <= i
    ensures |MissingBlocks(lo, i + 1, m, s)| == |MissingBlocks(lo, i, m, s)| + if m[i] == 0 && i !in s then 1 else 0
    ensures |BothBlocks(lo, i + 1, m, s)| == |BothBlocks(lo, i, m, s)| + if m[i] != 0 && i in s then 1 else 0
    ensures |SeenBelow(s, i + 1)| == |SeenBelow(s, i)| + if i in s then 1 else 0
  {
    SizeMore(MissingBlocks(lo, i, m, s), MissingBlocks(lo, i + 1, m, s), i, m[i] == 0 && i !in s);
    SizeMore(BothBlocks(lo, i, m, s), BothBlocks(lo, i + 1, m, s), i, m[i] != 0 && i in s);
    SizeMore(SeenBelow(s, i), SeenBelow(s, i + 1), i, i in s);
  }

  lemma NoneOf(v: Vol, m: multiset<nat>, s: seq<nat>)
    requires AllInData(v, s)
    ensures |MissingBlocks(v.isize, v.fsize, m, s)| == 0 <==> forall b: nat | v.InData(b) :: m[b] != 0 || b in s
    ensures |BothBlocks(v.isize, v.fsize, m, s)| == 0 <==> forall b | b in s :: m[b] == 0
  {
    var x, y := MissingBlocks(v.isize, v.fsize, m, s), BothBlocks(v.isize, v.fsize, m, s);
    assert |x| == 0 <==> x == {};
    assert |y| == 0 <==> y == {};
    forall b: nat ensures b in x <==> v.InData(b) && m[b] == 0 && b !in s {}
    forall b: nat ensures b in y <==> m[b] != 0 && b in s {}
  }

  lemma SeenAll(s: seq<nat>, hi: nat)
    requires NoDup(s) && forall b | b in s :: b < hi
    ensures |SeenBelow(s, hi)| == |s|
  {
    VisSize(s, SeenBelow(s, hi));
  }

  lemma {:induction false} VisSize(vis: seq<nat>, seen: set<nat>)
    requires NoDup(vis) && forall b :: b in seen <==> b in vis
    ensures |seen| == |vis|
  {
    if vis != [] {
      var x := vis[0];
      assert x !in vis[1..];
      VisSize(vis[1..], seen - {x});
    } else {
      assert seen == {};
    }
  }

  /** s is a free list the checker accepts beside references m. */
  ghost predicate GoodFree(v: Vol, d: Disk, c: Cache, m: multiset<nat>, s: seq<nat>)
    requires Sized(v, d)
  {
    Chain(v, d, c, s) && NoDup(s) && AllInData(v, s) && forall x | x in s :: m[x] == 0
  }

  /** Where the walk stands: clean so far means every completion of the record in
      hand completes the list; and an acceptable list is never faulted. */
  ghost predicate OnTrack(v: Vol, d: Disk, c0: Cache, c: Cache, m: multiset<nat>, vis: seq<nat>,
                          clean: bool)
    requires Sized(v, d)
  {
    && (clean ==>
          && (forall x | x in vis :: m[x] == 0)
          && forall t :: Chain(v, d, c, t) ==> Chain(v, d, c0, vis + t))
    && (forall s :: GoodFree(v, d, c0, m, s) ==>
          clean && vis <= s && Chain(v, d, c, s[|vis|..]))
  }

  /** No free list is acceptable beside these references. */
  ghost predicate NoGood(v: Vol, d: Disk, c0: Cache, m: multiset<nat>)
    requires Sized(v, d)
  {
    forall s :: !GoodFree(v, d, c0, m, s)
  }

  /** A block that is out of range, referenced, or already visited spoils the list. */
  lemma BadTop(v: Vol, d: Disk, c0: Cache, c: Cache, m: multiset<nat>, vis: seq<nat>, clean: bool)
    requires Sized(v, d) && OnTrack(v, d, c0, c, m, vis, clean)
    requires |c.free| == NICFREE && 1 <= c.nfree <= NICFREE && c.free[c.nfree - 1] != 0
    requires var x := c.free[c.nfree - 1]; !v.InData(x) || m[x] != 0 || x in vis
    ensures NoGood(v, d, c0, m)
  {
    forall s | GoodFree(v, d, c0, m, s) ensures false {
      GoodTop(v, d, c0, c, m, vis, clean, s);
    }
  }

  /** In an acceptable list, the block next in turn is good and new. */
  lemma GoodTop(v: Vol, d: Disk, c0: Cache, c: Cache, m: multiset<nat>, vis: seq<nat>, clean: bool,
                s: seq<nat>)
    requires Sized(v, d) && OnTrack(v, d, c0, c, m, vis, clean)
    requires GoodFree(v, d, c0, m, s)
    requires |c.free| == NICFREE && 1 <= c.nfree <= NICFREE && c.free[c.nfree - 1] != 0
    ensures var x := c.free[c.nfree - 1]; v.InData(x) && m[x] == 0 && x !in vis
  {
    var x, t := c.free[c.nfree - 1], s[|vis|..];
    assert Chain(v, d, c, t) && t[0] == x == s[|vis|];
    assert x in s;
    forall i | 0 <= i < |vis| ensures vis[i] != x {
      assert s[i] == vis[i];
    }
  }

  /** A good block on top: it is visited, and the walk goes on with what is left.
      After a fault nothing more is claimed than that no list is acceptable. */
  lemma NextTrack(v: Vol, d: Disk, c0: Cache, c: Cache, m: multiset<nat>, vis: seq<nat>,
                  clean: bool, still: bool)
    requires Sized(v, d)
    requires |c.free| == NICFREE && 1 <= c.nfree <= NICFREE && v.InData(c.free[c.nfree - 1])
    requires OnTrack(v, d, c0, c, m, vis, clean)
    requires still ==> clean && m[c.free[c.nfree - 1]] == 0
    requires !still && clean ==> NoGood(v, d, c0, m)
    ensures OnTrack(v, d, c0, NextCache(v, d, c), m, vis + [c.free[c.nfree - 1]], still)
  {
    var x: nat, n := c.free[c.nfree - 1], NextCache(v, d, c);
    if still {
      forall t | Chain(v, d, n, t) ensures Chain(v, d, c0, vis + [x] + t) {
        ChainStep(v, d, c, t);
        assert vis + [x] + t == vis + ([x] + t);
      }
    }
    forall s | GoodFree(v, d, c0, m, s)
      ensures still && vis + [x] <= s && Chain(v, d, n, s[|vis| + 1..])
    {
      var t := s[|vis|..];
      assert Chain(v, d, c, t) && t[0] == x;
      assert s[|vis| + 1..] == t[1..];
    }
  }

  lemma NoneLeft(v: Vol, d: Disk, c0: Cache, c: Cache, m: multiset<nat>, vis: seq<nat>, clean: bool)
    requires Sized(v, d) && OnTrack(v, d, c0, c, m, vis, clean) && c.nfree == 0
    ensures NoGood(v, d, c0, m)
  {
  }

  /** Once no list is acceptable any record will do. */
  lemma OffTrack(v: Vol, d: Disk, c0: Cache, c: Cache, m: multiset<nat>, vis: seq<nat>)
    requires Sized(v, d) && NoGood(v, d, c0, m)
    ensures OnTrack(v, d, c0, c, m, vis, false)
  {
  }

  lemma StartTrack(v: Vol, d: Disk, c0: Cache, m: multiset<nat>)
    requires Sized(v, d)
    ensures OnTrack(v, d, c0, c0, m, [], true)
  {
    forall t | Chain(v, d, c0, t) ensures Chain(v, d, c0, [] + t) {
      assert [] + t == t;
    }
    forall s | GoodFree(v, d, c0, m, s) ensures Chain(v, d, c0, s[0..]) {
      assert s[0..] == s;
    }
  }

  /** The terminator: what was visited is the whole list. */
  lemma EndTrack(v: Vol, d: Disk, c0: Cache, c: Cache, m: multiset<nat>, vis: seq<nat>, clean: bool)
    requires Sized(v, d) && OnTrack(v, d, c0, c, m, vis, clean)
    requires |c.free| == NICFREE && 1 <= c.nfree <= NICFREE && c.free[c.nfree - 1] == 0
    requires NoDup(vis) && AllInData(v, vis)
    ensures clean ==> GoodFree(v, d, c0, m, vis)
    ensures (exists s :: GoodFree(v, d, c0, m, s)) ==> clean
  {
    assert Chain(v, d, c, []) && vis + [] == vis;
  }

  /** One more reference keeps the references clean exactly when it is in range
      and new. */
  lemma MarkClean(v: Vol, m: multiset<nat>, bno: nat)
    ensures CleanRefs(v, m + multiset{bno}) <==> CleanRefs(v, m) && v.InData(bno) && m[bno] == 0
  {
    var m' := m + multiset{bno};
    assert m'[bno] == m[bno] + 1 && forall b | b != bno :: m'[b] == m[b];
    if CleanRefs(v, m') {
      assert bno in m';
      forall b | b in m ensures v.InData(b) {
        assert b in m';
      }
      forall b ensures m[b] <= 1 {
        assert m'[b] <= 1;
      }
    }
  }

  lemma SumNext(k: seq<multiset<nat>>, i: nat, m: multiset<nat>)
    requires i < |k|
    ensures m + Sum(k[..i + 1]) == m + Sum(k[..i]) + k[i]
  {
    assert k[..i + 1] == k[..i] + [k[i]];
    SumSnoc(k[..i], k[i]);
  }

  /** A good free list beside clean references is a partition, once every block of
      the data region is one or the other. */
  lemma PartitionOf(v: Vol, m: multiset<nat>, s: seq<nat>)
    requires CleanRefs(v, m) && NoDup(s) && AllInData(v, s) && forall x | x in s :: m[x] == 0
    requires forall b: nat | v.InData(b) :: m[b] != 0 || b in s
    ensures Partition(v, m, s)
  {
    forall b: nat ensures (m + multiset(s))[b] == if v.InData(b) then 1 else 0 {
      CountOnce(s, b);
      assert b in m ==> v.InData(b);
      assert m[b] <= 1;
    }
  }

  lemma {:induction false} CountOnce(s: seq<nat>, b: nat)
    requires NoDup(s)
    ensures multiset(s)[b] == if b in s then 1 else 0
  {
    if s != [] {
      assert s == [s[0]] + s[1..];
      assert multiset(s) == multiset{s[0]} + multiset(s[1..]);
      CountOnce(s[1..], b);
      assert s[0] !in s[1..];
    }
  }

  /** And a partition is exactly such a pair. */
  lemma OfPartition(v: Vol, m: multiset<nat>, s: seq<nat>)
    requires Partition(v, m, s)
    ensures CleanRefs(v, m) && NoDup(s) && AllInData(v, s) && forall x | x in s :: m[x] == 0
    ensures forall b: nat | v.InData(b) :: m[b] != 0 || b in s
  {
    var all := m + multiset(s);
    forall b: nat ensures m[b] + multiset(s)[b] == if v.InData(b) then 1 else 0 {
      assert all[b] == if v.InData(b) then 1 else 0;
    }
    forall i | 0 <= i < |s| ensures v.InData(s[i]) {
      assert s[i] in multiset(s);
    }
    forall x | x in s ensures m[x] == 0 {
      assert x in multiset(s);
    }
    forall i, j | 0 <= i < j < |s| ensures s[i] != s[j] {
      assert s == s[..j] + s[j..] && s[i] in s[..j] && s[j] in s[j..];
      assert multiset(s) == multiset(s[..j]) + multiset(s[j..]);
    }
  }
}

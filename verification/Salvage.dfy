/** The free-list salvage of the repairer: rebuild the list from every block no
    inode references. */
module Salvage {
  import opened Endian
  import opened Layout
  import opened FreeList
  import opened InodeMap
  import opened Multisets
  import opened BlockCheck

  /** The unreferenced blocks from lo up to hi, in increasing order. */
  function Unreferenced(m: multiset<nat>, lo: nat, hi: nat): (s: seq<nat>)
    requires lo <= hi
    ensures forall x :: x in s <==> lo <= x < hi && m[x] == 0
    ensures NoDup(s)
    decreases hi - lo
  {
    if lo == hi then []
    else (if m[lo] == 0 then [lo] else []) + Unreferenced(m, lo + 1, hi)
  }

  lemma {:induction false} UnreferencedSorted(m: multiset<nat>, lo: nat, hi: nat, i: nat, j: nat)
    requires lo <= hi && i < j < |Unreferenced(m, lo, hi)|
    ensures Unreferenced(m, lo, hi)[i] < Unreferenced(m, lo, hi)[j]
    decreases hi - lo
  {
    var t := Unreferenced(m, lo + 1, hi);
    if m[lo] == 0 {
      if i > 0 {
        UnreferencedSorted(m, lo + 1, hi, i - 1, j - 1);
      } else {
        assert t[j - 1] in t;
      }
    } else {
      UnreferencedSorted(m, lo + 1, hi, i, j);
    }
  }

  lemma {:induction false} UnreferencedSize(m: multiset<nat>, lo: nat, hi: nat)
    requires lo <= hi
    ensures |Unreferenced(m, lo, hi)| <= hi - lo
    decreases hi - lo
  {
    if lo < hi {
      UnreferencedSize(m, lo + 1, hi);
    }
  }

  lemma UnreferencedNone(m: multiset<nat>, hi: nat)
    ensures Unreferenced(m, hi, hi) == []
  {
  }

  lemma UnreferencedBelow(m: multiset<nat>, lo: nat, hi: nat)
    requires lo < hi
    ensures Unreferenced(m, lo, hi) == if m[lo] == 0 then [lo] + Unreferenced(m, lo + 1, hi)
                                       else Unreferenced(m, lo + 1, hi)
  {
  }

  class Rebuild {
    const v: Vol
    var dev: Disk
    const fr: array<u32>
    var nf: nat
    var tf: nat
    ghost var stack: seq<nat>

    ghost predicate Ready()
      reads this, fr
    {
      Sized(v, dev) && fr.Length == NICFREE
    }

    ghost predicate Valid()
      reads this, fr
    {
      var listed := Ready() && Chain(v, dev, Cache(nf, fr[..]), stack);
      var counted := tf == |stack| <= v.fsize;
      listed && counted
    }

    constructor (vol: Vol, image: Disk)
      requires Sized(vol, image)
      ensures v == vol && dev == image && Ready() && nf == 0 && tf == 0 && fresh(fr)
    {
      v, dev, nf, tf, stack := vol, image, 0, 0, [];
      fr := new u32[NICFREE];
    }

    /** rep_bfree: push, spilling a full cache into the block being pushed. */
    method RepBfree(bno: nat)
      requires bno == 0 ==> Ready() && nf == 0 && tf == 0
      requires bno != 0 ==> Valid() && v.InData(bno) && bno !in stack && |stack| < v.fsize
      modifies this, fr
      ensures Valid() && stack == if bno == 0 then [] else [bno] + old(stack)
      ensures |dev| == |old(dev)|
      ensures forall b | 0 <= b < |dev| && (bno == 0 || b != bno) :: dev[b] == old(dev)[b]
    {
      ghost var c, d := Cache(nf, fr[..]), dev;
      if bno != 0 {
        tf := tf + 1;
      }
      if nf >= NICFREE {
        var fb := EncodeChain(v, Cache(nf, fr[..]));
        dev := dev[bno := fb];
        nf := 0;
      }
      fr[nf] := bno;
      nf := nf + 1;
      if bno == 0 {
        stack := [];
      } else {
        if c.nfree < NICFREE {
          ChainPush(v, dev, c, stack, bno);
          assert fr[..] == c.free[c.nfree := bno];
        } else {
          ChainSpill(v, d, dev, c, stack, bno, fr[..]);
        }
        stack := [bno] + stack;
      }
    }

    /** Terminator first, then every unreferenced block from the top down. */
    method Collect(use: array<byte>, ghost m: multiset<nat>)
      requires Ready() && nf == 0 && tf == 0 && use.Length == v.fsize
      requires use as object != fr as object
      requires forall b: nat | v.InData(b) :: use[b] % 0x80 == 0 <==> m[b] == 0
      modifies this, fr
      ensures Valid() && stack == Unreferenced(m, v.isize, v.fsize)
      ensures |dev| == |old(dev)|
      ensures forall b | 0 <= b < |dev| && b !in stack :: dev[b] == old(dev)[b]
    {
      hide Ready, Chain, NoDup, Unreferenced;
      RepBfree(0);
      UnreferencedNone(m, v.fsize);
      var bno := v.fsize;
      while bno > v.isize
        invariant v.isize <= bno <= v.fsize
        invariant Valid() && stack == Unreferenced(m, bno, v.fsize)
        invariant |dev| == |old(dev)|
        invariant forall b | 0 <= b < |dev| && b !in stack :: dev[b] == old(dev)[b]
        invariant forall b: nat | v.InData(b) :: use[b] % 0x80 == 0 <==> m[b] == 0
      {
        bno := bno - 1;
        UnreferencedSize(m, bno + 1, v.fsize);
        UnreferencedBelow(m, bno, v.fsize);
        assert bno !in stack;
        if use[bno] % 0x80 == 0 {
          RepBfree(bno);
        }
      }
    }
  }

  /** Writing unreferenced blocks and the superblock changes no reference. */
  lemma RefsKept(v: Vol, d: Disk, d': Disk)
    requires Sized(v, d) && Sized(v, d') && |d| == |d'| && SUPERBLK < |d|
    requires forall b | 2 <= b < v.isize :: d'[b] == d[b]
    requires forall b | b in VolumeRefs(v, d) && v.InData(b) && b < |d| :: d'[b] == d[b]
    ensures VolumeRefs(v, d') == VolumeRefs(v, d)
  {
    hide Sized, InoRefs, VolumeRefs, PerInode;
    VolumeIs(v, d);
    VolumeIs(v, d');
    forall i: nat | i < Ninodes(v) ensures PerInode(v, d')[i] == PerInode(v, d)[i] {
      PerInodeAt(v, d, i);
      PerInodeAt(v, d', i);
      InodeInList(v, i + 1);
      InVolume(v, d, i);
      InoKept(v, d, d', i + 1);
    }
    assert PerInode(v, d') == PerInode(v, d);
  }

  lemma VolumeIs(v: Vol, d: Disk)
    requires Sized(v, d)
    ensures |PerInode(v, d)| == Ninodes(v) && VolumeRefs(v, d) == Sum(PerInode(v, d))
  {
  }

  lemma InVolume(v: Vol, d: Disk, i: nat)
    requires Sized(v, d) && i < Ninodes(v)
    ensures InoRefs(v, d, i + 1) <= VolumeRefs(v, d)
  {
    SumHas(PerInode(v, d), i);
    PerInodeAt(v, d, i);
  }

  lemma InoKept(v: Vol, d: Disk, d': Disk, ino: nat)
    requires Sized(v, d) && Sized(v, d') && |d| == |d'|
    requires 1 <= ino && (InodeBlock(v, ino) < v.isize ==> d'[InodeBlock(v, ino)] == d[InodeBlock(v, ino)])
    requires forall b | b in InoRefs(v, d, ino) && v.InData(b) && b < |d| :: d'[b] == d[b]
    ensures InoRefs(v, d', ino) == InoRefs(v, d, ino)
  {
    var di := ReadDinode(v, d, ino);
    if di.HasMap() {
      InodeFrame(v, d, d', di.addr);
    }
  }

  /** The superblock and the rebuilt list, put together. */
  lemma SalvagedImage(v: Vol, image: Disk, dev: Disk, sb: Block, c: Cache, s: seq<nat>)
    requires Sized(v, image) && Sized(v, dev) && |dev| == |image| && SUPERBLK < |image|
    requires |sb| == v.Bsize() && SbCache(v, sb) == c && Chain(v, dev, c, s)
    requires s == Unreferenced(VolumeRefs(v, image), v.isize, v.fsize)
    requires forall b | 0 <= b < |dev| && b !in s :: dev[b] == image[b]
    ensures var image' := dev[SUPERBLK := sb];
            && Sized(v, image') && Chain(v, image', SbCache(v, image'[SUPERBLK]), s)
            && VolumeRefs(v, image') == VolumeRefs(v, image)
  {
    var image' := dev[SUPERBLK := sb];
    forall i | 0 <= i < |s| ensures s[i] != SUPERBLK {
      assert s[i] in s;
    }
    ChainFrame(v, dev, image', c, s);
    RefsKept(v, image, image');
  }

  /** No slot of the i-list holds a file that refers to x. */
  ghost predicate NoFileHas(v: Vol, d: Disk, x: nat)
    requires Sized(v, d)
  {
    forall b: nat, e: nat | InIlist(v, b, e) :: x !in FileRefs(v, d, b, e)
  }

  /** The inodes of the i-list that are free. */
  ghost function FreeInodes(v: Vol, d: Disk): set<nat>
    requires Sized(v, d)
  {
    FreeUpTo(v, d, Ninodes(v))
  }

  ghost function FreeUpTo(v: Vol, d: Disk, n: nat): set<nat>
    requires Sized(v, d)
  {
    set ino: nat | 1 <= ino <= n && ReadDinode(v, d, ino).mode == 0
  }

  lemma {:induction false} FreeCounted(v: Vol, d: Disk, n: nat)
    requires Sized(v, d) && n <= Ninodes(v)
    ensures |FreeUpTo(v, d, n)| == n - Allocated(v, d, n)
  {
    hide ReadDinode, Ninodes;
    if n == 0 {
      assert FreeUpTo(v, d, 0) == {};
    } else {
      FreeCounted(v, d, n - 1);
      if ReadDinode(v, d, n).mode == 0 {
        assert FreeUpTo(v, d, n) == FreeUpTo(v, d, n - 1) + {n};
      } else {
        assert FreeUpTo(v, d, n) == FreeUpTo(v, d, n - 1);
      }
    }
  }

  /** fsck -p's block half (icheck -s): check, then rebuild the list and store it. */
  method SalvageFreeList(v: Vol, image: Disk) returns (image': Disk)
    requires Sized(v, image) && SUPERBLK < |image|
    ensures Sized(v, image') && |image'| == |image|
    ensures var m := VolumeRefs(v, image);
            var s := Unreferenced(m, v.isize, v.fsize);
            && VolumeRefs(v, image') == m
            && Chain(v, image', SbCache(v, image'[SUPERBLK]), s)
            && SbTfree(v, image'[SUPERBLK]) == |s|
            && SbTinode(v, image'[SUPERBLK]) == |FreeInodes(v, image)| % 0x1_0000
            && (forall x: nat :: x in s <==> v.InData(x) && NoFileHas(v, image, x))
            && forall b | 0 <= b < |image| && b != SUPERBLK && b !in s :: image'[b] == image[b]
  {
    var ck := new CK(v, image);
    var files := ck.MarkInodes();
    ghost var m := VolumeRefs(v, image);
    ghost var vis := ck.WalkFree(m);
    ck.UsedBits(m, vis);
    FreeCounted(v, image, Ninodes(v));
    forall x: nat ensures x in m <==> !NoFileHas(v, image, x) {
      VolumeFiles(v, image, x);
    }
    image' := StoreList(v, image, ck.use, m, Ninodes(v) - files);
  }

  method StoreList(v: Vol, image: Disk, use: array<byte>, ghost m: multiset<nat>, tinode: nat)
    returns (image': Disk)
    requires Sized(v, image) && SUPERBLK < |image| && use.Length == v.fsize
    requires m == VolumeRefs(v, image)
    requires forall b: nat | v.InData(b) :: use[b] % 0x80 == 0 <==> m[b] == 0
    ensures Sized(v, image') && |image'| == |image|
    ensures var s := Unreferenced(m, v.isize, v.fsize);
            && VolumeRefs(v, image') == m
            && Chain(v, image', SbCache(v, image'[SUPERBLK]), s)
            && SbTfree(v, image'[SUPERBLK]) == |s|
            && SbTinode(v, image'[SUPERBLK]) == tinode % 0x1_0000
            && forall b | 0 <= b < |image| && b != SUPERBLK && b !in s :: image'[b] == image[b]
  {
    var rb := new Rebuild(v, image);
    rb.Collect(use, m);
    var sb := EncodeFree(v, image[SUPERBLK], Cache(rb.nf, rb.fr[..]), rb.tf, tinode);
    image' := rb.dev[SUPERBLK := sb];
    SalvagedImage(v, image, rb.dev, sb, Cache(rb.nf, rb.fr[..]), rb.stack);
  }

  /** Salvage, then check: whatever the image held, the new list is never faulted and
      the sweep finds every block classified once; so the second check is clean
      exactly when the references themselves are. */
  method SalvageThenCheck(v: Vol, image: Disk)
    returns (image': Disk, errors: nat, missing: nat, both: nat, freec: nat)
    requires Sized(v, image) && SUPERBLK < |image|
    ensures Sized(v, image') && |image'| == |image|
    ensures missing == 0 && both == 0 && freec == SbTfree(v, image'[SUPERBLK])
    ensures VolumeRefs(v, image') == VolumeRefs(v, image)
    ensures forall b | 0 <= b < |image| && b != SUPERBLK && b in VolumeRefs(v, image) :: image'[b] == image[b]
    ensures errors == 0 <==> CleanRefs(v, VolumeRefs(v, image))
    ensures errors == 0 <==> CleanBlocks(v, image')
  {
    image' := SalvageFreeList(v, image);
    ghost var m := VolumeRefs(v, image);
    ghost var s := Unreferenced(m, v.isize, v.fsize);
    var ck := new CK(v, image');
    missing, both, freec := ck.CheckBlocks();
    errors := ck.errors;
    assert GoodFree(v, image', SbCache(v, image'[SUPERBLK]), m, s);
    if CleanRefs(v, m) {
      PartitionOf(v, m, s);
    }
    if CleanBlocks(v, image') {
      ghost var t: seq<nat> :| Chain(v, image', SbCache(v, image'[SUPERBLK]), t)
                               && Partition(v, m, t);
      OfPartition(v, m, t);
    }
  }
}

/** Freeing a device node: its address slot 0 holds a device number, and is freed as if
    it were a block. */
module DeviceNodes {
  import opened Endian
  import opened Layout
  import opened FreeList
  import opened Allocator
  import opened BlockMap
  import opened BlockTree
  import opened InodeMap
  import opened MapOps
  import opened Multisets
  import opened BlockCheck
  import opened Volumes

  /** One block overwritten. */
  ghost predicate OneBlock(d: Disk, d': Disk, b: nat) {
    |d'| == |d| && forall x | 0 <= x < |d| && x != b :: d'[x] == d[x]
  }

  /** Whatever is written over block b, the tree that leads to it still does. */
  lemma {:induction false} StillRefers(v: Vol, d: Disk, d': Disk, p: nat, l: nat, b: nat)
    requires OneBlock(d, d', b) && b in Refs(v, d, p, l)
    ensures b in Refs(v, d', p, l)
    decreases l
  {
    if p != b && l > 0 {
      forall i | 0 <= i < v.nindir ensures Ptr(v, d', p, i) == Ptr(v, d, p, i) {}
      var k, k' := KidsFrom(v, d, p, l, 0), KidsFrom(v, d', p, l, 0);
      assert v.InData(p) && b in Sum(k);
      var i := SumWitness(k, b);
      assert k[i] == Refs(v, d, Ptr(v, d, p, i), l - 1);
      StillRefers(v, d, d', Ptr(v, d, p, i), l - 1, b);
      assert k'[i] == Refs(v, d', Ptr(v, d', p, i), l - 1);
      SumHas(k', i);
    }
  }

  lemma StillInInode(v: Vol, d: Disk, d': Disk, addr: seq<nat>, b: nat)
    requires OneBlock(d, d', b) && b in InodeRefs(v, d, addr)
    ensures b in InodeRefs(v, d', addr)
  {
    var i := SumWitness(SlotRefs(v, d, addr, 0), b);
    StillRefers(v, d, d', addr[i], SlotLevel(v, i), b);
    SumHas(SlotRefs(v, d', addr, 0), i);
  }

  lemma StillInVolume(v: Vol, d: Disk, d': Disk, b: nat)
    requires Sized(v, d) && Sized(v, d') && OneBlock(d, d', b) && v.InData(b) && b in VolumeRefs(v, d)
    ensures b in VolumeRefs(v, d')
  {
    hide PerInode, InodeRefs, VolumeRefs, Ninodes, Sum;
    VolumeSum(v, d);
    VolumeSum(v, d');
    var i := SumWitness(PerInode(v, d), b);
    PerInodeAt(v, d, i);
    PerInodeAt(v, d', i);
    InodeInList(v, i + 1);
    StillInInode(v, d, d', ReadDinode(v, d, i + 1).addr, b);
    SumHas(PerInode(v, d'), i);
  }

  /** A list that ran through block b still does when only b is written over. */
  lemma {:induction false} StillListed(v: Vol, d: Disk, d': Disk, c: Cache, s: seq<nat>, t: seq<nat>, b: nat)
    requires Sized(v, d) && Sized(v, d') && OneBlock(d, d', b)
    requires Chain(v, d, c, s) && Chain(v, d', c, t) && b in s && b != 0
    ensures b in t
    decreases |s|
  {
    var x := c.free[c.nfree - 1];
    if x != b {
      var next := if c.nfree > 1 then c.(nfree := c.nfree - 1) else ChainBlock(v, d[x]);
      assert b in s[1..];
      StillListed(v, d, d', next, s[1..], t[1..], b);
    }
  }

  /** After a push of b the list starts with b; with b taken already, no list there is
      partitions the data region. */
  lemma PushedTwice(v: Vol, d: Disk, d': Disk, c: Cache, s: seq<nat>, b: u32, c': Cache, t: seq<nat>)
    requires Sized(v, d) && Sized(v, d') && OneBlock(d, d', b) && b != 0
    requires Chain(v, d, c, s) && Partition(v, VolumeRefs(v, d), s)
    requires if c.nfree < NICFREE then d' == d && c' == Cache(c.nfree + 1, c.free[c.nfree := b])
             else b < |d| && ChainBlock(v, d'[b]) == c && c'.nfree == 1 && |c'.free| == NICFREE && c'.free[0] == b
    requires Chain(v, d', c', t)
    ensures !Partition(v, VolumeRefs(v, d'), t)
  {
    hide VolumeRefs;
    assert t[0] == b && t != [];
    PopMultiset(t);
    if Partition(v, VolumeRefs(v, d'), t) {
      assert (VolumeRefs(v, d') + multiset(t))[b] == 1;
      assert v.InData(b);
      assert (VolumeRefs(v, d) + multiset(s))[b] == 1;
      if b in s {
        RestListed(v, d, d', c, s, b, c', t);
      } else {
        StillInVolume(v, d, d', b);
      }
      assert false;
    }
  }

  lemma RestListed(v: Vol, d: Disk, d': Disk, c: Cache, s: seq<nat>, b: u32, c': Cache, t: seq<nat>)
    requires Sized(v, d) && Sized(v, d') && OneBlock(d, d', b) && b != 0 && b in s
    requires Chain(v, d, c, s) && Chain(v, d', c', t) && t != []
    requires if c.nfree < NICFREE then d' == d && c' == Cache(c.nfree + 1, c.free[c.nfree := b])
             else b < |d| && ChainBlock(v, d'[b]) == c && c'.nfree == 1 && |c'.free| == NICFREE && c'.free[0] == b
    ensures b in t[1..]
  {
    if c.nfree < NICFREE {
      var rest := Cache(c.nfree, c.free[c.nfree := b]);
      assert c'.(nfree := c'.nfree - 1) == rest;
      ChainStale(v, d, c, rest, s);
      StillListed(v, d, d', rest, s, t[1..], b);
    } else {
      StillListed(v, d, d', c, s, t[1..], b);
    }
  }

  /** ifree_blocks on a device node, whose slots but the first hold 0.  It does not look
      at the file type: the volume stays in order exactly when the device number is 0;
      otherwise no free list in memory makes a partition. */
  method FreeDevice(fs: S5FS, ds: seq<nat>)
    requires Whole(fs) && IsMap(fs.v, ds) && forall i | 1 <= i < |ds| :: ds[i] == 0
    requires ds[0] < 0x100_0000 && (fs.s_nfree < NICFREE || ds[0] < |fs.dev|)
    modifies fs, fs.s_free
    ensures fs.Ready()
    ensures ds[0] == 0 <==>
              exists t: seq<nat> ::
                Chain(fs.v, fs.dev, fs.Cached(), t) && Partition(fs.v, VolumeRefs(fs.v, fs.dev), t)
  {
    hide VolumeRefs, Partition;
    ghost var v, d, s, c := fs.v, fs.dev, fs.stack, fs.Cached();
    for i := 0 to fs.v.laddr
      invariant i == 0 || ds[0] == 0 ==> fs.dev == d && fs.Cached() == c && fs.stack == s && fs.Valid()
      invariant i > 0 && ds[0] != 0 ==> fs.Ready() && Pushed(fs, d, c, ds[0])
    {
      if ds[i] != 0 {
        fs.Push(ds[i]);
      }
    }
    if ds[0] != 0 {
      forall t: seq<nat> | Chain(v, fs.dev, fs.Cached(), t) ensures !Partition(v, VolumeRefs(v, fs.dev), t) {
        PushedTwice(v, d, fs.dev, c, s, ds[0], fs.Cached(), t);
      }
    }
  }

  ghost predicate Pushed(fs: S5FS, d: Disk, c: Cache, b: u32)
    reads fs, fs.s_free
  {
    var c' := fs.Cached();
    && OneBlock(d, fs.dev, b) && Sized(fs.v, fs.dev) && |c.free| == NICFREE && c.nfree <= NICFREE
    && if c.nfree < NICFREE then fs.dev == d && c' == Cache(c.nfree + 1, c.free[c.nfree := b])
       else b < |d| && ChainBlock(fs.v, fs.dev[b]) == c && c'.nfree == 1 && |c'.free| == NICFREE && c'.free[0] == b
  }
}

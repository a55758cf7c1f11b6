/** The block allocator of the writer: a NICFREE-entry cache in the superblock
    whose overflow is spilled into the block being freed. */
module Allocator {
  import opened Endian
  import opened Layout
  import opened FreeList

  class S5FS {
    const v: Vol
    var dev: Disk
    var s_nfree: nat
    const s_free: array<u32>
    var s_tfree: int
    var error: bool

    /** What the free list stands for: the next block to hand out comes first. */
    ghost var stack: seq<nat>

    ghost function Cached(): Cache
      reads this, s_free
    {
      Cache(s_nfree, s_free[..])
    }

    ghost predicate Ready()
      reads this, s_free
    {
      !error && Sized(v, dev) && s_free.Length == NICFREE
    }

    ghost predicate Valid()
      reads this, s_free
    {
      var listed := Ready() && Chain(v, dev, Cached(), stack);
      var apart := NoDup(stack) && AllInData(v, stack);
      listed && apart
    }

    /** A handle over an existing image with no free list loaded yet. */
    constructor (vol: Vol, image: Disk)
      requires Sized(vol, image)
      ensures v == vol && dev == image && Ready() && fresh(s_free)
      ensures s_nfree == 0 && s_tfree == 0 && stack == []
      ensures forall i | 0 <= i < NICFREE :: s_free[i] == 0
    {
      v, dev, error := vol, image, false;
      s_nfree, s_tfree, stack := 0, 0, [];
      s_free := new u32[NICFREE](_ => 0);
    }

    method RdBlk(bno: nat) returns (buf: Block)
      requires Ready() && bno < |dev|
      ensures buf == dev[bno]
    {
      buf := dev[bno];
    }

    /** Once the handle has failed nothing reaches the image any more. */
    method WtBlk(bno: nat, buf: Block)
      requires Sized(v, dev) && bno < |dev| && |buf| == v.Bsize()
      modifies this`dev
      ensures dev == if error then old(dev) else old(dev)[bno := buf]
      ensures old(Ready()) ==> Ready()
      ensures old(Valid()) && bno !in stack ==> Valid()
    {
      if error {
        return;
      }
      if Valid() && bno !in stack {
        ChainFrame(v, dev, dev[bno := buf], Cached(), stack);
      }
      dev := dev[bno := buf];
    }

    /** Spill the cache into block bno. */
    method PutFblk(bno: nat)
      requires Ready() && bno < |dev| && s_nfree <= NICFREE
      modifies this`dev
      ensures Ready() && |dev| == |old(dev)|
      ensures forall b | 0 <= b < |dev| && b != bno :: dev[b] == old(dev)[b]
      ensures ChainBlock(v, dev[bno]) == Cached()
    {
      var blk := EncodeChain(v, Cache(s_nfree, s_free[..]));
      WtBlk(bno, blk);
    }

    /** Load the cache from chain block bno. */
    method GetFblk(bno: nat)
      requires Ready() && bno < |dev|
      modifies this`s_nfree, s_free
      ensures Ready() && Cached() == ChainBlock(v, dev[bno])
    {
      var blk := RdBlk(bno);
      var n := Get16(v.order, blk, 0);
      s_nfree := ClampNfree(n);
      for i := 0 to NICFREE
        invariant s_nfree == ClampNfree(n)
        invariant forall j | 0 <= j < i :: s_free[j] == Get32(v.order, blk, 2 + 4 * j)
      {
        s_free[i] := Get32(v.order, blk, 2 + 4 * i);
      }
      assert s_free[..] == ChainBlock(v, blk).free;
    }

    /** Pop.  On an empty list the handle fails for good. */
    method Alloc() returns (bno: nat)
      requires Valid()
      modifies this`s_nfree, this`s_tfree, this`error, this`stack, s_free
      ensures s_tfree == old(s_tfree) - 1
      ensures old(stack) == [] ==> bno == 0 && error && stack == []
      ensures old(stack) != [] ==>
                Valid() && bno == old(stack)[0] && stack == old(stack)[1..]
    {
      s_tfree := s_tfree - 1;
      s_nfree := s_nfree - 1;
      bno := s_free[s_nfree];
      if bno == 0 {
        error := true;
        return;
      }
      if s_nfree <= 0 {
        GetFblk(bno);
      }
      stack := stack[1..];
    }

    /** Put bno into the cache, whatever it is; a full cache is spilled into block bno
        first. */
    method Push(bno: u32)
      requires Ready() && s_nfree <= NICFREE && (s_nfree < NICFREE || bno < |dev|)
      modifies this`dev, this`s_nfree, this`s_tfree, s_free
      ensures Ready() && |dev| == |old(dev)|
      ensures s_tfree == if bno == 0 then old(s_tfree) else old(s_tfree) + 1
      ensures forall b | 0 <= b < |dev| && b != bno :: dev[b] == old(dev)[b]
      ensures old(s_nfree) < NICFREE ==>
                dev == old(dev) && Cached() == Cache(old(s_nfree) + 1, old(s_free[..])[old(s_nfree) := bno])
      ensures old(s_nfree) == NICFREE ==>
                ChainBlock(v, dev[bno]) == old(Cached()) && s_nfree == 1 && s_free[0] == bno
    {
      if bno != 0 {
        s_tfree := s_tfree + 1;
      }
      if s_nfree >= NICFREE {
        PutFblk(bno);
        s_nfree := 0;
      }
      s_free[s_nfree] := bno;
      s_nfree := s_nfree + 1;
    }

    /** Push.  Freeing block 0 into an empty cache starts a list. */
    method Bfree(bno: nat)
      requires bno == 0 ==> Ready() && s_nfree == 0
      requires bno != 0 ==> Valid() && v.InData(bno) && bno !in stack
      modifies this`dev, this`s_nfree, this`s_tfree, this`stack, s_free
      ensures Valid()
      ensures stack == if bno == 0 then [] else [bno] + old(stack)
      ensures s_tfree == if bno == 0 then old(s_tfree) else old(s_tfree) + 1
      ensures |dev| == |old(dev)|
      ensures forall b | 0 <= b < |dev| && b != bno :: dev[b] == old(dev)[b]
      ensures bno == 0 ==> dev == old(dev)
    {
      ghost var c, d := Cached(), dev;
      Push(bno);
      if bno == 0 {
        stack := [];
      } else {
        if c.nfree < NICFREE {
          ChainPush(v, dev, c, stack, bno);
        } else {
          ChainSpill(v, d, dev, c, stack, bno, s_free[..]);
        }
        stack := [bno] + stack;
      }
    }
  }
}

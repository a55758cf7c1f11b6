/** Whole runs of the allocator: any interleaving of allocations, frees and
    arbitrary writes to blocks that are handed out. */
module AllocRuns {
  import opened Endian
  import opened Layout
  import opened FreeList
  import opened Allocator
  import opened BlockCheck

  datatype Event =
    | Take                          // s5fs_alloc
    | Give(b: nat)                  // s5fs_bfree of a held block
    | Write(held: nat, data: Block) // s5fs_wtblk to a held block

  /** The allocator without a disk: a stack of free blocks and a set of held ones. */
  datatype Pool = Pool(free: seq<nat>, held: set<nat>)

  /** One event on the pool; taking from an empty pool ends the run. */
  function Step(p: Pool, e: Event): Pool {
    match e
    case Take => if p.free == [] then p else Pool(p.free[1..], p.held + {p.free[0]})
    case Give(b) => Pool([b] + p.free, p.held - {b})
    case Write(_, _) => p
  }

  /** The caller's side: it gives back and writes only what it holds. */
  ghost predicate Allowed(v: Vol, p: Pool, e: Event) {
    match e
    case Take => p.free != []
    case Give(b) => b in p.held
    case Write(b, data) => b in p.held && |data| == v.Bsize()
  }

  ghost predicate AllAllowed(v: Vol, p: Pool, es: seq<Event>)
    decreases |es|
  {
    es == [] || (Allowed(v, p, es[0]) && AllAllowed(v, Step(p, es[0]), es[1..]))
  }

  function After(p: Pool, es: seq<Event>): Pool
    decreases |es|
  {
    if es == [] then p else After(Step(p, es[0]), es[1..])
  }

  /** The blocks the run hands out, in order. */
  function Taken(p: Pool, es: seq<Event>): seq<nat>
    decreases |es|
  {
    if es == [] then []
    else
      (if es[0].Take? && p.free != [] then [p.free[0]] else [])
      + Taken(Step(p, es[0]), es[1..])
  }

  /** What a block that is not given back in between holds after es: what was written to
      it last, or what it held before. */
  function Content(es: seq<Event>, b: nat, was: Block): Block
    decreases |es|
  {
    if es == [] then was
    else Content(es[1..], b, if es[0].Write? && es[0].held == b then es[0].data else was)
  }

  /** No block is free twice, held and free, or outside the data region. */
  ghost predicate PoolSound(v: Vol, p: Pool) {
    && NoDup(p.free) && AllInData(v, p.free)
    && (forall b | b in p.held :: v.InData(b) && b !in p.free)
  }

  lemma StepSound(v: Vol, p: Pool, e: Event)
    requires PoolSound(v, p) && Allowed(v, p, e)
    ensures PoolSound(v, Step(p, e))
  {
    if e.Take? {
      assert forall i | 0 <= i < |p.free[1..]| :: p.free[1..][i] == p.free[i + 1];
    }
  }

  /** The chained, spilling allocator refines the pool over every allowed run: it
      hands out the same blocks and ends in a state that stands for the same stack. */
  method Run(fs: S5FS, ghost held: set<nat>, es: seq<Event>) returns (outs: seq<nat>)
    requires fs.Valid() && PoolSound(fs.v, Pool(fs.stack, held))
    requires AllAllowed(fs.v, Pool(fs.stack, held), es)
    modifies fs, fs.s_free
    ensures outs == Taken(Pool(old(fs.stack), held), es)
    ensures fs.Valid() && fs.stack == After(Pool(old(fs.stack), held), es).free
    ensures fs.s_tfree - |fs.stack| == old(fs.s_tfree) - |old(fs.stack)|
    ensures |fs.dev| == |old(fs.dev)|
    ensures forall b: nat | b < |fs.dev| && Give(b) !in es :: fs.dev[b] == Content(es, b, old(fs.dev)[b])
    decreases |es|
  {
    outs := [];
    if es == [] {
      return;
    }
    ghost var p := Pool(fs.stack, held);
    ghost var d := fs.dev;
    StepSound(fs.v, p, es[0]);
    match es[0] {
      case Take =>
        var b := fs.Alloc();
        outs := [b];
      case Give(b) =>
        fs.Bfree(b);
      case Write(b, data) =>
        fs.WtBlk(b, data);
    }
    assert forall b: nat | b < |d| && Give(b) !in es ::
             fs.dev[b] == if es[0].Write? && es[0].held == b then es[0].data else d[b];
    var rest := Run(fs, Step(p, es[0]).held, es[1..]);
    outs := outs + rest;
  }

  /** Every block handed out was free, so in range and held by nobody, and a run
      that gives nothing back hands out a prefix of the list, without repetition. */
  lemma {:induction false} TakenFromList(v: Vol, p: Pool, es: seq<Event>)
    requires PoolSound(v, p) && AllAllowed(v, p, es) && forall e | e in es :: !e.Give?
    ensures Taken(p, es) <= p.free
    ensures NoDup(Taken(p, es)) && AllInData(v, Taken(p, es))
    ensures forall b | b in Taken(p, es) :: b !in p.held
    decreases |es|
  {
    if es != [] {
      StepSound(v, p, es[0]);
      TakenFromList(v, Step(p, es[0]), es[1..]);
    }
  }

  /** Load the free list and the total of an existing image (s5fs_mount), whose sizes
      have to make sense. */
  method Mount(v: Vol, image: Disk) returns (fs: S5FS, ok: bool)
    requires Sized(v, image) && SUPERBLK < |image|
    requires exists s: seq<nat> :: Chain(v, image, SbCache(v, image[SUPERBLK]), s)
                                   && NoDup(s) && AllInData(v, s)
    ensures fresh(fs) && fresh(fs.s_free) && fs.v == v && fs.dev == image
    ensures ok <==> Plausible(v, image[SUPERBLK])
    ensures ok <==> 2 <= Get16(v.order, image[1], 0) < Get32(v.order, image[1], 2)
    ensures ok ==> fs.Valid() && Chain(v, image, SbCache(v, image[SUPERBLK]), fs.stack)
    ensures ok ==> fs.s_tfree == Signed32(SbTfree(v, image[SUPERBLK]))
    ensures !ok ==> fs.error
  {
    fs := new S5FS(v, image);
    var sb := fs.RdBlk(SUPERBLK);
    var c := SbCache(v, sb);
    fs.s_nfree := c.nfree;
    for i := 0 to NICFREE
      invariant fs.Ready() && fs.v == v && fs.dev == image && fs.s_nfree == c.nfree
      invariant forall j | 0 <= j < i :: fs.s_free[j] == c.free[j]
    {
      fs.s_free[i] := c.free[i];
    }
    fs.s_tfree := Signed32(SbTfree(v, sb));
    ok := Plausible(v, sb);
    if !ok {
      fs.error := true;
      return;
    }
    ghost var s: seq<nat> :| Chain(v, image, c, s) && NoDup(s) && AllInData(v, s);
    fs.stack := s;
    assert fs.s_free[..] == c.free;
  }

  /** What a clean block check buys: mount the image the checker passed, and any run
      of allocations, interleaved with arbitrary writes to the blocks already
      handed out, gets distinct in-range blocks that no inode references. */
  method RunAfterCheck(v: Vol, image: Disk, es: seq<Event>) returns (errors: nat, ok: bool, outs: seq<nat>)
    requires Sized(v, image) && SUPERBLK < |image|
    requires forall e | e in es :: !e.Give?
    requires forall s | Chain(v, image, SbCache(v, image[SUPERBLK]), s) ::
               AllAllowed(v, Pool(s, {}), es)
    ensures errors == 0 <==> CleanBlocks(v, image)
    ensures errors == 0 ==> (ok <==> Plausible(v, image[SUPERBLK]))
    ensures errors == 0 && ok ==>
              forall s | Chain(v, image, SbCache(v, image[SUPERBLK]), s) :: outs == Taken(Pool(s, {}), es)
    ensures errors == 0 ==> NoDup(outs) && AllInData(v, outs)
                            && forall b | b in outs :: VolumeRefs(v, image)[b] == 0
  {
    var ck := new CK(v, image);
    var missing, both, freec := ck.CheckBlocks();
    errors, ok, outs := ck.errors, false, [];
    if errors == 0 {
      ghost var s: seq<nat> :| Chain(v, image, SbCache(v, image[SUPERBLK]), s)
                               && Partition(v, VolumeRefs(v, image), s);
      OfPartition(v, VolumeRefs(v, image), s);
      var fs;
      fs, ok := Mount(v, image);
      if !ok {
        return;
      }
      ChainUnique(v, image, SbCache(v, image[SUPERBLK]), s, fs.stack);
      outs := Run(fs, {}, es);
      TakenFromList(v, Pool(s, {}), es);
      forall t | Chain(v, image, SbCache(v, image[SUPERBLK]), t) ensures t == s {
        ChainUnique(v, image, SbCache(v, image[SUPERBLK]), s, t);
      }
    }
  }
}

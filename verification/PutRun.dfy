/** The copy-in of a whole file: when it succeeds, when a shortage of blocks shows, and
    what is read back. */
module PutRun {
  import opened Arith
  import opened Errno
  import opened Endian
  import opened Layout
  import opened Allocator
  import opened BlockMap
  import opened BlockTree
  import opened InodeMap
  import opened MapOps
  import opened BlockCheck
  import opened FileBytes
  import opened Volumes
  import opened FileOps
  import opened PutFile
  import opened Space

  // ----- running short

  /** `free` blocks are less than a file of these bytes costs, as far as the map reaches. */
  predicate Short(v: Vol, free: nat, all: seq<byte>) {
    free < Cost(v, Min(BlocksFor(v, |all|), Capacity(v)))
  }

  /** They serve some number of its blocks but for the last data block: the shortage falls
      on a data block. */
  ghost predicate LacksData(v: Vol, free: nat, all: seq<byte>) {
    exists b: nat :: b <= Min(BlocksFor(v, |all|), Capacity(v)) && Cost(v, b) == free + 1
  }

  /** Nothing a failed handle comes up with looks wrong. */
  ghost predicate Silent(u: Stray) { forall at: nat :: !u.dir(at) && u.phys(at) != 0 }

  /** Up to where the free list ran out the file was filled and paid for. */
  lemma HaltPaid(v: Vol, d0: Disk, s0: seq<nat>, d: Disk, s: seq<nat>, ino: nat, all: seq<byte>,
                 h: Halt, buf: seq<byte>)
    requires Sized(v, d0) && Sized(v, d) && 1 <= ino && PutSoFar(v, d0, s0, d, s, ino, all)
    requires HaltedAt(v, d, s, ReadDinode(v, d, ino).addr, h, |all|, buf)
    ensures Filled(v, h.d, h.addr, BlocksFor(v, |all| + h.done))
    ensures |s0| <= |h.s| + Cost(v, BlocksFor(v, |all| + h.done))
  {
    hide FileStep, Partition, VolumeRefs, Wrote, Moved, Extends, Shrunk, ReadDinode, Filled, Cost, BlocksFor, MissingAt;
    NoBlocks(v);
    NoneToFill(v, d0, ReadDinode(v, d0, ino).addr);
    assert |buf[..h.done]| == h.done;
  }

  /** The block in question starts there, and costs more than was free. */
  lemma HaltShort(v: Vol, d0: Disk, s0: seq<nat>, d: Disk, s: seq<nat>, ino: nat, all: seq<byte>,
                  h: Halt, buf: seq<byte>)
    requires Sized(v, d0) && Sized(v, d) && 1 <= ino && PutSoFar(v, d0, s0, d, s, ino, all)
    requires HaltedAt(v, d, s, ReadDinode(v, d, ino).addr, h, |all|, buf)
    ensures var lbn := BlockOf(v, |all| + h.done);
            && lbn < Capacity(v) && BlocksFor(v, |all| + h.done) == lbn
            && lbn + 1 <= BlocksFor(v, |all + buf|) && |s0| < Cost(v, lbn + 1)
  {
    hide PutSoFar, Copied, Filled, Cost, BlocksFor, BlockOf, MissingAt, ReadDinode, Apart, Capacity;
    var p := |all| + h.done;
    HaltPaid(v, d0, s0, d, s, ino, all, h, buf);
    MissingReach(v, h.d, h.addr, BlockOf(v, p));
    ChunkBlocks(v, p, 1);
    BlocksMono(v, p + 1, |all + buf|);
    if ByteIn(v, p) != 0 {
      LastFilled(v, h.d, h.addr, BlocksFor(v, p), BlockOf(v, p));
      MappedNothingMissing(v, h.d, h.addr, BlockOf(v, p));
    }
    NextCost(v, h.d, h.addr, p);
  }

  lemma LastFilled(v: Vol, d: Disk, addr: seq<nat>, count: nat, lbn: nat)
    requires IsMap(v, addr) && Filled(v, d, addr, count) && lbn < count
    ensures MapOf(v, d, addr, lbn) != 0
  {
  }

  /** In a file that held nothing before, what the block was missing is its cost. */
  lemma HaltExact(v: Vol, d0: Disk, s0: seq<nat>, d: Disk, s: seq<nat>, ino: nat, all: seq<byte>,
                  h: Halt, buf: seq<byte>)
    requires Sized(v, d0) && Sized(v, d) && 1 <= ino && PutSoFar(v, d0, s0, d, s, ino, all)
    requires HaltedAt(v, d, s, ReadDinode(v, d, ino).addr, h, |all|, buf)
    requires InoRefs(v, d0, ino) == multiset{} && ReadDinode(v, d, ino).HasMap()
    ensures var lbn := BlockOf(v, |all| + h.done);
            Cost(v, lbn) <= |s0| && (OnlyData(v, h, |all|) <==> Cost(v, lbn + 1) == |s0| + 1)
  {
    hide Cost, BlocksFor, BlockOf, MissingAt, ReadDinode, Capacity, Filled, InodeRefs, InodeInds;
    hide PutSoFar, HaltedAt, InoRefs, AllData;
    HaltApart(v, d, s, ReadDinode(v, d, ino).addr, h, |all|, buf);
    var lbn := BlockOf(v, |all| + h.done);
    HaltShort(v, d0, s0, d, s, ino, all, h, buf);
    HaltPaid(v, d0, s0, d, s, ino, all, h, buf);
    HaltRefs(v, d0, s0, d, s, ino, all, h, buf);
    RefsCost(v, h.d, h.addr, lbn);
    StepExact(v, h.d, h.addr, lbn);
  }

  lemma HaltApart(v: Vol, d: Disk, s: seq<nat>, addr: seq<nat>, h: Halt, off: nat, buf: seq<byte>)
    requires IsMap(v, addr) && HaltedAt(v, d, s, addr, h, off, buf)
    ensures IsMap(v, h.addr) && AllData(v, InodeInds(v, h.d, h.addr))
  {
    hide Copied, MissingAt, InodeRefs, InodeInds;
    IndsWithin(v, h.d, h.addr);
  }

  lemma HaltRefs(v: Vol, d0: Disk, s0: seq<nat>, d: Disk, s: seq<nat>, ino: nat, all: seq<byte>,
                 h: Halt, buf: seq<byte>)
    requires Sized(v, d0) && Sized(v, d) && 1 <= ino && PutSoFar(v, d0, s0, d, s, ino, all)
    requires HaltedAt(v, d, s, ReadDinode(v, d, ino).addr, h, |all|, buf)
    requires InoRefs(v, d0, ino) == multiset{} && ReadDinode(v, d, ino).HasMap()
    ensures |InodeRefs(v, h.d, h.addr)| + |h.s| == |s0|
  {
    hide Partition, VolumeRefs, Wrote, Extends, Shrunk, ReadDinode, Paid, MissingAt, InodeRefs, OnlyInode, Apart;
    var refs := InodeRefs(v, d, ReadDinode(v, d, ino).addr);
    assert |refs + multiset(s)| == |multiset{} + multiset(s0)|;
    assert |InodeRefs(v, h.d, h.addr) + multiset(h.s)| == |refs + multiset(s)|;
  }

  lemma ShortAt(v: Vol, free: nat, lbn: nat, all: seq<byte>)
    requires lbn < Capacity(v) && lbn + 1 <= BlocksFor(v, |all|) && free < Cost(v, lbn + 1)
    ensures Short(v, free, all)
    ensures Cost(v, lbn) <= free ==> (LacksData(v, free, all) <==> Cost(v, lbn + 1) == free + 1)
  {
    hide Cost, BlocksFor, Capacity;
    var m := Min(BlocksFor(v, |all|), Capacity(v));
    CostMono(v, lbn + 1, m);
    if b: nat :| b <= m && Cost(v, b) == free + 1 {
      if b <= lbn {
        CostMono(v, b, lbn);
      } else if b > lbn + 1 {
        CostStrict(v, lbn + 1, b);
      }
    }
  }

  // ----- the loop on a failed handle

  /** Whatever is found, the loop counts no block past the map's reach. */
  lemma {:induction false} CopyReach(v: Vol, u: Stray, off: nat, n: nat, done: nat)
    requires done < n && DeadCopy(v, u, off, n, done) == n
    ensures BlocksFor(v, off + n) <= Capacity(v)
    decreases n - done
  {
    hide BlocksFor, BlockOf, Capacity;
    var at := off + done;
    var want := Min(v.Bsize() - ByteIn(v, at), n - done);
    ChunkBlocks(v, at, want);
    if done + want < n {
      CopyReach(v, u, off, n, done + want);
    }
  }

  lemma {:induction false} SilentCopy(v: Vol, u: Stray, off: nat, n: nat, done: nat)
    requires Silent(u) && done <= n && BlocksFor(v, off + n) <= Capacity(v)
    ensures DeadCopy(v, u, off, n, done) == n
    decreases n - done
  {
    hide BlocksFor, BlockOf, Capacity, Silent;
    if done < n {
      var at := off + done;
      var want := Min(v.Bsize() - ByteIn(v, at), n - done);
      ChunkBlocks(v, at, 1);
      BlocksMono(v, at + 1, off + n);
      SilentAt(u, at);
      SilentCopy(v, u, off, n, done + want);
    }
  }

  /** Where the loop stops, and what it has read by then: a 0, or the map's reach, ends it,
      and nothing else does. */
  lemma {:induction false} DeadStop(v: Vol, u: Stray, off: nat, n: nat, done: nat)
    requires done <= n
    ensures var r := DeadCopy(v, u, off, n, done);
            && (r < n ==> u.phys(off + r) == 0 || Capacity(v) <= BlockOf(v, off + r))
            && forall p: nat | off + done <= p < off + r && (p == off + done || ByteIn(v, p) == 0) ::
                 u.phys(p) != 0 && BlockOf(v, p) < Capacity(v)
    decreases n - done
  {
    hide BlockOf, Capacity;
    if done < n && GoesOn(v, u, off + done) {
      var at := off + done;
      var want := Min(v.Bsize() - ByteIn(v, at), n - done);
      DeadStop(v, u, off, n, done + want);
      forall p: nat | at < p < at + want ensures ByteIn(v, p) != 0 {
        WithinBlock(v, at, p);
      }
    }
  }

  lemma WithinBlock(v: Vol, at: nat, p: nat)
    requires at < p && ByteIn(v, at) + p - at < v.Bsize()
    ensures ByteIn(v, p) != 0
  {
    var n := v.Bsize();
    assert at == at / n * n + at % n;
    DivModUnique(p, n, at / n, at % n + p - at);
  }

  lemma SilentAt(u: Stray, at: nat)
    requires Silent(u)
    ensures !u.dir(at) && u.phys(at) != 0
  {
  }

  /** The answer of a write on a failed handle. */
  lemma DeadReply(v: Vol, u: Stray, off: nat, n: nat, total: nat, w: int)
    requires w == (if u.dir(off) then -EISDIR else Reply(DeadCopy(v, u, off, n, 0), n)) && 0 < n
    requires off + n <= total
    ensures w <= n && (w < 0 ==> w == -EISDIR || w == -EFBIG)
    ensures w == n ==> BlocksFor(v, off + n) <= Capacity(v)
    ensures Silent(u) && w < n ==> Capacity(v) < BlocksFor(v, total)
  {
    hide BlocksFor, Capacity, GoesOn, Silent;
    if w == n {
      CopyReach(v, u, off, n, 0);
    } else if Silent(u) && BlocksFor(v, total) <= Capacity(v) {
      SilentAt(u, off);
      BlocksMono(v, off + n, total);
      SilentCopy(v, u, off, n, 0);
    }
  }

  /** The answer of the write in which the handle failed. */
  lemma LiveReply(v: Vol, u: Stray, h: Halt, off: nat, d: Disk, s: seq<nat>, addr: seq<nat>,
                  buf: seq<byte>, total: nat, w: int)
    requires IsMap(v, addr) && HaltedAt(v, d, s, addr, h, off, buf) && off + |buf| <= total
    requires w == Reply(HaltedCount(v, u, h, off, |buf|), |buf|)
    ensures IsMap(v, h.addr) && w <= |buf| && (w < 0 ==> w == -EFBIG)
    ensures OnlyData(v, h, off) ==> w < |buf|
    ensures w == |buf| ==> BlocksFor(v, off + |buf|) <= Capacity(v)
    ensures !OnlyData(v, h, off) && Silent(u) && w < |buf| ==> Capacity(v) < BlocksFor(v, total)
  {
    hide BlocksFor, Capacity, GoesOn, Silent, Copied, Apart, MissingAt;
    if w == |buf| {
      CopyReach(v, u, off, |buf|, h.done);
    } else if !OnlyData(v, h, off) && Silent(u) && BlocksFor(v, total) <= Capacity(v) {
      BlocksMono(v, off + |buf|, total);
      SilentCopy(v, u, off, |buf|, h.done);
    }
  }

  lemma FitsWhole(v: Vol, free: nat, chunks: seq<seq<byte>>, j: nat)
    requires j <= |chunks|
    ensures Fits(v, free, Flat(chunks)) ==> Fits(v, free, Flat(chunks[..j]))
  {
    hide Fits;
    FlatPrefix(chunks, j);
    if Fits(v, free, Flat(chunks)) {
      FitsLess(v, free, Flat(chunks[..j]), Flat(chunks));
    }
  }

  /** The handle is alive and all of `put`, but not of total, went in: past the map's
      reach. */
  ghost predicate Stopped(v: Vol, d0: Disk, s0: seq<nat>, d: Disk, s: seq<nat>, ino: nat,
                          put: seq<byte>, total: seq<byte>)
    requires Sized(v, d0) && Sized(v, d) && 1 <= ino
  {
    && put <= total && PutSoFar(v, d0, s0, d, s, ino, put)
    && (put == total || Capacity(v) <= BlockOf(v, |put|))
  }

  lemma StoppedShort(v: Vol, d0: Disk, s0: seq<nat>, dl: Disk, sl: seq<nat>, d: Disk, s: seq<nat>, ino: nat,
                     total: seq<byte>, all: seq<byte>, chunk: seq<byte>, w: int) returns (put: seq<byte>)
    requires Sized(v, d0) && Sized(v, dl) && Sized(v, d) && 1 <= ino
    requires PutSoFar(v, d0, s0, dl, sl, ino, all) && all + chunk <= total && w < |chunk| && w != 0 && chunk != []
    requires Capacity(v) <= BlockOf(v, |all| + if w < 0 then 0 else w)
    requires w < 0 ==> d == dl && s == sl
    requires 0 < w ==>
               && FileStep(v, dl, sl, d, s, ino) && Partition(v, VolumeRefs(v, d), s)
               && Pwritten(v, dl, sl, d, s, ino, |all|, chunk[..w])
    ensures put != total && Stopped(v, d0, s0, d, s, ino, put, total)
    ensures Capacity(v) < BlocksFor(v, |total|)
  {
    hide PutSoFar, Pwritten, FileStep, Partition, VolumeRefs, Capacity, BlockOf, BlocksFor;
    if w < 0 {
      put := all;
    } else {
      put := all + chunk[..w];
      PutMore(v, d0, s0, dl, sl, d, s, ino, all, chunk[..w]);
      assert all + chunk[..w] <= all + chunk && |put| == |all| + w;
    }
    assert |put| < |all + chunk|;
    PastCapacity(v, |put|, |total|);
  }

  lemma AllPut(v: Vol, d0: Disk, s0: seq<nat>, d: Disk, s: seq<nat>, ino: nat, all: seq<byte>)
    requires Sized(v, d0) && Sized(v, d) && 1 <= ino && PutSoFar(v, d0, s0, d, s, ino, all)
    ensures Stopped(v, d0, s0, d, s, ino, all, all)
  {
    hide PutSoFar;
  }

  lemma PutReach(v: Vol, d0: Disk, s0: seq<nat>, d: Disk, s: seq<nat>, ino: nat, all: seq<byte>)
    requires Sized(v, d0) && Sized(v, d) && 1 <= ino && PutSoFar(v, d0, s0, d, s, ino, all)
    ensures BlocksFor(v, |all|) <= Capacity(v)
  {
    hide FileStep, Partition, VolumeRefs, Wrote, BlocksFor, Cost, ReadDinode, Filled, Capacity, Shrunk;
    NoneToFill(v, d0, ReadDinode(v, d0, ino).addr);
    FilledReach(v, d, ReadDinode(v, d, ino).addr, BlocksFor(v, |all|));
  }

  /** A put that did not run out was not short of blocks. */
  lemma NotShort(v: Vol, d0: Disk, s0: seq<nat>, d: Disk, s: seq<nat>, ino: nat, put: seq<byte>, all: seq<byte>)
    requires Sized(v, d0) && Sized(v, d) && 1 <= ino <= Ninodes(v) && Stopped(v, d0, s0, d, s, ino, put, all)
    requires ReadDinode(v, d0, ino).HasMap()
    ensures !Short(v, |s0| + |InoRefs(v, d0, ino)|, all)
  {
    hide PutSoFar, BlocksFor, Cost, ReadDinode, Capacity, InoRefs, Ninodes, BlockOf;
    PutRoom(v, d0, s0, d, s, ino, put);
    PutReach(v, d0, s0, d, s, ino, put);
    ChunkBlocks(v, |put|, 1);
    BlocksMono(v, |put|, |all|);
  }

  // ----- rw_put_fd

  /** The state of a put whose handle has failed: k chunks went in whole, up to (d, s), and
      the list ran out in the next one. */
  ghost predicate PutFailed(fs: S5FS, d0: Disk, s0: seq<nat>, d: Disk, s: seq<nat>, ino: nat,
                            chunks: seq<seq<byte>>, k: nat, h: Halt)
    requires Sized(fs.v, d0) && 1 <= ino
    reads fs
  {
    && k < |chunks| && fs.error && IsMap(fs.v, h.addr) && PutHalted(fs, d0, s0, d, s, ino, Flat(chunks[..k]))
    && HaltedAt(fs.v, d, s, ReadDinode(fs.v, d, ino).addr, h, |Flat(chunks[..k])|, chunks[k])
  }

  /** One turn of that loop on a handle that is alive, with `all` behind it. */
  method PutOne(fs: S5FS, ino: nat, chunk: seq<byte>, off: nat, u: Stray, ghost d0: Disk, ghost s0: seq<nat>,
                ghost all: seq<byte>, ghost total: seq<byte>)
    returns (w: int, ghost h: Halt, ghost put: seq<byte>)
    requires Whole(fs) && 1 <= ino <= Ninodes(fs.v) && Sized(fs.v, d0)
    requires PutSoFar(fs.v, d0, s0, fs.dev, fs.stack, ino, all)
    requires off == |all| && chunk != [] && all + chunk <= total
    modifies fs, fs.s_free
    ensures w <= |chunk| && (w < 0 ==> w == -EFBIG)
    ensures fs.error ==>
              && IsMap(fs.v, h.addr) && StarvedFile(fs, old(fs.dev), old(fs.stack), ino)
              && HaltedAt(fs.v, old(fs.dev), old(fs.stack), ReadDinode(fs.v, old(fs.dev), ino).addr, h, off, chunk)
              && (OnlyData(fs.v, h, off) ==> w < |chunk|)
              && (w == |chunk| ==> BlocksFor(fs.v, |all + chunk|) <= Capacity(fs.v))
              && (!OnlyData(fs.v, h, off) && Silent(u) && w < |chunk| ==> Capacity(fs.v) < BlocksFor(fs.v, |total|))
    ensures !fs.error ==> Whole(fs) && FileStep(fs.v, old(fs.dev), old(fs.stack), fs.dev, fs.stack, ino)
    ensures !fs.error && w == |chunk| ==> PutSoFar(fs.v, d0, s0, fs.dev, fs.stack, ino, all + chunk)
    ensures !fs.error && w < |chunk| ==>
              && put != total && Stopped(fs.v, d0, s0, fs.dev, fs.stack, ino, put, total)
              && Capacity(fs.v) < BlocksFor(fs.v, |total|)
    ensures Fits(fs.v, |s0|, all + chunk) ==> !fs.error && w == |chunk|
    ensures SameSuper(old(fs.dev), fs.dev)
  {
    hide PutSoFar, Partition, VolumeRefs, FileStep, Pwritten, ReadDinode, Ninodes, StarvedFile, HaltedAt;
    hide Capacity, BlocksFor, BlockOf, Fits, Payable, OnlyData, Silent, HaltedCount, Stopped;
    ghost var v, dl, sl := fs.v, fs.dev, fs.stack;
    put := [];
    RegularNow(v, d0, s0, dl, sl, ino, all);
    if Fits(v, |s0|, all + chunk) {
      NextPayable(v, d0, s0, dl, sl, ino, all, chunk, all + chunk);
    }
    w, h := RwPwrite(fs, ino, chunk, off, u);
    if fs.error {
      LiveReply(v, u, h, off, dl, sl, ReadDinode(v, dl, ino).addr, chunk, |total|, w);
    } else if w < |chunk| {
      put := StoppedShort(v, d0, s0, dl, sl, fs.dev, fs.stack, ino, total, all, chunk, w);
    } else {
      assert chunk[..w] == chunk;
      PutMore(v, d0, s0, dl, sl, fs.dev, fs.stack, ino, all, chunk);
    }
  }

  lemma FailsNow(fs: S5FS, d0: Disk, s0: seq<nat>, d: Disk, s: seq<nat>, ino: nat,
                 chunks: seq<seq<byte>>, k: nat, h: Halt)
    requires Sized(fs.v, d0) && Sized(fs.v, d) && 1 <= ino && k < |chunks| && fs.error
    requires PutSoFar(fs.v, d0, s0, d, s, ino, Flat(chunks[..k])) && StarvedFile(fs, d, s, ino)
    requires HaltedAt(fs.v, d, s, ReadDinode(fs.v, d, ino).addr, h, |Flat(chunks[..k])|, chunks[k])
    ensures PutFailed(fs, d0, s0, d, s, ino, chunks, k, h)
  {
    hide PutSoFar, StarvedFile, Copied, MissingAt;
  }

  /** The loop of rw_put_fd: each chunk as read from the source, at the next offset.  k
      counts the chunks that went in whole; (dl, sl) is the volume after them. */
  method PutChunks(fs: S5FS, ino: nat, chunks: seq<seq<byte>>, u: Stray)
    returns (rc: int, ghost k: nat, ghost dl: Disk, ghost sl: seq<nat>, ghost h: Halt, ghost put: seq<byte>)
    requires Whole(fs) && 1 <= ino <= Ninodes(fs.v)
    requires var di := ReadDinode(fs.v, fs.dev, ino); IsReg(di) && di.size == 0
    requires forall c | c in chunks :: c != []
    modifies fs, fs.s_free
    ensures rc == 0 || rc == -ENOSPC || rc == -EFBIG || (fs.error && rc == -EISDIR)
    ensures fs.error ==> PutFailed(fs, old(fs.dev), old(fs.stack), dl, sl, ino, chunks, k, h)
    ensures fs.error && OnlyData(fs.v, h, |Flat(chunks[..k])|) ==> rc != 0
    ensures fs.error && !OnlyData(fs.v, h, |Flat(chunks[..k])|) && Silent(u) ==>
              (rc == 0 <==> BlocksFor(fs.v, |Flat(chunks)|) <= Capacity(fs.v))
    ensures !fs.error ==> Whole(fs) && FileStep(fs.v, old(fs.dev), old(fs.stack), fs.dev, fs.stack, ino)
    ensures !fs.error ==>
              && Stopped(fs.v, old(fs.dev), old(fs.stack), fs.dev, fs.stack, ino, put, Flat(chunks))
              && (rc == 0 <==> put == Flat(chunks))
    ensures !fs.error && rc != 0 ==> Capacity(fs.v) < BlocksFor(fs.v, |Flat(chunks)|)
    ensures rc == 0 ==> BlocksFor(fs.v, |Flat(chunks)|) <= Capacity(fs.v)
    ensures Fits(fs.v, old(|fs.stack|), Flat(chunks)) ==> rc == 0 && !fs.error
    ensures fs.error ==> !Fits(fs.v, old(|fs.stack|), Flat(chunks[..k + 1]))
    ensures SameSuper(old(fs.dev), fs.dev)
  {
    hide PutSoFar, Partition, VolumeRefs, FileStep, Pwritten, ReadDinode, Ninodes, StarvedFile, HaltedAt;
    hide Capacity, BlocksFor, BlockOf, Fits, Payable, OnlyData, Silent, HaltedCount, Stopped, PutFailed, Reply;
    ghost var v, d0, s0 := fs.v, fs.dev, fs.stack;
    var off := 0;
    k, dl, sl, h, put := 0, d0, s0, Halt(d0, s0, [], 0), [];
    SameStep(v, d0, s0, ino);
    PutStart(v, d0, s0, ino);
    for i := 0 to |chunks|
      invariant off == |Flat(chunks[..i])| && SameSuper(d0, fs.dev)
      invariant !fs.error ==> Whole(fs) && FileStep(v, d0, s0, fs.dev, fs.stack, ino)
      invariant !fs.error ==> k == i && dl == fs.dev && sl == fs.stack
      invariant !fs.error ==> PutSoFar(v, d0, s0, dl, sl, ino, Flat(chunks[..i]))
      invariant fs.error ==>
                  && k < i && IsMap(v, h.addr) && PutFailed(fs, d0, s0, dl, sl, ino, chunks, k, h)
                  && !OnlyData(v, h, |Flat(chunks[..k])|) && !Fits(v, |s0|, Flat(chunks[..k + 1]))
      invariant fs.error ==> BlocksFor(v, off) <= Capacity(v)
    {
      FlatPrefix(chunks, i);
      FlatPrefix(chunks, i + 1);
      assert chunks[i] in chunks;
      var w: int;
      if fs.error {
        w := PwriteDead(fs.v, |chunks[i]|, off, u);
        DeadReply(v, u, off, |chunks[i]|, |Flat(chunks)|, w);
        if w < 0 || w < |chunks[i]| {
          FitsWhole(v, |s0|, chunks, k + 1);
          return if w < 0 then w else -ENOSPC, k, dl, sl, h, put;
        }
      } else {
        FitsWhole(v, |s0|, chunks, i + 1);
        ghost var h1, put1;
        w, h1, put1 := PutOne(fs, ino, chunks[i], off, u, d0, s0, Flat(chunks[..i]), Flat(chunks));
        if fs.error {
          h := h1;
          FailsNow(fs, d0, s0, dl, sl, ino, chunks, k, h);
        } else {
          FileStepMore(v, d0, s0, dl, sl, fs.dev, fs.stack, ino);
        }
        if w < 0 || w < |chunks[i]| {
          return if w < 0 then w else -ENOSPC, k, dl, sl, h, put1;
        }
        if !fs.error {
          k, dl, sl := i + 1, fs.dev, fs.stack;
        }
      }
      off := off + w;
    }
    assert chunks[..|chunks|] == chunks;
    rc := 0;
    if fs.error {
      FitsWhole(v, |s0|, chunks, k + 1);
    } else {
      PutReach(v, d0, s0, fs.dev, fs.stack, ino, Flat(chunks));
      put := Flat(chunks);
      AllPut(v, d0, s0, fs.dev, fs.stack, ino, put);
    }
  }

  /** Every block of the file is one that truncating it to nothing gives back: nothing is
      left of a new file, or of a small one without holes past its end. */
  ghost predicate Emptied(v: Vol, d: Disk, ino: nat, existing: bool)
    requires Sized(v, d) && 1 <= ino
  {
    |InoRefs(v, d, ino)| == if existing then Released(v, d, ino, 0) else 0
  }

  /** What a put on a volume with file ino and free list s can answer, for all bytes and on
      a handle that failed or did not. */
  ghost predicate PutAnswer(v: Vol, d: Disk, s: seq<nat>, ino: nat, existing: bool, all: seq<byte>,
                            u: Stray, failed: bool, rc: int)
    requires Sized(v, d) && 1 <= ino
  {
    var free := RoomFor(v, d, s, ino, existing);
    // with enough blocks it goes through, and a handle fails only for want of them
    && (Fits(v, free, all) ==> rc == 0 && !failed)
    && (failed ==> Short(v, free, all))
    && (!failed ==> !Short(v, |s| + |InoRefs(v, d, ino)|, all))
    // past the map's reach it never goes through
    && (Capacity(v) < BlocksFor(v, |all|) ==> rc != 0)
    && (!failed && rc != 0 ==> Capacity(v) < BlocksFor(v, |all|))
    // a shortage shows when it falls on a data block, and need not when it does not
    && (Emptied(v, d, ino, existing) && failed ==>
          if LacksData(v, free, all) then rc != 0
          else Silent(u) ==> (rc == 0 <==> BlocksFor(v, |all|) <= Capacity(v)))
  }

  /** The same on the volume the chunks start from, where the file is empty. */
  lemma AnswerOf(v: Vol, d0: Disk, s0: seq<nat>, d1: Disk, s1: seq<nat>, ino: nat, existing: bool,
                 all: seq<byte>, u: Stray, failed: bool, rc: int)
    requires Sized(v, d0) && Sized(v, d1) && 1 <= ino
    requires |s1| == RoomFor(v, d0, s0, ino, existing) && FileStep(v, d0, s0, d1, s1, ino)
    requires Fits(v, |s1|, all) ==> rc == 0 && !failed
    requires failed ==> Short(v, |s1|, all)
    requires !failed ==> !Short(v, |s1| + |InoRefs(v, d1, ino)|, all)
    requires Capacity(v) < BlocksFor(v, |all|) ==> rc != 0
    requires !failed && rc != 0 ==> Capacity(v) < BlocksFor(v, |all|)
    requires InoRefs(v, d1, ino) == multiset{} && failed ==>
               if LacksData(v, |s1|, all) then rc != 0
               else Silent(u) ==> (rc == 0 <==> BlocksFor(v, |all|) <= Capacity(v))
    ensures PutAnswer(v, d0, s0, ino, existing, all, u, failed, rc)
  {
    hide FileStep, Fits, Short, LacksData, Silent, InoRefs, Released, Capacity, BlocksFor;
    PutConserved(v, d0, s0, d1, s1, ino);
  }

  /** What a put that failed says of the shortage, told from the file's cost. */
  lemma FailedShort(fs: S5FS, d0: Disk, s0: seq<nat>, d: Disk, s: seq<nat>, ino: nat,
                    chunks: seq<seq<byte>>, k: nat, h: Halt)
    requires Sized(fs.v, d0) && 1 <= ino && PutFailed(fs, d0, s0, d, s, ino, chunks, k, h)
    ensures Short(fs.v, |s0|, Flat(chunks))
    ensures InoRefs(fs.v, d0, ino) == multiset{} ==>
              (OnlyData(fs.v, h, |Flat(chunks[..k])|) <==> LacksData(fs.v, |s0|, Flat(chunks)))
  {
    hide PutSoFar, HaltedAt, StarvedFile, Short, LacksData, OnlyData, BlocksFor, BlockOf, Capacity, Cost;
    hide InoRefs, ReadDinode;
    var v, all := fs.v, Flat(chunks[..k]);
    var lbn := BlockOf(v, |all| + h.done);
    HaltShort(v, d0, s0, d, s, ino, all, h, chunks[k]);
    FlatPrefix(chunks, k);
    FlatPrefix(chunks, k + 1);
    BlocksMono(v, |all + chunks[k]|, |Flat(chunks)|);
    ShortAt(v, |s0|, lbn, Flat(chunks));
    if InoRefs(v, d0, ino) == multiset{} {
      RegularNow(v, d0, s0, d, s, ino, all);
      HaltExact(v, d0, s0, d, s, ino, all, h, chunks[k]);
    }
  }

  /** The dinode on the image is the one stored after the last whole chunk. */
  lemma FailedDinode(fs: S5FS, d0: Disk, s0: seq<nat>, d: Disk, s: seq<nat>, ino: nat, all: seq<byte>)
    requires Sized(fs.v, d0) && 1 <= ino <= Ninodes(fs.v) && PutHalted(fs, d0, s0, d, s, ino, all)
    ensures Sized(fs.v, fs.dev) && SUPERBLK < |fs.dev|
    ensures ReadDinode(fs.v, fs.dev, ino).size == |all| % 0x1_0000_0000
  {
    hide Partition, VolumeRefs, FileStep, Wrote, Paid, InodeRefs, Extends, InodeOffset, Ninodes;
    InodeInList(fs.v, ino);
    assert ReadDinode(fs.v, fs.dev, ino) == ReadDinode(fs.v, d, ino);
  }

  /** rw_put_fd after name resolution: replace the contents of a regular file, or fill
      the one just created.  k counts the chunks that went in whole, `took` the free
      blocks they took. */
  method PutFd(fs: S5FS, ino: nat, existing: bool, chunks: seq<seq<byte>>, u: Stray, sysv: bool, tinode: nat)
    returns (rc: int, ghost k: nat, ghost took: nat)
    requires Whole(fs) && 1 <= ino <= Ninodes(fs.v)
    requires var di := ReadDinode(fs.v, fs.dev, ino);
             di.HasMap() && (!existing ==> IsReg(di) && di.size == 0)
    requires forall c | c in chunks :: c != []
    modifies fs, fs.s_free
    ensures IsDir(ReadDinode(fs.v, old(fs.dev), ino)) <==> rc == -EISDIR && !fs.error
    ensures rc == 0 || rc == -EISDIR || rc == -ENOSPC || rc == -EFBIG
    ensures !IsDir(ReadDinode(fs.v, old(fs.dev), ino)) ==>
              PutAnswer(fs.v, old(fs.dev), old(fs.stack), ino, existing, Flat(chunks), u, fs.error, rc)
    ensures !fs.error ==> Whole(fs) && FileStep(fs.v, old(fs.dev), old(fs.stack), fs.dev, fs.stack, ino)
    ensures rc == 0 && !fs.error ==>
              && IsReg(ReadDinode(fs.v, fs.dev, ino))
              && ReadDinode(fs.v, fs.dev, ino).size == |Flat(chunks)| % 0x1_0000_0000
              && (forall p: nat | p < |Flat(chunks)| ::
                    FileByte(fs.v, fs.dev, ReadDinode(fs.v, fs.dev, ino).addr, p) == Flat(chunks)[p])
              && Fits(fs.v, old(|fs.stack| + |InoRefs(fs.v, fs.dev, ino)|), Flat(chunks))
    ensures rc == 0 && !fs.error ==> Synced(fs) && CleanBlocks(fs.v, fs.dev)
    // what a failed handle leaves
    ensures fs.error ==>
              && k < |chunks| && Sized(fs.v, fs.dev) && SUPERBLK < |fs.dev|
              && !Fits(fs.v, old(RoomFor(fs.v, fs.dev, fs.stack, ino, existing)), Flat(chunks[..k + 1]))
              && ReadDinode(fs.v, fs.dev, ino).size == |Flat(chunks[..k])| % 0x1_0000_0000
    ensures fs.error && took > 0 && (existing || old(Synced(fs))) ==> !CleanBlocks(fs.v, fs.dev)
    ensures fs.error && !existing && old(InoRefs(fs.v, fs.dev, ino)) == multiset{} ==>
              took == Cost(fs.v, BlocksFor(fs.v, |Flat(chunks[..k])|)) && (took > 0 <==> k > 0)
  {
    hide PutSoFar, Partition, VolumeRefs, FileStep, ReadDinode, Ninodes, FileByte, MapOf, InodeRefs, StarvedFile;
    hide Capacity, BlocksFor, Fits, Cost, Released, CleanBlocks, InoRefs, HaltedAt, OnlyData, LacksData, Short, Silent;
    hide Stopped, PutAnswer;
    ghost var v, d0, s0 := fs.v, fs.dev, fs.stack;
    SameStep(v, d0, s0, ino);
    k, took := 0, 0;
    var di := ReadDinode(fs.v, fs.dev, ino);
    if existing {
      if IsDir(di) {
        return -EISDIR, k, took;
      }
      var ignored := RwTruncate(fs, ino, 0, sysv, tinode);
      TruncatedMap(v, d0, fs.dev, ino, 0);
    }
    ghost var d1, s1, c1 := fs.dev, fs.stack, fs.Cached();
    ghost var dl, sl, h, put;
    rc, k, dl, sl, h, put := PutChunks(fs, ino, chunks, u);
    if fs.error {
      // the closing sync is refused as well
      FailedShort(fs, d1, s1, dl, sl, ino, chunks, k, h);
      FailedDinode(fs, d1, s1, dl, sl, ino, Flat(chunks[..k]));
      HaltedDirty(fs, d1, s1, dl, sl, ino, Flat(chunks[..k]), c1);
      took := |s1| - |sl|;
      SomeCost(v, chunks, k);
    } else {
      NotShort(v, d1, s1, fs.dev, fs.stack, ino, put, Flat(chunks));
      PutConserved(v, d0, s0, d1, s1, ino);
      if rc == 0 {
        WholePut(v, d1, s1, fs.dev, fs.stack, ino, put, Flat(chunks));
        SyncPut(fs, ino, Flat(chunks), sysv, tinode, d1, s1);
      }
      FileStepMore(v, d0, s0, d1, s1, fs.dev, fs.stack, ino);
    }
    AnswerOf(v, d0, s0, d1, s1, ino, existing, Flat(chunks), u, fs.error, rc);
  }

  lemma WholePut(v: Vol, d0: Disk, s0: seq<nat>, d: Disk, s: seq<nat>, ino: nat, put: seq<byte>, all: seq<byte>)
    requires Sized(v, d0) && Sized(v, d) && 1 <= ino && Stopped(v, d0, s0, d, s, ino, put, all) && put == all
    ensures PutSoFar(v, d0, s0, d, s, ino, all)
  {
    hide PutSoFar;
  }

  /** Put, then read.  A put that answers 0 reads back exactly when its handle has not
      failed and the length fits the signed 32-bit size it is stored in. */
  method PutThenRead(fs: S5FS, ino: nat, existing: bool, chunks: seq<seq<byte>>, u: Stray, size: nat,
                     sysv: bool, tinode: nat)
    returns (rc: int, back: seq<byte>)
    requires Whole(fs) && 1 <= ino <= Ninodes(fs.v)
    requires var di := ReadDinode(fs.v, fs.dev, ino);
             di.HasMap() && (!existing ==> IsReg(di) && di.size == 0)
    requires forall c | c in chunks :: c != []
    requires |Flat(chunks)| <= size
    modifies fs, fs.s_free
    ensures !IsDir(ReadDinode(fs.v, old(fs.dev), ino)) ==>
              PutAnswer(fs.v, old(fs.dev), old(fs.stack), ino, existing, Flat(chunks), u, fs.error, rc)
    ensures rc == 0 ==> (back == Flat(chunks) <==> !fs.error && |Flat(chunks)| < 0x8000_0000)
    // where truncating leaves nothing, that is when the free blocks were enough
    ensures rc == 0 && old(Emptied(fs.v, fs.dev, ino, existing)) ==>
              (back == Flat(chunks) <==>
                 && Fits(fs.v, old(RoomFor(fs.v, fs.dev, fs.stack, ino, existing)), Flat(chunks))
                 && |Flat(chunks)| < 0x8000_0000)
  {
    hide Partition, VolumeRefs, FileStep, Ninodes, FileByte, MapOf, InodeRefs, ReadDinode, Fits, BlocksFor, Cost;
    hide CleanBlocks, InoRefs, Released, Capacity, LacksData, Short, Silent;
    ghost var k, took;
    rc, k, took := PutFd(fs, ino, existing, chunks, u, sysv, tinode);
    back := [];
    if rc == 0 {
      var di := ReadDinode(fs.v, fs.dev, ino);
      SizeFits(fs.v, fs.dev, ino);
      back := ReadFile(fs.v, fs.dev, di, size, 0);
      if fs.error {
        FlatShorter(chunks, k);
        ReadsLess(di, |Flat(chunks[..k])|, size);
      } else {
        ReadWhole(fs.v, fs.dev, fs.stack, ino, Flat(chunks), size, back);
      }
    }
  }

  lemma FlatShorter(chunks: seq<seq<byte>>, k: nat)
    requires k < |chunks| && forall c | c in chunks :: c != []
    ensures |Flat(chunks[..k])| < |Flat(chunks)|
  {
    FlatPrefix(chunks, k);
    FlatPrefix(chunks, k + 1);
    assert chunks[k] in chunks;
  }

  lemma ReadsLess(di: Dinode, n: nat, size: nat)
    requires di.size == n % 0x1_0000_0000
    ensures Wanted(di, size, 0) <= n
  {
  }
}

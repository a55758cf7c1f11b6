/** A whole put, and what the block check says of the image it leaves. */
module PutCheck {
  import opened Endian
  import opened Layout
  import opened Allocator
  import opened BlockCheck
  import opened FileBytes
  import opened Volumes
  import opened FileOps
  import opened PutFile
  import opened PutRun
  import opened Space
  import opened Superblock

  /** Put a file, close the handle, check the image.  A handle that has not failed leaves
      nothing for the check to find.  One that ran out of free blocks no longer writes the
      superblock: once a chunk has taken a block, that block is in the file and on the
      free list of the image, whatever the put has answered. */
  method PutThenCheck(fs: S5FS, ino: nat, existing: bool, chunks: seq<seq<byte>>, u: Stray, sysv: bool, tinode: nat)
    returns (rc: int, errors: nat, ghost k: nat, ghost took: nat)
    requires Whole(fs) && SUPERBLK < |fs.dev| && 1 <= ino <= Ninodes(fs.v)
    requires var di := ReadDinode(fs.v, fs.dev, ino);
             di.HasMap() && (!existing ==> IsReg(di) && di.size == 0)
    requires forall c | c in chunks :: c != []
    modifies fs, fs.s_free
    ensures !IsDir(ReadDinode(fs.v, old(fs.dev), ino)) ==>
              PutAnswer(fs.v, old(fs.dev), old(fs.stack), ino, existing, Flat(chunks), u, fs.error, rc)
    ensures !fs.error ==> errors == 0
    ensures fs.error && took > 0 && (existing || old(Synced(fs))) ==> errors != 0
    // a file just created: the failing chunk is the first that does not fit
    ensures fs.error && !existing && old(InoRefs(fs.v, fs.dev, ino)) == multiset{} ==>
              && k < |chunks| && !Fits(fs.v, old(|fs.stack|), Flat(chunks[..k + 1]))
              && took == Cost(fs.v, BlocksFor(fs.v, |Flat(chunks[..k])|)) && (took > 0 <==> k > 0)
  {
    hide VolumeRefs, Partition, ReadDinode, FileStep, Ninodes, CleanBlocks, Fits, BlocksFor, Cost;
    hide InoRefs, FileByte, Released, PutAnswer;
    rc, k, took := PutFd(fs, ino, existing, chunks, u, sysv, tinode);
    if !fs.error {
      SameLength(fs.v, old(fs.dev), old(fs.stack), fs.dev, fs.stack, ino);
      Sync(fs, sysv, tinode);
    }
    var ck := new CK(fs.v, fs.dev);
    var missing, both, freec := ck.CheckBlocks();
    errors := ck.errors;
  }

  lemma SameLength(v: Vol, d: Disk, s: seq<nat>, d': Disk, s': seq<nat>, ino: nat)
    requires Sized(v, d) && Sized(v, d') && 1 <= ino && FileStep(v, d, s, d', s', ino)
    ensures |d'| == |d|
  {
    hide InoRefs, ReadDinode, Ninodes;
  }
}

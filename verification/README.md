# The block layer and the checker of s5fs, in Dafny

s5fs builds, edits, checks, dumps and restores V7 / System V disk images.  This project
models the part of it that decides which block belongs to whom and which entry names
what, and proves that the pieces, which are written separately, agree.

An image is a sequence of blocks of bytes (`Layout.Disk`); the superblock, dinodes,
indirect blocks and free-list blocks are decoded from those bytes in the three byte
orders of the original.  Block size, direct slots and region bounds are those of a
symbolic volume `Layout.Volume`.

| files | what they model |
|---|---|
| `Arith`, `Endian`, `Layout`, `Multisets`, `Errno` | digits, byte orders, on-disk fields, sums of multisets, error numbers |
| `FreeList`, `Allocator`, `AllocRuns`, `Interleave` | the chained free list, `s5fs_alloc`/`s5fs_bfree`, runs of both, `s5fs_freelist` |
| `BlockMap`, `BlockTree`, `InodeMap`, `MapOps`, `RwOps`, `FreeOps`, `Builder`, `Space` | block maps: routing, the three descents, the builder, allocation and release, and what a file costs in blocks |
| `Ownership`, `Volumes`, `DeviceNodes` | who owns which block over whole runs, and what freeing a device node does to that |
| `BlockCheck`, `Salvage`, `Superblock`, `OnDisk` | the block half of `fsck`, its free-list repair, what a synced volume looks like to it, and where its fields are in bytes |
| `FileBytes`, `FileOps`, `PutFile`, `ReadBack`, `PutRun`, `PutCheck` | `rw_pwrite`, `rw_truncate`, `rw_put_fd`, `fsr_readfile` on bytes, with room, without, and on a handle that has failed; reading back what was written or cut; the block check after a put |
| `Names`, `NameSteps`, `NameTree`, `NameOps`, `NameRuns`, `Rename`, `NameHistory` | directories: creat, mkdir, unlink, rmdir, rename, and histories of them |
| `Reach`, `LinkCheck`, `LinkRepair`, `RepairCounts`, `RepairNames`, `FsckRun`, `DiskTree` | the link half of `fsck`, its repair and what that does to every count and name, and the directories read off a disk |
| `Mkfs`, `NewImage`, `MkfsCheck` | `s5fs_mkfs`, the tree it makes, and what both halves of the checker say to it |
| `TapeRecords`, `Dump`, `Restore`, `DumpRestore` | dump records and headers, and restoring them |
| `HostTree`, `Serialize`, `SerializeCheck`, `SerializeRun` | numbering, counting and writing an in-memory tree, judged by the checker |
| `Witnesses`, `PutWitnesses` | concrete inputs on which the code does not keep what it sets out to keep |

Code that changes state in place is modelled by classes with `modifies` clauses and
loops (`Allocator.S5FS`, `BlockCheck.CK`, `Salvage.Rebuild`, `NameOps.RW`,
`FsckRun.Fsck`, `Dump.Dumper`, `Restore.DR`, `Serialize.Forest`,
`SerializeCheck.Writer`); each method is proved against a specification in terms of
multisets of block references, paths in indirect trees, or entries of directories.

## Where the code does not keep what it sets out to keep

Each of these is stated with the condition under which the property holds; for most a
method or lemma proves that at one concrete input it does not.

- `s5fs_freelist` leaves block `fsize - 1` out of the free list exactly when the
  interleave n divides `fsize - 1` (`Interleave.BuildFreeList`); the image `s5fs_mkfs`
  makes passes the block check exactly when it does not (`MkfsCheck.MakeFs`).  With the
  default interleave 1001 blocks are such a size (`Witnesses.DefaultInterleave`).
- A handle that runs out of free blocks fails for good and no longer writes the
  superblock or a dinode.  A put that had completed a chunk by then leaves its blocks
  both in the file and on the free list of the image, so the block check fails; a put
  that did not run out leaves a clean image (`PutCheck.PutThenCheck`).  100 KiB into 70
  free blocks of 1 KiB do it (`PutWitnesses.SeventyBlocks`).
- A put that runs out need not say so: the 0 that stands for an indirect block is not
  looked at, and what is then read on the failed handle may pass for a block.  For a
  file that starts empty the answer is sure to be an error exactly when the shortage
  falls on a data block, that is when the free blocks are one less than what some number
  of the file's blocks cost; otherwise it can be 0 (`PutRun.PutFd`, `PutRun.PutAnswer`).
  5 KiB into 4 free blocks of 1 KiB are put without an error and do not read back
  (`PutWitnesses.FourBlocks`), and read as 4 KiB and 1 KiB leave an image the check
  finds fault with (`PutWitnesses.TwoReads`).
- A put that answers 0 on a handle that has not failed reads back whole exactly when it
  is shorter than 2 GiB, as di_size is read as a signed number (`PutRun.PutThenRead`); a
  volume can hold a longer one (`PutWitnesses.TwoGigabytes`).
- `cmd_restore` decodes every tape in PDP-11 order, while `cmd_dump` writes in the order
  of the image.  A tape is accepted exactly when the image is not big-endian, and the
  size is read right exactly on PDP-11 images and on little-endian ones whose size has
  equal halves (`DumpRestore.DumpThenHead`); 100 bytes of a little-endian image become
  6553600 (`DumpRestore.Misread`).
- Freeing a device node frees the block whose number is its device number; the
  partition survives exactly when that number is 0 (`DeviceNodes.FreeDevice`).
- Replacing a directory by rename loses the parent's link decrement exactly when the
  two inodes share an i-list block; the parent's count is then one too high
  (`Rename.DoRename`, `Rename.RenameEffect`).  A new directory renamed onto an empty
  lost+found beside it does it (`Witnesses.OntoEmpty`).
- `rw_unlink` takes the count for a signed 16-bit number: a file goes away too early
  exactly when its count is above 0x8000 (`NameRuns.Unlink`, `Witnesses.ManyLinks`).
- A directory that grows takes over what its new block held: the tree stays
  consistent exactly when the other slots of that block are free (`NameRuns.Creat`,
  `NameRuns.Mkdir`, `Rename.DoRename`, `Witnesses.DirtyBlock`).  A partly written file
  block keeps the old bytes around the chunk for the same reason (`FileBytes.PutChunk`).
- creat and mkdir write the new inode before they know that the parent has room, and
  leave it behind, named by nothing, when it has not (`NameRuns.Creat`,
  `NameRuns.Mkdir`, `Witnesses.LeftBehind`).
- When the parent's next block is one too many because an indirect block is not to be
  had, they can even answer 0 (`Witnesses.CreatedNothing`), and so can a rename, which
  then leaves everything as it was (`Rename.DoRename`); mkdir can answer 0 and leave
  nothing when the new directory's own block is not to be had (`NameRuns.Mkdir`).
- Repair and serialisation store link counts in 16 bits: the result passes the link
  check exactly when the counts fit, which for the repair is told from the image as
  found (`FsckRun.RepairThenCheck`, `Witnesses.TooManyNames`,
  `SerializeRun.SerializeTree`).
- The repair stops hanging orphans when lost+found is full, and hangs none when it is
  absent.  What is left out keeps the check from passing; it takes them all exactly when
  it has a free slot, dangling entries cleared, for each orphan no earlier orphan leads
  to (`FsckRun.RepairThenCheck`).

## Model

| member | source | states |
|---|---|---|
| `Endian.Put16` | src/s5endian.c:17-43 | reading the two bytes back gives the value modulo 2^16, in every byte order, and no other byte changes |
| `Endian.Put24` | src/s5endian.c:61-136 | the same for three-byte block addresses |
| `Endian.Put32` | src/s5endian.c:45-122 | the same for four-byte words, middle-endian on the PDP-11 |
| `Endian.ByteOrders` | src/s5endian.c:17-136 | which byte is the top one, the next and so on, for two, three and four bytes in each of the three orders |
| `Layout.EncodeChain` | src/s5fs_core.c:90-101 | a block written for the free chain decodes to the cache it was made from |
| `Layout.EncodeFree` | src/cmd_fsck.c:825-830 | storing a free list and the totals in a superblock changes neither the sizes nor the magic; list, free blocks and free inodes read back as stored |
| `FreeList.ChainUnique` | src/s5fs_core.c:103-134 | a cache and a disk spell at most one free list |
| `FreeList.ChainSpill` | src/s5fs_core.c:136-146 | spilling a full cache into the freed block pushes that block, whatever else lies on the disk |
| `FreeList.ChainStep` | src/s5fs_core.c:103-134 | taking the top of the cache, refilled from that block when it was the last, leaves exactly the rest of the list |
| `Allocator.S5FS.PutFblk` | src/s5fs_core.c:89-101 | the block decodes to the cache that was spilled and no other block changes |
| `Allocator.S5FS.GetFblk` | src/s5fs_core.c:102-114 | the cache becomes what the block spells, with the count clamped to the array |
| `Allocator.S5FS.Alloc` | src/s5fs_core.c:119-134 | pop of the abstract stack, with the count going down; the terminator sets the sticky error |
| `Allocator.S5FS.Push` | src/s5fs_core.c:135-146 | any number, a block or not, goes into the cache; a full one is spilled into the block of that number, and no other block changes |
| `Allocator.S5FS.Bfree` | src/s5fs_core.c:135-146 | push on the abstract stack, with the count going up; only the freed block is ever written |
| `AllocRuns.Run` | src/s5fs_core.c:119-146 | any interleaving of allocations, frees of held blocks and writes to held blocks hands out what a plain stack would, and every block never freed holds what was last written to it |
| `AllocRuns.TakenFromList` | src/s5fs_core.c:119-134 | without frees the blocks handed out are a prefix of the list: distinct, in range, not held |
| `AllocRuns.Mount` | src/s5fs_core.c:643-696 | a superblock whose list is sound mounts as an allocator holding exactly that list and the stored total, or is refused exactly when not 2 <= isize < fsize |
| `AllocRuns.RunAfterCheck` | src/cmd_fsck.c:541-649 | when the block check finds nothing, every later run of allocations and writes on the mounted image returns the blocks of its list from the top: distinct data blocks no inode refers to |
| `Interleave.NextFree` | src/s5fs_core.c:425-427 | the inner skip loop ends, at the first free offset going round |
| `Interleave.Permute` | src/s5fs_core.c:420-431 | adr is a permutation of 1..n, for every m; each offset lies m past the one before or at the first free place after |
| `Interleave.SteppedMeans` | src/s5fs_core.c:420-431 | that is: the first offset is 1, and each next one is m on modulo n, or as few more as all before that are taken |
| `Interleave.BuildFreeList` | src/s5fs_core.c:410-452 | every data block is freed exactly once, save the last one exactly when n divides fsize - 1; blocks come off group by group from the lowest, each group in the order of one permutation of its n offsets, which steps by m |
| `BlockMap.RouteRange` | src/fsread.c:127-157 | a logical block routes to one slot, level and offset that add up to it, or to none exactly past the capacity |
| `BlockMap.RouteOfSlot` | src/fsread.c:127-157 | the router inverts the writer's layout of slots |
| `BlockMap.LevelCapsFit` | src/pdp11fs.h:59-73 | with at most 512 entries a block, every product of the routing fits 32 bits |
| `BlockMap.DigitsClosedForm` | src/s5fs_rw.c:83-124 | the recursive descent by idx / per and idx % per picks the entries the closed form (idx / d) % nindir picks |
| `BlockMap.IndIndex` | src/fsread.c:159-168 | the reader's loop computes that closed form |
| `BlockMap.PerAt` | src/s5fs_rw.c:83-91 | the writer's loop computes the blocks below one entry |
| `BlockMap.PathInjective` | src/fsread.c:127-187 | distinct logical blocks never share a path |
| `InodeMap.SlotStep` | src/s5fs_rw.c:134-164 | a step inside one slot's tree is a step of the whole map: every other logical block keeps its place |
| `RwOps.Bmap` | src/fsread.c:171-187 | the reader's descent follows the path of the logical block |
| `MapOps.IndMap` | src/s5fs_rw.c:93-124 | with enough free blocks the wanted path leads to the returned block, every other path is unchanged, blocks move from the list to the tree and none is lost, and exactly the missing ones are taken from its top; otherwise the handle has failed and the tree still refers to all it did, and the answer is 0 when only the data block was missing, whatever a failed handle reads when an indirect block was |
| `RwOps.RwBmap` | src/s5fs_rw.c:134-164 | the handle survives exactly when the free list holds what the block is missing; then the reader finds the returned block there, every other logical block maps as before, and references plus free blocks are the same multiset; otherwise only the inode's own and free blocks were written, the dinode on the image refers to at least what it did, and the answer is 0 when just the data block was missing |
| `FreeOps.BfreeAt` | src/s5fs_rw.c:166-200 | that logical block reads as a hole, every other maps as before, its block is back on the list, indirect blocks stay |
| `FreeOps.IndFree` | src/s5fs_rw.c:366-384 | each block of the tree goes back to the list exactly once, whatever the tree |
| `FreeOps.IfreeBlocks` | src/s5fs_rw.c:386-398 | each block of the inode goes back to the list exactly once |
| `Builder.BuiltReads` | src/s5fs_core.c:273-306 | descending a built tree by the digits of idx gives entry idx of the numbers it was built from |
| `Builder.BuildInd` | src/s5fs_core.c:273-306 | the tree maps the given numbers; its blocks came off the list, each once, and nothing else was written |
| `Builder.SetBlocks` | src/s5fs_core.c:308-352 | the reader finds da[lbn] below the count and holes above it, for every lbn; the call fails exactly past the capacity |
| `Ownership.InodeChange` | src/s5fs_rw.c:93-200 | a step that conserves one inode's references plus the list keeps every data block owned exactly once |
| `Ownership.RunOps` | src/s5fs_rw.c:93-398 | over any run of mapping, unmapping and releasing, every data block is in one tree position or on the list, never both; afterwards just those logical blocks are mapped whose last operation that went through mapped them; with four free blocks an operation all go through |
| `Ownership.ReleaseInode` | src/s5fs_rw.c:386-398 | all blocks of the inode, indirect ones too, come back, and the others keep theirs |
| `DeviceNodes.StillInVolume` | src/s5fs_rw.c:386-398 | a referenced block written over, by a spill say, is still referenced, whatever tree it was part of |
| `DeviceNodes.PushedTwice` | src/s5fs_core.c:135-146 | pushing a number that is a taken or free block, or none at all, leaves a cache none of whose lists partitions the data region, spill or not |
| `DeviceNodes.FreeDevice` | src/s5fs_rw.c:386-398 | freeing by the addresses of a device node leaves a free list that partitions the data region if and only if the device number is 0 |
| `Volumes.StepWhole` | src/s5fs_rw.c:76-81 | a step on one inode of a volume keeps the exact partition over all inodes of the i-list |
| `Volumes.DinodesApart` | src/s5fs_core.c:46-56 | two dinodes never overlap, whichever block they share |
| `BlockCheck.CK.Mark` | src/cmd_fsck.c:121-141 | the saturating use byte tallies the reference; an error is raised unless it is in range and the first |
| `BlockCheck.CK.MarkIndirect` | src/cmd_fsck.c:144-169 | the walk tallies exactly the multiset of references of the tree, for arbitrary bytes |
| `BlockCheck.CK.MarkInodes` | src/cmd_fsck.c:541-572 | after it every reference of every inode of the i-list is tallied, and errors are none exactly when they are in range and distinct; the inodes in use are counted |
| `BlockCheck.IlistHolds` | src/cmd_fsck.c:533 | a number is within the count of inodes exactly when its block lies before isize |
| `BlockCheck.DinodeOf` | src/s5fs_core.c:46-56 | every slot of blocks 2 to isize - 1 is one inode of the i-list |
| `BlockCheck.DinodePlace` | src/s5fs_core.c:46-56 | inode ino of the i-list is the slot at byte 2 * Bsize + 64 * (ino - 1) |
| `BlockCheck.VolumeFiles` | src/cmd_fsck.c:533-572 | what is tallied is exactly what the regular files and directories in the 64-byte slots of blocks 2 to isize - 1 refer to |
| `BlockCheck.CK.WalkFree` | src/cmd_fsck.c:574-620 | the walk ends for arbitrary superblock and chain, stays inside its arrays, and finds no fault exactly when the chain spells a list of distinct unreferenced data blocks |
| `BlockCheck.CK.Sweep` | src/cmd_fsck.c:622-649 | the blocks neither referenced nor on the list are counted as missing, those that are both as both, block for block; each kind raises one error |
| `BlockCheck.CK.CheckBlocks` | src/cmd_fsck.c:541-649 | zero errors exactly when every data block is in one inode-tree position or one free-list position, and nothing else is; then the files of any two slots of the i-list share no block and stay in the data region, and the list is counted; on a sound list the missing blocks are counted exactly |
| `Salvage.Rebuild.RepBfree` | src/cmd_fsck.c:78-95 | the repairer's own push, spill included, is a push on the stack the checker will walk |
| `Salvage.UnreferencedSorted` | src/cmd_fsck.c:820-824 | the rebuilt list is in increasing order |
| `Salvage.SalvageFreeList` | src/cmd_fsck.c:817-831 | the new list is exactly the data blocks no file in any slot of the i-list has; its count and that of the inodes not in use are stored, references are untouched and only the superblock and listed blocks were written |
| `Salvage.FreeCounted` | src/cmd_fsck.c:829 | inodes not in use and inodes in use make up the i-list |
| `Salvage.SalvageThenCheck` | src/cmd_fsck.c:574-649 | after it the walk and the sweep find nothing, whatever the image held, and count the stored total; no referenced block was written; the check is clean exactly when the references are |
| `Superblock.Finish` | src/s5fs_core.c:698-737 | the superblock written, in either variant, reads back as the allocator's state, the inode total included |
| `Superblock.Sync` | src/s5fs_rw.c:42-47 | syncing a volume whose blocks are partitioned gives an image the block check passes |
| `OnDisk.SuperBytes` | src/pdp11fs.h:116-148 | where the cache and both totals are in a superblock, by dialect, and the cache in a chain block |
| `OnDisk.ClampNearest` | src/pdp11fs.h:34-38 | the count taken from the disk is the one from 0 to 50 nearest to the signed word |
| `OnDisk.DinodeBytes` | src/pdp11fs.h:101-113 | where mode, link count, size and addresses of inode ino are on the image, in bytes |
| `OnDisk.EntryBytes` | src/pdp11fs.h:40-41 | where number and name of a directory entry are, and where the name ends |
| `OnDisk.KindExact` | src/pdp11fs.h:79-84 | the four kinds of inode by the top bits of the mode, and that all layers agree on them |
| `OnDisk.LiveSlots` | src/fsread.c:216-255 | a slot is live exactly when it begins below the size of its directory |
| `Space.StepCost` | src/s5fs_rw.c:93-164 | mapping the next block of a file without holes takes no more blocks than the file's cost grows by |
| `Space.StepExact` | src/s5fs_rw.c:93-164 | in a file that holds exactly its cost the next block is missing exactly what the cost grows by |
| `Space.RefsCost` | src/s5fs_rw.c:93-164 | a file whose first blocks are mapped holds at least their cost, data and indirect blocks |
| `FileBytes.PutChunk` | src/s5fs_rw.c:796-818 | the handle fails exactly when the block is missing more than is free; otherwise the chunk's bytes are in the file unless it lies past the map's reach, bytes of other blocks are unchanged, the rest of the block is what the disk block held; on a handle that fails the chunk is refused when just its data block was missing |
| `FileBytes.Position` | src/s5fs_rw.c:796-805 | byte k of logical block lbn is at position lbn * Bsize + k |
| `FileBytes.BlocksExact` | src/s5fs_rw.c:832-860 | the blocks of n bytes are those that begin before n |
| `FileOps.CopyIn` | src/s5fs_rw.c:806-818 | the loop stores all of it when the blocks it costs are free; on a live handle it stops short only past the map's reach; when the list runs out it goes on over the failed handle, and what it then counts is a function of what that handle reads |
| `FileOps.StoreDinode` | src/s5fs_rw.c:819-828 | the dinode reads back with the new size and addresses, other fields unchanged |
| `FileOps.RwPwrite` | src/s5fs_rw.c:786-830 | without a failure the bytes written are in place, others in untouched blocks are unchanged, the size covers them, no other inode changes, and a short write means the map's reach; a write that can be paid for is whole; after a failure the dinode and the superblock on the image are the old ones and the answer is that of the copy loop |
| `ReadBack.WriteThenRead` | src/s5fs_rw.c:786-830 | write, then read all: on a live handle a file without holes below its end, written to at or before it, reads as before with the written bytes laid over it, if and only if the new length is below 2 GiB; refused, it reads as before |
| `FileOps.PwriteDead` | src/s5fs_rw.c:786-830 | on a handle that has failed the loop counts a chunk for every block number that is not 0, up to the first that is or the map's reach |
| `PutRun.DeadStop` | src/s5fs_rw.c:806-818 | it stops at the first chunk whose block number reads as 0 or that lies past the map's reach, and at no other |
| `PutFile.RwTruncate` | src/s5fs_rw.c:832-860 | blocks wholly past the new length are unmapped, each counted back on the list, bytes before it stay, indirect blocks are kept, and the superblock on the image holds the new cache |
| `ReadBack.TruncateThenRead` | src/s5fs_rw.c:832-860 | cut, then read all: the bytes up to the new length; every logical block that begins past it reads as a hole; asked to grow, the map stays as it was |
| `PutFile.ReadFile` | src/fsread.c:257-285 | each byte returned is the file's byte at that offset, holes as zeros; never past the size or more than asked for, and less only at a block past the image |
| `PutRun.HaltExact` | src/s5fs_rw.c:881-924 | where a file that starts empty runs out, its blocks so far were paid for, and just a data block is missing exactly when the next block makes the cost one more than was free |
| `PutRun.CopyReach` | src/s5fs_rw.c:806-818 | a failed handle never counts a write whole that goes past the map's reach, whatever it reads |
| `PutRun.SilentCopy` | src/s5fs_rw.c:806-818 | when no block number it reads is 0, it counts any other write whole |
| `PutRun.PutChunks` | src/s5fs_rw.c:904-919 | over all chunks: with enough blocks all go in; a handle that failed went in with k whole chunks before it, and the loop after it answers 0 exactly within the map's reach when nothing read looks wrong, never when just a data block was missing |
| `PutRun.PutFd` | src/s5fs_rw.c:881-924 | it succeeds whenever the file's cost is free, counting what truncating an existing file gives back; on a live handle it fails only past the map's reach, and the file then holds exactly the concatenated chunks, on an image the block check passes; the handle fails only for want of blocks, for a file that starts empty exactly then, and the answer is then sure to be an error exactly when the shortage falls on a data block; what a failed handle leaves: the first chunk that did not fit, the blocks taken before it, the old length, an inconsistent image |
| `PutRun.PutThenRead` | src/s5fs_rw.c:881-924 | the same answers; when the put answers 0, reading back gives exactly what was put if and only if the handle has not failed and it is shorter than 2 GiB, for a file that starts empty if and only if the free blocks were enough and it is |
| `PutFile.HaltedDirty` | src/s5fs_rw.c:913-919 | a put that halted after a completed chunk took a block: the block on top of the list on the image is in the file too, so no free list there makes a partition |
| `PutCheck.PutThenCheck` | src/s5fs_rw.c:881-924 | put, close, check: no errors when the handle has not failed; errors when it failed after a chunk took a block, which for a new file is any completed chunk, whatever the put answered |
| `PutFile.HoleFreeWrite` | src/s5fs_rw.c:786-830 | on a hole-free file no byte outside the written range changes |
| `NameOps.RW.Lookup` | src/fsread.c:216-255 | finds the inode of a live entry of that name, or none exactly when there is none |
| `NameOps.RW.IallocScan` | src/s5fs_rw.c:234-250 | the first free inode from the root's number on, all before it in use, or none exactly when all are taken |
| `NameOps.RW.DirAdd` | src/s5fs_rw.c:275-325 | the directory gains exactly that entry, in its first free slot or else at its end, a new block there keeping what it held, or the handle fails, exactly when a block is needed and not to be had; then nothing is written, and the answer is an error only when 0 was read for the block |
| `NameOps.RW.DirRemove` | src/s5fs_rw.c:327-364 | the directory loses exactly that entry |
| `NameOps.RW.UnrefDir` | src/s5fs_rw.c:485-512 | the directory's inode is cleared, and the parent loses a link unless both lie in one i-list block |
| `OnDisk.SharedBlock` | src/s5fs_rw.c:485-512 | sharing an i-list block, for the name operations, is lying in one block of the disk |
| `NameRuns.Creat` | src/s5fs_rw.c:518-544 | the answer is a function of name, entries, free inodes and room, success included, and after success the name refers to the inode returned; that is the first free one, made an empty regular file with one link; one entry and one inode more, nothing else, or on a handle that fails the inode alone; consistency kept if and only if it did not fail and the parent's new slots are free |
| `NameRuns.Mkdir` | src/s5fs_rw.c:546-580 | the answer is a function of the same and of whether the directory's own block can be had; a new empty directory under the parent, ".." its inverse, one block of two entries in the first free inode, nothing else; on a handle that fails nothing, or a directory nothing names; consistency kept if and only if nothing was written or it did not fail, the slots are free and the parent's count fits |
| `NameRuns.NewNameCodes` | src/s5fs_rw.c:518-544 | each answer of creat, in both directions, by name, entries, free inodes and a full parent |
| `NameRuns.MkdirCodes` | src/s5fs_rw.c:546-580 | of mkdir: out of space exactly without a free inode, without a block of its own, or without one for a full parent |
| `NameRuns.Unlink` | src/s5fs_rw.c:582-618 | one entry less, the inode gone with its last name; consistency kept if and only if the count is at most 0x8000 |
| `NameRuns.Rmdir` | src/s5fs_rw.c:620-656 | an empty directory and its one entry gone, consistency kept; error cases exact |
| `Rename.IsAncestor` | src/s5fs_rw.c:452-483 | the bounded walk answers exactly "is the directory or lies above it" on every rooted tree |
| `Rename.DoRename` | src/s5fs_rw.c:658-716 | the answer is a function of the tree and of room, success included (into the own subtree is EINVAL); what the entries are afterwards; structure and counts kept under exact conditions; a handle fails only where no target was let go, and leaves the tree as it was |
| `Rename.RenameCodes` | src/s5fs_rw.c:658-716 | each error code of rename by what stands under the two names, and success likewise |
| `NameHistory.RunCalls` | src/s5fs_rw.c:518-716 | over any sequence of the five calls names stay unique, each count is the number of entries, and every directory climbs to the root; and each call changes the entries just as it says, and nothing when it answers an error |
| `Reach.MarkReached` | src/cmd_fsck.c:287-327 | marks only what the start reaches by way of inodes not marked before, closes what it adds, and ends on cyclic directories |
| `Reach.SpreadExact` | src/cmd_fsck.c:287-327 | added to a closed set of marks, exactly the reachable inodes are marked |
| `Reach.ReachableByName` | src/cmd_fsck.c:287-327 | reachable is reachable by a path of entries other than . and .. |
| `LinkCheck.Tally` | src/cmd_fsck.c:651-696 | each inode is tallied as often as slots name it, in any contents, and the errors are the slots that name no inode in use and the "." that name another directory, one each |
| `LinkCheck.TargetsCount` | src/cmd_fsck.c:651-696 | as often as slots name it: one by one, the slots that hold its number |
| `LinkCheck.MarkFromRoot` | src/cmd_fsck.c:714-724 | the marks are exactly the inodes reachable from the root, and the bad-block inode |
| `LinkCheck.CheckLinks` | src/cmd_fsck.c:651-736 | an error for each bad mode and each slot astray, one for wrong counts, one for orphans; zero errors exactly when modes are valid, entries name allocated inodes, "." names its directory, counts match and everything is reachable |
| `LinkCheck.CleanMeans` | src/cmd_fsck.c:651-736 | on a clean image there is a path from the root to every inode in use but the first, its count is the number of slots naming it, free inodes have none, and . names its directory |
| `LinkCheck.ConsistentIsClean` | src/cmd_fsck.c:651-736 | a tree the five operations keep consistent passes the link check |
| `FsckRun.Fsck.DirReuseSlot` | src/cmd_fsck.c:402-439 | the first free slot below the size takes the entry; it fails exactly when there is none |
| `FsckRun.Fsck.Recount` | src/cmd_fsck.c:804-816 | each allocated inode's count becomes the number of slots naming it, cut to 16 bits |
| `FsckRun.Fsck.Reconnect` | src/cmd_fsck.c:777-797 | orphans are hung into lost+found one after the other, each with its whole subtree marked, until one finds no free slot; the ones hung are those no orphan hung earlier leads to, and every inode's entries change by exactly what that gains and overwrites; each stands in lost+found under its own number as name; all are hung if and only if lost+found has a slot for each |
| `FsckRun.Fsck.RepairLinks` | src/cmd_fsck.c:738-816 | every allocated inode's new number of entries, from the image as found, with lost+found present, absent or full; when it takes all orphans the result passes the link check if and only if these fit 16 bits, and when it does not the result fails it; entries for allocated inodes are left alone but for ".." of what the root did not reach; if no name in lost+found began with #, its names are unique afterwards and looking up # and the number finds just that orphan |
| `FsckRun.RepairThenCheck` | src/cmd_fsck.c:738-816 | one repair, then a check: when lost+found takes all orphans, no error if and only if, on the image as found, entries plus what hanging orphans adds less what it overwrites fit 16 bits for every allocated inode; when it does not, errors |
| `RepairNames.OrphanNamed` | src/cmd_fsck.c:784 | the name is # and the digits of the number, all of them, and these read as the number |
| `RepairNames.OrphansApart` | src/cmd_fsck.c:784 | no two orphans get the same name |
| `RepairNames.SpotsFound` | src/cmd_fsck.c:777-797 | entries put one after the other into free slots are found by name, each under its own |
| `RepairCounts.HungHeads` | src/cmd_fsck.c:777-797 | when no second slot of an orphan directory holds an ordinary entry, the orphans hung are exactly those no orphan with a smaller number leads to |
| `LinkRepair.OrphansCount` | src/cmd_fsck.c:777-797 | the orphans counted are the inodes in use, but the first, that the root does not reach |
| `RepairCounts.FreshMarks` | src/cmd_fsck.c:777-797 | the walk from an orphan just hung marks exactly what it leads to in the image found, second slots overwritten by then left out |
| `RepairCounts.WalledOut` | src/cmd_fsck.c:777-797 | when reconnecting ends, what is not marked the root does not reach, as long as inode 1 is no directory |
| `DiskTree.PutEntry` | src/s5fs_core.c:168-182 | the directory block decodes with exactly that slot changed |
| `Mkfs.LostBlocks` | src/s5fs_core.c:458-482 | lost+found's blocks: entries in the first, zeros in the rest, the extra one as an empty indirect block |
| `Mkfs.PutDinode` | src/s5fs_core.c:188-251 | the i-list reads back with that inode added and the others as they were |
| `Mkfs.Populate` | src/s5fs_core.c:458-517 | it succeeds exactly with laddr + 2 blocks to be had, and leaves the two directories in place |
| `NewImage.FreshConsistent` | src/s5fs_core.c:458-517 | a root with lost+found in it and nothing else is a tree the five operations keep consistent, and passes the link check |
| `NewImage.FreshPlaces` | src/s5fs_core.c:458-482 | its lost+found is found by the repair and takes as many orphans as it has slots, less two |
| `MkfsCheck.MakeFs` | src/s5fs_core.c:739-751 | it succeeds exactly with laddr + 2 blocks on the list; then the tree on the image has five entries and no others, is consistent, passes the link check, and lost+found takes laddr * Bsize / 16 - 2 orphans; modes, sizes, region bounds and both totals are as asked for; the image passes the block check if and only if n does not divide fsize - 1 |
| `MkfsCheck.MakeThenCheck` | src/s5fs_core.c:739-751 | make, then check: no link errors, and no block errors under that condition |
| `TapeRecords.HdrCksumOk` | src/cmd_restore.c:116-129 | accepts exactly the headers whose words sum to the constant |
| `TapeRecords.Finalize` | src/cmd_dump.c:108-120 | every header it finishes is accepted, with only inode number, magic and checksum changed |
| `TapeRecords.OneWordOff` | src/cmd_restore.c:116-129 | changing any one word of an accepted header makes it rejected |
| `OnDisk.RecordBytes` | src/cmd_dump.c:108-150 | where type, number, magic, dinode, count and flags of a header are, and what its words sum to |
| `Dump.Dumper.Indir` | src/cmd_dump.c:122-150 | the records spell the present part of the tree in order, flags for holes and blocks for the rest |
| `Dump.Dumper.DumpInode` | src/cmd_dump.c:152-202 | the records spell exactly the inode's header, hole pattern and blocks |
| `Restore.ReadBlocks` | src/cmd_restore.c:171-223 | never leaves the record or the block array, whatever the tape, and goes on reading when the free list has run out; on dumped records it takes exactly those, one fresh block for each flag set |
| `DumpRestore.DumpThenHead` | src/cmd_restore.c:323-340 | reading a dump of any byte order in PDP-11 order: accepted if and only if the image is not big-endian, mode and count right whenever accepted, the size right exactly in PDP-11 order or when its halves are equal |
| `DumpRestore.Misread` | src/cmd_restore.c:323 | the size 100 of a little-endian image is read as 6553600 |
| `DumpRestore.DumpThenRestore` | src/cmd_restore.c:395-451 | with the size read right, the restored file has the same holes and the same bytes, and the reader stands right behind its records |
| `HostTree.CountIsOwners` | src/tree.c:125-137 | the count is the number of nodes that own an inode |
| `HostTree.PreDistinct` | src/tree.c:143-154 | the pre-order walk meets no node twice |
| `Serialize.Forest.AssignInodes` | src/tree.c:143-154 | the owners below a node get consecutive numbers in pre-order, as far as the numbers go, and nothing else changes |
| `Serialize.Forest.CountLinks` | src/tree.c:156-173 | each node gains as many links as there are entries for it in the whole tree |
| `SerializeCheck.SlotsCount` | src/tree.c:210-256 | the slots of a directory name each inode as often as its entries stand for the node |
| `SerializeCheck.NamedIsEntries` | src/tree.c:210-256 | so do the slots of all directories together |
| `SerializeCheck.Writer.WriteNode` | src/tree.c:258-296 | every node below holds its inode and slots, and no other inode is touched |
| `SerializeRun.DirShown` | src/tree.c:210-256 | a directory written refers by ., .. and each child's name to the inode of the node it stands for, and by no other name to anything |
| `SerializeRun.SerializeTree` | src/tree.c:298-305 | as many distinct numbers as counted, or failure exactly when they run past 65535; every node that owns an inode is on the image with its kind and count, and a directory there has just the entries of its children, each under its own name, each name once; the image passes the link check if and only if every count fits 16 bits |
| `Witnesses.DefaultInterleave` | src/s5fs_core.c:575-577 | a volume of 1001 blocks made with the default interleave fails the block check |
| `Witnesses.ManyLinks` | src/s5fs_rw.c:582-618 | unlinking one of 32769 names of a file frees the inode under the other 32768 |
| `Witnesses.DirtyBlock` | src/s5fs_rw.c:275-325 | creating a file in a full root whose new block is dirty leaves an inconsistent tree |
| `Witnesses.LeftBehind` | src/s5fs_rw.c:518-544 | creating a file in a full root with no free block answers ENOSPC and leaves an inode nothing names |
| `Witnesses.CreatedNothing` | src/s5fs_rw.c:313-324 | a root of 256 entries fills four direct blocks; without an indirect block to be had, creating a file can answer 0 and leaves an inode nothing names |
| `Witnesses.OntoEmpty` | src/s5fs_rw.c:658-716 | mkdir a and rename a lost+found go through and leave the root's count one too high |
| `Witnesses.TooManyNames` | src/cmd_fsck.c:804-816 | a file with 65536 names fails the check after the repair |
| `PutWitnesses.SeventyBlocks` | src/s5fs_rw.c:881-924 | 64 KiB and then 36 KiB put into the empty file of an image with 70 free blocks and no other inode: the put fails and so does the block check |
| `PutWitnesses.FourBlocks` | src/s5fs_rw.c:881-924 | 5 KiB put in one piece into the same file with 4 free blocks, where the fifth block needs an indirect one: the answer can be 0, and the file does not read back |
| `PutWitnesses.TwoReads` | src/s5fs_rw.c:881-924 | the same bytes as 4 KiB and 1 KiB: the answer can be 0, and the block check fails |
| `PutWitnesses.TwoGigabytes` | src/s5fs_rw.c:881-924 | 2 GiB are put without an error into the empty file of a large image and do not read back |

## Left out

- `Ownership.RunOps`, `AllocRuns.Run`: runs of operations take enough free blocks.
- `FileOps.RwPwrite`: after the free list has run out the allocator's fields in memory are not followed any further, and what is read through the failed handle - whether the inode looks like a directory, which number a block pointer holds - is a parameter (`FileOps.Stray`). The write of a block past the end of the image is not modelled.
- Geometry: the volume's sizes and byte order are parameters; option defaults, rounding in `s5fs_begin`, the interleave clamp, byte-order detection and the block-size check of `s5fs_mount` are not modelled.
- Reads and writes past the end of the image, host I/O, and the free-inode cache of the superblock.
- `NameOps.RW.DirAdd`, `NameRuns.Creat`, `NameRuns.Mkdir`, `Rename.DoRename`: work on typed slots; whether a free block can be had, what it holds and what is read for one on a failed handle are parameters. `DiskTree.TreeOf` gives the slots of a disk image, but the name operations are not carried down to bytes.
- `NameHistory.RunCalls`: stops once a link count reaches 32768, takes free blocks to be had and fresh directory blocks to be clean, and skips a rename onto a directory that shares its parent's i-list block.
- `PutRun.PutFd`: permissions and times (`set_meta`) and the creation of the file's name are not part of it.  For an existing file that keeps blocks after the truncation, indirect ones mostly, the condition for running out is two bounds, not one exact count, and a shortage on a data block is not told from one on an indirect block.
- `FsckRun.Fsck.RepairLinks`: asks that what is called lost+found, if anything, is a directory, and that "." entries and modes are right.  It works on typed slots: no two directories share a block, as in a volume whose blocks are partitioned, and a directory's first block is present.  Should inode 1 be a directory, what lies below it counts as reached, and an orphan left out need not fail the check. The two halves of the repair, this and `Salvage.SalvageFreeList`, are not put together on one image.
- `LinkCheck.CheckLinks`: directories are given by their slots; holes in a directory count as no slots.
- `DumpRestore.DumpThenRestore`: asks that no indirect block in use is missing below a hole, as `s5fs_setblocks` leaves it; a dump of other sparse files shifts the reader's block counter. The tape maps, the records of other types and the loop over all inodes are not modelled.
- `Restore.ReadBlocks`: block numbers taken after the free list has run out are a parameter, as nothing is written with them.
- `SerializeCheck.Writer.WriteNode`: file data and the blocks of directories are not written.
- `SerializeRun.SerializeTree`: file contents and the blocks of directories are not written; nodes are indexed by creation order, and the trees are those with unique names of 1 to 14 characters below each directory. `tree_insert` is not modelled.
- `Interleave.BuildFreeList`: the bound of 500 on n is not needed and not asked for.
- Path strings: operations take a parent directory and a leaf; `parent_of` and `fsr_namei` over several components are not modelled.
- `DeviceNodes.FreeDevice`: a full cache is spilled into a block inside the image; a device number past its end would extend the image. Creating device nodes is left out.
- The shell, the FUSE server, fsdb, tar headers, disk labels, reports (df, du, quot), `rw_chmod`, `rw_chown`, `rw_utimes` and `rw_copy`: formatting and plumbing around the operations above.

/** The directory and inode primitives of the mutation engine, and the operations
    built from them, each on a parent directory and a leaf name. */
module NameOps {
  import opened Arith
  import opened Errno
  import opened Names
  import opened NameSteps

  /** Signed view of a 16-bit word, and the word of a signed value. */
  function Int16(w: nat): int
    requires w < 0x1_0000
  {
    if w < 0x8000 then w else w - 0x1_0000
  }

  function Word16(x: int): nat { x % 0x1_0000 }

  /** --nl on a signed 16-bit link count: what is left, or 0 or less when it ran out. */
  function Decremented(w: nat): int
    requires w < 0x1_0000
  {
    Int16(Word16(Int16(w) - 1))
  }

  /** What comes of asking for a free block.  When there is none the handle has failed:
      either 0 is read for the block, or something that passes for one, as happens when an
      indirect block was not to be had. */
  datatype Room = Had | Refused | Blind

  /** What an operation answers when its handle failed like that. */
  function FailedReply(room: Room): int { if room.Refused? then -ENOSPC else 0 }

  /** Adding an entry to p needs a new block: no free slot, and none left over past the
      size. */
  predicate NeedsBlock(t: Tree, p: nat)
    requires t.IsDir(p) && |t.dirs| == |t.ilist|
  {
    t.ilist[p].live == |t.dirs[p]| && forall k | 0 <= k < |t.dirs[p]| :: t.dirs[p][k].ino != 0
  }

  /** x went into the first free slot below the size, or right at the size, which then
      grew by it; where there was no slot left, a block of stale ones was added for that. */
  ghost predicate PlacedFirst(s: seq<Slot>, live: nat, s': seq<Slot>, live': nat, x: Slot, stale: seq<Slot>) {
    exists k: nat :: IsPlace(s, live, s', live', x, stale, k)
  }

  ghost predicate IsPlace(s: seq<Slot>, live: nat, s': seq<Slot>, live': nat, x: Slot, stale: seq<Slot>, k: nat) {
    && k <= live <= |s| && (forall j | 0 <= j < k :: s[j].ino != 0)
    && if k < live then s[k].ino == 0 && live' == live && s' == s[k := x]
       else live' == live + 1 && k < |s| + |stale| && s' == (if k < |s| then s else s + stale)[k := x]
  }

  lemma PlacedAt(s: seq<Slot>, live: nat, s': seq<Slot>, live': nat, x: Slot, stale: seq<Slot>, k: nat)
    requires IsPlace(s, live, s', live', x, stale, k)
    ensures PlacedFirst(s, live, s', live', x, stale)
  {
  }

  /** The slots of p past its size. */
  function Tail(t: Tree, p: nat): seq<Slot>
    requires p < |t.ilist| == |t.dirs| && t.ilist[p].live <= |t.dirs[p]|
  {
    t.dirs[p][t.ilist[p].live..]
  }

  lemma LiveSlot(t: Tree, p: nat, k: nat)
    requires t.Shape() && t.IsDir(p) && WellFormed(t, p) && k < |t.dirs[p]|
    ensures t.dirs[p][k].ino != 0 ==> k < t.ilist[p].live
  {
    if t.ilist[p].live <= k {
      assert Tail(t, p)[k - t.ilist[p].live] == t.dirs[p][k];
    }
  }

  class RW {
    const inopb: nat
    const ndirect: nat
    var ilist: seq<Inode>
    var dirs: seq<seq<Slot>>
    var failed: bool

    ghost function T(): Tree
      reads this
    {
      Tree(ilist, dirs)
    }

    /** A handle over an image that holds tree t, k inodes and n directory slots a block. */
    constructor (k: nat, n: nat, t: Tree)
      ensures inopb == k && ndirect == n && ilist == t.ilist && dirs == t.dirs && !failed
    {
      inopb, ndirect, ilist, dirs, failed := k, n, t.ilist, t.dirs, false;
    }

    /** The handle is alive, and what it holds is an image. */
    ghost predicate Valid()
      reads this
    {
      && !failed && inopb > 0 && ndirect > 0
      && T().Shape() && |ilist| <= 0x1_0000 && (|ilist| - 1) % inopb == 0
      && forall i | 0 <= i < |ilist| :: ilist[i].nlink < 0x1_0000
    }

    /** Number of the first inode in the i-list block of ino. */
    function First(ino: nat): (lo: nat)
      requires ino >= 1 && inopb > 0
      ensures 1 <= lo <= ino < lo + inopb
    {
      ino - (ino - 1) % inopb
    }

    predicate SameBlock(i: nat, j: nat)
      requires i >= 1 && j >= 1 && inopb > 0
    {
      First(i) == First(j)
    }

    /** An i-list block is whole. */
    lemma BlockInList(ino: nat)
      requires Valid() && 1 <= ino < |ilist|
      ensures First(ino) + inopb <= |ilist|
    {
      var n, k := |ilist| - 1, inopb;
      Blocks(n, k, ino);
    }

    method RdIlist(ino: nat) returns (pb: seq<Inode>)
      requires Valid() && 1 <= ino < |ilist|
      ensures First(ino) + inopb <= |ilist| && pb == ilist[First(ino)..First(ino) + inopb]
    {
      BlockInList(ino);
      pb := ilist[First(ino)..First(ino) + inopb];
    }

    method WtIlist(ino: nat, pb: seq<Inode>)
      requires Valid() && 1 <= ino < |ilist| && |pb| == inopb
      modifies this`ilist
      ensures |ilist| == |old(ilist)|
      ensures forall j | 0 <= j < |ilist| ::
                ilist[j] == if First(ino) <= j < First(ino) + inopb then pb[j - First(ino)] else old(ilist)[j]
    {
      BlockInList(ino);
      ilist := ilist[..First(ino)] + pb + ilist[First(ino) + inopb..];
    }

    /** Read the block of inode ino, patch that inode, write the block back. */
    method PutInode(ino: nat, x: Inode)
      requires Valid() && 1 <= ino < |ilist| && x.nlink < 0x1_0000
      requires x.kind.Dir? ==> x.live <= |dirs[ino]|
      modifies this`ilist
      ensures Valid() && ilist == old(ilist)[ino := x]
    {
      var pb := RdIlist(ino);
      WtIlist(ino, pb[ino - First(ino) := x]);
    }

    /** Look leaf up in directory p, as readdir shows it: every slot of its blocks. */
    method Lookup(p: nat, leaf: string) returns (r: nat)
      requires Valid() && T().IsDir(p)
      ensures WellFormed(T(), p) ==>
                (r == 0 <==> forall i: nat :: !Refers(T(), p, leaf, i))
                && (r != 0 ==> Refers(T(), p, leaf, r))
    {
      ghost var s, live := dirs[p], ilist[p].live;
      for k := 0 to |dirs[p]|
        invariant forall j | 0 <= j < k :: dirs[p][j].ino == 0 || dirs[p][j].name != leaf
      {
        if dirs[p][k].ino != 0 && dirs[p][k].name == leaf {
          if WellFormed(T(), p) {
            LiveSlot(T(), p, k);
            assert T().Ents(p)[k] == Slot(s[k].ino, leaf);
            assert Refers(T(), p, leaf, s[k].ino);
          }
          return dirs[p][k].ino;
        }
      }
      return 0;
    }

    /** nonempty_cb over readdir: any entry beside "." and "..". */
    method NonEmpty(d: nat) returns (ne: bool)
      requires Valid() && T().IsDir(d)
      ensures WellFormed(T(), d) ==> (ne <==> exists m, i: nat :: Refers(T(), d, m, i) && !IsDot(m))
    {
      ghost var s := dirs[d];
      for k := 0 to |dirs[d]|
        invariant forall j | 0 <= j < k :: dirs[d][j].ino == 0 || IsDot(dirs[d][j].name)
      {
        if dirs[d][k].ino != 0 && !IsDot(dirs[d][k].name) {
          if WellFormed(T(), d) {
            LiveSlot(T(), d, k);
            assert T().Ents(d)[k] == Slot(s[k].ino, s[k].name);
            assert Refers(T(), d, s[k].name, s[k].ino);
          }
          return true;
        }
      }
      return false;
    }

    /** The first free inode from the root's number on. */
    method IallocScan() returns (ino: nat)
      requires Valid()
      ensures ino != 0 ==> ROOTINO <= ino < |ilist| && ilist[ino].kind.Free?
      ensures ino != 0 ==> forall i: nat | ROOTINO <= i < ino :: T().InUse(i)
      ensures ino == 0 ==> forall i: nat | ROOTINO <= i < |ilist| :: T().InUse(i)
    {
      for i := ROOTINO to |ilist|
        invariant forall j: nat | ROOTINO <= j < i :: !ilist[j].kind.Free?
      {
        if ilist[i].kind.Free? {
          return i;
        }
      }
      return 0;
    }

    /** dir_add: into the first free slot below the size, else at the end; there a new
        block may be needed, and it comes as it was found.  Only a block read as 0 makes it
        answer with an error. */
    method DirAdd(p: nat, name: string, c: nat, room: Room, stale: seq<Slot>) returns (rc: int)
      requires Valid() && T().IsDir(p) && |stale| == ndirect && NameOk(name) && 1 <= p
      modifies this
      ensures failed <==> NeedsBlock(old(T()), p) && !room.Had?
      ensures rc == if failed then FailedReply(room) else 0
      ensures failed ==> T() == old(T())
      ensures !failed ==>
                && Valid() && OnlyDir(old(T()), T(), p)
                && EntryAdded(old(T().Ents(p)), T().Ents(p), name, c)
                && (AllFree(Tail(old(T()), p)) ==>
                      (AllFree(Tail(T(), p)) <==>
                         !NeedsBlock(old(T()), p) || AllFree(stale[1..])))
      ensures !failed ==> PlacedFirst(old(dirs)[p], old(ilist)[p].live, dirs[p], ilist[p].live, Slot(c, name), stale)
    {
      hide EntryAdded, AllFree, NameOk, Tree.Ents, Tail, PlacedFirst;
      ghost var t := T();
      var live := ilist[p].live;
      for k := 0 to live
        invariant forall j | 0 <= j < k :: dirs[p][j].ino != 0
        invariant Valid() && T() == t
      {
        if dirs[p][k].ino == 0 {
          dirs := dirs[p := dirs[p][k := Slot(c, name)]];
          PlacedAt(t.dirs[p], live, dirs[p], live, Slot(c, name), stale, k);
          EntsFilled(t, T(), p, k, Slot(c, name));
          SlotFilled(t.Ents(p), k, name, c);
          return 0;
        }
      }
      rc := Append(p, name, c, room, stale);
    }

    method Append(p: nat, name: string, c: nat, room: Room, stale: seq<Slot>) returns (rc: int)
      requires Valid() && T().IsDir(p) && |stale| == ndirect && 1 <= p
      requires forall j | 0 <= j < ilist[p].live :: dirs[p][j].ino != 0
      modifies this
      ensures failed <==> NeedsBlock(old(T()), p) && !room.Had?
      ensures rc == if failed then FailedReply(room) else 0
      ensures failed ==> T() == old(T())
      ensures !failed ==>
                && Valid() && OnlyDir(old(T()), T(), p)
                && EntryAdded(old(T().Ents(p)), T().Ents(p), name, c)
                && (AllFree(Tail(old(T()), p)) ==>
                      (AllFree(Tail(T(), p)) <==>
                         !NeedsBlock(old(T()), p) || AllFree(stale[1..])))
      ensures !failed ==> PlacedFirst(old(dirs)[p], old(ilist)[p].live, dirs[p], ilist[p].live, Slot(c, name), stale)
    {
      hide EntryAdded, AllFree, Tail, Tree.Ents, PlacedFirst;
      ghost var t := T();
      var live := ilist[p].live;
      if live == |dirs[p]| {
        if !room.Had? {
          // what is still written, if anything, is refused
          failed := true;
          return FailedReply(room);
        }
        dirs := dirs[p := dirs[p] + stale];
      }
      ghost var slots := dirs[p];
      dirs := dirs[p := dirs[p][live := Slot(c, name)]];
      PutInode(p, ilist[p].(live := live + 1));
      PlacedAt(t.dirs[p], live, dirs[p], live + 1, Slot(c, name), stale, live);
      SlotAppended(t.Ents(p), name, c);
      Appended(t, T(), p, slots, Slot(c, name));
      TailAfter(t, p, slots, stale);
      rc := 0;
    }

    /** dir_remove: free the first slot of that name below the size. */
    method DirRemove(p: nat, name: string) returns (di: nat)
      requires Valid() && T().IsDir(p) && Unique(T().Ents(p))
      modifies this`dirs
      ensures Valid() && OnlyDir(old(T()), T(), p) && ilist == old(ilist)
      ensures di == 0 ==> T() == old(T()) && forall i: nat :: !Refers(T(), p, name, i)
      ensures di != 0 ==> Refers(old(T()), p, name, di) && !NeedsBlock(T(), p)
                          && EntryRemoved(old(T().Ents(p)), T().Ents(p), name, di)
      ensures Tail(T(), p) == Tail(old(T()), p)
    {
      hide EntryRemoved, Has, Unique, Targets;
      ghost var t := T();
      ghost var s := t.Ents(p);
      for k := 0 to ilist[p].live
        invariant forall j | 0 <= j < k :: s[j].ino == 0 || s[j].name != name
        invariant Valid() && T() == t
      {
        di := dirs[p][k].ino;
        if di != 0 && dirs[p][k].name == name {
          dirs := dirs[p := dirs[p][k := Slot(0, name)]];
          SlotCleared(s, k, name);
          HasAt(s, k);
          assert s[k] == Slot(di, name);
          assert dirs[p][k].ino == 0;
          assert T().Ents(p) == s[k := Slot(0, name)];
          return;
        }
      }
      di := 0;
      NoneNamed(s, name);
    }

    /** bump_nlink. */
    method BumpNlink(ino: nat, delta: int)
      requires Valid() && 1 <= ino < |ilist|
      modifies this`ilist
      ensures Valid()
      ensures ilist == old(ilist)[ino := old(ilist)[ino].(nlink := Word16(old(ilist)[ino].nlink + delta))]
    {
      PutInode(ino, ilist[ino].(nlink := Word16(ilist[ino].nlink + delta)));
    }

    /** set_dotdot: slot 1 of the first block, whatever its name. */
    method SetDotdot(d: nat, p: nat)
      requires Valid() && T().IsDir(d)
      modifies this`dirs
      ensures Valid() && ilist == old(ilist)
      ensures dirs == if |old(dirs)[d]| < 2 then old(dirs)
                      else old(dirs)[d := old(dirs)[d][1 := Slot(p, old(dirs)[d][1].name)]]
    {
      if |dirs[d]| >= 2 {
        dirs := dirs[d := dirs[d][1 := Slot(p, dirs[d][1].name)]];
      }
    }

    /** unref_inode.  For a directory the i-list block read at the start is written back
        at the end: the parent's new count is lost when both inodes share that block. */
    method UnrefInode(ino: nat, isDir: bool, parent: nat)
      requires Valid() && 1 <= ino < |ilist| && 1 <= parent < |ilist| && ino != parent
      modifies this
      ensures Valid() && |ilist| == |old(ilist)|
      ensures isDir ==> T() == DirUnref(old(T()), ino, parent, SameBlock(ino, parent))
      ensures !isDir ==> T() == FileUnref(old(T()), ino)
    {
      if isDir {
        UnrefDir(ino, parent);
      } else {
        UnrefFile(ino);
      }
    }

    method UnrefDir(ino: nat, parent: nat)
      requires Valid() && 1 <= ino < |ilist| && 1 <= parent < |ilist| && ino != parent
      modifies this
      ensures Valid() && |ilist| == |old(ilist)|
      ensures T() == DirUnref(old(T()), ino, parent, SameBlock(ino, parent))
    {
      ghost var t := T();
      InBlock(parent, ino);
      var pb := RdIlist(ino);
      BumpNlink(parent, -1);
      WtIlist(ino, pb[ino - First(ino) := FREE]);
      dirs := dirs[ino := []];
      hide First;
      assert ilist == DirUnref(t, ino, parent, SameBlock(ino, parent)).ilist;
    }

    /** Sharing a block is lying in it. */
    lemma InBlock(j: nat, ino: nat)
      requires inopb > 0 && j >= 1 && ino >= 1
      ensures SameBlock(ino, j) <==> First(ino) <= j < First(ino) + inopb
    {
      BlockIndex(j, ino, inopb);
    }

    method UnrefFile(ino: nat)
      requires Valid() && 1 <= ino < |ilist|
      modifies this
      ensures Valid() && |ilist| == |old(ilist)|
      ensures T() == FileUnref(old(T()), ino)
    {
      var nl := Decremented(ilist[ino].nlink);
      if nl <= 0 {
        PutInode(ino, FREE);
        dirs := dirs[ino := []];
      } else {
        PutInode(ino, ilist[ino].(nlink := nl));
      }
    }
  }

  lemma EntsFilled(t: Tree, t': Tree, p: nat, k: nat, x: Slot)
    requires t.Shape() && t.IsDir(p) && k < t.ilist[p].live && t'.ilist == t.ilist
    requires t'.dirs == t.dirs[p := t.dirs[p][k := x]]
    ensures k < |t.Ents(p)| && t.Ents(p)[k] == t.dirs[p][k] && t'.Ents(p) == t.Ents(p)[k := x]
    ensures Tail(t', p) == Tail(t, p)
  {
  }

  lemma Appended(t: Tree, t': Tree, p: nat, slots: seq<Slot>, x: Slot)
    requires t.Shape() && t.IsDir(p) && t.dirs[p] <= slots && t.ilist[p].live < |slots|
    requires t'.dirs == t.dirs[p := slots[t.ilist[p].live := x]]
    requires t'.ilist == t.ilist[p := t.ilist[p].(live := t.ilist[p].live + 1)]
    ensures OnlyDir(t, t', p) && t'.Ents(p) == t.Ents(p) + [x] && Tail(t', p) == slots[t.ilist[p].live + 1..]
  {
  }

  /** The slots past the new size are free when the old ones were, and a fresh block's. */
  lemma TailAfter(t: Tree, p: nat, slots: seq<Slot>, stale: seq<Slot>)
    requires t.Shape() && t.IsDir(p) && |stale| > 0
    requires forall j | 0 <= j < t.ilist[p].live :: t.dirs[p][j].ino != 0
    requires slots == if t.ilist[p].live == |t.dirs[p]| then t.dirs[p] + stale else t.dirs[p]
    ensures AllFree(Tail(t, p)) ==>
              (AllFree(slots[t.ilist[p].live + 1..]) <==> !NeedsBlock(t, p) || AllFree(stale[1..]))
  {
    var live := t.ilist[p].live;
    if live == |t.dirs[p]| {
      assert slots[live + 1..] == stale[1..];
    } else {
      assert Tail(t, p) == [t.dirs[p][live]] + slots[live + 1..];
      var rest := slots[live + 1..];
      assert forall k | 0 <= k < |rest| :: rest[k] == Tail(t, p)[k + 1];
    }
  }

  /** A directory released: its blocks and dinode go, and the parent loses a link unless
      the stale block write takes that back. */
  function DirUnref(t: Tree, ino: nat, parent: nat, stale: bool): Tree
    requires ino < |t.ilist| == |t.dirs| && parent < |t.ilist|
  {
    var p := t.ilist[parent];
    var bumped := if stale then t.ilist else t.ilist[parent := p.(nlink := Word16(p.nlink - 1))];
    Tree(bumped[ino := FREE], t.dirs[ino := []])
  }

  /** A file let go of once: freed when the signed count runs out. */
  function FileUnref(t: Tree, ino: nat): Tree
    requires ino < |t.ilist| == |t.dirs| && t.ilist[ino].nlink < 0x1_0000
  {
    var nl := Decremented(t.ilist[ino].nlink);
    if nl <= 0 then Tree(t.ilist[ino := FREE], t.dirs[ino := []])
    else t.(ilist := t.ilist[ino := t.ilist[ino].(nlink := nl)])
  }

  lemma Blocks(n: nat, k: nat, ino: nat)
    requires k > 0 && n % k == 0 && 1 <= ino <= n
    ensures ino - (ino - 1) % k + k <= n + 1
  {
    var q := (ino - 1) / k;
    DivBound(ino - 1, k, n / k);
    MulGap(q, n / k, k);
  }

  lemma BlockIndex(j: nat, ino: nat, k: nat)
    requires k > 0 && j >= 1 && ino >= 1
    ensures var lo := ino - (ino - 1) % k;
            lo == j - (j - 1) % k <==> lo <= j < lo + k
  {
    var lo := ino - (ino - 1) % k;
    if lo <= j < lo + k {
      assert lo - 1 == (ino - 1) / k * k;
      DivModUnique(j - 1, k, (ino - 1) / k, j - lo);
    }
  }
}

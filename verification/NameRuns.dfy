/** creat, mkdir, unlink and rmdir: what each call keeps, and the exact inputs on which
    it does not. */
module NameRuns {
  import opened Arith
  import opened Errno
  import opened Names
  import opened NameSteps
  import opened NameTree
  import opened NameOps

  // ----- shared facts

  /** Nothing names an inode that is not in use. */
  lemma Unnamed(t: Tree, c: nat)
    requires NoDangling(t) && !t.InUse(c)
    ensures Links(t)[c] == 0 && forall d: nat, n :: !Refers(t, d, n, c)
  {
    hide Refers, Links;
    forall d: nat, n ensures !Refers(t, d, n, c) {}
    LinkWitness(t, c);
  }

  /** Entries outside p are those of t; p's changed from s to s'. */
  lemma RefersAfter(t: Tree, t': Tree, p: nat)
    requires forall d: nat | d != p :: t'.Ents(d) == t.Ents(d)
    ensures forall d: nat, m, i: nat | d != p :: Refers(t', d, m, i) <==> Refers(t, d, m, i)
    ensures forall d: nat | d != p :: Up(t', d) == Up(t, d)
  {
  }

  /** Adding or removing a plain name leaves the first two slots alone. */
  lemma DotsKept(t: Tree, t': Tree, p: nat, n: string, c: nat)
    requires t.Shape() && t'.Shape() && t.IsDir(p) && t'.IsDir(p) && WellFormed(t, p) && p != 0
    requires EntryAdded(t.Ents(p), t'.Ents(p), n, c) || EntryRemoved(t.Ents(p), t'.Ents(p), n, c)
    requires !IsDot(n) && ((forall i: nat :: !Refers(t, p, n, i)) || !EntryAdded(t.Ents(p), t'.Ents(p), n, c))
    requires AllFree(Tail(t', p))
    ensures WellFormed(t', p) && Up(t', p) == Up(t, p)
  {
    assert t.Ents(p)[0].ino != 0;
    forall i: nat ensures Refers(t, p, n, i) == Has(t.Ents(p), n, i) {}
  }

  /** Directories other than p are as well formed as before. */
  lemma FormedElsewhere(t: Tree, t': Tree, p: nat, d: nat)
    requires t.Shape() && t'.Shape() && d != p && t.IsDir(d) && WellFormed(t, d) && t'.IsDir(d)
    requires d < |t.dirs| && d < |t'.dirs| && t'.dirs[d] == t.dirs[d] && t'.ilist[d].live == t.ilist[d].live
    ensures WellFormed(t', d)
  {
  }

  /** What DirAdd on p, together with a change of one other inode, looks like. */
  ghost predicate Grown(t: Tree, t': Tree, p: nat, n: string, c: nat) {
    && t.Shape() && t'.Shape() && |t'.ilist| == |t.ilist| && t.IsDir(p) && p != c
    && (forall i | 0 <= i < |t.ilist| && i != p && i != c :: t'.ilist[i] == t.ilist[i] && t'.dirs[i] == t.dirs[i])
    && t'.ilist[p].kind == t.ilist[p].kind && EntryAdded(t.Ents(p), t'.Ents(p), n, c)
  }

  /** The entries of t' are those of t, one more or less, or a directory's more or less. */
  ghost predicate NameAdded(t: Tree, t': Tree, p: nat, n: string, c: nat) {
    forall d: nat, m, i: nat :: Refers(t', d, m, i) <==> Refers(t, d, m, i) || (d == p && m == n && i == c)
  }

  ghost predicate DirAdded(t: Tree, t': Tree, p: nat, n: string, c: nat) {
    forall d: nat, m, i: nat ::
      Refers(t', d, m, i) <==>
        Refers(t, d, m, i) || (d == p && m == n && i == c)
        || (d == c && m == DOT && i == c) || (d == c && m == DOTDOT && i == p)
  }

  ghost predicate NameDropped(t: Tree, t': Tree, p: nat, n: string) {
    forall d: nat, m, i: nat :: Refers(t', d, m, i) <==> Refers(t, d, m, i) && !(d == p && m == n)
  }

  ghost predicate DirDropped(t: Tree, t': Tree, p: nat, n: string, c: nat) {
    forall d: nat, m, i: nat :: Refers(t', d, m, i) <==> Refers(t, d, m, i) && !(d == p && m == n) && d != c
  }

  /** No inode but p and c was written, and p is what it was. */
  ghost predicate OthersKept(t: Tree, t': Tree, p: nat, c: nat) {
    && |t'.ilist| == |t.ilist| && p < |t.ilist| && t'.ilist[p].kind == t.ilist[p].kind
    && forall i | 0 <= i < |t.ilist| && i != p && i != c :: t'.ilist[i] == t.ilist[i]
  }

  ghost predicate Taken(t: Tree, p: nat, n: string) { exists i: nat :: Refers(t, p, n, i) }

  ghost predicate FreeInode(t: Tree) { exists i: nat :: ROOTINO <= i < |t.ilist| && !t.InUse(i) }

  /** What creat answers. */
  ghost function NewNameAnswer(t: Tree, p: nat, n: string, room: Room): int
    requires t.Shape() && t.IsDir(p)
  {
    if !NameOk(n) then -ENAMETOOLONG
    else if Taken(t, p, n) then -EEXIST
    else if !FreeInode(t) then -ENOSPC
    else if NeedsBlock(t, p) then FailedReply(room)
    else 0
  }

  /** What mkdir answers, which also asks for a block of the new directory's own. */
  ghost function MkdirAnswer(t: Tree, p: nat, n: string, own: Room, room: Room): int
    requires t.Shape() && t.IsDir(p)
  {
    if own.Had? || NewNameAnswer(t, p, n, Had) != 0 then NewNameAnswer(t, p, n, room) else FailedReply(own)
  }

  /** Each answer of creat in its own words. */
  lemma NewNameCodes(t: Tree, p: nat, n: string, room: Room)
    requires t.Shape() && t.IsDir(p)
    ensures var rc := NewNameAnswer(t, p, n, room);
            && rc in {0, -17, -28, -36}
            && (rc == -36 <==> |n| == 0 || |n| > 14)
            && (rc == -17 <==> 0 < |n| <= 14 && exists i: nat :: Refers(t, p, n, i))
            && (rc == -28 <==> NewName(t, p, n) && (NoInode(t) || (FullDir(t, p) && room.Refused?)))
            && (rc == 0 <==> NewName(t, p, n) && !NoInode(t) && !(FullDir(t, p) && room.Refused?))
  {
    hide Refers;
  }

  /** A good name that p has no entry of. */
  ghost predicate NewName(t: Tree, p: nat, n: string) { 0 < |n| <= 14 && forall i: nat :: !Refers(t, p, n, i) }

  ghost predicate NoInode(t: Tree) { forall i: nat | 2 <= i < |t.ilist| :: t.InUse(i) }

  ghost predicate FullDir(t: Tree, p: nat)
    requires p < |t.ilist| == |t.dirs|
  {
    t.ilist[p].live == |t.dirs[p]| && forall k | 0 <= k < |t.dirs[p]| :: t.dirs[p][k].ino != 0
  }

  /** Of mkdir: its own block comes first. */
  lemma MkdirCodes(t: Tree, p: nat, n: string, own: Room, room: Room)
    requires t.Shape() && t.IsDir(p)
    ensures var rc := MkdirAnswer(t, p, n, own, room);
            var refused := own.Refused? || (own.Had? && FullDir(t, p) && room.Refused?);
            && rc in {0, -17, -28, -36}
            && (rc == -36 <==> |n| == 0 || |n| > 14)
            && (rc == -17 <==> 0 < |n| <= 14 && exists i: nat :: Refers(t, p, n, i))
            && (rc == -28 <==> NewName(t, p, n) && (NoInode(t) || refused))
  {
    hide NewNameAnswer, Refers, NoInode, FullDir;
    NewNameCodes(t, p, n, room);
    NewNameCodes(t, p, n, Had);
  }

  // ----- creat

  /** A file created in p: everything is kept, provided the slots past the size of p
      are free. */
  lemma CreatKeeps(t: Tree, t': Tree, p: nat, n: string, c: nat)
    requires Consistent(t) && Grown(t, t', p, n, c) && c > ROOTINO - 1 && !t.InUse(c) && c < |t.ilist|
    requires t'.ilist[c] == Inode(Reg, 1, 0) && t'.ilist[p].nlink == t.ilist[p].nlink
    requires !IsDot(n) && forall i: nat :: !Refers(t, p, n, i)
    ensures Consistent(t') <==> AllFree(Tail(t', p))
  {
    hide Links, Rooted, OneParent, Targets, Has, Unique;
    if AllFree(Tail(t', p)) {
      GrownFormed(t, t', p, n, c);
      GrownRefers(t, t', p, n, c);
      LinkFile(t, t', p, n, c);
      Unnamed(t, c);
      GrownLinks(t, t', p, n, c);
      forall i: nat | t'.InUse(i)
        ensures t'.ilist[i].nlink == Links(t')[i] && (i != BADBLKINO ==> Links(t')[i] > 0)
      {
      }
    } else {
      assert !WellFormed(t', p);
    }
  }

  lemma GrownRefers(t: Tree, t': Tree, p: nat, n: string, c: nat)
    requires Grown(t, t', p, n, c) && !t.IsDir(c) && !t'.IsDir(c) && c != 0
    ensures forall d: nat, m, i: nat ::
              Refers(t', d, m, i) <==> Refers(t, d, m, i) || (d == p && m == n && i == c)
    ensures forall i: nat :: t'.IsDir(i) <==> t.IsDir(i)
    ensures forall d: nat | d != p :: t'.Ents(d) == t.Ents(d)
  {
    hide Has, Targets, Unique;
    RefersAfter(t, t', p);
  }

  lemma GrownFormed(t: Tree, t': Tree, p: nat, n: string, c: nat)
    requires Structured(t) && Grown(t, t', p, n, c) && c != ROOTINO && c != 0
    requires t'.IsDir(c) ==> WellFormed(t', c)
    requires !IsDot(n) && (forall i: nat :: !Refers(t, p, n, i)) && AllFree(Tail(t', p))
    ensures WellFormedDirs(t')
    ensures forall d: nat | t.IsDir(d) && d != c :: Up(t', d) == Up(t, d)
  {
    hide Has, Targets, Unique, Refers, Rooted, OneParent, NoDangling;
    DotsKept(t, t', p, n, c);
    forall d: nat | t'.IsDir(d) ensures WellFormed(t', d) {
      if d != p && d != c {
        FormedElsewhere(t, t', p, d);
      }
    }
  }

  lemma GrownLinks(t: Tree, t': Tree, p: nat, n: string, c: nat)
    requires Grown(t, t', p, n, c) && !t.IsDir(c) && !t'.IsDir(c) && c != 0
    ensures Links(t') == Links(t) + multiset{c}
  {
    hide Has, Targets, Unique, Links;
    GrownRefers(t, t', p, n, c);
    LinksStep(t, t', p);
    var a, b, x := Links(t'), Links(t), Targets(t.Ents(p));
    assert a + x == b + (x + multiset{c});
    CancelRight(a, b + multiset{c}, x);
  }

  lemma CancelRight(a: multiset<nat>, b: multiset<nat>, x: multiset<nat>)
    requires a + x == b + x
    ensures a == b
  {
    assert a == (a + x) - x == (b + x) - x == b;
  }

  /** An inode in use that no entry names, other than inode 1, is a leak. */
  lemma Leaked(t: Tree, t': Tree, c: nat)
    requires NoDangling(t) && !t.InUse(c) && t'.InUse(c) && c > BADBLKINO
    requires |t'.ilist| == |t.ilist| && forall d: nat | d != c :: t'.Ents(d) == t.Ents(d)
    requires !t'.IsDir(c) || c != ROOTINO
    requires t'.IsDir(c) ==> forall m, i: nat | Refers(t', c, m, i) :: IsDot(m)
    ensures !Consistent(t')
  {
    hide Links, Rooted, WellFormedDirs, Up, Refers;
    Unnamed(t, c);
    RefersAfter(t, t', c);
    if t'.IsDir(c) {
      if OneParent(t') {
        var m :| !IsDot(m) && Refers(t', Up(t', c), m, c);
      }
    } else {
      NoEntries(t, c);
      NoEntries(t', c);
      LinksStep(t, t', c);
      assert Links(t') + multiset{} == Links(t) + multiset{};
      assert Links(t')[c] == (Links(t') + multiset{})[c] == 0;
    }
  }

  lemma NoEntries(t: Tree, c: nat)
    requires !t.IsDir(c)
    ensures t.Ents(c) == [] && Targets(t.Ents(c)) == multiset{}
  {
  }

  lemma NoNames(t: Tree, c: nat)
    requires !t.IsDir(c)
    ensures forall m, i: nat :: !Refers(t, c, m, i)
  {
  }

  /** The part of rw_creat that writes: the inode, and its entry. */
  method WriteFile(h: RW, p: nat, leaf: string, ino: nat, room: Room, stale: seq<Slot>) returns (rc: int)
    requires h.Valid() && Consistent(h.T()) && h.T().IsDir(p) && !IsDot(leaf) && NameOk(leaf)
    requires |stale| == h.ndirect && ROOTINO <= ino < |h.ilist| && !h.T().InUse(ino)
    requires forall i: nat :: !Refers(h.T(), p, leaf, i)
    modifies h
    ensures h.failed || h.Valid()
    ensures h.failed <==> NeedsBlock(old(h.T()), p) && !room.Had?
    ensures rc == if h.failed then FailedReply(room) else 0
    ensures h.T().InUse(ino) && h.T().ilist[ino] == Inode(Reg, 1, 0)
    ensures !h.failed ==> Refers(h.T(), p, leaf, ino)
    ensures if h.failed then h.T() == Tree(old(h.ilist)[ino := Inode(Reg, 1, 0)], old(h.dirs)[ino := []])
            else NameAdded(old(h.T()), h.T(), p, leaf, ino) && OthersKept(old(h.T()), h.T(), p, ino)
    ensures Consistent(h.T()) <==> !h.failed && (!NeedsBlock(old(h.T()), p) || AllFree(stale[1..]))
  {
    hide Consistent, Refers, EntryAdded, PlacedFirst;
    ghost var t := h.T();
    ConsistentParts(t, p);
    h.dirs := h.dirs[ino := []];
    h.PutInode(ino, Inode(Reg, 1, 0));
    ghost var u := h.T();
    SameEnts(t, u, p, ino);
    rc := h.DirAdd(p, leaf, ino, room, stale);
    if h.failed {
      // answered or not, the closing sync is refused
      LeakedFile(t, u, ino);
      return;
    }
    CreatDone(t, u, h.T(), p, leaf, ino);
  }

  /** rw_creat, with the leaf already split off.  room: whether a free block can be had;
      stale: what that block holds.  On a handle that fails the new inode is on the image
      and its entry is not, whatever the answer. */
  method Creat(h: RW, p: nat, leaf: string, room: Room, stale: seq<Slot>) returns (rc: int, ino: nat)
    requires h.Valid() && Consistent(h.T()) && h.T().IsDir(p) && !IsDot(leaf)
    requires |stale| == h.ndirect
    modifies h
    ensures h.failed || h.Valid()
    ensures rc == NewNameAnswer(old(h.T()), p, leaf, room)
    ensures rc == 0 && !h.failed ==> Refers(h.T(), p, leaf, ino)
    ensures ino != 0 <==> NameOk(leaf) && !Taken(old(h.T()), p, leaf) && FreeInode(old(h.T()))
    ensures h.failed <==> ino != 0 && NeedsBlock(old(h.T()), p) && !room.Had?
    ensures ino == 0 ==> h.T() == old(h.T())
    ensures ino != 0 ==>
              && ino < |old(h.ilist)| == |old(h.dirs)|
              && !old(h.T()).InUse(ino) && h.T().InUse(ino) && h.T().ilist[ino] == Inode(Reg, 1, 0)
              && (forall i: nat | ROOTINO <= i < ino :: old(h.T()).InUse(i))
              && (if h.failed then h.T() == Tree(old(h.ilist)[ino := Inode(Reg, 1, 0)], old(h.dirs)[ino := []])
                  else NameAdded(old(h.T()), h.T(), p, leaf, ino) && OthersKept(old(h.T()), h.T(), p, ino))
              && (Consistent(h.T()) <==>
                    !h.failed && (!NeedsBlock(old(h.T()), p) || AllFree(stale[1..])))
  {
    hide Consistent, Refers, EntryAdded, NameAdded, OthersKept, NeedsBlock, AllFree, WellFormed;
    ghost var t := h.T();
    ConsistentParts(t, p);
    if !NameOk(leaf) {
      return -ENAMETOOLONG, 0;
    }
    var found := h.Lookup(p, leaf);
    if found != 0 {
      return -EEXIST, 0;
    }
    ino := h.IallocScan();
    if ino == 0 {
      return -ENOSPC, 0;
    }
    assert FreeInode(t) by { assert !t.InUse(ino); }
    rc := WriteFile(h, p, leaf, ino, room, stale);
  }

  /** What Consistent says about one directory. */
  lemma ConsistentParts(t: Tree, p: nat)
    requires Consistent(t) && t.IsDir(p)
    ensures t.Shape() && p != 0 && WellFormed(t, p) && Unique(t.Ents(p)) && AllFree(Tail(t, p))
    ensures t.InUse(ROOTINO) && t.IsDir(ROOTINO)
  {
    hide NoDangling, OneParent, Rooted, Counted, Unique;
  }

  /** Only inode c, not a directory before or after, was rewritten. */
  lemma SameEnts(t: Tree, u: Tree, p: nat, c: nat)
    requires t.Shape() && u.Shape() && c < |t.ilist| == |u.ilist| && p != c && t.IsDir(p)
    requires u.ilist == t.ilist[c := u.ilist[c]] && u.dirs == t.dirs[c := u.dirs[c]]
    ensures u.IsDir(p) && u.Ents(p) == t.Ents(p) && Tail(u, p) == Tail(t, p)
    ensures NeedsBlock(u, p) == NeedsBlock(t, p)
    ensures forall d: nat | d != c :: u.Ents(d) == t.Ents(d)
  {
  }

  lemma LeakedFile(t: Tree, u: Tree, c: nat)
    requires Consistent(t) && !t.InUse(c) && ROOTINO <= c < |t.ilist| && u.Shape()
    requires u.ilist == t.ilist[c := Inode(Reg, 1, 0)] && u.dirs == t.dirs[c := u.dirs[c]]
    ensures !Consistent(u)
  {
    hide Links, Refers, OneParent, Rooted, WellFormedDirs;
    forall d: nat | d != c ensures u.Ents(d) == t.Ents(d) {}
    Leaked(t, u, c);
  }

  lemma CreatDone(t: Tree, u: Tree, t': Tree, p: nat, n: string, c: nat)
    requires Consistent(t) && t.IsDir(p) && !t.InUse(c) && ROOTINO <= c < |t.ilist|
    requires u.Shape() && t'.Shape() && p != c && !IsDot(n) && forall i: nat :: !Refers(t, p, n, i)
    requires u.ilist == t.ilist[c := Inode(Reg, 1, 0)] && u.dirs == t.dirs[c := u.dirs[c]]
    requires u.Ents(p) == t.Ents(p) && OnlyDir(u, t', p) && EntryAdded(u.Ents(p), t'.Ents(p), n, c)
    ensures Consistent(t') <==> AllFree(Tail(t', p))
    ensures NameAdded(t, t', p, n, c) && OthersKept(t, t', p, c)
  {
    hide Links, OneParent, Rooted, WellFormedDirs, NoDangling, Counted, EntryAdded;
    GrownRefers(t, t', p, n, c);
    CreatKeeps(t, t', p, n, c);
  }

  // ----- mkdir

  /** Entries of two directories changed. */
  lemma LinksStepTwo(t: Tree, t': Tree, p: nat, q: nat)
    requires |t'.ilist| == |t.ilist| && p < |t.ilist| && q < |t.ilist| && p != q
    requires t.Shape() && t'.Shape()
    requires forall d: nat | d < |t.ilist| && d != p && d != q :: t'.Ents(d) == t.Ents(d)
    ensures Links(t') + Targets(t.Ents(p)) + Targets(t.Ents(q))
            == Links(t) + Targets(t'.Ents(p)) + Targets(t'.Ents(q))
  {
    hide Links, Targets;
    var u := Tree(t'.ilist[q := t.ilist[q]], t'.dirs[q := t.dirs[q]]);
    LinksStep(t, u, p);
    LinksStep(u, t', q);
    var a, b, c, d := Targets(t.Ents(p)), Targets(t'.Ents(p)), Targets(t.Ents(q)), Targets(t'.Ents(q));
    calc {
      Links(t') + a + c;
      (Links(t') + c) + a;
      { assert Links(t') + c == Links(u) + d; }
      (Links(u) + d) + a;
      (Links(u) + a) + d;
      Links(t) + b + d;
    }
  }

  /** A directory created in p: everything is kept exactly when the slots past the size
      of p are free and the parent's count has room for one more. */
  lemma MkdirKeeps(t: Tree, t': Tree, p: nat, n: string, c: nat)
    requires Consistent(t) && Grown(t, t', p, n, c) && c > ROOTINO && !t.InUse(c) && c < |t.ilist|
    requires t'.ilist[c] == Inode(Dir, 2, 2) && t'.Ents(c) == [Slot(c, DOT), Slot(p, DOTDOT)]
    requires AllFree(Tail(t', c)) && !IsDot(n) && forall i: nat :: !Refers(t, p, n, i)
    requires t.ilist[p].nlink < 0x1_0000 && t'.ilist[p].nlink == Word16(t.ilist[p].nlink + 1)
    ensures Consistent(t') <==> AllFree(Tail(t', p)) && t.ilist[p].nlink < 0xFFFF
  {
    hide Links, Rooted, OneParent, Targets, Has, Unique, NoDangling, Counted, EntryAdded;
    if AllFree(Tail(t', p)) {
      NewFormed(t', p, c);
      GrownFormed(t, t', p, n, c);
      NewRefers(t, t', p, n, c);
      NewDir(t, t', p, n, c);
      Unnamed(t, c);
      NewLinks(t, t', p, n, c);
      MkdirCounts(t, t', p, c);
    } else {
      assert !WellFormed(t', p);
    }
  }

  lemma MkdirCounts(t: Tree, t': Tree, p: nat, c: nat)
    requires Counted(t) && t.InUse(p) && t'.InUse(c) && p != c && Links(t)[c] == 0
    requires Links(t') == Links(t) + multiset{c, c, p}
    requires |t'.ilist| == |t.ilist| && t'.ilist[c].nlink == 2 && t'.InUse(p)
    requires forall i | 0 <= i < |t.ilist| && i != p && i != c :: t'.ilist[i] == t.ilist[i]
    requires t.ilist[p].nlink < 0x1_0000 && t'.ilist[p].nlink == Word16(t.ilist[p].nlink + 1)
    ensures Counted(t') <==> t.ilist[p].nlink < 0xFFFF
  {
    hide Links;
    var x := multiset{c, c, p};
    forall i: nat ensures Links(t')[i] == Links(t)[i] + x[i] {}
    assert x[c] == 2 && x[p] == 1 && forall i: nat | i != p && i != c :: x[i] == 0;
    if t.ilist[p].nlink < 0xFFFF {
      SmallMod(t.ilist[p].nlink + 1, 0x1_0000);
    } else {
      assert t'.ilist[p].nlink == 0 && Links(t')[p] > 0;
    }
  }

  lemma NewFormed(t: Tree, p: nat, c: nat)
    requires t.Shape() && t.IsDir(c) && t.Ents(c) == [Slot(c, DOT), Slot(p, DOTDOT)] && p != 0
    requires AllFree(Tail(t, c))
    ensures WellFormed(t, c) && Up(t, c) == p
  {
  }

  lemma NewRefers(t: Tree, t': Tree, p: nat, n: string, c: nat)
    requires Grown(t, t', p, n, c) && !t.IsDir(c) && t'.IsDir(c) && c != 0 && p != 0
    requires t'.Ents(c) == [Slot(c, DOT), Slot(p, DOTDOT)]
    ensures forall d: nat, m, i: nat | d != c ::
              Refers(t', d, m, i) <==> Refers(t, d, m, i) || (d == p && m == n && i == c)
    ensures forall m, i: nat :: Refers(t', c, m, i) <==> (m == DOT && i == c) || (m == DOTDOT && i == p)
    ensures forall i: nat :: t'.IsDir(i) <==> t.IsDir(i) || i == c
    ensures forall d: nat | d != p && d != c :: t'.Ents(d) == t.Ents(d)
  {
    hide Targets, Unique;
    var s := t'.Ents(c);
    forall m, i: nat ensures Has(s, m, i) <==> (m == DOT && i == c) || (m == DOTDOT && i == p) {
      assert s[0] == Slot(c, DOT) && s[1] == Slot(p, DOTDOT);
    }
    hide Has;
  }

  lemma NewLinks(t: Tree, t': Tree, p: nat, n: string, c: nat)
    requires Grown(t, t', p, n, c) && !t.IsDir(c) && t'.IsDir(c) && c != 0 && p != 0
    requires t'.Ents(c) == [Slot(c, DOT), Slot(p, DOTDOT)]
    ensures Links(t') == Links(t) + multiset{c, c, p}
  {
    hide Has, Unique, Links, Targets, EntryAdded;
    NewRefers(t, t', p, n, c);
    LinksStepTwo(t, t', p, c);
    NoEntries(t, c);
    DotTargets(c, p);
    AddedTargets(t.Ents(p), t'.Ents(p), n, c);
    CancelMiddle(Links(t'), Links(t), Targets(t.Ents(p)), multiset{c}, multiset{c, p});
    assert Links(t) + multiset{c} + multiset{c, p} == Links(t) + multiset{c, c, p};
  }

  lemma AddedTargets(s: seq<Slot>, s': seq<Slot>, n: string, c: nat)
    requires EntryAdded(s, s', n, c)
    ensures Targets(s') == Targets(s) + Target(Slot(c, n))
  {
  }

  lemma DotTargets(c: nat, p: nat)
    requires c != 0 && p != 0
    ensures Targets([Slot(c, DOT), Slot(p, DOTDOT)]) == multiset{c, p}
  {
    TargetsSnoc([Slot(c, DOT)], Slot(p, DOTDOT));
    TargetsSnoc([], Slot(c, DOT));
    assert [] + [Slot(c, DOT)] == [Slot(c, DOT)];
    assert [Slot(c, DOT)] + [Slot(p, DOTDOT)] == [Slot(c, DOT), Slot(p, DOTDOT)];
  }

  lemma CancelMiddle(a: multiset<nat>, b: multiset<nat>, x: multiset<nat>, y: multiset<nat>, z: multiset<nat>)
    requires a + x + multiset{} == b + (x + y) + z
    ensures a == b + y + z
  {
    forall i: nat ensures a[i] == (b + y + z)[i] {
      assert (a + x + multiset{})[i] == (b + (x + y) + z)[i];
    }
  }

  /** c is a directory of one block with two entries. */
  ghost predicate TwoSlots(t: Tree, c: nat, p: nat, n: nat) {
    && c < |t.dirs| && |t.dirs[c]| == n >= 2
    && t.dirs[c][0] == Slot(c, ".") && t.dirs[c][1] == Slot(p, "..") && AllFree(t.dirs[c][2..])
  }

  /** The part of rw_mkdir that writes: the directory's block, its inode, its entry, and the
      parent's count. */
  method WriteDir(h: RW, p: nat, leaf: string, ino: nat, room: Room, stale: seq<Slot>) returns (rc: int)
    requires h.Valid() && Consistent(h.T()) && h.T().IsDir(p) && !IsDot(leaf) && NameOk(leaf)
    requires |stale| == h.ndirect && h.ndirect >= 2 && ROOTINO <= ino < |h.ilist| && !h.T().InUse(ino)
    requires forall i: nat :: !Refers(h.T(), p, leaf, i)
    modifies h
    ensures h.failed || h.Valid()
    ensures h.failed <==> NeedsBlock(old(h.T()), p) && !room.Had?
    ensures rc == if h.failed then FailedReply(room) else 0
    ensures h.T().IsDir(ino) && TwoSlots(h.T(), ino, p, h.ndirect)
    ensures if h.failed then
              && h.ilist == old(h.ilist)[ino := Inode(Dir, 2, 2)]
              && (forall d: nat | d != ino :: h.T().Ents(d) == old(h.T()).Ents(d))
            else
              && DirAdded(old(h.T()), h.T(), p, leaf, ino) && OthersKept(old(h.T()), h.T(), p, ino)
              && h.T().ilist[p].nlink == Word16(old(h.ilist)[p].nlink + 1)
              && h.T().ilist[ino] == Inode(Dir, 2, 2)
    ensures Consistent(h.T()) <==>
              && !h.failed && (!NeedsBlock(old(h.T()), p) || AllFree(stale[1..]))
              && old(h.ilist)[p].nlink < 0xFFFF
  {
    hide Consistent, Refers, EntryAdded, DirAdded;
    ghost var t := h.T();
    ConsistentParts(t, p);
    var db := [Slot(ino, DOT), Slot(p, DOTDOT)] + seq(h.ndirect - 2, _ => Slot(0, ""));
    h.dirs := h.dirs[ino := db];
    h.PutInode(ino, Inode(Dir, 2, 2));
    ghost var u := h.T();
    SameEnts(t, u, p, ino);
    rc := h.DirAdd(p, leaf, ino, room, stale);
    if h.failed {
      // the parent's new count is refused
      LeakedDir(t, u, p, ino, db);
      return;
    }
    ghost var w := h.T();
    h.BumpNlink(p, 1);
    MkdirDone(t, u, w, h.T(), p, leaf, ino, db);
  }

  /** rw_mkdir.  own: what comes of asking for the new directory's own block; room and stale
      are about a further block for the parent. */
  method Mkdir(h: RW, p: nat, leaf: string, own: Room, room: Room, stale: seq<Slot>) returns (rc: int, ino: nat)
    requires h.Valid() && Consistent(h.T()) && h.T().IsDir(p) && !IsDot(leaf)
    requires |stale| == h.ndirect && h.ndirect >= 2
    modifies h
    ensures h.failed || h.Valid()
    ensures rc == MkdirAnswer(old(h.T()), p, leaf, own, room)
    ensures ino != 0 <==> NameOk(leaf) && !Taken(old(h.T()), p, leaf) && FreeInode(old(h.T()))
    ensures h.failed <==> ino != 0 && (!own.Had? || (NeedsBlock(old(h.T()), p) && !room.Had?))
    ensures ino == 0 || !own.Had? ==> h.T() == old(h.T())
    ensures ino != 0 && own.Had? ==>
              && ino < |old(h.ilist)| && !old(h.T()).InUse(ino) && h.T().IsDir(ino)
              && (forall i: nat | ROOTINO <= i < ino :: old(h.T()).InUse(i))
              && TwoSlots(h.T(), ino, p, h.ndirect)
              && (!h.failed ==> DirAdded(old(h.T()), h.T(), p, leaf, ino) && OthersKept(old(h.T()), h.T(), p, ino))
              && (!h.failed ==> h.T().ilist[p].nlink == Word16(old(h.ilist)[p].nlink + 1))
              && (!h.failed ==> h.T().ilist[ino] == Inode(Dir, 2, 2))
              && (h.failed ==> h.ilist == old(h.ilist)[ino := Inode(Dir, 2, 2)])
              && (h.failed ==> forall d: nat | d != ino :: h.T().Ents(d) == old(h.T()).Ents(d))
              && (Consistent(h.T()) <==>
                    && !h.failed && (!NeedsBlock(old(h.T()), p) || AllFree(stale[1..]))
                    && old(h.ilist)[p].nlink < 0xFFFF)
  {
    hide Consistent, Refers, EntryAdded, DirAdded, OthersKept, NeedsBlock, AllFree, WellFormed;
    ghost var t := h.T();
    ConsistentParts(t, p);
    if !NameOk(leaf) {
      return -ENAMETOOLONG, 0;
    }
    var found := h.Lookup(p, leaf);
    if found != 0 {
      return -EEXIST, 0;
    }
    ino := h.IallocScan();
    if ino == 0 {
      return -ENOSPC, 0;
    }
    assert FreeInode(t) by { assert !t.InUse(ino); }
    if !own.Had? {
      // nothing is written any more, and what the parent seems to hold is stray
      h.failed := true;
      return FailedReply(own), ino;
    }
    rc := WriteDir(h, p, leaf, ino, room, stale);
  }

  lemma LeakedDir(t: Tree, u: Tree, p: nat, c: nat, db: seq<Slot>)
    requires Consistent(t) && !t.InUse(c) && ROOTINO <= c < |t.ilist| && u.Shape()
    requires |db| >= 2 && db[..2] == [Slot(c, DOT), Slot(p, DOTDOT)]
    requires u.ilist == t.ilist[c := Inode(Dir, 2, 2)] && u.dirs == t.dirs[c := db]
    ensures !Consistent(u)
  {
    hide Links, OneParent, Rooted, WellFormed;
    forall d: nat | d != c ensures u.Ents(d) == t.Ents(d) {}
    assert u.Ents(c) == [Slot(c, DOT), Slot(p, DOTDOT)];
    Leaked(t, u, c);
  }

  lemma MkdirDone(t: Tree, u: Tree, w: Tree, t': Tree, p: nat, n: string, c: nat, db: seq<Slot>)
    requires Consistent(t) && t.IsDir(p) && !t.InUse(c) && ROOTINO <= c < |t.ilist| && p != 0
    requires u.Shape() && w.Shape() && t'.Shape() && p != c && !IsDot(n) && forall i: nat :: !Refers(t, p, n, i)
    requires |db| >= 2 && db[..2] == [Slot(c, DOT), Slot(p, DOTDOT)] && AllFree(db[2..])
    requires u.ilist == t.ilist[c := Inode(Dir, 2, 2)] && u.dirs == t.dirs[c := db]
    requires u.Ents(p) == t.Ents(p) && OnlyDir(u, w, p) && EntryAdded(u.Ents(p), w.Ents(p), n, c)
    requires t.ilist[p].nlink < 0x1_0000 && t'.dirs == w.dirs
    requires t'.ilist == w.ilist[p := w.ilist[p].(nlink := Word16(w.ilist[p].nlink + 1))]
    ensures Tail(t', p) == Tail(w, p)
    ensures Consistent(t') <==> AllFree(Tail(t', p)) && t.ilist[p].nlink < 0xFFFF
    ensures DirAdded(t, t', p, n, c) && OthersKept(t, t', p, c) && t'.IsDir(c)
  {
    hide Links, OneParent, Rooted, WellFormed, NoDangling, Counted, EntryAdded, Has, AllFree;
    assert t'.Ents(p) == w.Ents(p);
    assert t'.Ents(c) == [Slot(c, DOT), Slot(p, DOTDOT)];
    assert Tail(t', c) == db[2..];
    assert c != ROOTINO by { ConsistentParts(t, p); }
    MkdirKeeps(t, t', p, n, c);
    NewRefers(t, t', p, n, c);
    NoNames(t, c);
  }

  // ----- unlink

  /** t' is t with entry (n, c) of p removed and inode c rewritten. */
  ghost predicate Shrunk(t: Tree, t': Tree, p: nat, n: string, c: nat) {
    && t.Shape() && t'.Shape() && |t'.ilist| == |t.ilist| && t.IsDir(p) && p != c
    && (forall i | 0 <= i < |t.ilist| && i != p && i != c :: t'.ilist[i] == t.ilist[i] && t'.dirs[i] == t.dirs[i])
    && t'.ilist[p].kind == t.ilist[p].kind && EntryRemoved(t.Ents(p), t'.Ents(p), n, c)
    && Tail(t', p) == Tail(t, p)
  }

  lemma ShrunkFormed(t: Tree, t': Tree, p: nat, n: string, c: nat)
    requires Structured(t) && Shrunk(t, t', p, n, c) && c != ROOTINO && !t'.IsDir(c) && !IsDot(n)
    requires p != 0
    ensures WellFormedDirs(t')
    ensures forall d: nat | t.IsDir(d) && d != c :: Up(t', d) == Up(t, d)
  {
    hide Has, Targets, Unique, Refers, Rooted, OneParent, NoDangling;
    ShrunkDots(t, t', p, n, c);
    forall d: nat | t'.IsDir(d) ensures WellFormed(t', d) {
      if d != p {
        FormedElsewhere(t, t', p, d);
      }
    }
  }

  lemma ShrunkDots(t: Tree, t': Tree, p: nat, n: string, c: nat)
    requires Shrunk(t, t', p, n, c) && WellFormed(t, p) && !IsDot(n) && p != 0
    ensures WellFormed(t', p) && Up(t', p) == Up(t, p)
  {
    hide Has, Targets;
  }

  lemma ShrunkRefers(t: Tree, t': Tree, p: nat, n: string, c: nat)
    requires Shrunk(t, t', p, n, c) && !t'.IsDir(c)
    ensures forall d: nat, m, i: nat ::
              Refers(t', d, m, i) <==> Refers(t, d, m, i) && !(d == p && m == n) && (d != c || !t.IsDir(c))
    ensures forall i: nat :: t'.IsDir(i) <==> t.IsDir(i) && i != c
    ensures forall d: nat | d != p && d != c :: t'.Ents(d) == t.Ents(d)
  {
    hide Targets, Unique;
    forall m, i: nat | !t.IsDir(c) ensures !Refers(t, c, m, i) {}
    hide Has;
  }

  lemma ShrunkLinks(t: Tree, t': Tree, p: nat, n: string, c: nat)
    requires Shrunk(t, t', p, n, c) && !t.IsDir(c) && !t'.IsDir(c) && c != 0 && c < |t.ilist|
    ensures Links(t') + multiset{c} == Links(t)
  {
    hide Has, Unique, Links, Targets;
    ShrunkRefers(t, t', p, n, c);
    NoEntries(t, c);
    NoEntries(t', c);
    LinksStep(t, t', p);
    var x := Targets(t'.Ents(p));
    assert Links(t') + (x + multiset{c}) == Links(t) + x;
    assert (Links(t') + multiset{c}) + x == Links(t') + (x + multiset{c});
    CancelRight(Links(t') + multiset{c}, Links(t), x);
  }

  /** A name of a file removed: kept exactly while the count is not past the signed
      16-bit range. */
  lemma UnlinkKeeps(t: Tree, t': Tree, p: nat, n: string, c: nat)
    requires Consistent(t) && Shrunk(t, t', p, n, c) && !t.IsDir(c) && c < |t.ilist| && !IsDot(n)
    requires Refers(t, p, n, c) && t'.ilist[p].nlink == t.ilist[p].nlink
    requires t.ilist[c].nlink < 0x1_0000 && p != 0
    requires var nl := Decremented(t.ilist[c].nlink);
             t'.ilist[c] == if nl <= 0 then FREE else t.ilist[c].(nlink := nl)
    ensures t.ilist[c].nlink >= 1 && (Consistent(t') <==> t.ilist[c].nlink <= 0x8000)
  {
    hide Links, Rooted, OneParent, Targets, Has, Unique, EntryRemoved, Refers, WellFormed;
    var k := t.ilist[c].nlink;
    assert t.InUse(c) && k == Links(t)[c];
    ShrunkLinks(t, t', p, n, c);
    assert Links(t)[c] == (Links(t') + multiset{c})[c] == Links(t')[c] + 1;
    assert forall i: nat | i != c :: Links(t)[i] == (Links(t') + multiset{c})[i] == Links(t')[i];
    DecrementedIs(k);
    LinkWitness(t', c);
    if k <= 0x8000 {
      ShrunkFormed(t, t', p, n, c);
      ShrunkRefers(t, t', p, n, c);
      UnlinkFile(t, t', p, n, c);
    } else {
      assert !t'.InUse(c) && Links(t')[c] > 0;
    }
  }

  lemma DecrementedIs(k: nat)
    requires 1 <= k < 0x1_0000
    ensures k <= 0x8000 ==> Decremented(k) == k - 1
    ensures 0x8000 < k ==> Decremented(k) < 0
  {
    if 1 <= k < 0x8000 {
      SmallMod(k - 1, 0x1_0000);
    }
  }

  /** rw_unlink. */
  method Unlink(h: RW, p: nat, leaf: string) returns (rc: int, ghost c: nat)
    requires h.Valid() && Consistent(h.T()) && h.T().IsDir(p) && !IsDot(leaf)
    modifies h
    ensures h.Valid()
    ensures rc == -ENOENT <==> forall i: nat :: !Refers(old(h.T()), p, leaf, i)
    ensures rc == -EISDIR ==> Refers(old(h.T()), p, leaf, c) && old(h.T()).IsDir(c)
    ensures rc == 0 || rc == -ENOENT || rc == -EISDIR
    ensures rc != 0 ==> h.T() == old(h.T())
    ensures rc == 0 ==>
              && Refers(old(h.T()), p, leaf, c) && !old(h.T()).IsDir(c) && c < |old(h.ilist)|
              && NameDropped(old(h.T()), h.T(), p, leaf) && OthersKept(old(h.T()), h.T(), p, c)
              && (h.T().InUse(c) <==> 1 < old(h.ilist)[c].nlink <= 0x8000)
              && (Consistent(h.T()) <==> old(h.ilist)[c].nlink <= 0x8000)
  {
    hide Consistent, Refers, EntryRemoved, WellFormed;
    ghost var t := h.T();
    ConsistentParts(t, p);
    var cino := h.Lookup(p, leaf);
    c := cino;
    if cino == 0 {
      return -ENOENT, 0;
    }
    NamedInUse(t, p, leaf, c);
    if h.ilist[cino].kind.Dir? {
      return -EISDIR, c;
    }
    var di := h.DirRemove(p, leaf);
    NameOnce(t, p, leaf, c, if di != 0 then di else c) by { ConsistentFormed(t); }
    assert di != 0;
    h.UnrefFile(cino);
    UnlinkDone(t, h.T(), p, leaf, c);
    rc := 0;
  }

  lemma ConsistentFormed(t: Tree)
    requires Consistent(t)
    ensures t.Shape() && WellFormedDirs(t)
  {
  }

  lemma NamedInUse(t: Tree, p: nat, n: string, c: nat)
    requires Consistent(t) && Refers(t, p, n, c)
    ensures t.InUse(c) && c < |t.ilist|
  {
    hide Refers, OneParent, Rooted, WellFormedDirs, Counted;
  }

  lemma UnlinkDone(t: Tree, t': Tree, p: nat, n: string, c: nat)
    requires Consistent(t) && t.IsDir(p) && Refers(t, p, n, c) && !t.IsDir(c) && c < |t.ilist|
    requires t.ilist[c].nlink < 0x1_0000 && t'.Shape() && |t'.ilist| == |t.ilist| && !IsDot(n)
    requires var nl := Decremented(t.ilist[c].nlink);
             t'.ilist == t.ilist[c := if nl <= 0 then FREE else t.ilist[c].(nlink := nl)]
    requires forall i | 0 <= i < |t.dirs| && i != p && i != c :: t'.dirs[i] == t.dirs[i]
    requires t'.Ents(p) == t'.dirs[p][..t.ilist[p].live]
    requires EntryRemoved(t.Ents(p), t'.Ents(p), n, c) && Tail(t', p) == Tail(t, p)
    ensures Consistent(t') <==> t.ilist[c].nlink <= 0x8000
    ensures NameDropped(t, t', p, n) && OthersKept(t, t', p, c)
    ensures t'.InUse(c) <==> 1 < t.ilist[c].nlink <= 0x8000
  {
    hide Links, OneParent, Rooted, WellFormed, NoDangling, Counted, Targets, Unique;
    ConsistentParts(t, p);
    NamedInUse(t, p, n, c);
    UnlinkKeeps(t, t', p, n, c);
    DecrementedIs(t.ilist[c].nlink);
    ShrunkRefers(t, t', p, n, c);
  }

  // ----- rmdir

  lemma {:induction false} TargetsTwo(s: seq<Slot>)
    requires |s| >= 2 && forall k | 2 <= k < |s| :: s[k].ino == 0
    ensures Targets(s) == Target(s[0]) + Target(s[1])
  {
    if |s| > 2 {
      TargetsTwo(s[..|s| - 1]);
      assert Targets(s) == Targets(s[..|s| - 1]) + multiset{};
    } else {
      TargetsSnoc([s[0]], s[1]);
      TargetsSnoc([], s[0]);
      assert [] + [s[0]] == [s[0]] && [s[0]] + [s[1]] == s;
    }
  }

  /** A directory without names of its own counts itself and its parent. */
  lemma EmptyTargets(t: Tree, c: nat)
    requires t.Shape() && t.IsDir(c) && WellFormed(t, c) && c != 0
    requires forall m, i: nat | Refers(t, c, m, i) :: IsDot(m)
    ensures Targets(t.Ents(c)) == multiset{c} + multiset{Up(t, c)}
  {
    hide Targets;
    var s := t.Ents(c);
    assert s[0].ino != 0;
    forall k | 2 <= k < |s| ensures s[k].ino == 0 {
      assert s[k] == Slot(s[k].ino, s[k].name);
      assert s[k].ino != 0 ==> Refers(t, c, s[k].name, s[k].ino);
    }
    TargetsTwo(s);
  }

  /** An empty directory removed. */
  lemma RmdirKeeps(t: Tree, t': Tree, p: nat, n: string, c: nat, lost: bool)
    requires Consistent(t) && Shrunk(t, t', p, n, c) && t.IsDir(c) && !IsDot(n)
    requires Refers(t, p, n, c) && t'.ilist[c] == FREE && t.ilist[p].nlink < 0x1_0000
    requires forall m, i: nat | Refers(t, c, m, i) :: IsDot(m)
    requires t'.ilist[p].nlink == if lost then t.ilist[p].nlink else Word16(t.ilist[p].nlink - 1)
    ensures Structured(t')
    ensures Consistent(t') <==> !lost
    ensures lost ==> t'.ilist[p].nlink == Links(t')[p] + 1
  {
    hide Links, Rooted, OneParent, Targets, Has, Unique, EntryRemoved, Refers, WellFormed, Counted;
    ConsistentParts(t, p);
    ConsistentParts(t, c);
    ParentOf(t, p, n, c);
    ShrunkFormed(t, t', p, n, c);
    ShrunkRefers(t, t', p, n, c);
    DropDir(t, t', p, n, c);
    RmdirLinks(t, t', p, n, c);
    SelfLink(t', p);
    RmdirCounts(t, t', p, c, lost);
  }

  lemma ParentOf(t: Tree, p: nat, n: string, c: nat)
    requires Structured(t) && Refers(t, p, n, c) && !IsDot(n) && t.IsDir(c)
    ensures c != ROOTINO && Up(t, c) == p && p != c
  {
    hide Refers, WellFormedDirs, Up, Climbs;
    NotOwnParent(t, c);
  }

  lemma SelfLink(t: Tree, p: nat)
    requires t.Shape() && t.IsDir(p) && WellFormed(t, p) && p != 0
    ensures Links(t)[p] > 0
  {
    hide Links;
    assert t.Ents(p)[0] == Slot(p, DOT);
    assert Refers(t, p, DOT, p);
    LinkWitness(t, p);
  }

  lemma RmdirLinks(t: Tree, t': Tree, p: nat, n: string, c: nat)
    requires Shrunk(t, t', p, n, c) && t.IsDir(c) && !t'.IsDir(c) && WellFormed(t, c) && c != 0
    requires forall m, i: nat | Refers(t, c, m, i) :: IsDot(m)
    requires Up(t, c) == p
    ensures Links(t') + multiset{c, c, p} == Links(t)
  {
    hide Has, Unique, Links, Targets, Up;
    ShrunkRefers(t, t', p, n, c);
    LinksStepTwo(t, t', p, c);
    NoEntries(t', c);
    EmptyTargets(t, c);
    var x := Targets(t'.Ents(p));
    assert Links(t') + (x + multiset{c}) + (multiset{c} + multiset{p}) == Links(t) + x + multiset{};
    CancelRight(Links(t') + multiset{c, c, p}, Links(t), x) by {
      assert Links(t') + multiset{c, c, p} + x
          == Links(t') + (x + multiset{c}) + (multiset{c} + multiset{p});
      assert Links(t) + x + multiset{} == Links(t) + x;
    }
  }

  lemma RmdirCounts(t: Tree, t': Tree, p: nat, c: nat, lost: bool)
    requires Counted(t) && t.InUse(p) && !t'.InUse(c) && p != c && Links(t')[p] > 0
    requires Links(t') + multiset{c, c, p} == Links(t)
    requires |t'.ilist| == |t.ilist| && t'.InUse(p) && t.ilist[p].nlink < 0x1_0000
    requires forall i | 0 <= i < |t.ilist| && i != p && i != c :: t'.ilist[i] == t.ilist[i]
    requires t'.ilist[p].nlink == if lost then t.ilist[p].nlink else Word16(t.ilist[p].nlink - 1)
    ensures Counted(t') <==> !lost
    ensures lost ==> t'.ilist[p].nlink == Links(t')[p] + 1
  {
    hide Links;
    var x := multiset{c, c, p};
    forall i: nat ensures Links(t)[i] == Links(t')[i] + x[i] {
      assert (Links(t') + x)[i] == Links(t')[i] + x[i];
    }
    assert x[p] == 1 && forall i: nat | i != p && i != c :: x[i] == 0;
    SmallMod(t.ilist[p].nlink - 1, 0x1_0000);
  }

  /** rw_rmdir. */
  method Rmdir(h: RW, p: nat, leaf: string) returns (rc: int, ghost c: nat)
    requires h.Valid() && Consistent(h.T()) && h.T().IsDir(p) && !IsDot(leaf)
    modifies h
    ensures h.Valid() && Consistent(h.T())
    ensures rc == -ENOENT <==> forall i: nat :: !Refers(old(h.T()), p, leaf, i)
    ensures rc == 0 || rc == -ENOENT || rc == -ENOTDIR || rc == -ENOTEMPTY
    ensures rc != 0 ==> h.T() == old(h.T())
    ensures rc != -ENOENT ==>
              && Refers(old(h.T()), p, leaf, c)
              && (rc == -ENOTDIR <==> !old(h.T()).IsDir(c))
              && (rc == -ENOTEMPTY <==>
                    old(h.T()).IsDir(c) && exists m, i: nat :: Refers(old(h.T()), c, m, i) && !IsDot(m))
    ensures rc == 0 ==> !h.T().InUse(c) && DirDropped(old(h.T()), h.T(), p, leaf, c)
                        && OthersKept(old(h.T()), h.T(), p, c)
  {
    hide Consistent, Refers, EntryRemoved, WellFormed;
    ghost var t := h.T();
    ConsistentParts(t, p);
    var cino := h.Lookup(p, leaf);
    c := cino;
    if cino == 0 {
      return -ENOENT, 0;
    }
    NamedInUse(t, p, leaf, c);
    if !h.ilist[cino].kind.Dir? {
      return -ENOTDIR, c;
    }
    ConsistentParts(t, c);
    var ne := h.NonEmpty(cino);
    if ne {
      return -ENOTEMPTY, c;
    }
    var di := h.DirRemove(p, leaf);
    NameOnce(t, p, leaf, c, if di != 0 then di else c) by { ConsistentFormed(t); }
    assert di != 0;
    ParentOf(t, p, leaf, c) by { ConsistentStructured(t); }
    h.PutInode(cino, FREE);
    h.dirs := h.dirs[cino := []];
    h.BumpNlink(p, -1);
    RmdirDone(t, h.T(), p, leaf, c);
    rc := 0;
  }

  lemma ConsistentStructured(t: Tree)
    requires Consistent(t)
    ensures Structured(t)
  {
  }

  lemma RmdirDone(t: Tree, t': Tree, p: nat, n: string, c: nat)
    requires Consistent(t) && t.IsDir(p) && Refers(t, p, n, c) && t.IsDir(c) && p != c && !IsDot(n)
    requires t.ilist[p].nlink < 0x1_0000 && t'.Shape() && |t'.ilist| == |t.ilist|
    requires t'.ilist == t.ilist[c := FREE][p := t.ilist[p].(nlink := Word16(t.ilist[p].nlink - 1))]
    requires forall i | 0 <= i < |t.dirs| && i != p && i != c :: t'.dirs[i] == t.dirs[i]
    requires t'.Ents(p) == t'.dirs[p][..t.ilist[p].live]
    requires EntryRemoved(t.Ents(p), t'.Ents(p), n, c) && Tail(t', p) == Tail(t, p)
    requires forall m, i: nat | Refers(t, c, m, i) :: IsDot(m)
    ensures Consistent(t') && !t'.InUse(c)
    ensures DirDropped(t, t', p, n, c) && OthersKept(t, t', p, c)
  {
    hide Links, OneParent, Rooted, WellFormed, NoDangling, Counted, Targets, Unique;
    RmdirKeeps(t, t', p, n, c, false);
    ShrunkRefers(t, t', p, n, c);
  }
}

/** fsck -p on the links of an image, and the check that follows it. */
module FsckRun {
  import opened Names
  import opened Reach
  import opened LinkCheck
  import opened LinkRepair
  import opened RepairCounts
  import opened RepairNames

  class Fsck {
    var t: Tree

    constructor (image: Tree)
      ensures t == image
    {
      t := image;
    }

    /** find_in_dir: the first entry of that name, 0 if absent or not a directory. */
    method FindInDir(d: nat, name: string) returns (res: nat)
      requires t.Shape() && d < |t.ilist|
      ensures res == if t.IsDir(d) then First(t.dirs[d], name) else 0
    {
      res := 0;
      if !t.ilist[d].kind.Dir? {
        return;
      }
      ghost var s := t.dirs[d];
      assert s[0..] == s;
      for k := 0 to |t.dirs[d]|
        invariant First(s, name) == First(s[k..], name)
      {
        assert s[k..][0] == s[k] && s[k..][1..] == s[k + 1..];
        if t.dirs[d][k].ino != 0 && t.dirs[d][k].name == name {
          return t.dirs[d][k].ino;
        }
      }
    }

    /** (a) clear the entries of one directory that name free or out-of-range inodes. */
    method ZapDir(d: nat)
      requires t.Shape() && t.IsDir(d)
      modifies this
      ensures t.Shape() && SameInodes(old(t), t) && t.ilist == old(t).ilist
      ensures forall e | 0 <= e < |t.dirs| && e != d :: t.dirs[e] == old(t).dirs[e]
      ensures forall k | 0 <= k < |t.dirs[d]| :: t.dirs[d][k] == Zapped(old(t), old(t).dirs[d][k])
    {
      ghost var was := t;
      for k := 0 to |t.dirs[d]|
        invariant t.Shape() && SameInodes(was, t) && t.ilist == was.ilist
        invariant forall e | 0 <= e < |t.dirs| && e != d :: t.dirs[e] == was.dirs[e]
        invariant forall j | 0 <= j < |t.dirs[d]| ::
                    t.dirs[d][j] == if j < k then Zapped(was, was.dirs[d][j]) else was.dirs[d][j]
      {
        var x := t.dirs[d][k];
        if x.ino != 0 && (x.ino >= |t.ilist| || !t.InUse(x.ino)) {
          t := t.(dirs := t.dirs[d := t.dirs[d][k := Slot(0, x.name)]]);
        }
      }
    }

    method Zap()
      requires t.Shape()
      modifies this
      ensures t.Shape() && SameInodes(old(t), t) && t.ilist == old(t).ilist
      ensures forall d: nat | t.IsDir(d) && 1 <= d ::
                forall k | 0 <= k < |t.dirs[d]| :: t.dirs[d][k] == Zapped(old(t), old(t).dirs[d][k])
    {
      ghost var was := t;
      for d := 1 to |t.ilist|
        invariant t.Shape() && SameInodes(was, t) && t.ilist == was.ilist
        invariant forall e: nat | d <= e < |t.dirs| :: t.dirs[e] == was.dirs[e]
        invariant forall e: nat | t.IsDir(e) && 1 <= e < d ::
                    forall k | 0 <= k < |t.dirs[e]| :: t.dirs[e][k] == Zapped(was, was.dirs[e][k])
      {
        if t.ilist[d].kind.Dir? {
          ZapDir(d);
        }
      }
    }

    /** dir_reuse_slot: into the first free slot below the size. */
    method DirReuseSlot(dir: nat, ino: nat, name: string) returns (ok: bool, ghost at: nat)
      requires t.Shape() && t.IsDir(dir)
      modifies this
      ensures !ok ==> t == old(t) && forall k | 0 <= k < t.ilist[dir].live :: t.dirs[dir][k].ino != 0
      ensures ok ==> at < old(t).ilist[dir].live && old(t).dirs[dir][at].ino == 0
                     && t == old(t).(dirs := old(t).dirs[dir := old(t).dirs[dir][at := Slot(ino, name)]])
    {
      at := 0;
      for k := 0 to t.ilist[dir].live
        invariant t == old(t)
        invariant forall j | 0 <= j < k :: t.dirs[dir][j].ino != 0
      {
        if t.dirs[dir][k].ino == 0 {
          t := t.(dirs := t.dirs[dir := t.dirs[dir][k := Slot(ino, name)]]);
          return true, k;
        }
      }
      ok := false;
    }

    /** ck_set_dotdot: slot 1 of the first block, whatever its name. */
    method SetDotdot(d: nat, parent: nat)
      requires t.Shape() && d < |t.ilist|
      modifies this
      ensures t == if |old(t).dirs[d]| < 2 then old(t)
                   else old(t).(dirs := old(t).dirs[d := old(t).dirs[d][1 := Slot(parent, old(t).dirs[d][1].name)]])
    {
      if |t.dirs[d]| >= 2 {
        t := t.(dirs := t.dirs[d := t.dirs[d][1 := Slot(parent, t.dirs[d][1].name)]]);
      }
    }

    /** (c) recount, and store every count that differs, cut to 16 bits. */
    method Recount()
      requires t.Shape()
      modifies this
      ensures |t.ilist| == |old(t).ilist| && t.dirs == old(t).dirs
      ensures forall i: nat | i < |t.ilist| ::
                t.ilist[i] == if i >= 1 && t.InUse(i) && old(t).ilist[i].nlink != AllLinks(old(t))[i]
                              then old(t).ilist[i].(nlink := AllLinks(old(t))[i] % 0x1_0000)
                              else old(t).ilist[i]
    {
      hide AllLinks, SlotsOk;
      ghost var was := t;
      var linkcnt, bad := Tally(t);
      for i := 1 to |t.ilist|
        invariant |t.ilist| == |was.ilist| && t.dirs == was.dirs && Tallied(linkcnt, AllLinks(was))
        invariant forall j: nat | j < |t.ilist| ::
                    t.ilist[j] == if 1 <= j < i && t.InUse(j) && was.ilist[j].nlink != AllLinks(was)[j]
                                  then was.ilist[j].(nlink := AllLinks(was)[j] % 0x1_0000)
                                  else was.ilist[j]
      {
        if t.InUse(i) && t.ilist[i].nlink != linkcnt[i] {
          t := t.(ilist := t.ilist[i := t.ilist[i].(nlink := linkcnt[i] % 0x1_0000)]);
        }
      }
    }

    /** (b) hang every allocated inode the marks leave out into lf, until lf is full; t0 is
        the image as found, i the inode the run got to. */
    method Reconnect(lf: nat, reached: array<bool>, ghost t0: Tree) returns (ghost n: nat, ghost i: nat)
      requires Joining(t, t, lf, reached[..], ROOTINO + 1, 0) && 0 < lf
      requires forall d: nat | t.IsDir(d) && d < reached.Length && !reached[d] :: SecondNotDot(t, d)
      requires t0.Shape() && Cleared(t0, t) && reached.Length == |t0.ilist| && t.Shape() && lf == LostFound(t0)
      requires forall j: nat | j < reached.Length :: reached[j] <==> Reachable(t0, ROOTINO, j) || j == BADBLKINO
      modifies this, reached
      ensures SameInodes(old(t), t) && reached.Length == |t.ilist| == |t0.ilist| && t.ilist == old(t).ilist
      ensures i <= |t.ilist| && Joining(old(t), t, lf, reached[..], i, n) && Walled(t, reached[..])
      ensures n == |HungFor(t0)| && n <= Pending(old(t), old(reached[..]), ROOTINO + 1)
      ensures SlotsKept(old(t), t, old(reached[..]))
      ensures Accounted(old(t), t, lf, old(reached[..]), reached[..], HungFor(t0))
      ensures Listed(old(t), t, lf, HungFor(t0))
      ensures AllHung(t0) <==> i == |t.ilist|
      ensures i < |t.ilist| ==> i != BADBLKINO && t.InUse(i) && !reached[i]
    {
      hide *;
      JoiningShape(t, t, lf, reached[..], ROOTINO + 1, 0);
      RootThere(t);
      ghost var z, marks0 := t, reached[..];
      KeptItself(t, marks0);
      n := 0;
      AccountStart(t0, z, lf, marks0);
      ClearedSame(t0, z);
      assert t0.IsDir(lf);
      PlacesIn(t0, z, lf);
      ListedNone(z, lf);
      for ino := ROOTINO + 1 to |t.ilist|
        invariant Joining(z, t, lf, reached[..], ino, n) && SameInodes(z, t) && t.ilist == z.ilist
        invariant n + Pending(t, reached[..], ino) <= Pending(z, marks0, ROOTINO + 1)
        invariant forall j: nat | j < reached.Length && marks0[j] :: reached[j]
        invariant SlotsKept(z, t, marks0) && Walled(t, reached[..]) && Listed(z, t, lf, HungIn(t0, ino))
        invariant Accounted(z, t, lf, marks0, reached[..], HungIn(t0, ino)) && n == |HungIn(t0, ino)| <= Places(t0)
      {
        JoiningShape(z, t, lf, reached[..], ino, n);
        HungNext(t0, z, t, lf, marks0, reached[..], ino);
        SameKinds(t0, t);
        SameKinds(z, t);
        if t.InUse(ino) && !reached[ino] {
          assert marks0[BADBLKINO] && !marks0[ino];
          ghost var was, marks := t, reached[..];
          HungOnce(t0, ino);
          var ok := HangOne(lf, ino, reached, z, n, marks0, HungIn(t0, ino));
          if !ok {
            HungWhole(t0, ino);
            i := ino;
            return;
          }
          KeptMore(z, was, t, marks0, marks);
          SpareLeft(z, t, lf, reached[..], ino + 1, n + 1);
          n := n + 1;
        } else {
          JoinSkip(z, t, lf, reached[..], ino, n);
        }
      }
      i := |t.ilist|;
      HungWhole(t0, i);
    }

    method HangOne(lf: nat, ino: nat, reached: array<bool>, ghost z: Tree, ghost n: nat,
                   ghost marks0: seq<bool>, ghost h: seq<nat>) returns (ok: bool)
      requires Joining(z, t, lf, reached[..], ino, n) && t.Shape() && SameInodes(z, t) && z.Shape()
      requires reached.Length == |t.ilist| && t.IsDir(lf) && 0 < lf < reached.Length && reached[lf]
      requires ROOTINO < ino < |t.ilist| && t.InUse(ino) && !reached[ino] && reached[BADBLKINO]
      requires t.IsDir(ino) ==> SecondNotDot(z, ino)
      requires Accounted(z, t, lf, marks0, reached[..], h) && Walled(t, reached[..])
      requires Listed(z, t, lf, h) && forall x | x in h :: x != 0
      modifies this, reached
      ensures !ok ==> t == old(t) && reached[..] == old(reached[..]) && n == Spare(z, z.Ents(lf))
      ensures ok ==> t.Shape() && SameInodes(z, t) && t.ilist == old(t).ilist
      ensures ok ==> Joining(z, t, lf, reached[..], ino + 1, n + 1)
      ensures ok ==> Pending(t, reached[..], ino + 1) < old(Pending(t, reached[..], ino))
      ensures ok ==> forall i: nat | i < reached.Length && old(reached[i]) :: reached[i]
      ensures ok ==> SlotsKept(old(t), t, old(reached[..]))
      ensures ok ==> Accounted(z, t, lf, marks0, reached[..], h + [ino]) && Walled(t, reached[..])
      ensures ok ==> Listed(z, t, lf, h + [ino])
    {
      hide Joining, Pending, Spare, SlotsKept, Accounted, Walled, Listed;
      ghost var was, marks := t, reached[..];
      ghost var at;
      ok, at := DirReuseSlot(lf, ino, OrphanName(ino));
      if !ok {
        NoneSpare(z, t, lf, marks, ino, n);
        return;
      }
      if t.ilist[ino].kind.Dir? {
        SetDotdot(ino, lf);
      }
      assert t == Hung(was, lf, at, ino);
      HungShape(was, lf, at, ino);
      ListedMore(z, was, lf, h, at, ino);
      HungKept(was, lf, at, ino, marks);
      SameInodesMore(z, was, t);
      hide Hung;
      MarkReached(t, ino, reached);
      JoinStep(z, was, lf, marks, ino, n, at, reached[..]);
      UnmarkedKept(z, was, lf, marks, ino, n);
      AccountStep(z, was, lf, marks0, marks, h, at, ino, reached[..]);
      WalledStep(was, lf, marks, at, ino, reached[..]);
    }

    /** The link part of fsck -p. */
    method RepairLinks() returns (ghost hung: nat)
      requires Repairable(t) && t.Shape() && LostFoundDir(t)
      requires forall i: nat | t.InUse(i) :: t.ilist[i].nlink < 0x1_0000
      modifies this
      ensures SameInodes(old(t), t) && EntriesKept(old(t), t)
      // the new entries, from the image as found: its entries, what was hung, what that cost
      ensures old(t).Shape() && Counts(old(t), t) && (CountsFit(t) <==> FitsAfter(old(t)))
      // every orphan hung is in lost+found under its own name
      ensures LostFound(old(t)) != 0 ==>
                FoundByName(old(t).dirs[LostFound(old(t))], t.dirs[LostFound(old(t))], HungFor(old(t)))
      ensures AllHung(old(t)) ==> (LinksClean(t) <==> FitsAfter(old(t)))
      ensures !AllHung(old(t)) && !old(t).IsDir(BADBLKINO) ==> !LinksClean(t)
      ensures hung == |HungFor(old(t))| <= Orphans(old(t))
      ensures forall i: nat :: AllLinks(t)[i] <= AllLinks(old(t))[i] + hung
    {
      hide Repairable, Joining, Pending, LinksClean, CountsFit, AllLinks, Orphans, Reachable, LostFound, Settled;
      hide SlotsKept, EntriesKept, Accounted, Counts, FitsAfter, HungIn, AllHung, Walled, Recounted, HungFor;
      hide Tree.Shape, FoundByName, Listed;
      ghost var t0 := t;
      RepairableShape(t);
      var reached := MarkFromRoot(t);
      var lf := FindLostFound();
      Zap();
      ghost var z, marks := t, reached[..];
      assert Cleared(t0, z);
      ClearedSame(t0, z);
      PendingOrphans(t0, z, marks);
      CutOff(t0, z, marks);
      if lf != 0 {
        ghost var i;
        JoinStart(t0, z, lf, marks);
        hung, i := Reconnect(lf, reached, t0);
        ghost var w := t;
        ClearedKept(t0, z, w, marks);
        JoinedCounts(z, w, lf, reached[..], i, hung);
        ListedFound(t0, z, w, lf);
        Recount();
        RecountIs(w, t);
        SameEntriesKept(t0, w, t);
        RecountedSame(t0, z, w, t, hung);
        AccountsDone(t0, z, w, t, marks, reached[..], HungFor(t0));
        if i == |w.ilist| {
          Joined(z, w, lf, reached[..], hung);
          Converged(t0, z, w, t);
        } else if !t0.IsDir(BADBLKINO) {
          RootMarked(z, w, lf, reached[..], i, hung);
          WalledOut(w, reached[..], i);
          LeftOut(w, t, i);
        }
      } else {
        hung := 0;
        NoneHungFor(t0);
        AccountStart(t0, z, lf, marks);
        KeptItself(z, marks);
        ClearedKept(t0, z, z, marks);
        Recount();
        RecountIs(z, t);
        SameEntriesKept(t0, z, t);
        RecountedSame(t0, z, z, t, 0);
        AccountsDone(t0, z, z, t, marks, marks, []);
        NotHung(t0, z, t);
      }
    }

    /** The root's entry of that name. */
    method FindLostFound() returns (lf: nat)
      requires t.Shape()
      ensures lf == LostFound(t)
    {
      lf := FindInDir(ROOTINO, LOSTFOUND);
    }
  }

  lemma RecountIs(w: Tree, t': Tree)
    requires |t'.ilist| == |w.ilist| && t'.dirs == w.dirs
    requires forall i: nat | i < |w.ilist| ::
               t'.ilist[i] == if i >= 1 && t'.InUse(i) && w.ilist[i].nlink != AllLinks(w)[i]
                              then w.ilist[i].(nlink := AllLinks(w)[i] % 0x1_0000)
                              else w.ilist[i]
    ensures Recounted(w, t')
  {
    hide AllLinks;
  }

  lemma SameKinds(t: Tree, t': Tree)
    requires t'.ilist == t.ilist
    ensures forall i: nat :: t'.InUse(i) == t.InUse(i) && t'.IsDir(i) == t.IsDir(i)
  {
  }

  lemma RootThere(t: Tree)
    requires t.Shape()
    ensures BADBLKINO < ROOTINO < |t.ilist|
  {
  }

  /** What lost+found can take is what it has to spare once dangling entries are gone. */
  lemma PlacesIn(t: Tree, z: Tree, lf: nat)
    requires t.Shape() && Cleared(t, z) && lf == LostFound(t) && lf != 0 && t.IsDir(lf)
    ensures Places(t) == Spare(z, z.Ents(lf))
  {
    hide Spare, LostFound, Cleared, Tree.Ents;
    ClearedSpare(t, z, lf);
  }

  lemma SpareLeft(z: Tree, t: Tree, lf: nat, marks: seq<bool>, i: nat, n: nat)
    requires Joining(z, t, lf, marks, i, n)
    ensures n <= Spare(z, z.Ents(lf))
  {
    hide ReachIn, AllLinks, Sound, Spare;
  }

  lemma RootMarked(z: Tree, t: Tree, lf: nat, marks: seq<bool>, i: nat, n: nat)
    requires Joining(z, t, lf, marks, i, n)
    ensures ROOTINO < |marks| == |t.ilist| && marks[ROOTINO] && t.Shape()
    ensures forall d: nat :: t.IsDir(d) == z.IsDir(d)
  {
    hide ReachIn, AllLinks, Sound, Spare;
  }

  /** Without lost+found the result is clean when there was no orphan and counts fit. */
  lemma NotHung(t: Tree, z: Tree, t': Tree)
    requires Repairable(t) && t.Shape() && Cleared(t, z) && Recounted(z, t') && LostFound(t) == 0
    requires forall i: nat | t.InUse(i) :: t.ilist[i].nlink < 0x1_0000
    requires SameInodes(z, t')
    ensures AllHung(t) ==> (LinksClean(t') <==> CountsFit(t'))
    ensures !AllHung(t) ==> !LinksClean(t')
  {
    hide Repairable, LinksClean, CountsFit, Reachable, HungIn, LostFound, Settled, Cleared, Tree.Shape;
    hide AllHung, HungFor;
    hide Recounted;
    NoneHungFor(t);
    ClearedSame(t, z);
    if AllHung(t) {
      forall i: nat | t.InUse(i) ensures !Orphan(t, i) {
        NoOrphan(t, i, |t.ilist|);
      }
      ClearedSettled(t, z);
      Converged(t, z, z, t');
    } else {
      var i := SomeOrphan(t, |t.ilist|);
      ClearedOut(t, z, i);
      RecountedDirs(z, t');
      LeftOut(z, t', i);
    }
  }

  lemma RecountedDirs(w: Tree, t': Tree)
    requires Recounted(w, t')
    ensures t'.dirs == w.dirs
  {
    hide AllLinks;
  }

  lemma UnmarkedKept(z: Tree, t: Tree, lf: nat, marks: seq<bool>, i: nat, n: nat)
    requires Joining(z, t, lf, marks, i, n)
    ensures |t.dirs| == |z.dirs| == |marks|
    ensures forall d: nat | d < |t.dirs| && !marks[d] :: t.dirs[d] == z.dirs[d]
  {
    hide ReachIn, AllLinks, Sound, Spare, Pending;
  }

  /** fsck -p, then fsck: the second run finds no dangling entry, no wrong count and no
      orphan, exactly when lost+found takes all orphans to be hung and every allocated
      inode's entries on the image as found, plus what hanging orphans adds and less what
      it takes away, fit 16 bits; they do whenever the entries plus one per orphan would. */
  method RepairThenCheck(image: Tree) returns (errors: nat)
    requires Repairable(image) && image.Shape() && LostFoundDir(image)
    requires forall i: nat | image.InUse(i) :: image.ilist[i].nlink < 0x1_0000
    ensures AllHung(image) ==> (errors == 0 <==> FitsAfter(image))
    ensures !AllHung(image) && !image.IsDir(BADBLKINO) ==> errors != 0
    ensures HasRoom(image) ==> AllHung(image)
    ensures HasRoom(image) && (forall i: nat | image.InUse(i) :: AllLinks(image)[i] + Orphans(image) < 0x1_0000)
            ==> errors == 0
  {
    hide Repairable, HasRoom, LinksClean, AllLinks, Orphans, FitsAfter, Counts, AllHung, LostFoundDir;
    var ck := new Fsck(image);
    var hung := ck.RepairLinks();
    SameShape(image, ck.t);
    errors := CheckLinks(ck.t);
    assert forall i: nat :: ck.t.InUse(i) == image.InUse(i);
    if HasRoom(image) {
      RoomIsEnough(image);
    }
  }

  lemma SameShape(t: Tree, t': Tree)
    requires t.Shape() && SameInodes(t, t')
    ensures t'.Shape()
  {
  }
}

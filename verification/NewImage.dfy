/** The tree of a new image: a root, and a lost+found with nothing in it. */
module NewImage {
  import opened Multisets
  import opened Names
  import opened NameSteps
  import opened LinkCheck
  import opened LinkRepair
  import opened RepairCounts
  import Builder

  /** lost+found has k slots, all below its size; the first two are taken. */
  ghost predicate FreshTree(t: Tree, k: nat) {
    var shape := 4 <= |t.ilist| == |t.dirs| && t.ilist[0] == FREE;
    var inodes := shape
      && t.ilist[1] == Inode(Reg, 0, 0) && t.ilist[2] == Inode(Dir, 3, 3) && t.ilist[3] == Inode(Dir, 2, k)
      && forall i | 4 <= i < |t.ilist| :: t.ilist[i].kind.Free?;
    var root := inodes && var s := t.dirs[2];
      |s| >= 3 && s[0] == Slot(2, DOT) && s[1] == Slot(2, DOTDOT) && s[2] == Slot(3, LOSTFOUND) && AllFree(s[3..]);
    var lost := inodes && var s := t.dirs[3];
      |s| == k >= 2 && s[0] == Slot(3, DOT) && s[1] == Slot(2, DOTDOT) && AllFree(s[2..]);
    root && lost
  }

  lemma FreshShape(t: Tree, k: nat)
    requires FreshTree(t, k)
    ensures t.Shape() && t.IsDir(2) && t.IsDir(3) && t.Ents(3) == t.dirs[3]
    ensures t.Ents(2) == [Slot(2, DOT), Slot(2, DOTDOT), Slot(3, LOSTFOUND)]
    ensures forall i: nat :: (t.IsDir(i) <==> i == 2 || i == 3) && (t.InUse(i) <==> 1 <= i <= 3)
    ensures forall d: nat | d != 2 && d != 3 :: t.Ents(d) == []
  {
    assert t.Ents(2) == t.dirs[2][..3] == [t.dirs[2][0], t.dirs[2][1], t.dirs[2][2]];
  }

  /** Its entries. */
  ghost predicate FreshEntry(d: nat, m: string, i: nat) {
    if d == 2 then (m == "." && i == 2) || (m == ".." && i == 2) || (m == "lost+found" && i == 3)
    else d == 3 && ((m == "." && i == 3) || (m == ".." && i == 2))
  }

  lemma FreshRefers(t: Tree, k: nat)
    requires FreshTree(t, k)
    ensures forall d: nat, m, i: nat :: Refers(t, d, m, i) <==> FreshEntry(d, m, i)
  {
    FreshShape(t, k);
    var r, l := t.Ents(2), t.Ents(3);
    forall d: nat, m, i: nat ensures Refers(t, d, m, i) <==> FreshEntry(d, m, i) {
      if d == 2 {
        assert r[0] == Slot(2, DOT) && r[1] == Slot(2, DOTDOT) && r[2] == Slot(3, LOSTFOUND);
      } else if d == 3 {
        assert l[0] == Slot(3, DOT) && l[1] == Slot(2, DOTDOT);
      }
    }
  }

  // ----- counts

  lemma FreshTargets(t: Tree, k: nat)
    requires FreshTree(t, k)
    ensures Targets(t.Ents(2)) == multiset{2, 2, 3} && Targets(t.Ents(3)) == multiset{3, 2}
  {
    FreshShape(t, k);
    hide Targets, AllFree;
    var r, l := t.Ents(2), t.Ents(3);
    TargetsFree(l, 2);
    TargetsThree(r[0], r[1], r[2]);
    TargetsPair(l[0], l[1]);
    assert l[..2] == [l[0], l[1]];
  }

  lemma TargetsPair(a: Slot, b: Slot)
    ensures Targets([a, b]) == Target(a) + Target(b)
  {
    hide Targets;
    TargetsNone();
    TargetsSnoc([], a);
    TargetsSnoc([] + [a], b);
    assert ([] + [a]) + [b] == [a, b];
    assert multiset{} + Target(a) == Target(a);
  }

  lemma TargetsThree(a: Slot, b: Slot, c: Slot)
    ensures Targets([a, b, c]) == Target(a) + Target(b) + Target(c)
  {
    hide Targets;
    TargetsPair(a, b);
    TargetsSnoc([a, b], c);
    assert [a, b] + [c] == [a, b, c];
  }

  lemma FreshLinks(t: Tree, k: nat)
    requires FreshTree(t, k)
    ensures Links(t) == multiset{2, 2, 3} + multiset{3, 2}
  {
    FreshShape(t, k);
    FreshTargets(t, k);
    hide Targets, Sum, AllFree, FreshTree;
    SumOf(t);
    TargetsNone();
    var s := DirTargets(t);
    forall d: nat | d < |s| ensures s[d] == Targets(t.Ents(d)) {
    }
    FourSum(s);
  }

  lemma FourSum(k: seq<multiset<nat>>)
    requires |k| >= 4 && forall d: nat | d < |k| && d != 2 && d != 3 :: k[d] == multiset{}
    ensures Sum(k) == k[2] + k[3]
  {
    hide Sum;
    Builder.SumPad(k, 4);
    var none: seq<multiset<nat>> := [];
    SumEmpty([]);
    SumSnoc(none, k[0]);
    SumSnoc(none + [k[0]], k[1]);
    SumSnoc(none + [k[0]] + [k[1]], k[2]);
    SumSnoc(none + [k[0]] + [k[1]] + [k[2]], k[3]);
    assert k[..4] == none + [k[0]] + [k[1]] + [k[2]] + [k[3]];
    assert Sum(k) == multiset{} + multiset{} + multiset{} + k[2] + k[3];
  }

  // ----- what it is good for

  lemma FreshFormed(t: Tree, k: nat)
    requires FreshTree(t, k)
    ensures t.Shape() && WellFormedDirs(t)
  {
    FreshShape(t, k);
    assert LOSTFOUND[0] == 'l';
    forall d: nat | t.IsDir(d) ensures WellFormed(t, d) {
      if d == 3 {
        assert t.dirs[3][|t.dirs[3]|..] == [];
      }
    }
  }

  /** A new image is a tree the operations keep in order. */
  lemma FreshConsistent(t: Tree, k: nat)
    requires FreshTree(t, k)
    ensures Consistent(t) && LinksClean(t)
  {
    FreshShape(t, k);
    FreshFormed(t, k);
    FreshRefers(t, k);
    FreshLinks(t, k);
    var m := multiset{2, 2, 3} + multiset{3, 2};
    assert m[1] == 0 && m[2] == 3 && m[3] == 2;
    assert LOSTFOUND[0] == 'l';
    assert Up(t, 2) == 2 && Up(t, 3) == 2;
    hide Links, Refers, WellFormed, Up, AllFree;
    assert Climbs(t, 2, 0) && Climbs(t, 3, 1);
    assert FreshEntry(2, "lost+found", 3) && Refers(t, 2, "lost+found", 3);
    assert OneParent(t);
    ConsistentIsClean(t);
  }

  /** Two directories and inode 1, their five entries and no others; in order for every
      operation, clean for the checker; and room for orphans in lost+found. */
  ghost predicate IsNew(t: Tree, k: nat) {
    && t.Shape() && Consistent(t) && LinksClean(t)
    && (forall i: nat :: t.InUse(i) <==> 1 <= i <= 3)
    && (forall d: nat, m, i: nat :: Refers(t, d, m, i) <==> FreshEntry(d, m, i))
    && LostFound(t) == 3 && Places(t) == k - 2
  }

  lemma FreshIsNew(t: Tree, k: nat)
    requires FreshTree(t, k)
    ensures IsNew(t, k)
  {
    hide FreshTree, Consistent, LinksClean, Refers, FreshEntry, LostFound, Places;
    FreshShape(t, k);
    FreshConsistent(t, k);
    FreshRefers(t, k);
    FreshPlaces(t, k);
  }

  /** Its lost+found takes as many orphans as it has slots, less two. */
  lemma FreshPlaces(t: Tree, k: nat)
    requires FreshTree(t, k)
    ensures t.Shape() && LostFound(t) == 3 && Places(t) == k - 2
  {
    FreshShape(t, k);
    var r, l := t.dirs[2], t.dirs[3];
    assert LOSTFOUND[0] == 'l';
    assert First(r[2..], LOSTFOUND) == 3;
    assert r[1..][1..] == r[2..];
    assert First(r[1..], LOSTFOUND) == 3;
    SpareAfter(t, l, 2);
    SparePair(t, l[..2]);
  }

  lemma {:induction false} SpareAfter(t: Tree, s: seq<Slot>, n: nat)
    requires n <= |s| && AllFree(s[n..])
    ensures Spare(t, s) == Spare(t, s[..n]) + |s| - n
    decreases |s|
  {
    if n < |s| {
      var m := |s| - 1;
      assert s[m] == s[n..][m - n];
      assert forall i | 0 <= i < m - n :: s[..m][n..][i] == s[n..][i];
      SpareAfter(t, s[..m], n);
      assert s[..m][..n] == s[..n];
    } else {
      assert s[..n] == s;
    }
  }

  lemma SparePair(t: Tree, s: seq<Slot>)
    requires |s| == 2 && t.InUse(s[0].ino) && t.InUse(s[1].ino)
    ensures Spare(t, s) == 0
  {
    SpareNone(t, s);
  }
}

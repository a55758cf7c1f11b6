/** Writing the tree out, and what the link check says of the result. */
module SerializeCheck {
  import opened Multisets
  import opened Names
  import opened Reach
  import opened LinkCheck
  import opened HostTree
  import opened Serialize

  /** A node that gets an inode. */
  ghost predicate Owner(t: seq<TNode>, x: nat)
    requires HostTree.Shape(t)
  {
    x < |t| && Under(t, x, 0) && !t[x].kind.TLink?
  }

  /** Hard links stand for nodes that get an inode. */
  ghost predicate LinksOwned(t: seq<TNode>)
    requires HostTree.Shape(t)
  {
    t[0].kind.TDir?
    && forall i | 0 <= i < |t| && t[i].kind.TLink? && t[i].linkto.Node? ::
         t[i].linkto.node < |t| && Owner(t, t[i].linkto.node)
  }

  /** Every owner has a number of its own, from the root's on and below n. */
  ghost predicate Numbers(t: seq<TNode>, n: nat)
    requires HostTree.Shape(t)
  {
    && t[0].ino == ROOTINO
    && (forall x: nat | Owner(t, x) :: ROOTINO <= t[x].ino < n)
    && (forall x: nat, y: nat | Owner(t, x) && Owner(t, y) && t[x].ino == t[y].ino :: x == y)
  }

  /** The slot of one child. */
  function KidSlot(t: seq<TNode>, c: nat): Slot
    requires c < |t|
  {
    match Pointee(t, c)
    case Nothing => Slot(0, "")
    case Node(i) => if i < |t| then Slot(t[i].ino, t[c].name) else Slot(0, "")
  }

  function KidSlots(t: seq<TNode>, n: nat, k: nat): (s: seq<Slot>)
    requires HostTree.Shape(t) && n < |t| && k <= |t[n].kids|
    ensures |s| == k
  {
    if k == 0 then [] else KidSlots(t, n, k - 1) + [KidSlot(t, t[n].kids[k - 1])]
  }

  /** What write_dir stores for directory n. */
  function WrittenSlots(t: seq<TNode>, n: nat): seq<Slot>
    requires HostTree.Shape(t) && n < |t|
  {
    [Slot(t[n].ino, DOT), Slot(t[t[n].parent].ino, DOTDOT)] + KidSlots(t, n, |t[n].kids|)
  }

  function InodeFor(t: seq<TNode>, x: nat): Inode
    requires x < |t|
  {
    var kind := match t[x].kind case TDir => Dir case TReg => Reg case _ => Special;
    Inode(kind, t[x].nlink % 0x1_0000, if t[x].kind.TDir? then |t[x].kids| + 2 else 0)
  }

  lemma KidOwner(t: seq<TNode>, n: nat, k: nat)
    requires HostTree.Shape(t) && LinksOwned(t) && Under(t, n, 0) && t[n].kind.TDir? && k < |t[n].kids|
    ensures Under(t, t[n].kids[k], 0)
    ensures var q := Pointee(t, t[n].kids[k]); q.Node? ==> q.node < |t| && Owner(t, q.node)
  {
    KidOf(t, n, k);
    assert t[n].kids[k] in t[n].kids;
  }

  lemma ParentOwner(t: seq<TNode>, n: nat)
    requires HostTree.Shape(t) && LinksOwned(t) && Under(t, n, 0) && t[n].kind.TDir?
    ensures t[n].parent < |t| && Owner(t, t[n].parent)
  {
    assert Under(t, 0, 0);
  }

  /** Numbers stand for nodes one to one. */
  lemma SameCount(t: seq<TNode>, n: nat, x: nat, y: nat)
    requires HostTree.Shape(t) && Numbers(t, n) && Owner(t, x) && Owner(t, y)
    ensures multiset{t[x].ino}[t[y].ino] == multiset{x}[y]
  {
  }

  lemma {:induction false} KidTargets(t: seq<TNode>, n: nat, k: nat, top: nat, x: nat)
    requires HostTree.Shape(t) && LinksOwned(t) && Numbers(t, top) && Under(t, n, 0) && t[n].kind.TDir?
    requires k <= |t[n].kids| && Owner(t, x)
    ensures Targets(KidSlots(t, n, k))[t[x].ino] == KidEntries(t, n, k)[x]
  {
    hide HostTree.Shape, Numbers, LinksOwned, Owner;
    if k > 0 {
      KidTargets(t, n, k - 1, top, x);
      KidOwner(t, n, k - 1);
      KidOf(t, n, k - 1);
      var q := Pointee(t, t[n].kids[k - 1]);
      TargetsSnoc(KidSlots(t, n, k - 1), KidSlot(t, t[n].kids[k - 1]));
      if q.Node? {
        SameCount(t, top, q.node, x);
        OwnerNumber(t, top, q.node);
      }
    }
  }

  lemma OwnerNumber(t: seq<TNode>, top: nat, x: nat)
    requires HostTree.Shape(t) && Numbers(t, top) && Owner(t, x)
    ensures ROOTINO <= t[x].ino < top && x < |t|
  {
  }

  /** The slots of a directory name each inode as often as its entries name the node. */
  lemma SlotsCount(t: seq<TNode>, n: nat, top: nat, x: nat)
    requires HostTree.Shape(t) && LinksOwned(t) && Numbers(t, top) && Under(t, n, 0) && t[n].kind.TDir?
    requires Owner(t, x)
    ensures Targets(WrittenSlots(t, n))[t[x].ino] == DirEntries(t, n)[x]
  {
    hide HostTree.Shape, Numbers, LinksOwned, Targets, KidSlots, KidEntries;
    ParentOwner(t, n);
    var a, b := Slot(t[n].ino, DOT), Slot(t[t[n].parent].ino, DOTDOT);
    assert Owner(t, n);
    OwnerNumber(t, top, n);
    OwnerNumber(t, top, t[n].parent);
    SameCount(t, top, n, x);
    SameCount(t, top, t[n].parent, x);
    KidTargets(t, n, |t[n].kids|, top, x);
    TwoAndMore(a, b, KidSlots(t, n, |t[n].kids|));
    var m := multiset{n} + multiset{t[n].parent};
    assert m == multiset{n, t[n].parent};
    assert m[x] == multiset{n}[x] + multiset{t[n].parent}[x];
  }

  lemma {:induction false} TwoAndMore(a: Slot, b: Slot, s: seq<Slot>)
    ensures Targets([a, b] + s) == Target(a) + Target(b) + Targets(s)
  {
    if s == [] {
      assert [a, b] + s == [a, b];
      assert [a, b] == ([] + [a]) + [b];
      TargetsNone();
      TargetsSnoc([], a);
      TargetsSnoc([] + [a], b);
      assert multiset{} + Target(a) == Target(a);
    } else {
      var m, x := s[..|s| - 1], s[|s| - 1];
      TwoAndMore(a, b, m);
      assert ([a, b] + s)[..|[a, b] + s| - 1] == [a, b] + m;
    }
  }

  /** Numbers named by the directories at and below n. */
  function Named(t: seq<TNode>, n: nat): multiset<nat>
    requires HostTree.Shape(t) && n < |t|
    decreases |t| - n, 1, 0
  {
    if t[n].kind.TDir? then Targets(WrittenSlots(t, n)) + NamedBelow(t, n, |t[n].kids|) else multiset{}
  }

  function NamedBelow(t: seq<TNode>, n: nat, k: nat): multiset<nat>
    requires HostTree.Shape(t) && n < |t| && k <= |t[n].kids|
    decreases |t| - n, 0, k
  {
    if k == 0 then multiset{} else NamedBelow(t, n, k - 1) + Named(t, t[n].kids[k - 1])
  }

  lemma {:induction false} NamedIsEntries(t: seq<TNode>, n: nat, top: nat, x: nat)
    requires HostTree.Shape(t) && LinksOwned(t) && Numbers(t, top) && Under(t, n, 0) && Owner(t, x)
    ensures Named(t, n)[t[x].ino] == Entries(t, n)[x]
    decreases |t| - n, 1, 0
  {
    hide HostTree.Shape, Numbers, LinksOwned, Targets, WrittenSlots, DirEntries, Owner;
    if t[n].kind.TDir? {
      SlotsCount(t, n, top, x);
      BelowIsEntries(t, n, |t[n].kids|, top, x);
    }
  }

  lemma {:induction false} BelowIsEntries(t: seq<TNode>, n: nat, k: nat, top: nat, x: nat)
    requires HostTree.Shape(t) && LinksOwned(t) && Numbers(t, top) && Under(t, n, 0) && Owner(t, x)
    requires k <= |t[n].kids| && t[n].kind.TDir?
    ensures NamedBelow(t, n, k)[t[x].ino] == EntriesBelow(t, n, k)[x]
    decreases |t| - n, 0, k
  {
    hide HostTree.Shape, Numbers, LinksOwned, Owner, Named, Entries;
    if k > 0 {
      KidOwner(t, n, k - 1);
      KidOf(t, n, k - 1);
      BelowIsEntries(t, n, k - 1, top, x);
      NamedIsEntries(t, t[n].kids[k - 1], top, x);
    }
  }

  // ----- writing

  /** Inode i belongs to a node at or below n. */
  ghost predicate InoUnder(f: seq<TNode>, n: nat, i: nat)
    requires HostTree.Shape(f)
  {
    exists x: nat :: Owner(f, x) && Under(f, x, n) && f[x].ino == i
  }

  ghost predicate InoUnderKids(f: seq<TNode>, n: nat, k: nat, i: nat)
    requires HostTree.Shape(f) && n < |f| && k <= |f[n].kids|
  {
    exists j: nat :: j < k && InoUnder(f, f[n].kids[j], i)
  }

  /** Inode i holds node x. */
  ghost predicate Holds(f: seq<TNode>, t: Tree, x: nat)
    requires HostTree.Shape(f) && x < |f|
  {
    var i := f[x].ino;
    i < |t.ilist| == |t.dirs| && t.ilist[i] == InodeFor(f, x)
    && t.dirs[i] == if f[x].kind.TDir? then WrittenSlots(f, x) else []
  }

  /** t' is t with the inodes of the given set written: each holds its node. */
  ghost predicate Wrote(f: seq<TNode>, t: Tree, t': Tree, n: nat)
    requires HostTree.Shape(f)
  {
    && |t'.ilist| == |t.ilist| == |t.dirs| == |t'.dirs|
    && (forall x: nat | Owner(f, x) && Under(f, x, n) :: Holds(f, t', x))
    && (forall i: nat | i < |t.ilist| && !InoUnder(f, n, i) :: t'.ilist[i] == t.ilist[i] && t'.dirs[i] == t.dirs[i])
  }

  ghost predicate WroteKids(f: seq<TNode>, t: Tree, t': Tree, n: nat, k: nat)
    requires HostTree.Shape(f) && n < |f| && k <= |f[n].kids|
  {
    && |t'.ilist| == |t.ilist| == |t.dirs| == |t'.dirs|
    && (forall j: nat, x: nat | j < k && Owner(f, x) && Under(f, x, f[n].kids[j]) :: Holds(f, t', x))
    && (forall i: nat | i < |t.ilist| && !InoUnderKids(f, n, k, i) ::
          t'.ilist[i] == t.ilist[i] && t'.dirs[i] == t.dirs[i])
  }

  /** Nothing below n is written yet. */
  ghost predicate Blank(f: seq<TNode>, t: Tree, n: nat)
    requires HostTree.Shape(f)
  {
    forall i: nat | InoUnder(f, n, i) :: !t.IsDir(i)
  }

  lemma InosApart(f: seq<TNode>, n: nat, j: nat, k: nat, top: nat, i: nat)
    requires HostTree.Shape(f) && Numbers(f, top) && n < |f| && j < k < |f[n].kids|
    requires InoUnder(f, f[n].kids[k], i)
    ensures !InoUnder(f, f[n].kids[j], i)
  {
    var y: nat :| Owner(f, y) && Under(f, y, f[n].kids[k]) && f[y].ino == i;
    forall x: nat | Owner(f, x) && f[x].ino == i ensures !Under(f, x, f[n].kids[j]) {
      KidsApart(f, n, j, k, x);
    }
  }

  lemma OwnNotBelow(f: seq<TNode>, n: nat, j: nat, top: nat)
    requires HostTree.Shape(f) && Numbers(f, top) && Owner(f, n) && j < |f[n].kids|
    ensures !InoUnder(f, f[n].kids[j], f[n].ino)
  {
    KidOf(f, n, j);
    forall x: nat | Owner(f, x) && f[x].ino == f[n].ino ensures !Under(f, x, f[n].kids[j]) {
      UnderBelow(f, x, f[n].kids[j]);
    }
  }

  lemma AllLinksSet(t: Tree, i: nat, x: Inode, s: seq<Slot>)
    requires i < |t.ilist| == |t.dirs| && !t.IsDir(i)
    ensures AllLinks(Tree(t.ilist[i := x], t.dirs[i := s]))
            == AllLinks(t) + if x.kind.Dir? then Targets(s) else multiset{}
  {
    hide Targets, Sum;
    var t' := Tree(t.ilist[i := x], t.dirs[i := s]);
    var a, b := SlotTargets(t), SlotTargets(t');
    AllLinksIs(t);
    AllLinksIs(t');
    SumUpdate(a, i, b[i]);
    assert b == a[i := b[i]];
    assert a[i] == multiset{};
    assert Sum(b) == Sum(b) + a[i] == Sum(a) + b[i];
  }

  class Writer {
    var t: Tree

    constructor (image: Tree)
      ensures t == image
    {
      t := image;
    }

    /** write_node: the inode of node n, and for a directory its slots and what lies
        below it. */
    method WriteNode(f: seq<TNode>, n: nat)
      requires HostTree.Shape(f) && LinksOwned(f) && Numbers(f, |t.ilist|) && |t.dirs| == |t.ilist|
      requires Under(f, n, 0) && Blank(f, t, n)
      modifies this
      ensures Wrote(f, old(t), t, n) && AllLinks(t) == AllLinks(old(t)) + Named(f, n)
      decreases |f| - n, 1, 0
    {
      hide HostTree.Shape, LinksOwned, Numbers, Blank, Wrote, WroteKids, AllLinks, WrittenSlots, Under;
      ghost var t0 := t;
      UnderIn(f, n);
      if f[n].kind.TLink? {
        NoInodes(f, t, n);
        assert AllLinks(t) + multiset{} == AllLinks(t);
        return;
      }
      OwnerIs(f, n);
      OwnerNumber(f, |t.ilist|, n);
      ParentOwned(f, |t.ilist|, n);
      OwnBlank(f, t, n);
      AllLinksSet(t, f[n].ino, InodeFor(f, n), if f[n].kind.TDir? then WrittenSlots(f, n) else []);
      t := Tree(t.ilist[f[n].ino := InodeFor(f, n)],
                t.dirs[f[n].ino := if f[n].kind.TDir? then WrittenSlots(f, n) else []]);
      ghost var t1 := t;
      if f[n].kind.TDir? {
        KidsBlank(f, t0, t1, n, InodeFor(f, n), WrittenSlots(f, n));
        WriteKids(f, n);
        assert AllLinks(t0) + Targets(WrittenSlots(f, n)) + NamedBelow(f, n, |f[n].kids|)
            == AllLinks(t0) + Named(f, n);
        WroteAll(f, t0, t1, t, n);
      } else {
        WroteLeaf(f, t0, t1, n);
      }
    }

    method WriteKids(f: seq<TNode>, n: nat)
      requires HostTree.Shape(f) && LinksOwned(f) && Numbers(f, |t.ilist|) && |t.dirs| == |t.ilist|
      requires Under(f, n, 0) && n < |f| && f[n].kind.TDir?
      requires forall j: nat | j < |f[n].kids| :: Blank(f, t, f[n].kids[j])
      modifies this
      ensures WroteKids(f, old(t), t, n, |f[n].kids|)
      ensures AllLinks(t) == AllLinks(old(t)) + NamedBelow(f, n, |f[n].kids|)
      decreases |f| - n, 0, 0
    {
      hide HostTree.Shape, LinksOwned, Numbers, Blank, Wrote, WroteKids, AllLinks, WrittenSlots, Under, Named;
      ghost var t0 := t;
      WroteNone(f, t, n);
      assert AllLinks(t) + multiset{} == AllLinks(t);
      for k := 0 to |f[n].kids|
        invariant |t.ilist| == |t0.ilist| == |t.dirs|
        invariant WroteKids(f, t0, t, n, k)
        invariant AllLinks(t) == AllLinks(t0) + NamedBelow(f, n, k)
      {
        ghost var u := t;
        KidOwner(f, n, k);
        KidOf(f, n, k);
        StillBlank(f, t0, u, n, k);
        WriteNode(f, f[n].kids[k]);
        WroteLengths(f, u, t, f[n].kids[k]);
        WroteOneMore(f, t0, u, t, n, k);
        assert AllLinks(t0) + NamedBelow(f, n, k) + Named(f, f[n].kids[k])
            == AllLinks(t0) + NamedBelow(f, n, k + 1);
      }
    }
  }

  lemma UnderIn(f: seq<TNode>, n: nat)
    requires HostTree.Shape(f) && Under(f, n, 0)
    ensures n < |f|
  {
  }

  lemma OwnerIs(f: seq<TNode>, n: nat)
    requires HostTree.Shape(f) && n < |f| && !f[n].kind.TLink?
    ensures Owner(f, n) <==> Under(f, n, 0)
  {
  }

  lemma ParentOwned(f: seq<TNode>, top: nat, n: nat)
    requires HostTree.Shape(f) && LinksOwned(f) && Numbers(f, top) && Under(f, n, 0)
    ensures n < |f| && f[n].parent < |f|
  {
  }

  lemma WroteLengths(f: seq<TNode>, t: Tree, t': Tree, n: nat)
    requires HostTree.Shape(f) && Wrote(f, t, t', n)
    ensures |t'.ilist| == |t.ilist| == |t.dirs| == |t'.dirs|
  {
  }

  /** Below a hard link there is nothing of its own. */
  lemma {:induction false} LinkAlone(f: seq<TNode>, n: nat, x: nat)
    requires HostTree.Shape(f) && n < |f| && !f[n].kind.TDir? && Under(f, x, n)
    ensures x == n
    decreases x
  {
    if x != n {
      LinkAlone(f, n, f[x].parent);
    }
  }

  lemma NoInodes(f: seq<TNode>, t: Tree, n: nat)
    requires HostTree.Shape(f) && n < |f| && f[n].kind.TLink? && |t.ilist| == |t.dirs|
    ensures Wrote(f, t, t, n)
  {
    forall x: nat | Owner(f, x) ensures !Under(f, x, n) {
      if Under(f, x, n) {
        LinkAlone(f, n, x);
      }
    }
  }

  lemma OwnBlank(f: seq<TNode>, t: Tree, n: nat)
    requires HostTree.Shape(f) && Owner(f, n) && Blank(f, t, n)
    ensures !t.IsDir(f[n].ino)
  {
    assert Under(f, n, n);
    assert InoUnder(f, n, f[n].ino);
  }

  lemma InoBelow(f: seq<TNode>, n: nat, j: nat, i: nat)
    requires HostTree.Shape(f) && n < |f| && f[n].kind.TDir? && j < |f[n].kids|
    requires InoUnder(f, f[n].kids[j], i)
    ensures InoUnder(f, n, i)
  {
    var x: nat :| Owner(f, x) && Under(f, x, f[n].kids[j]) && f[x].ino == i;
    KidUnder(f, n, j, x);
  }

  lemma KidsBlank(f: seq<TNode>, t: Tree, t1: Tree, n: nat, x: Inode, s: seq<Slot>)
    requires HostTree.Shape(f) && Owner(f, n) && f[n].kind.TDir? && Blank(f, t, n)
    requires f[n].ino < |t.ilist| == |t.dirs| && Numbers(f, |t.ilist|)
    requires t1 == Tree(t.ilist[f[n].ino := x], t.dirs[f[n].ino := s])
    ensures forall j: nat | j < |f[n].kids| :: Blank(f, t1, f[n].kids[j])
  {
    forall j: nat, i: nat | j < |f[n].kids| && InoUnder(f, f[n].kids[j], i) ensures !t1.IsDir(i) {
      InoBelow(f, n, j, i);
      OwnNotBelow(f, n, j, |t.ilist|);
    }
  }

  lemma WroteNone(f: seq<TNode>, t: Tree, n: nat)
    requires HostTree.Shape(f) && n < |f| && |t.ilist| == |t.dirs|
    ensures WroteKids(f, t, t, n, 0)
  {
  }

  lemma StillBlank(f: seq<TNode>, t0: Tree, u: Tree, n: nat, k: nat)
    requires HostTree.Shape(f) && n < |f| && k < |f[n].kids| && WroteKids(f, t0, u, n, k)
    requires Numbers(f, |t0.ilist|) && Blank(f, t0, f[n].kids[k])
    ensures Blank(f, u, f[n].kids[k])
  {
    forall i: nat | InoUnder(f, f[n].kids[k], i) ensures !u.IsDir(i) {
      forall j: nat | j < k ensures !InoUnder(f, f[n].kids[j], i) {
        InosApart(f, n, j, k, |t0.ilist|, i);
      }
      assert !InoUnderKids(f, n, k, i);
    }
  }

  lemma WroteOneMore(f: seq<TNode>, t0: Tree, u: Tree, w: Tree, n: nat, k: nat)
    requires HostTree.Shape(f) && n < |f| && k < |f[n].kids| && WroteKids(f, t0, u, n, k)
    requires Wrote(f, u, w, f[n].kids[k]) && Numbers(f, |t0.ilist|)
    ensures WroteKids(f, t0, w, n, k + 1)
  {
    hide Holds, HostTree.Shape;
    forall j: nat, x: nat | j < k + 1 && Owner(f, x) && Under(f, x, f[n].kids[j]) ensures Holds(f, w, x) {
      if j < k {
        assert Holds(f, u, x);
        if InoUnder(f, f[n].kids[k], f[x].ino) {
          InosApart(f, n, j, k, |t0.ilist|, f[x].ino);
        }
        HoldsKept(f, u, w, x);
      }
    }
    forall i: nat | i < |t0.ilist| && !InoUnderKids(f, n, k + 1, i)
      ensures w.ilist[i] == t0.ilist[i] && w.dirs[i] == t0.dirs[i]
    {
      assert !InoUnder(f, f[n].kids[k], i);
      assert !InoUnderKids(f, n, k, i);
    }
  }

  lemma HoldsKept(f: seq<TNode>, u: Tree, w: Tree, x: nat)
    requires HostTree.Shape(f) && x < |f| && Holds(f, u, x)
    requires |w.ilist| == |u.ilist| == |u.dirs| == |w.dirs|
    requires w.ilist[f[x].ino] == u.ilist[f[x].ino] && w.dirs[f[x].ino] == u.dirs[f[x].ino]
    ensures Holds(f, w, x)
  {
  }

  lemma WroteLeaf(f: seq<TNode>, t0: Tree, t1: Tree, n: nat)
    requires HostTree.Shape(f) && Owner(f, n) && !f[n].kind.TDir? && f[n].ino < |t0.ilist| == |t0.dirs|
    requires t1 == Tree(t0.ilist[f[n].ino := InodeFor(f, n)], t0.dirs[f[n].ino := []])
    ensures Wrote(f, t0, t1, n)
  {
    forall x: nat | Owner(f, x) && Under(f, x, n) ensures x == n {
      LinkAlone(f, n, x);
    }
    assert Under(f, n, n);
    forall i: nat | !InoUnder(f, n, i) ensures i != f[n].ino {}
  }

  lemma WroteAll(f: seq<TNode>, t0: Tree, t1: Tree, t: Tree, n: nat)
    requires HostTree.Shape(f) && Owner(f, n) && f[n].kind.TDir? && f[n].ino < |t0.ilist| == |t0.dirs|
    requires t1 == Tree(t0.ilist[f[n].ino := InodeFor(f, n)], t0.dirs[f[n].ino := WrittenSlots(f, n)])
    requires WroteKids(f, t1, t, n, |f[n].kids|) && Numbers(f, |t0.ilist|)
    ensures Wrote(f, t0, t, n)
  {
    hide WrittenSlots, InodeFor;
    assert Under(f, n, n);
    forall x: nat | Owner(f, x) && Under(f, x, n) ensures Holds(f, t, x) {
      if x == n {
        forall j: nat | j < |f[n].kids| ensures !InoUnder(f, f[n].kids[j], f[n].ino) {
          OwnNotBelow(f, n, j, |t0.ilist|);
        }
        assert !InoUnderKids(f, n, |f[n].kids|, f[n].ino);
      } else {
        FirstKid(f, n, x);
        var k :| 0 <= k < |f[n].kids| && Under(f, x, f[n].kids[k]);
      }
    }
    forall i: nat | i < |t0.ilist| && !InoUnder(f, n, i)
      ensures t.ilist[i] == t0.ilist[i] && t.dirs[i] == t0.dirs[i]
    {
      assert i != f[n].ino;
      forall j: nat | j < |f[n].kids| ensures !InoUnder(f, f[n].kids[j], i) {
        if InoUnder(f, f[n].kids[j], i) {
          InoBelow(f, n, j, i);
        }
      }
      assert !InoUnderKids(f, n, |f[n].kids|, i);
    }
  }

  // ----- the whole image

  /** What the image holds before: inode 1 in use with no link, the rest free. */
  ghost predicate BlankImage(t: Tree) {
    && |t.ilist| == |t.dirs| > ROOTINO && t.ilist[1].kind.Reg? && t.ilist[1].nlink == 0
    && forall i | 0 <= i < |t.ilist| && i != 1 :: t.ilist[i].kind.Free?
  }

  lemma {:induction false} UnderSame(t: seq<TNode>, u: seq<TNode>, x: nat, n: nat)
    requires HostTree.Shape(t) && HostTree.Shape(u) && SameTree(t, u)
    ensures Under(t, x, n) == Under(u, x, n)
    decreases x
  {
    if x < |t| && x > n && t[x].parent < x {
      UnderSame(t, u, t[x].parent, n);
    }
  }

  lemma OwnedSame(t: seq<TNode>, u: seq<TNode>)
    requires HostTree.Shape(t) && HostTree.Shape(u) && SameTree(t, u) && LinksOwned(t)
    ensures LinksOwned(u)
  {
    forall x: nat ensures Under(t, x, 0) == Under(u, x, 0) {
      UnderSame(t, u, x, 0);
    }
  }

  lemma InOwners(t: seq<TNode>, x: nat)
    requires HostTree.Shape(t)
    ensures Owner(t, x) <==> x in OwnersOf(t, 0)
  {
    PreUnder(t, 0, x);
    PreInRange(t, 0);
    OwnersIn(t, Pre(t, 0), x);
  }

  /** Consecutive numbers from the root's on are numbers of one's own. */
  lemma NumbersGiven(t: seq<TNode>, u: seq<TNode>, last: nat, n: nat)
    requires HostTree.Shape(t) && HostTree.Shape(u) && SameTree(t, u) && LinksOwned(t)
    requires Numbered(t, u, OwnersOf(t, 0), 1, last, false, false) && 2 + |OwnersOf(t, 0)| <= n
    ensures Numbers(u, n)
  {
    var s := OwnersOf(t, 0);
    OwnersSplit(t, 0);
    hide OwnersOf;
    assert s[0] == 0;
    forall x: nat | Owner(u, x) ensures x in s {
      UnderSame(t, u, x, 0);
      InOwners(t, x);
    }
  }

  lemma NumbersKept(t: seq<TNode>, u: seq<TNode>, m: multiset<nat>, n: nat)
    requires HostTree.Shape(t) && HostTree.Shape(u) && Linked(t, u, m) && SameTree(t, u) && Numbers(t, n)
    ensures Numbers(u, n)
  {
    forall x: nat ensures Under(t, x, 0) == Under(u, x, 0) {
      UnderSame(t, u, x, 0);
    }
  }

  lemma NoLinks(t: Tree)
    requires BlankImage(t)
    ensures AllLinks(t) == multiset{}
  {
    hide Sum;
    AllLinksIs(t);
    Zeros(SlotTargets(t));
  }

  lemma {:induction false} Zeros(k: seq<multiset<nat>>)
    requires forall i | 0 <= i < |k| :: k[i] == multiset{}
    ensures Sum(k) == multiset{}
  {
    if k != [] {
      Zeros(k[..|k| - 1]);
      SumSnoc(k[..|k| - 1], k[|k| - 1]);
      assert k == k[..|k| - 1] + [k[|k| - 1]];
    }
  }

  ghost predicate Ino(f: seq<TNode>, i: nat)
    requires HostTree.Shape(f)
  {
    InoUnder(f, 0, i)
  }

  /** Slot k of directory n: its own number, its parent's, or a child's. */
  lemma SlotOwned(f: seq<TNode>, n: nat, k: nat, top: nat)
    requires HostTree.Shape(f) && LinksOwned(f) && Numbers(f, top) && Under(f, n, 0) && f[n].kind.TDir?
    requires k < |WrittenSlots(f, n)|
    ensures var x := WrittenSlots(f, n)[k];
            (x.ino == 0 || Ino(f, x.ino)) && (x.name == DOT ==> x.ino == f[n].ino)
  {
    hide KidSlots;
    ParentOwner(f, n);
    assert Owner(f, n);
    if k >= 2 {
      KidOwner(f, n, k - 2);
      KidSlotAt(f, n, |f[n].kids|, k - 2);
    }
  }

  lemma {:induction false} KidSlotAt(f: seq<TNode>, n: nat, k: nat, j: nat)
    requires HostTree.Shape(f) && n < |f| && j < k <= |f[n].kids|
    ensures KidSlots(f, n, k)[j] == KidSlot(f, f[n].kids[j])
  {
    if j < k - 1 {
      KidSlotAt(f, n, k - 1, j);
    }
  }

  /** A directory names only what has an inode. */
  lemma {:induction false} SlotsNameOwners(f: seq<TNode>, n: nat, s: seq<Slot>, top: nat, i: nat)
    requires HostTree.Shape(f) && LinksOwned(f) && Numbers(f, top) && Under(f, n, 0) && f[n].kind.TDir?
    requires s <= WrittenSlots(f, n) && Targets(s)[i] > 0
    ensures Ino(f, i)
  {
    hide WrittenSlots, HostTree.Shape, LinksOwned, Numbers, Ino;
    var m, x := s[..|s| - 1], s[|s| - 1];
    if Targets(m)[i] > 0 {
      SlotsNameOwners(f, n, m, top, i);
    } else {
      SlotOwned(f, n, |s| - 1, top);
    }
  }

  lemma {:induction false} NamedOwned(f: seq<TNode>, n: nat, top: nat, i: nat)
    requires HostTree.Shape(f) && LinksOwned(f) && Numbers(f, top) && Under(f, n, 0)
    requires Named(f, n)[i] > 0
    ensures Ino(f, i)
    decreases |f| - n, 1, 0
  {
    hide WrittenSlots, HostTree.Shape, LinksOwned, Numbers, Ino, NamedBelow;
    if Targets(WrittenSlots(f, n))[i] > 0 {
      SlotsNameOwners(f, n, WrittenSlots(f, n), top, i);
    } else {
      BelowOwned(f, n, |f[n].kids|, top, i);
    }
  }

  lemma {:induction false} BelowOwned(f: seq<TNode>, n: nat, k: nat, top: nat, i: nat)
    requires HostTree.Shape(f) && LinksOwned(f) && Numbers(f, top) && Under(f, n, 0) && f[n].kind.TDir?
    requires k <= |f[n].kids| && NamedBelow(f, n, k)[i] > 0
    ensures Ino(f, i)
    decreases |f| - n, 0, k
  {
    hide HostTree.Shape, LinksOwned, Numbers, Ino, Named;
    if NamedBelow(f, n, k - 1)[i] > 0 {
      BelowOwned(f, n, k - 1, top, i);
    } else {
      KidOwner(f, n, k - 1);
      KidOf(f, n, k - 1);
      NamedOwned(f, f[n].kids[k - 1], top, i);
    }
  }

  /** Every node that was written can be reached from the root. */
  lemma {:induction false} FoundFromRoot(f: seq<TNode>, b: Tree, t: Tree, x: nat)
    requires HostTree.Shape(f) && LinksOwned(f) && Numbers(f, |b.ilist|) && Wrote(f, b, t, 0) && Owner(f, x)
    ensures Reachable(t, ROOTINO, f[x].ino)
    decreases x
  {
    hide Edge, Reachable, KidSlots;
    if x == 0 {
      Itself(t, ROOTINO);
    } else {
      var p := f[x].parent;
      FoundFromRoot(f, b, t, p);
      assert Holds(f, t, p) && Holds(f, t, x);
      var k :| 0 <= k < |f[p].kids| && f[p].kids[k] == x;
      KidSlotAt(f, p, |f[p].kids|, k);
      EdgeAt(t, f[p].ino, f[x].ino, k + 2);
      StepLast(t, ROOTINO, f[p].ino, f[x].ino);
    }
  }

  lemma EdgeAt(t: Tree, x: nat, y: nat, k: nat)
    requires t.IsDir(x) && x < |t.dirs| && k < |t.dirs[x]| && 0 < y < |t.ilist|
    requires t.dirs[x][k].ino == y && !IsDot(t.dirs[x][k].name)
    ensures Edge(t, x, y)
  {
  }

  /** No inode but those of the nodes and inode 1 is in use. */
  lemma OnlyOwners(f: seq<TNode>, b: Tree, t: Tree, i: nat)
    requires HostTree.Shape(f) && Wrote(f, b, t, 0) && BlankImage(b) && !Ino(f, i) && i < |t.ilist|
    ensures t.ilist[i] == b.ilist[i] && (i == 1 || t.ilist[i].kind.Free?)
  {
  }

  lemma OwnerOf(f: seq<TNode>, b: Tree, t: Tree, i: nat) returns (x: nat)
    requires HostTree.Shape(f) && Numbers(f, |b.ilist|) && Wrote(f, b, t, 0) && Ino(f, i)
    ensures Owner(f, x) && f[x].ino == i && ROOTINO <= i < |t.ilist| && Holds(f, t, x) && t.InUse(i)
  {
    x :| Owner(f, x) && Under(f, x, 0) && f[x].ino == i;
  }

  /** The count of an inode is right exactly when it fits the field. */
  lemma CountAgrees(f: seq<TNode>, b: Tree, t: Tree, x: nat)
    requires HostTree.Shape(f) && LinksOwned(f) && Numbers(f, |b.ilist|) && Wrote(f, b, t, 0) && Owner(f, x)
    requires AllLinks(t) == Named(f, 0) && f[x].nlink == Entries(f, 0)[x]
    ensures ROOTINO <= f[x].ino < |t.ilist|
    ensures DiskCount(t, f[x].ino) == AllLinks(t)[f[x].ino] <==> Entries(f, 0)[x] < 0x1_0000
  {
    hide HostTree.Shape, LinksOwned, Numbers, AllLinks, Named, Entries, Under;
    RootUnder(f);
    assert Holds(f, t, x) && x < |f|;
    OwnerNumber(f, |b.ilist|, x);
    NamedIsEntries(f, 0, |b.ilist|, x);
    Low16(Entries(f, 0)[x]);
  }

  lemma RestAgrees(f: seq<TNode>, b: Tree, t: Tree, i: nat)
    requires HostTree.Shape(f) && LinksOwned(f) && Numbers(f, |b.ilist|) && Wrote(f, b, t, 0) && BlankImage(b)
    requires AllLinks(t) == Named(f, 0) && 1 <= i < |t.ilist| && !Ino(f, i)
    ensures DiskCount(t, i) == AllLinks(t)[i]
  {
    hide HostTree.Shape, LinksOwned, Numbers, Wrote, Ino, AllLinks, Named, BlankImage, Under;
    RootUnder(f);
    OnlyOwners(f, b, t, i);
    WroteLengths(f, b, t, 0);
    BlankCount(b, i);
    if Named(f, 0)[i] > 0 {
      NamedOwned(f, 0, |b.ilist|, i);
    }
  }

  lemma RootUnder(f: seq<TNode>)
    requires HostTree.Shape(f)
    ensures Under(f, 0, 0) && |f| > 0
  {
  }

  lemma BlankCount(b: Tree, i: nat)
    requires BlankImage(b) && i < |b.ilist|
    ensures b.ilist[i].kind.Free? || b.ilist[i].nlink == 0
  {
  }

  lemma Low16(n: nat)
    ensures n % 0x1_0000 == n <==> n < 0x1_0000
  {
  }

  lemma SlotsRight(f: seq<TNode>, b: Tree, t: Tree, d: nat)
    requires HostTree.Shape(f) && LinksOwned(f) && Numbers(f, |b.ilist|) && Wrote(f, b, t, 0) && BlankImage(b)
    requires d < |t.ilist|
    ensures SlotsOk(t, d)
  {
    hide HostTree.Shape, LinksOwned, Numbers, Wrote, BlankImage, WrittenSlots, Ino, Under;
    if t.IsDir(d) && d < |t.dirs| {
      if !Ino(f, d) {
        OnlyOwners(f, b, t, d);
        WroteLengths(f, b, t, 0);
        NoDirYet(b, d);
      } else {
        var n := OwnerOf(f, b, t, d);
        OwnerUnder(f, n);
        forall k: nat | k < |t.dirs[d]| ensures SlotOk(t, d, t.dirs[d][k]) {
          SlotOwned(f, n, k, |b.ilist|);
          if t.dirs[d][k].ino != 0 {
            var x := OwnerOf(f, b, t, t.dirs[d][k].ino);
          }
        }
      }
    }
  }

  lemma NoDirYet(b: Tree, d: nat)
    requires BlankImage(b)
    ensures !b.IsDir(d)
  {
  }

  lemma OwnerUnder(f: seq<TNode>, n: nat)
    requires HostTree.Shape(f) && Owner(f, n)
    ensures n < |f| && Under(f, n, 0)
  {
  }

  lemma InodeSound(f: seq<TNode>, b: Tree, t: Tree, i: nat)
    requires HostTree.Shape(f) && LinksOwned(f) && Numbers(f, |b.ilist|) && Wrote(f, b, t, 0) && BlankImage(b)
    requires 1 <= i < |t.ilist|
    ensures !t.ilist[i].kind.Invalid? && (t.InUse(i) && i != BADBLKINO ==> Reachable(t, ROOTINO, i))
  {
    hide HostTree.Shape, LinksOwned, Numbers, Wrote, Ino, Under, Reachable;
    if Ino(f, i) {
      var x := OwnerOf(f, b, t, i);
      FoundFromRoot(f, b, t, x);
    } else {
      OnlyOwners(f, b, t, i);
      WroteLengths(f, b, t, 0);
    }
  }

  /** What the link check asks of the image, node by node. */
  lemma CleanIffFit(f: seq<TNode>, b: Tree, t: Tree)
    requires HostTree.Shape(f) && LinksOwned(f) && Numbers(f, |b.ilist|) && Wrote(f, b, t, 0) && BlankImage(b)
    requires AllLinks(t) == Named(f, 0) && forall x: nat | x < |f| :: f[x].nlink == Entries(f, 0)[x]
    ensures LinksClean(t) <==> forall x: nat | Owner(f, x) :: Entries(f, 0)[x] < 0x1_0000
  {
    hide HostTree.Shape, LinksOwned, Numbers, Wrote, BlankImage, Ino, Under, Reachable, AllLinks, Named, Entries,
         DiskCount, SlotsOk;
    forall x: nat | Owner(f, x)
      ensures ROOTINO <= f[x].ino < |t.ilist|
      ensures DiskCount(t, f[x].ino) == AllLinks(t)[f[x].ino] <==> Entries(f, 0)[x] < 0x1_0000
    {
      OwnerUnder(f, x);
      CountAgrees(f, b, t, x);
    }
    forall i: nat | 1 <= i < |t.ilist|
      ensures !t.ilist[i].kind.Invalid? && (t.InUse(i) && i != BADBLKINO ==> Reachable(t, ROOTINO, i))
      ensures SlotsOk(t, i)
    {
      InodeSound(f, b, t, i);
      SlotsRight(f, b, t, i);
    }
    if forall x: nat | Owner(f, x) :: Entries(f, 0)[x] < 0x1_0000 {
      forall i: nat | 1 <= i < |t.ilist| ensures DiskCount(t, i) == AllLinks(t)[i] {
        if Ino(f, i) {
          var x := OwnerOf(f, b, t, i);
          OwnerUnder(f, x);
        } else {
          RestAgrees(f, b, t, i);
        }
      }
    }
  }
}

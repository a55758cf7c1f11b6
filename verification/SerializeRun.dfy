/** The whole tree serialised: what the image shows of it, and what the link check says. */
module SerializeRun {
  import opened Names
  import opened LinkCheck
  import opened HostTree
  import opened Serialize
  import opened SerializeCheck

  // ----- what the directories show

  /** Child c of a directory is an entry for node q: c itself, or what a hard link is for. */
  predicate StandsFor(t: seq<TNode>, c: nat, q: nat)
    requires c < |t|
  {
    if t[c].kind.TLink? then t[c].linkto == Node(q) else q == c
  }

  /** The entries directory n is to have. */
  ghost predicate EntryOf(f: seq<TNode>, n: nat, m: string, i: nat)
    requires HostTree.Shape(f) && n < |f|
  {
    (m == "." && i == f[n].ino) || (m == ".." && i == f[f[n].parent].ino)
    || exists k: nat, q: nat :: k < |f[n].kids| && q < |f| && StandsFor(f, f[n].kids[k], q)
                                && m == f[f[n].kids[k]].name && i == f[q].ino
  }

  /** The image holds node n: an inode of its kind, and for a directory exactly its
      entries, no name twice. */
  ghost predicate Shown(f: seq<TNode>, t: Tree, n: nat)
    requires HostTree.Shape(f) && n < |f|
  {
    var i := f[n].ino;
    && t.InUse(i) && t.ilist[i].nlink == f[n].nlink % 0x1_0000
    && (t.ilist[i].kind.Dir? <==> f[n].kind.TDir?) && (t.ilist[i].kind.Reg? <==> f[n].kind.TReg?)
    && (t.ilist[i].kind.Special? <==> f[n].kind.TDev?) && (!f[n].kind.TDir? ==> t.ilist[i].live == 0)
    && (f[n].kind.TDir? ==>
          Unique(t.Ents(i)) && forall m, j: nat :: Refers(t, i, m, j) <==> EntryOf(f, n, m, j))
  }

  lemma DirShown(f: seq<TNode>, t: Tree, n: nat, top: nat)
    requires HostTree.Shape(f) && LinksOwned(f) && Numbers(f, top) && Owner(f, n) && f[n].kind.TDir?
    requires Holds(f, t, n)
    ensures t.Ents(f[n].ino) == WrittenSlots(f, n)
    ensures forall m, j: nat :: Refers(t, f[n].ino, m, j) <==> EntryOf(f, n, m, j)
  {
    hide HostTree.Shape, LinksOwned, Numbers, KidSlots, Owner, EntryOf;
    OwnerUnder(f, n);
    var s := WrittenSlots(f, n);
    EntsWritten(f, t, n);
    forall m, j: nat ensures Refers(t, f[n].ino, m, j) <==> EntryOf(f, n, m, j) {
      if j != 0 && exists k :: 0 <= k < |s| && s[k] == Slot(j, m) {
        var k :| 0 <= k < |s| && s[k] == Slot(j, m);
        SlotEntry(f, n, top, k);
      }
      if EntryOf(f, n, m, j) {
        EntrySlot(f, n, top, m, j);
      }
    }
  }

  lemma EntsWritten(f: seq<TNode>, t: Tree, n: nat)
    requires HostTree.Shape(f) && n < |f| && f[n].kind.TDir? && Holds(f, t, n)
    ensures t.Ents(f[n].ino) == WrittenSlots(f, n)
  {
  }

  lemma SlotEntry(f: seq<TNode>, n: nat, top: nat, k: nat)
    requires HostTree.Shape(f) && LinksOwned(f) && Numbers(f, top) && Owner(f, n) && f[n].kind.TDir?
    requires k < |WrittenSlots(f, n)| && WrittenSlots(f, n)[k].ino != 0
    ensures EntryOf(f, n, WrittenSlots(f, n)[k].name, WrittenSlots(f, n)[k].ino)
  {
    hide KidSlots, LinksOwned, Numbers;
    if k >= 2 {
      KidSlotAt(f, n, |f[n].kids|, k - 2);
      var c := f[n].kids[k - 2];
      var q := Pointee(f, c);
      assert StandsFor(f, c, q.node);
    }
  }

  lemma EntrySlot(f: seq<TNode>, n: nat, top: nat, m: string, j: nat)
    requires HostTree.Shape(f) && LinksOwned(f) && Numbers(f, top) && Owner(f, n) && f[n].kind.TDir?
    requires EntryOf(f, n, m, j)
    ensures Has(WrittenSlots(f, n), m, j)
  {
    hide KidSlots, LinksOwned, Numbers, Under;
    var s := WrittenSlots(f, n);
    OwnerUnder(f, n);
    ParentOwner(f, n);
    OwnerNumber(f, top, n);
    OwnerNumber(f, top, f[n].parent);
    assert s[0] == Slot(f[n].ino, DOT) && s[1] == Slot(f[f[n].parent].ino, DOTDOT);
    if !((m == DOT && j == f[n].ino) || (m == DOTDOT && j == f[f[n].parent].ino)) {
      var k: nat, q: nat :| k < |f[n].kids| && q < |f| && StandsFor(f, f[n].kids[k], q)
                            && m == f[f[n].kids[k]].name && j == f[q].ino;
      KidEntrySlot(f, n, top, k, q);
    }
  }

  lemma KidEntrySlot(f: seq<TNode>, n: nat, top: nat, k: nat, q: nat)
    requires HostTree.Shape(f) && LinksOwned(f) && Numbers(f, top) && Under(f, n, 0) && n < |f| && f[n].kind.TDir?
    requires k < |f[n].kids| && q < |f| && StandsFor(f, f[n].kids[k], q)
    ensures Has(WrittenSlots(f, n), f[f[n].kids[k]].name, f[q].ino)
  {
    hide KidSlots, LinksOwned, Numbers, Under;
    KidSlotAt(f, n, |f[n].kids|, k);
    KidOwner(f, n, k);
    OwnerNumber(f, top, q);
    assert WrittenSlots(f, n)[k + 2] == Slot(f[q].ino, f[f[n].kids[k]].name);
  }

  lemma KidNamed(f: seq<TNode>, n: nat, k: nat)
    requires HostTree.Shape(f) && n < |f| && f[n].kind.TDir? && k < |f[n].kids|
    ensures var x := WrittenSlots(f, n)[k + 2];
            x.ino != 0 ==> x.name == f[f[n].kids[k]].name && !IsDot(x.name)
  {
    hide KidSlots;
    KidSlotAt(f, n, |f[n].kids|, k);
  }

  lemma SlotsUnique(f: seq<TNode>, n: nat)
    requires HostTree.Shape(f) && n < |f| && f[n].kind.TDir?
    ensures Unique(WrittenSlots(f, n))
  {
    hide KidSlots;
    var s := WrittenSlots(f, n);
    forall j, k | 0 <= j < k < |s| && s[j].ino != 0 && s[k].ino != 0 ensures s[j].name != s[k].name {
      if k >= 2 {
        KidNamed(f, n, k - 2);
        if j >= 2 {
          KidNamed(f, n, j - 2);
        }
      }
    }
  }

  lemma NodeShown(f: seq<TNode>, b: Tree, t: Tree, n: nat)
    requires HostTree.Shape(f) && LinksOwned(f) && Numbers(f, |b.ilist|) && Wrote(f, b, t, 0) && Owner(f, n)
    ensures Shown(f, t, n)
  {
    hide HostTree.Shape, LinksOwned, Numbers, WrittenSlots, EntryOf, Refers, Unique;
    OwnerUnder(f, n);
    OwnerNumber(f, |b.ilist|, n);
    assert Holds(f, t, n);
    if f[n].kind.TDir? {
      DirShown(f, t, n, |b.ilist|);
      SlotsUnique(f, n);
    }
  }

  lemma BlankStart(f: seq<TNode>, b: Tree)
    requires HostTree.Shape(f) && BlankImage(b)
    ensures Blank(f, b, 0) && |b.ilist| == |b.dirs|
  {
  }

  lemma FreshCounts(t: seq<TNode>, u: seq<TNode>, w: seq<TNode>)
    requires HostTree.Shape(t) && HostTree.Shape(u) && HostTree.Shape(w) && SameTree(t, u) && SameTree(u, w)
    requires (forall x: nat | x < |t| :: u[x].nlink == 0) && Linked(u, w, Entries(u, 0))
    ensures Entries(w, 0) == Entries(t, 0) && forall x: nat | x < |w| :: w[x].nlink == Entries(w, 0)[x]
  {
    EntriesSame(t, u, 0);
    EntriesSame(u, w, 0);
  }

  /** tree_count_inodes of the whole tree. */
  function TreeInodes(t: seq<TNode>): nat
    requires HostTree.Shape(t)
  {
    CountInodes(t, 0)
  }

  /** How many entries of the whole tree stand for node x. */
  function EntryCount(t: seq<TNode>, x: nat): nat
    requires HostTree.Shape(t)
  {
    Entries(t, 0)[x]
  }

  /** tree_serialize. */
  method SerializeTree(t: seq<TNode>, image: Tree) returns (rc: int, f: seq<TNode>, written: Tree)
    requires HostTree.Shape(t) && LinksOwned(t) && BlankImage(image) && LinksInRange(t)
    requires TreeInodes(t) + 2 <= |image.ilist| && forall x: nat | x < |t| :: t[x].nlink == 0
    ensures rc == (if 1 + TreeInodes(t) <= 65535 then 0 else -1) && (rc != 0 ==> written == image)
    ensures rc == 0 ==> HostTree.Shape(f) && SameTree(t, f) && Numbers(f, 2 + TreeInodes(t))
    ensures rc == 0 ==> Wrote(f, image, written, 0)
    // every node that gets an inode is there, with its own names and no others
    ensures rc == 0 ==> forall n: nat | Owner(f, n) :: Shown(f, written, n)
    ensures rc == 0 ==> forall n: nat | Owner(f, n) :: f[n].nlink == EntryCount(t, n)
    ensures rc == 0 ==>
              (LinksClean(written) <==> forall x: nat | Owner(t, x) :: EntryCount(t, x) < 0x1_0000)
  {
    hide HostTree.Shape, LinksOwned, Numbers, Wrote, BlankImage, Under, AllLinks, Named, Entries, LinksClean,
         SameTree, Linked, Numbered, OwnersOf, CountInodes, Shown;
    RootUnder(t);
    CountIsOwners(t, 0);
    var forest := new Forest(t, 1);
    forest.AssignInodes(0);
    f, written := forest.nodes, image;
    rc := if forest.failed then -1 else 0;
    NumberedTo(t, f, OwnersOf(t, 0), forest.last, forest.failed);
    if forest.failed {
      return;
    }
    ghost var u := f;
    NumbersGiven(t, u, forest.last, |image.ilist|);
    NumbersGiven(t, u, forest.last, 2 + CountInodes(t, 0));
    LinksSame(t, u);
    forest.CountLinks(0);
    f := forest.nodes;
    FreshCounts(t, u, f);
    NumbersKept(u, f, Entries(u, 0), |image.ilist|);
    NumbersKept(u, f, Entries(u, 0), 2 + CountInodes(t, 0));
    SameMore(t, u, f);
    OwnedSame(t, f);
    RootUnder(f);
    BlankStart(f, image);
    var writer := new Writer(image);
    writer.WriteNode(f, 0);
    written := writer.t;
    NoLinks(image);
    assert multiset{} + Named(f, 0) == Named(f, 0);
    CleanIffFit(f, image, written);
    forall n: nat | Owner(f, n) ensures n < |f| && Shown(f, written, n) && f[n].nlink == EntryCount(t, n) {
      OwnerUnder(f, n);
      NodeShown(f, image, written, n);
    }
    forall x: nat ensures Owner(t, x) == Owner(f, x) {
      OwnerSame(t, f, x);
    }
  }

  lemma NumberedTo(t: seq<TNode>, u: seq<TNode>, s: seq<nat>, last: nat, failed: bool)
    requires Numbered(t, u, s, 1, last, false, failed)
    ensures failed <==> 1 + |s| > MAXINO
    ensures |u| == |t| && forall x: nat | x < |t| :: u[x].nlink == t[x].nlink
  {
  }

  lemma OwnerSame(t: seq<TNode>, u: seq<TNode>, x: nat)
    requires HostTree.Shape(t) && HostTree.Shape(u) && SameTree(t, u)
    ensures Owner(t, x) == Owner(u, x)
  {
    UnderSame(t, u, x, 0);
  }
}

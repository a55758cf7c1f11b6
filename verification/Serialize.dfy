/** Numbering the tree and counting its links. */
module Serialize {
  import opened Names
  import opened HostTree
  import FreeList

  const MAXINO: nat := 65535

  /** The same tree, whatever numbers and counts its nodes carry. */
  ghost predicate SameTree(t: seq<TNode>, u: seq<TNode>) {
    |u| == |t| && forall i | 0 <= i < |t| :: u[i] == t[i].(ino := u[i].ino, nlink := u[i].nlink)
  }

  lemma SameShape(t: seq<TNode>, u: seq<TNode>)
    requires Shape(t) && SameTree(t, u)
    ensures Shape(u)
  {
  }

  lemma {:induction false} PreSame(t: seq<TNode>, u: seq<TNode>, n: nat)
    requires Shape(t) && Shape(u) && SameTree(t, u) && n < |t|
    ensures Pre(u, n) == Pre(t, n)
    decreases |t| - n, 1, 0
  {
    if t[n].kind.TDir? {
      PreKidsSame(t, u, n, |t[n].kids|);
    }
  }

  lemma {:induction false} PreKidsSame(t: seq<TNode>, u: seq<TNode>, n: nat, k: nat)
    requires Shape(t) && Shape(u) && SameTree(t, u) && n < |t| && k <= |t[n].kids|
    ensures PreKids(u, n, k) == PreKids(t, n, k)
    decreases |t| - n, 0, k
  {
    if k > 0 {
      PreKidsSame(t, u, n, k - 1);
      PreSame(t, u, t[n].kids[k - 1]);
    }
  }

  lemma {:induction false} OwnersSame(t: seq<TNode>, u: seq<TNode>, s: seq<nat>)
    requires SameTree(t, u) && forall i | 0 <= i < |s| :: s[i] < |t|
    ensures Owners(u, s) == Owners(t, s)
  {
    if s != [] {
      OwnersSame(t, u, s[..|s| - 1]);
    }
  }

  /** The node an entry stands for. */
  function Pointee(t: seq<TNode>, c: nat): Pointer
    requires c < |t|
  {
    if t[c].kind.TLink? then t[c].linkto else Node(c)
  }

  function One(x: Pointer): multiset<nat> {
    match x
    case Nothing => multiset{}
    case Node(i) => multiset{i}
  }

  /** The nodes named by the first k children of a directory. */
  function KidEntries(t: seq<TNode>, n: nat, k: nat): multiset<nat>
    requires Shape(t) && n < |t| && k <= |t[n].kids|
  {
    if k == 0 then multiset{} else KidEntries(t, n, k - 1) + One(Pointee(t, t[n].kids[k - 1]))
  }

  /** The entries of one directory: itself, its parent, its children. */
  function DirEntries(t: seq<TNode>, n: nat): multiset<nat>
    requires Shape(t) && n < |t|
  {
    multiset{n, t[n].parent} + KidEntries(t, n, |t[n].kids|)
  }

  /** All entries of the directories at and below n. */
  function Entries(t: seq<TNode>, n: nat): multiset<nat>
    requires Shape(t) && n < |t|
    decreases |t| - n, 1, 0
  {
    if t[n].kind.TDir? then DirEntries(t, n) + EntriesBelow(t, n, |t[n].kids|) else multiset{}
  }

  function EntriesBelow(t: seq<TNode>, n: nat, k: nat): multiset<nat>
    requires Shape(t) && n < |t| && k <= |t[n].kids|
    decreases |t| - n, 0, k
  {
    if k == 0 then multiset{} else EntriesBelow(t, n, k - 1) + Entries(t, t[n].kids[k - 1])
  }

  lemma {:induction false} EntriesSame(t: seq<TNode>, u: seq<TNode>, n: nat)
    requires Shape(t) && Shape(u) && SameTree(t, u) && n < |t|
    ensures Entries(u, n) == Entries(t, n)
    decreases |t| - n, 1, 0
  {
    if t[n].kind.TDir? {
      KidEntriesSame(t, u, n, |t[n].kids|);
      BelowSame(t, u, n, |t[n].kids|);
    }
  }

  lemma {:induction false} BelowSame(t: seq<TNode>, u: seq<TNode>, n: nat, k: nat)
    requires Shape(t) && Shape(u) && SameTree(t, u) && n < |t| && k <= |t[n].kids|
    ensures EntriesBelow(u, n, k) == EntriesBelow(t, n, k)
    decreases |t| - n, 0, k
  {
    SameKids(t, u, n);
    if k > 0 {
      hide Shape, SameTree, Entries;
      KidOf(t, n, k - 1);
      BelowSame(t, u, n, k - 1);
      EntriesSame(t, u, t[n].kids[k - 1]);
    }
  }

  lemma {:induction false} KidEntriesSame(t: seq<TNode>, u: seq<TNode>, n: nat, k: nat)
    requires Shape(t) && Shape(u) && SameTree(t, u) && n < |t| && k <= |t[n].kids|
    ensures KidEntries(u, n, k) == KidEntries(t, n, k)
  {
    SameKids(t, u, n);
    if k > 0 {
      KidEntriesSame(t, u, n, k - 1);
      KidOf(t, n, k - 1);
      SameNode(t, u, t[n].kids[k - 1]);
      hide Shape, SameTree;
    }
  }

  /** Nodes s of t got consecutive numbers after last0, as far as the numbers went. */
  ghost predicate Numbered(t: seq<TNode>, u: seq<TNode>, s: seq<nat>, last0: nat, last: nat,
                           failed0: bool, failed: bool) {
    var over := last0 + |s| > MAXINO;
    var counter := last == (if over then MAXINO else last0 + |s|) && (failed <==> failed0 || over);
    var others := |u| == |t| && forall x: nat | x < |t| && x !in s :: u[x] == t[x];
    var counts := |u| == |t| && forall x: nat | x < |t| :: u[x].nlink == t[x].nlink;
    var given := !over ==> forall k | 0 <= k < |s| :: s[k] < |u| && u[s[k]].ino == last0 + 1 + k;
    last0 <= MAXINO && counter && others && counts && given
  }

  lemma NumberedNone(t: seq<TNode>, last: nat, failed: bool)
    requires last <= MAXINO
    ensures Numbered(t, t, [], last, last, failed, failed)
  {
  }

  lemma NumberedMore(t: seq<TNode>, u: seq<TNode>, w: seq<TNode>, s: seq<nat>, r: seq<nat>,
                     l0: nat, l1: nat, l2: nat, f0: bool, f1: bool, f2: bool)
    requires Numbered(t, u, s, l0, l1, f0, f1) && Numbered(u, w, r, l1, l2, f1, f2) && FreeList.NoDup(s + r)
    requires forall k | 0 <= k < |s| :: s[k] < |t|
    ensures Numbered(t, w, s + r, l0, l2, f0, f2)
  {
    forall k | 0 <= k < |s| ensures s[k] !in r {
      assert (s + r)[k] == s[k];
      forall j | 0 <= j < |r| ensures r[j] != s[k] {
        assert (s + r)[|s| + j] == r[j];
      }
    }
  }

  lemma OwnersDistinctOf(t: seq<TNode>, n: nat)
    requires Shape(t) && n < |t|
    ensures FreeList.NoDup(OwnersOf(t, n))
    ensures forall k | 0 <= k < |OwnersOf(t, n)| :: OwnersOf(t, n)[k] < |t|
  {
    PreInRange(t, n);
    PreDistinct(t, n);
    OwnersDistinct(t, Pre(t, n));
    forall k | 0 <= k < |OwnersOf(t, n)| ensures OwnersOf(t, n)[k] < |t| {
      OwnersIn(t, Pre(t, n), OwnersOf(t, n)[k]);
    }
  }

  lemma OwnersOfSame(t: seq<TNode>, u: seq<TNode>, n: nat)
    requires Shape(t) && Shape(u) && SameTree(t, u) && n < |t|
    ensures OwnersOf(u, n) == OwnersOf(t, n)
  {
    PreSame(t, u, n);
    PreInRange(t, n);
    OwnersSame(t, u, Pre(t, n));
  }

  lemma KidsOwnersSame(t: seq<TNode>, u: seq<TNode>, n: nat, k: nat)
    requires Shape(t) && Shape(u) && SameTree(t, u) && n < |t| && k <= |t[n].kids|
    ensures OwnersOfKids(u, n, k) == OwnersOfKids(t, n, k)
  {
    PreKidsSame(t, u, n, k);
    PreKidsInRange(t, n, k);
    OwnersSame(t, u, PreKids(t, n, k));
  }

  lemma KidsOwnersDistinct(t: seq<TNode>, n: nat, k: nat)
    requires Shape(t) && n < |t| && k <= |t[n].kids|
    ensures FreeList.NoDup(OwnersOfKids(t, n, k))
    ensures forall i | 0 <= i < |OwnersOfKids(t, n, k)| :: OwnersOfKids(t, n, k)[i] < |t|
  {
    PreKidsInRange(t, n, k);
    KidsDistinct(t, n, k);
    OwnersDistinct(t, PreKids(t, n, k));
    forall i | 0 <= i < |OwnersOfKids(t, n, k)| ensures OwnersOfKids(t, n, k)[i] < |t| {
      OwnersIn(t, PreKids(t, n, k), OwnersOfKids(t, n, k)[i]);
    }
  }

  lemma SameMore(t: seq<TNode>, u: seq<TNode>, w: seq<TNode>)
    requires SameTree(t, u) && SameTree(u, w)
    ensures SameTree(t, w)
  {
  }

  /** Every node named by m gained as many links as it is named; nothing else changed. */
  ghost predicate Linked(t: seq<TNode>, u: seq<TNode>, m: multiset<nat>) {
    |u| == |t| && forall x: nat | x < |t| :: u[x] == t[x].(nlink := t[x].nlink + m[x])
  }

  lemma LinkedMore(t: seq<TNode>, u: seq<TNode>, w: seq<TNode>, m: multiset<nat>, k: multiset<nat>)
    requires Linked(t, u, m) && Linked(u, w, k)
    ensures Linked(t, w, m + k)
  {
  }

  lemma LinkedNone(t: seq<TNode>)
    ensures Linked(t, t, multiset{})
  {
  }

  lemma LinkedSame(t: seq<TNode>, u: seq<TNode>, m: multiset<nat>)
    requires Shape(t) && Linked(t, u, m)
    ensures SameTree(t, u) && Shape(u)
  {
    SameShape(t, u);
  }

  class Forest {
    var nodes: seq<TNode>
    /** The last inode number handed out, and whether they ran out. */
    var last: nat
    var failed: bool

    constructor (t: seq<TNode>, start: nat)
      ensures nodes == t && last == start && !failed
    {
      nodes, last, failed := t, start, false;
    }

    /** s5fs_ialloc. */
    method Ialloc() returns (ino: nat)
      modifies this`last, this`failed
      ensures old(last) >= MAXINO ==> ino == 0 && failed && last == old(last)
      ensures old(last) < MAXINO ==> ino == last == old(last) + 1 && failed == old(failed)
    {
      if last >= MAXINO {
        failed := true;
        return 0;
      }
      last := last + 1;
      ino := last;
    }

    /** assign_inodes: consecutive numbers for the nodes below n that own an inode, in
        pre-order, and none for the others. */
    method AssignInodes(n: nat)
      requires Shape(nodes) && n < |nodes| && last <= MAXINO
      modifies this
      ensures Shape(nodes) && SameTree(old(nodes), nodes)
      ensures Numbered(old(nodes), nodes, OwnersOf(old(nodes), n), old(last), last, old(failed), failed)
      decreases |nodes| - n, 1, 0
    {
      hide Shape, OwnersOf, OwnersOfKids, SameTree, Numbered, Pre;
      ghost var t, last0, failed0 := nodes, last, failed;
      OwnersSplit(t, n);
      OwnersDistinctOf(t, n);
      NumberedNone(t, last, failed);
      SameItself(t);
      if nodes[n].kind.TLink? {
        return;
      }
      var ino := Ialloc();
      nodes := nodes[n := nodes[n].(ino := ino)];
      ghost var u, last1, failed1 := nodes, last, failed;
      NumberedOne(t, u, n, last0, last, failed0, failed);
      if nodes[n].kind.TDir? {
        AssignKids(n);
        KidsOwnersSame(t, u, n, |t[n].kids|);
        SameMore(t, u, nodes);
        NumberedMore(t, u, nodes, [n], OwnersOfKids(t, n, |t[n].kids|), last0, last1, last,
                     failed0, failed1, failed);
      }
      assert [n] + [] == [n];
    }

    method AssignKids(n: nat)
      requires Shape(nodes) && n < |nodes| && last <= MAXINO
      modifies this
      ensures Shape(nodes) && SameTree(old(nodes), nodes)
      ensures Numbered(old(nodes), nodes, OwnersOfKids(old(nodes), n, |old(nodes)[n].kids|),
                       old(last), last, old(failed), failed)
      decreases |nodes| - n, 0, 0
    {
      hide Shape, OwnersOf, OwnersOfKids, SameTree, Numbered, Pre;
      ghost var t, last0, failed0 := nodes, last, failed;
      NumberedNone(t, last, failed);
      NoKids(t, n);
      SameItself(t);
      for k := 0 to |nodes[n].kids|
        invariant Shape(nodes) && SameTree(t, nodes) && |nodes| == |t| && nodes[n].kids == t[n].kids
        invariant last <= MAXINO && k <= |t[n].kids|
        invariant Numbered(t, nodes, OwnersOfKids(t, n, k), last0, last, failed0, failed)
      {
        ghost var u, last1, failed1 := nodes, last, failed;
        KidOf(nodes, n, k);
        AssignInodes(nodes[n].kids[k]);
        OwnersOfSame(t, u, t[n].kids[k]);
        OwnersKid(t, n, k);
        KidsOwnersDistinct(t, n, k);
        KidsOwnersDistinct(t, n, k + 1);
        NumberedMore(t, u, nodes, OwnersOfKids(t, n, k), OwnersOf(t, t[n].kids[k]),
                     last0, last1, last, failed0, failed1, failed);
        SameMore(t, u, nodes);
        SameKids(t, nodes, n);
        NumberedLast(t, nodes, OwnersOfKids(t, n, k + 1), last0, last, failed0, failed);
      }
    }

    method AddLink(x: Pointer)
      requires x.Node? ==> x.node < |nodes|
      modifies this`nodes
      ensures Linked(old(nodes), nodes, One(x))
    {
      if x.Node? {
        nodes := nodes[x.node := nodes[x.node].(nlink := nodes[x.node].nlink + 1)];
      }
    }

    /** count_links: every node gains one link for each entry that will name it. */
    method CountLinks(n: nat)
      requires Shape(nodes) && n < |nodes| && LinksInRange(nodes)
      modifies this`nodes
      ensures Shape(nodes) && SameTree(old(nodes), nodes)
      ensures Linked(old(nodes), nodes, Entries(old(nodes), n))
      decreases |nodes| - n, 1, 0
    {
      hide Shape, SameTree, Linked, KidEntries, LinksInRange, EntriesBelow;
      ghost var t := nodes;
      SameItself(t);
      LinkedNone(t);
      if !nodes[n].kind.TDir? {
        return;
      }
      ParentIn(t, n);
      AddLink(Node(n));
      ghost var u := nodes;
      LinkedSame(t, u, One(Node(n)));
      SameKids(t, u, n);
      AddLink(Node(nodes[n].parent));
      LinkedMore(t, u, nodes, multiset{n}, multiset{t[n].parent});
      assert multiset{n} + multiset{t[n].parent} == multiset{n, t[n].parent};
      ghost var m := multiset{n, t[n].parent};
      CountNames(n, t, m);
      CountBelow(n, t, m + KidEntries(t, n, |t[n].kids|));
      LinkedSame(t, nodes, Entries(t, n));
    }

    /** The named entries of one directory. */
    method CountNames(n: nat, ghost t: seq<TNode>, ghost m: multiset<nat>)
      requires Shape(t) && n < |t| && LinksInRange(t) && Linked(t, nodes, m)
      modifies this`nodes
      ensures Linked(t, nodes, m + KidEntries(t, n, |t[n].kids|))
    {
      hide Shape, SameTree, Linked, LinksInRange, KidEntries;
      LinkedSame(t, nodes, m);
      SameKids(t, nodes, n);
      NoEntriesYet(t, n, m);
      for k := 0 to |nodes[n].kids|
        invariant |nodes| == |t| && nodes[n].kids == t[n].kids
        invariant Linked(t, nodes, m + KidEntries(t, n, k))
      {
        ghost var u, mk := nodes, m + KidEntries(t, n, k);
        LinkedSame(t, u, mk);
        KidOf(t, n, k);
        PointeeSame(t, u, t[n].kids[k]);
        AddLink(Pointee(nodes, nodes[n].kids[k]));
        LinkedMore(t, u, nodes, mk, One(Pointee(t, t[n].kids[k])));
        KidEntriesNext(t, n, k, m);
        LinkedSame(t, nodes, m + KidEntries(t, n, k + 1));
        SameKids(t, nodes, n);
      }
    }

    /** The directories below. */
    method CountBelow(n: nat, ghost t: seq<TNode>, ghost m: multiset<nat>)
      requires Shape(t) && n < |t| && LinksInRange(t) && Linked(t, nodes, m)
      modifies this`nodes
      ensures Linked(t, nodes, m + EntriesBelow(t, n, |t[n].kids|))
      decreases |t| - n, 0, 0
    {
      hide Shape, SameTree, Linked, LinksInRange, Entries;
      LinkedSame(t, nodes, m);
      SameKids(t, nodes, n);
      assert m + multiset{} == m;
      for k := 0 to |nodes[n].kids|
        invariant |nodes| == |t| && nodes[n].kids == t[n].kids
        invariant Linked(t, nodes, m + EntriesBelow(t, n, k))
      {
        ghost var u, mk := nodes, m + EntriesBelow(t, n, k);
        LinkedSame(t, u, mk);
        LinksSame(t, u);
        KidOf(t, n, k);
        CountLinks(nodes[n].kids[k]);
        EntriesSame(t, u, t[n].kids[k]);
        LinkedMore(t, u, nodes, mk, Entries(t, t[n].kids[k]));
        assert mk + Entries(t, t[n].kids[k]) == m + EntriesBelow(t, n, k + 1);
        LinkedSame(t, nodes, m + EntriesBelow(t, n, k + 1));
        SameKids(t, nodes, n);
      }
    }
  }

  lemma NumberedOne(t: seq<TNode>, u: seq<TNode>, n: nat, last0: nat, last: nat, failed0: bool, failed: bool)
    requires Shape(t) && n < |t| && last0 <= MAXINO && |u| == |t| && u == t[n := t[n].(ino := u[n].ino)]
    requires if last0 >= MAXINO then failed && last == last0
             else u[n].ino == last == last0 + 1 && failed == failed0
    ensures Numbered(t, u, [n], last0, last, failed0, failed) && SameTree(t, u) && Shape(u)
    ensures last <= MAXINO
  {
    SameShape(t, u);
  }

  lemma NumberedLast(t: seq<TNode>, u: seq<TNode>, s: seq<nat>, last0: nat, last: nat, failed0: bool, failed: bool)
    requires Numbered(t, u, s, last0, last, failed0, failed)
    ensures last <= MAXINO
  {
  }

  lemma KidEntriesNext(t: seq<TNode>, n: nat, k: nat, m: multiset<nat>)
    requires Shape(t) && n < |t| && k < |t[n].kids|
    ensures m + KidEntries(t, n, k) + One(Pointee(t, t[n].kids[k])) == m + KidEntries(t, n, k + 1)
  {
    hide Shape;
  }

  lemma NoEntriesYet(t: seq<TNode>, n: nat, m: multiset<nat>)
    requires Shape(t) && n < |t|
    ensures m + KidEntries(t, n, 0) == m
  {
    hide Shape;
  }

  lemma SameItself(t: seq<TNode>)
    ensures SameTree(t, t)
  {
  }

  lemma SameKids(t: seq<TNode>, u: seq<TNode>, n: nat)
    requires SameTree(t, u) && n < |t|
    ensures |u| == |t| && u[n].kids == t[n].kids && u[n].kind == t[n].kind && u[n].parent == t[n].parent
  {
  }

  lemma SameNode(t: seq<TNode>, u: seq<TNode>, c: nat)
    requires SameTree(t, u) && c < |t|
    ensures |u| == |t| && Pointee(u, c) == Pointee(t, c)
  {
  }

  lemma PointeeSame(t: seq<TNode>, u: seq<TNode>, c: nat)
    requires SameTree(t, u) && c < |t| && LinksInRange(t)
    ensures |u| == |t| && Pointee(u, c) == Pointee(t, c)
    ensures Pointee(t, c).Node? ==> Pointee(t, c).node < |t|
  {
  }

  ghost predicate LinksInRange(t: seq<TNode>) {
    forall i | 0 <= i < |t| && t[i].linkto.Node? :: t[i].linkto.node < |t|
  }

  lemma LinksSame(t: seq<TNode>, u: seq<TNode>)
    requires SameTree(t, u) && LinksInRange(t)
    ensures LinksInRange(u)
  {
  }

  lemma ParentIn(t: seq<TNode>, n: nat)
    requires Shape(t) && n < |t|
    ensures t[n].parent < |t|
  {
  }
}

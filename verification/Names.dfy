/** The namespace of a volume: inodes with their kind and link count, and the slots
    of every directory, live ones first. */
module Names {
  import opened Multisets

  const ROOTINO: nat := 2
  const BADBLKINO: nat := 1
  const DIRSIZ: nat := 14
  const DOT: string := "."
  const DOTDOT: string := ".."
  const LOSTFOUND: string := "lost+found"

  datatype Kind = Free | Reg | Dir | Special | Invalid

  /** live: how many slots lie below di_size. */
  datatype Inode = Inode(kind: Kind, nlink: nat, live: nat)

  const FREE: Inode := Inode(Free, 0, 0)

  /** A directory slot; inode number 0 marks it free, whatever name it still holds. */
  datatype Slot = Slot(ino: nat, name: string)

  /** Inode numbers index both sequences; entry 0 is not used.  dirs holds every slot
      of a directory's blocks, those past the size included. */
  datatype Tree = Tree(ilist: seq<Inode>, dirs: seq<seq<Slot>>)
  {
    ghost predicate Shape() {
      && ROOTINO < |ilist| == |dirs| && ilist[0].kind.Free?
      && forall d | 0 <= d < |ilist| && ilist[d].kind.Dir? :: ilist[d].live <= |dirs[d]|
    }

    predicate IsDir(i: nat) { i < |ilist| && ilist[i].kind.Dir? }

    predicate InUse(i: nat) { 1 <= i < |ilist| && !ilist[i].kind.Free? }

    /** The entries of a directory: its slots below the size. */
    function Ents(d: nat): seq<Slot> {
      if IsDir(d) && d < |dirs| && ilist[d].live <= |dirs[d]| then dirs[d][..ilist[d].live] else []
    }
  }

  predicate NameOk(leaf: string) { 0 < |leaf| <= DIRSIZ }

  predicate IsDot(n: string) { n == DOT || n == DOTDOT }

  ghost predicate Has(s: seq<Slot>, n: string, i: nat) {
    i != 0 && exists k :: 0 <= k < |s| && s[k] == Slot(i, n)
  }

  /** No name is used twice. */
  ghost predicate Unique(s: seq<Slot>) {
    forall j, k | 0 <= j < k < |s| && s[j].ino != 0 && s[k].ino != 0 :: s[j].name != s[k].name
  }

  ghost predicate AllFree(s: seq<Slot>) {
    forall k | 0 <= k < |s| :: s[k].ino == 0
  }

  lemma HasOnce(s: seq<Slot>, n: string, i: nat, j: nat)
    requires Unique(s) && Has(s, n, i) && Has(s, n, j)
    ensures i == j
  {
    var a :| 0 <= a < |s| && s[a] == Slot(i, n);
    var b :| 0 <= b < |s| && s[b] == Slot(j, n);
  }

  /** The inodes named by a run of slots, with multiplicity. */
  function Targets(s: seq<Slot>): multiset<nat> {
    if s == [] then multiset{}
    else Targets(s[..|s| - 1]) + Target(s[|s| - 1])
  }

  function Target(x: Slot): multiset<nat> {
    if x.ino == 0 then multiset{} else multiset{x.ino}
  }

  lemma TargetsSnoc(s: seq<Slot>, x: Slot)
    ensures Targets(s + [x]) == Targets(s) + Target(x)
  {
    assert (s + [x])[..|s|] == s;
  }

  lemma {:induction false} TargetsUpdate(s: seq<Slot>, k: nat, x: Slot)
    requires k < |s|
    ensures Targets(s[k := x]) + Target(s[k]) == Targets(s) + Target(x)
  {
    var n := |s| - 1;
    if k < n {
      TargetsUpdate(s[..n], k, x);
      assert s[k := x][..n] == s[..n][k := x];
      calc {
        Targets(s[k := x]) + Target(s[k]);
        (Targets(s[..n][k := x]) + Target(s[..n][k])) + Target(s[n]);
        (Targets(s[..n]) + Target(x)) + Target(s[n]);
        Targets(s) + Target(x);
      }
    } else {
      assert s[k := x][..n] == s[..n];
    }
  }

  lemma {:induction false} TargetsHas(s: seq<Slot>, i: nat)
    ensures i in Targets(s) <==> exists n :: Has(s, n, i)
  {
    if s != [] {
      var m := s[..|s| - 1];
      var x := s[|s| - 1];
      TargetsHas(m, i);
      if n :| Has(m, n, i) {
        var k :| 0 <= k < |m| && m[k] == Slot(i, n);
        assert s[k] == Slot(i, n);
        assert Has(s, n, i);
      }
      if i != 0 && x.ino == i {
        assert s[|s| - 1] == Slot(i, x.name);
        assert Has(s, x.name, i);
      }
      if n :| Has(s, n, i) {
        var k :| 0 <= k < |s| && s[k] == Slot(i, n);
        if k < |m| {
          assert m[k] == Slot(i, n);
          assert Has(m, n, i);
        }
      }
    }
  }

  /** How many entries name each inode. */
  function DirTargets(t: Tree): (s: seq<multiset<nat>>)
    ensures |s| == |t.ilist|
  {
    seq(|t.ilist|, d requires 0 <= d < |t.ilist| => Targets(t.Ents(d)))
  }

  function Links(t: Tree): multiset<nat> { Sum(DirTargets(t)) }

  /** The ".." of a directory. */
  function Up(t: Tree, d: nat): nat {
    if |t.Ents(d)| >= 2 then t.Ents(d)[1].ino else 0
  }

  /** From d, n steps of ".." lead to the root for the first time. */
  ghost predicate Climbs(t: Tree, d: nat, n: nat)
    decreases n
  {
    if n == 0 then d == ROOTINO
    else d != ROOTINO && t.IsDir(d) && Climbs(t, Up(t, d), n - 1)
  }

  /** A directory starts with "." and "..", holds no name twice, and is free past its
      size. */
  ghost predicate WellFormed(t: Tree, d: nat)
    requires t.Shape() && t.IsDir(d)
  {
    var s := t.Ents(d);
    var dots := |s| >= 2 && s[0] == Slot(d, DOT) && s[1].name == DOTDOT && s[1].ino != 0;
    dots && Unique(s) && AllFree(t.dirs[d][t.ilist[d].live..])
  }

  ghost predicate WellFormedDirs(t: Tree)
    requires t.Shape()
  {
    !t.IsDir(0) && t.IsDir(ROOTINO) && forall d: nat | t.IsDir(d) :: WellFormed(t, d)
  }

  ghost predicate Refers(t: Tree, d: nat, n: string, i: nat) { Has(t.Ents(d), n, i) }

  /** Every entry names an allocated inode. */
  ghost predicate NoDangling(t: Tree) {
    forall d: nat, n, i: nat | Refers(t, d, n, i) :: t.InUse(i)
  }

  /** A directory other than the root has exactly one name, and it is in its "..";
      the root has none. */
  ghost predicate OneParent(t: Tree) {
    && Up(t, ROOTINO) == ROOTINO
    && (forall d: nat, n, c: nat | Refers(t, d, n, c) && !IsDot(n) && t.IsDir(c) ::
          c != ROOTINO && Up(t, c) == d)
    && (forall d: nat, n, n', c: nat |
          Refers(t, d, n, c) && Refers(t, d, n', c) && !IsDot(n) && !IsDot(n') && t.IsDir(c) :: n == n')
    && (forall c: nat | t.IsDir(c) && c != ROOTINO ::
          t.IsDir(Up(t, c)) && exists n :: !IsDot(n) && Refers(t, Up(t, c), n, c))
  }

  ghost predicate Rooted(t: Tree) {
    forall d: nat | t.IsDir(d) :: exists n: nat :: Climbs(t, d, n)
  }

  /** Every link count is the number of entries; only inode 1 may have none. */
  ghost predicate Counted(t: Tree) {
    forall i: nat | t.InUse(i) ::
      t.ilist[i].nlink == Links(t)[i] && (i != BADBLKINO ==> Links(t)[i] > 0)
  }

  /** The structure that every operation keeps ... */
  ghost predicate Structured(t: Tree) {
    var formed := t.Shape() && WellFormedDirs(t);
    formed && NoDangling(t) && OneParent(t) && Rooted(t)
  }

  /** ... and the counts. */
  ghost predicate Consistent(t: Tree) {
    Structured(t) && Counted(t)
  }
}

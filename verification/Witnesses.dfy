/** Inputs the code can be given on which it does not keep what it sets out to keep. */
module Witnesses {
  import opened Endian
  import opened Errno
  import opened Layout
  import opened Multisets
  import opened Names
  import opened NameSteps
  import opened NameTree
  import opened NameOps
  import opened NameRuns
  import opened Rename
  import opened Reach
  import opened LinkCheck
  import opened LinkRepair
  import opened RepairCounts
  import opened FsckRun
  import MkfsCheck

  // ----- mkfs

  /** A volume of 1001 blocks with its 22 blocks of i-list, made with the default
      interleave of 10 and 5: the block check finds fault. */
  method DefaultInterleave() returns (ok: bool, blocks: nat, links: nat)
    ensures ok && blocks != 0 && links == 0
  {
    var v: Vol := Volume(Pdp11, 256, 4, 22, 1001);
    var image := seq(1001, _ => seq(1024, _ => 0));
    ok, blocks, links := MkfsCheck.MakeThenCheck(v, image, 10, 5, true);
  }

  // ----- a file with k names in the root

  function Letter(d: nat): char
    requires d < 41
  {
    ('A' as int + d) as char
  }

  /** The j-th of 41^3 names of three letters. */
  function NameOf(j: nat): (s: string)
    ensures |s| == 3
  {
    [Letter(j / 1681 % 41), Letter(j / 41 % 41), Letter(j % 41)]
  }

  lemma Spelled(j: nat)
    requires j < 68921
    ensures j == 1681 * (j / 1681 % 41) + 41 * (j / 41 % 41) + j % 41
  {
    assert j / 1681 < 41;
    assert j / 41 / 41 == j / 1681;
  }

  lemma LetterOnce(d: nat, e: nat)
    requires d < 41 && e < 41 && Letter(d) == Letter(e)
    ensures d == e
  {
    assert Letter(d) as int == 65 + d && Letter(e) as int == 65 + e;
  }

  lemma NamesDiffer(i: nat, j: nat)
    requires i < j < 68921
    ensures NameOf(i) != NameOf(j)
  {
    hide Letter;
    if NameOf(i) == NameOf(j) {
      LetterOnce(i / 1681 % 41, j / 1681 % 41) by { assert NameOf(i)[0] == NameOf(j)[0]; }
      LetterOnce(i / 41 % 41, j / 41 % 41) by { assert NameOf(i)[1] == NameOf(j)[1]; }
      LetterOnce(i % 41, j % 41) by { assert NameOf(i)[2] == NameOf(j)[2]; }
      Spelled(i);
      Spelled(j);
    }
  }

  const LOST: nat := 3
  const FILE: nat := 4

  function RootSlots(k: nat): (s: seq<Slot>)
    ensures |s| == k + 3
  {
    [Slot(ROOTINO, DOT), Slot(ROOTINO, DOTDOT), Slot(LOST, LOSTFOUND)]
    + seq(k, j requires 0 <= j => Slot(FILE, NameOf(j)))
  }

  /** lost+found: two entries and 62 free slots. */
  function LostSlots(): (s: seq<Slot>)
    ensures |s| == 64
  {
    [Slot(LOST, DOT), Slot(ROOTINO, DOTDOT)] + seq(62, _ => Slot(0, ""))
  }

  /** One i-list block: the root with its lost+found, and a file with k names in the root
      and a link count of n. */
  function Base(k: nat, n: nat): (t: Tree)
    ensures |t.ilist| == |t.dirs| == 17
  {
    Tree(seq(17, i => if i == ROOTINO then Inode(Dir, 3, k + 3)
                      else if i == LOST then Inode(Dir, 2, 2)
                      else if i == FILE then Inode(Reg, n, 0)
                      else FREE),
         seq(17, i => if i == ROOTINO then RootSlots(k) else if i == LOST then LostSlots() else []))
  }

  lemma BaseIs(k: nat, n: nat)
    ensures var t := Base(k, n);
            && t.Shape() && t.dirs[ROOTINO] == RootSlots(k) && t.dirs[LOST] == LostSlots()
            && t.Ents(ROOTINO) == RootSlots(k) && t.Ents(LOST) == [Slot(LOST, DOT), Slot(ROOTINO, DOTDOT)]
            && t.ilist[ROOTINO] == Inode(Dir, 3, k + 3) && t.ilist[LOST] == Inode(Dir, 2, 2)
            && t.ilist[FILE] == Inode(Reg, n, 0) && Tail(t, ROOTINO) == [] && AllFree(Tail(t, LOST))
    ensures forall i: nat :: Base(k, n).InUse(i) <==> i == ROOTINO || i == LOST || i == FILE
    ensures forall i: nat :: Base(k, n).IsDir(i) <==> i == ROOTINO || i == LOST
    ensures forall i: nat | i != ROOTINO && i != LOST :: Base(k, n).Ents(i) == []
    ensures forall i: nat | i < 17 && i != ROOTINO && i != LOST :: Base(k, n).dirs[i] == []
    ensures forall i | 0 <= i < 17 && !Base(k, n).InUse(i) :: Base(k, n).ilist[i] == FREE
  {
    var t := Base(k, n);
    assert t.dirs[ROOTINO] == RootSlots(k);
    assert t.Ents(LOST) == LostSlots()[..2] == [Slot(LOST, DOT), Slot(ROOTINO, DOTDOT)];
  }

  /** The entries of the root. */
  ghost predicate RootEntry(k: nat, m: string, i: nat) {
    (m == DOT && i == ROOTINO) || (m == DOTDOT && i == ROOTINO) || (m == LOSTFOUND && i == LOST)
    || (i == FILE && exists j: nat :: j < k && m == NameOf(j))
  }

  lemma RootHas(k: nat, m: string, i: nat)
    ensures Has(RootSlots(k), m, i) <==> RootEntry(k, m, i)
  {
    var s := RootSlots(k);
    if Has(s, m, i) {
      var e :| 0 <= e < |s| && s[e] == Slot(i, m);
      if e >= 3 {
        assert m == NameOf(e - 3);
      }
    }
    if RootEntry(k, m, i) {
      assert s[0] == Slot(ROOTINO, DOT) && s[1] == Slot(ROOTINO, DOTDOT) && s[2] == Slot(LOST, LOSTFOUND);
      if i == FILE && exists j: nat :: j < k && m == NameOf(j) {
        var j: nat :| j < k && m == NameOf(j);
        assert s[j + 3] == Slot(FILE, NameOf(j));
      }
    }
  }

  lemma BaseRefers(k: nat, n: nat)
    ensures forall d: nat, m, i: nat ::
              Refers(Base(k, n), d, m, i) <==>
                (d == ROOTINO && RootEntry(k, m, i))
                || (d == LOST && ((m == DOT && i == LOST) || (m == DOTDOT && i == ROOTINO)))
  {
    hide RootSlots, LostSlots, Base, RootEntry;
    BaseIs(k, n);
    forall d: nat, m, i: nat
      ensures Refers(Base(k, n), d, m, i) <==>
                (d == ROOTINO && RootEntry(k, m, i))
                || (d == LOST && ((m == DOT && i == LOST) || (m == DOTDOT && i == ROOTINO)))
    {
      RootHas(k, m, i);
      TwoSlots(Slot(LOST, DOT), Slot(ROOTINO, DOTDOT), m, i);
    }
  }

  lemma TwoSlots(x: Slot, y: Slot, m: string, i: nat)
    requires x.ino != 0 && y.ino != 0
    ensures Has([x, y], m, i) <==> x == Slot(i, m) || y == Slot(i, m)
  {
    assert [x, y][0] == x && [x, y][1] == y;
  }

  // ----- its counts

  lemma HeadTargets(x: Slot, y: Slot, z: Slot)
    ensures Targets([x, y, z]) == Target(x) + Target(y) + Target(z)
  {
    hide Targets, Target;
    assert [x, y, z] == [] + [x] + [y] + [z];
    TargetsNone();
    TargetsSnoc([], x);
    TargetsSnoc([] + [x], y);
    TargetsSnoc([] + [x] + [y], z);
    assert Targets([] + [x]) == multiset{} + Target(x) == Target(x);
  }

  lemma {:induction false} RootTargets(k: nat)
    ensures Targets(RootSlots(k)) == multiset{ROOTINO, ROOTINO, LOST}[FILE := k]
  {
    hide Targets, NameOf;
    if k == 0 {
      assert RootSlots(k) == [Slot(ROOTINO, DOT), Slot(ROOTINO, DOTDOT), Slot(LOST, LOSTFOUND)];
      HeadTargets(Slot(ROOTINO, DOT), Slot(ROOTINO, DOTDOT), Slot(LOST, LOSTFOUND));
    } else {
      RootTargets(k - 1);
      assert RootSlots(k) == RootSlots(k - 1) + [Slot(FILE, NameOf(k - 1))];
      TargetsSnoc(RootSlots(k - 1), Slot(FILE, NameOf(k - 1)));
    }
  }

  lemma DotsTargets()
    ensures Targets([Slot(LOST, DOT), Slot(ROOTINO, DOTDOT)]) == multiset{LOST, ROOTINO}
  {
    DotTargets(LOST, ROOTINO);
  }

  /** Only entries i and j hold anything. */
  lemma TwoOnly(s: seq<multiset<nat>>, i: nat, j: nat)
    requires i < j < |s| && forall e | 0 <= e < |s| && e != i && e != j :: s[e] == multiset{}
    ensures Sum(s) == s[i] + s[j]
  {
    var a := s[i := multiset{}];
    var b := a[j := multiset{}];
    SumEmpty(b);
    SumUpdate(s, i, multiset{});
    SumUpdate(a, j, multiset{});
    assert Sum(s) == Sum(s) + multiset{} == Sum(a) + s[i];
    assert Sum(a) == Sum(a) + multiset{} == Sum(b) + s[j];
  }

  lemma BaseLinks(k: nat, n: nat)
    ensures Links(Base(k, n)) == multiset{ROOTINO, ROOTINO, LOST}[FILE := k] + multiset{LOST, ROOTINO}
  {
    hide RootSlots, LostSlots, Base, Sum, Targets;
    BaseIs(k, n);
    var t := Base(k, n);
    TargetsAt(t);
    SumOf(t);
    RootTargets(k);
    DotsTargets();
    TargetsNone();
    TwoOnly(DirTargets(t), ROOTINO, LOST);
  }

  lemma BaseStructured(k: nat, n: nat)
    requires k < 68921
    ensures Structured(Base(k, n))
  {
    var t := Base(k, n);
    BaseIs(k, n);
    BaseRefers(k, n);
    RootFormed(k);
    assert Up(t, ROOTINO) == ROOTINO && Up(t, LOST) == ROOTINO;
    hide Base, RootSlots, LostSlots, NameOf, Refers, Up;
    assert Climbs(t, ROOTINO, 0);
    assert Climbs(t, LOST, 1);
    assert RootEntry(k, LOSTFOUND, LOST) && Refers(t, ROOTINO, LOSTFOUND, LOST) && LOSTFOUND[0] == 'l';
    assert WellFormed(t, ROOTINO) && WellFormed(t, LOST);
  }

  lemma RootFormed(k: nat)
    requires k < 68921
    ensures Unique(RootSlots(k))
  {
    var s := RootSlots(k);
    forall i, j | 0 <= i < j < |s| ensures s[i].name != s[j].name {
      if i >= 3 {
        NamesDiffer(i - 3, j - 3);
      }
    }
  }

  lemma BaseConsistent(k: nat)
    requires 1 <= k < 0x1_0000
    ensures Consistent(Base(k, k)) && Base(k, k).Shape()
  {
    BaseStructured(k, k);
    BaseIs(k, k);
    BaseLinks(k, k);
    hide Base, Structured, Links;
  }

  lemma FreeThere(t: Tree, i: nat)
    requires ROOTINO <= i < |t.ilist| && !t.InUse(i)
    ensures FreeInode(t)
  {
  }

  // ----- unlink

  /** A file with 32769 names loses one, and is gone from under the other 32768. */
  method ManyLinks() returns (rc: int, ghost before: Tree, ghost after: Tree)
    ensures rc == 0 && Consistent(before) && !Consistent(after)
    ensures before.InUse(FILE) && !after.InUse(FILE) && Refers(after, ROOTINO, NameOf(1), FILE)
  {
    hide Base, NameOf, Consistent, Refers;
    var k: nat := 0x8001;
    BaseConsistent(k);
    BaseIs(k, k);
    BaseRefers(k, k);
    NamesDiffer(0, 1);
    NotDots(0);
    var h := new RW(16, 64, Base(k, k));
    before := h.T();
    assert before == Base(k, k);
    assert RootEntry(k, NameOf(0), FILE) && RootEntry(k, NameOf(1), FILE);
    ghost var c;
    rc, c := Unlink(h, ROOTINO, NameOf(0));
    after := h.T();
    assert Refers(before, ROOTINO, NameOf(0), FILE) && Refers(before, ROOTINO, NameOf(1), FILE);
    OnlyFile(k, k, 0, c);
  }

  lemma NotDots(j: nat)
    ensures !IsDot(NameOf(j)) && NameOf(j) != LOSTFOUND && NameOk(NameOf(j))
  {
  }

  /** Three letters name the file and nothing else. */
  lemma OnlyFile(k: nat, n: nat, j: nat, c: nat)
    ensures Refers(Base(k, n), ROOTINO, NameOf(j), c) ==> c == FILE
  {
    BaseRefers(k, n);
    NotDots(j);
  }

  // ----- creat

  lemma NotTaken(k: nat, n: nat, m: string)
    requires !IsDot(m) && |m| == 1
    ensures !Taken(Base(k, n), ROOTINO, m)
  {
    BaseRefers(k, n);
  }

  /** A root with all 64 slots of its block in use takes a new file in a block whose
      second slot still holds an old entry: the tree is no longer consistent. */
  method DirtyBlock() returns (rc: int, ghost before: Tree, ghost after: Tree)
    ensures rc == 0 && Consistent(before) && !Consistent(after)
  {
    hide Consistent, Refers;
    BaseConsistent(61);
    BaseIs(61, 61);
    NotTaken(61, 61, "f");
    FreeThere(Base(61, 61), 5);
    FullRoot(61);
    hide Base, RootSlots, LostSlots;
    var h := new RW(16, 64, Base(61, 61));
    before := h.T();
    assert before == Base(61, 61);
    var stale := [Slot(0, ""), Slot(FILE, "old")] + seq(62, _ => Slot(0, ""));
    assert !AllFree(stale[1..]) by { assert stale[1..][0] == Slot(FILE, "old"); }
    var ino;
    rc, ino := Creat(h, ROOTINO, "f", Had, stale);
    after := h.T();
  }

  /** The same root, and no free block left: the new inode stays behind. */
  method LeftBehind() returns (rc: int, ino: nat, ghost before: Tree, ghost after: Tree)
    ensures rc == -ENOSPC && Consistent(before) && !Consistent(after)
    ensures !before.InUse(ino) && after.InUse(ino) && forall d: nat, m :: !Refers(after, d, m, ino)
  {
    rc, ino, before, after := InFullRoot(61, Refused);
  }

  /** A root that fills its four direct blocks, and a free list that cannot serve an
      indirect one: when what is then read passes for a block, creat answers 0, and nothing
      names the new inode. */
  method CreatedNothing() returns (rc: int, ino: nat, ghost before: Tree, ghost after: Tree)
    ensures rc == 0 && Consistent(before) && !Consistent(after)
    ensures !before.InUse(ino) && after.InUse(ino) && forall d: nat, m :: !Refers(after, d, m, ino)
  {
    rc, ino, before, after := InFullRoot(253, Blind);
  }

  /** Creating a file in a full root, without a block for the entry. */
  method InFullRoot(k: nat, room: Room) returns (rc: int, ino: nat, ghost before: Tree, ghost after: Tree)
    requires 1 <= k < 68921 && k < 0x1_0000 && !room.Had?
    ensures rc == FailedReply(room) && before == Base(k, k) && Consistent(before) && !Consistent(after)
    ensures !before.InUse(ino) && after.InUse(ino) && forall d: nat, m :: !Refers(after, d, m, ino)
  {
    hide Consistent;
    BaseConsistent(k);
    BaseIs(k, k);
    NotTaken(k, k, "f");
    FreeThere(Base(k, k), 5);
    FullRoot(k);
    hide Base, RootSlots, LostSlots;
    var h := new RW(16, 64, Base(k, k));
    before := h.T();
    assert before == Base(k, k);
    rc, ino := Creat(h, ROOTINO, "f", room, seq(64, _ => Slot(0, "")));
    after := h.T();
    forall d: nat ensures after.Ents(d) == before.Ents(d) {}
    UnnamedFree(before, ino);
  }

  lemma UnnamedFree(t: Tree, c: nat)
    requires Consistent(t) && !t.InUse(c)
    ensures forall d: nat, m :: !Refers(t, d, m, c)
  {
    hide Links, Refers, WellFormedDirs, OneParent, Rooted;
    Unnamed(t, c);
  }

  lemma FullRoot(k: nat)
    ensures NeedsBlock(Base(k, k), ROOTINO)
  {
    BaseIs(k, k);
  }

  // ----- rename

  /** A directory is renamed onto an empty one whose inode lies in the i-list block of
      their parent: every call goes through, and the root's count is one too high. */
  method OntoEmpty() returns (rc1: int, rc: int, ghost before: Tree, ghost after: Tree)
    ensures rc1 == 0 && rc == 0 && Consistent(before) && SmallCounts(before)
    ensures Structured(after) && !Consistent(after)
    ensures after.IsDir(ROOTINO) && after.ilist[ROOTINO].nlink == Links(after)[ROOTINO] + 1
  {
    hide Consistent, Refers, Structured, Links, AllFree;
    BaseConsistent(1);
    BaseIs(1, 1);
    NotTaken(1, 1, "a");
    FreeThere(Base(1, 1), 5);
    BaseRefers(1, 1);
    hide Base, RootSlots, LostSlots, NameOf;
    var h := new RW(16, 64, Base(1, 1));
    assert h.T() == Base(1, 1);
    var stale := seq(64, _ => Slot(0, ""));
    assert AllFree(stale[1..]) by { FreeRest(stale); }
    var a;
    rc1, a := Mkdir(h, ROOTINO, "a", Had, Had, stale);
    before := h.T();
    assert SmallCounts(before);
    assert RootEntry(1, LOSTFOUND, LOST);
    assert Refers(before, ROOTINO, LOSTFOUND, LOST) && Refers(before, ROOTINO, "a", a);
    assert before.IsDir(LOST) && before.IsDir(ROOTINO) && LOSTFOUND[0] == 'l';
    ghost var c, x;
    rc, c, x := DoRename(h, ROOTINO, "a", ROOTINO, LOSTFOUND, Had, stale);
    after := h.T();
    RootBelow(before, a);
    assert !RootEntry(1, "a", c);
    assert c == a;
    OnlyLost(x, a);
    assert !HasEntries(before, LOST);
  }

  lemma FreeRest(s: seq<Slot>)
    requires |s| > 0 && forall k | 0 <= k < |s| :: s[k].ino == 0
    ensures AllFree(s[1..])
  {
  }

  lemma OnlyLost(x: nat, a: nat)
    ensures RootEntry(1, LOSTFOUND, x) ==> x == LOST
  {
    assert |LOSTFOUND| == 10;
  }

  /** Nothing but the root is above the root. */
  lemma RootBelow(t: Tree, c: nat)
    ensures Above(t, c, ROOTINO) <==> c == ROOTINO
  {
    if Above(t, c, ROOTINO) {
      var n: nat :| Climbs(t, ROOTINO, n) && Meets(t, ROOTINO, n, c);
    }
    if c == ROOTINO {
      assert Climbs(t, ROOTINO, 0) && Meets(t, ROOTINO, 0, c);
    }
  }

  // ----- repair

  /** A file with 65536 names: after the repair the check still finds its count wrong. */
  method TooManyNames() returns (errors: nat)
    ensures errors != 0
  {
    hide Repairable, LostFoundDir, FitsAfter, AllHung;
    var t := Base(0x1_0000, 1);
    BaseRepairable(0x1_0000, 1);
    assert forall i: nat | t.InUse(i) :: t.ilist[i].nlink < 0x1_0000 by { BaseIs(0x1_0000, 1); }
    BaseOverflows(0x1_0000, 1);
    errors := RepairThenCheck(t);
  }

  lemma BaseReached(k: nat, n: nat, i: nat)
    requires 1 <= k
    ensures Base(k, n).InUse(i) ==> Reachable(Base(k, n), ROOTINO, i)
  {
    hide Reachable, Base, RootSlots, LostSlots;
    var t := Base(k, n);
    BaseIs(k, n);
    Itself(t, ROOTINO);
    BaseSlots(k);
    assert LOSTFOUND[0] == 'l';
    NotDots(0);
    assert Edge(t, ROOTINO, LOST) by { assert t.dirs[ROOTINO][2] == Slot(LOST, LOSTFOUND); }
    assert Edge(t, ROOTINO, FILE) by { assert t.dirs[ROOTINO][3] == Slot(FILE, NameOf(0)); }
    StepLast(t, ROOTINO, ROOTINO, LOST);
    StepLast(t, ROOTINO, ROOTINO, FILE);
  }

  lemma BaseSlots(k: nat)
    ensures var s := RootSlots(k);
            && s[0] == Slot(ROOTINO, DOT) && s[1] == Slot(ROOTINO, DOTDOT) && s[2] == Slot(LOST, LOSTFOUND)
            && forall j | 3 <= j < |s| :: s[j] == Slot(FILE, NameOf(j - 3))
  {
  }

  lemma BaseRepairable(k: nat, n: nat)
    requires 1 <= k
    ensures Base(k, n).Shape() && Repairable(Base(k, n)) && LostFoundDir(Base(k, n))
  {
    var t := Base(k, n);
    BaseIs(k, n);
    BaseSlots(k);
    assert LostSlots()[0] == Slot(LOST, DOT) && LostSlots()[1] == Slot(ROOTINO, DOTDOT);
    hide Base, Reachable, RootSlots, NameOf;
    forall d: nat, e | t.IsDir(d) && 0 <= e < |t.dirs[d]| ensures DotRight(t, d, t.dirs[d][e]) {
      if d == ROOTINO && e >= 3 {
        NotDots(e - 3);
      }
    }
    forall d: nat ensures t.IsDir(d) ==> Reachable(t, ROOTINO, d) {
      BaseReached(k, n, d);
    }
    FirstLost(k);
    NoOrphans(k, n);
  }

  lemma FirstLost(k: nat)
    ensures First(RootSlots(k), LOSTFOUND) == LOST
  {
    var s := RootSlots(k);
    assert LOSTFOUND[0] == 'l';
    assert s[1..][1..] == s[2..] && s[1..][0] == s[1] && s[2..][0] == s[2];
    assert First(s[2..], LOSTFOUND) == LOST;
    assert First(s[1..], LOSTFOUND) == LOST;
  }

  lemma NoOrphans(k: nat, n: nat)
    requires 1 <= k
    ensures Orphans(Base(k, n)) == 0 && HungIn(Base(k, n), 17) == []
  {
    hide Base, Reachable;
    var t := Base(k, n);
    forall i: nat | t.InUse(i) ensures Reachable(t, ROOTINO, i) {
      BaseReached(k, n, i);
    }
    var marks := seq(|t.ilist|, i requires 0 <= i < |t.ilist| => Reachable(t, ROOTINO, i) || i == BADBLKINO);
    NonePending(t, marks, ROOTINO + 1);
    NoneHung(t, 17);
  }

  lemma {:induction false} NonePending(t: Tree, marks: seq<bool>, i: nat)
    requires forall j: nat | j < |marks| && t.InUse(j) :: marks[j]
    ensures Pending(t, marks, i) == 0
    decreases |marks| - i
  {
    if i < |marks| {
      NonePending(t, marks, i + 1);
    }
  }

  lemma {:induction false} NoneHung(t: Tree, i: nat)
    requires forall j: nat | t.InUse(j) :: Reachable(t, ROOTINO, j)
    ensures HungIn(t, i) == []
  {
    hide Reachable, Covered;
    if i > 0 {
      NoneHung(t, i - 1);
    }
  }

  lemma BaseOverflows(k: nat, n: nat)
    requires k >= 0x1_0000
    ensures Base(k, n).Shape() && AllHung(Base(k, n)) && !FitsAfter(Base(k, n))
  {
    hide Base, AllLinks, HungIn, RootSlots, LostSlots, Targets, Sum;
    var t := Base(k, n);
    BaseIs(k, n);
    NoOrphans(k, n);
    RootTargets(k);
    AllLinksIs(t);
    SumHas(SlotTargets(t), ROOTINO);
    assert AllLinks(t)[FILE] >= Targets(t.dirs[ROOTINO])[FILE] == k;
    assert Losses(t, []) == multiset{};
  }
}

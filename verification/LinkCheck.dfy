/** The link check: entries against inodes, link counts against entries, and
    connectivity from the root, for any contents of the directories. */
module LinkCheck {
  import opened Multisets
  import opened Names
  import opened NameSteps
  import opened NameTree
  import opened NameRuns
  import opened Reach

  /** What each directory names, every slot of its blocks counted. */
  function SlotTargets(t: Tree): (s: seq<multiset<nat>>)
    ensures |s| == |t.ilist|
  {
    seq(|t.ilist|, d requires 0 <= d < |t.ilist| => SlotTargetsOf(t, d))
  }

  function SlotTargetsOf(t: Tree, d: nat): multiset<nat> {
    if t.IsDir(d) && d < |t.dirs| then Targets(t.dirs[d]) else multiset{}
  }

  function AllLinks(t: Tree): multiset<nat> { Sum(SlotTargets(t)) }

  lemma AllLinksIs(t: Tree)
    ensures AllLinks(t) == Sum(SlotTargets(t)) && |SlotTargets(t)| == |t.ilist|
    ensures forall d: nat | d < |t.ilist| :: SlotTargets(t)[d] == SlotTargetsOf(t, d)
  {
  }

  /** A slot that names nothing, or an allocated inode; "." its own directory. */
  predicate SlotOk(t: Tree, d: nat, x: Slot) {
    x.ino == 0 || (t.InUse(x.ino) && (x.name == DOT ==> x.ino == d))
  }

  predicate SlotsOk(t: Tree, d: nat) {
    t.IsDir(d) && d < |t.dirs| ==> forall k | 0 <= k < |t.dirs[d]| :: SlotOk(t, d, t.dirs[d][k])
  }

  /** The link count the checker holds an inode to: none when it is free. */
  function DiskCount(t: Tree, i: nat): nat
    requires i < |t.ilist|
  {
    if t.InUse(i) then t.ilist[i].nlink else 0
  }

  ghost predicate LinksClean(t: Tree) {
    var modes := forall i: nat | 1 <= i < |t.ilist| :: !t.ilist[i].kind.Invalid?;
    var slots := forall d: nat | 1 <= d < |t.ilist| :: SlotsOk(t, d);
    var counts := forall i: nat | 1 <= i < |t.ilist| :: DiskCount(t, i) == AllLinks(t)[i];
    var joined := forall i: nat | t.InUse(i) && i != BADBLKINO :: Reachable(t, ROOTINO, i);
    modes && slots && counts && joined
  }

  /** What a clean image is, slot by slot and path by path. */
  lemma CleanMeans(t: Tree)
    requires LinksClean(t) && |t.dirs| == |t.ilist|
    ensures forall i: nat | t.InUse(i) && i != 1 :: HasPath(t, 2, i)
    ensures forall i: nat | t.InUse(i) :: t.ilist[i].nlink == AllLinks(t)[i]
    ensures forall i: nat | 1 <= i < |t.ilist| && !t.InUse(i) :: AllLinks(t)[i] == 0
    ensures forall d: nat, k: nat | 1 <= d < |t.dirs| && t.IsDir(d) && k < |t.dirs[d]| && t.dirs[d][k].ino != 0 ::
              var x := t.dirs[d][k];
              t.InUse(x.ino) && (x.name == "." ==> x.ino == d)
  {
    hide AllLinks, HasPath, Reachable;
    forall i: nat | t.InUse(i) && i != 1 ensures HasPath(t, 2, i) {
      ReachableByName(t, ROOTINO, i);
    }
    forall d: nat, k: nat | 1 <= d < |t.dirs| && t.IsDir(d) && k < |t.dirs[d]| && t.dirs[d][k].ino != 0
      ensures var x := t.dirs[d][k];
              t.InUse(x.ino) && (x.name == "." ==> x.ino == d)
    {
      assert SlotsOk(t, d);
    }
  }

  /** The slots below n that hold inode number i. */
  function Naming(s: seq<Slot>, n: nat, i: nat): set<nat> {
    set k: nat | k < n && k < |s| && s[k].ino == i
  }

  /** A run of slots names an inode as often as there are slots with its number. */
  lemma {:induction false} TargetsCount(s: seq<Slot>, n: nat, i: nat)
    requires i != 0 && n <= |s|
    ensures Targets(s[..n])[i] == |Naming(s, n, i)|
  {
    if n == 0 {
      assert Naming(s, 0, i) == {};
    } else {
      TargetsCount(s, n - 1, i);
      assert s[..n][..n - 1] == s[..n - 1];
      SizeMore(Naming(s, n - 1, i), Naming(s, n, i), n - 1, s[n - 1].ino == i);
    }
  }

  /** Slots below n of directory d that name no inode in use. */
  ghost function StraysIn(t: Tree, d: nat, n: nat): set<nat>
    requires d < |t.dirs|
  {
    set k: nat | k < n && k < |t.dirs[d]| && t.dirs[d][k].ino != 0 && !t.InUse(t.dirs[d][k].ino)
  }

  /** Those called ".", with the number of some other inode. */
  ghost function MisdotsIn(t: Tree, d: nat, n: nat): set<nat>
    requires d < |t.dirs|
  {
    set k: nat | k < n && k < |t.dirs[d]|
                 && 1 <= t.dirs[d][k].ino < |t.ilist| && t.dirs[d][k].name == "." && t.dirs[d][k].ino != d
  }

  /** A slot, by its directory and its place there. */
  type Spot = (nat, nat)

  /** The same over all directories below d. */
  ghost function Strays(t: Tree, d: nat): set<Spot> {
    set e: nat, k: nat | e < d && Before(t, d, e) && k in StraysIn(t, e, |t.dirs[e]|) :: (e, k)
  }

  ghost function Misdots(t: Tree, d: nat): set<Spot> {
    set e: nat, k: nat | e < d && Before(t, d, e) && k in MisdotsIn(t, e, |t.dirs[e]|) :: (e, k)
  }

  ghost predicate Before(t: Tree, d: nat, e: nat) { 1 <= e < d && e < |t.dirs| && t.IsDir(e) }

  ghost function SpotsOf(d: nat, s: set<nat>): set<Spot> { set k | k in s :: (d, k) }

  lemma {:induction false} SpotsMore(a: set<Spot>, d: nat, s: set<nat>)
    requires forall p | p in a :: p.0 != d
    ensures |a + SpotsOf(d, s)| == |a| + |s|
    decreases |s|
  {
    if s == {} {
      assert a + SpotsOf(d, s) == a;
    } else {
      var k :| k in s;
      SpotsMore(a, d, s - {k});
      assert a + SpotsOf(d, s) == (a + SpotsOf(d, s - {k})) + {(d, k)};
    }
  }

  lemma SpotsHave(t: Tree, d: nat, p: Spot)
    ensures p in Strays(t, d) <==> Before(t, d, p.0) && p.1 in StraysIn(t, p.0, |t.dirs[p.0]|)
    ensures p in Misdots(t, d) <==> Before(t, d, p.0) && p.1 in MisdotsIn(t, p.0, |t.dirs[p.0]|)
  {
    hide StraysIn, MisdotsIn;
    assert (p.0, p.1) == p;
  }

  /** One more directory looked through. */
  lemma SlotsMore(t: Tree, d: nat)
    requires 1 <= d < |t.dirs|
    ensures t.IsDir(d) ==>
              && |Strays(t, d + 1)| == |Strays(t, d)| + |StraysIn(t, d, |t.dirs[d]|)|
              && |Misdots(t, d + 1)| == |Misdots(t, d)| + |MisdotsIn(t, d, |t.dirs[d]|)|
    ensures !t.IsDir(d) ==> |Strays(t, d + 1)| == |Strays(t, d)| && |Misdots(t, d + 1)| == |Misdots(t, d)|
  {
    hide Strays, Misdots, StraysIn, MisdotsIn;
    var a, b := SpotsOf(d, if t.IsDir(d) then StraysIn(t, d, |t.dirs[d]|) else {}),
                SpotsOf(d, if t.IsDir(d) then MisdotsIn(t, d, |t.dirs[d]|) else {});
    forall p: Spot
      ensures p in Strays(t, d + 1) <==> p in Strays(t, d) + a
      ensures p in Misdots(t, d + 1) <==> p in Misdots(t, d) + b
      ensures p in Strays(t, d) + Misdots(t, d) ==> p.0 != d
    {
      SpotsHave(t, d, p);
      SpotsHave(t, d + 1, p);
      assert (p.0, p.1) == p;
    }
    assert Strays(t, d + 1) == Strays(t, d) + a;
    assert Misdots(t, d + 1) == Misdots(t, d) + b;
    if t.IsDir(d) {
      SpotsMore(Strays(t, d), d, StraysIn(t, d, |t.dirs[d]|));
      SpotsMore(Misdots(t, d), d, MisdotsIn(t, d, |t.dirs[d]|));
    } else {
      assert a == {} && b == {};
    }
  }

  /** One more slot looked at. */
  lemma SlotMore(t: Tree, d: nat, k: nat)
    requires d < |t.dirs| && k < |t.dirs[d]|
    ensures var x := t.dirs[d][k];
            && |StraysIn(t, d, k + 1)| == |StraysIn(t, d, k)| + (if x.ino != 0 && !t.InUse(x.ino) then 1 else 0)
            && |MisdotsIn(t, d, k + 1)|
               == |MisdotsIn(t, d, k)| + if 1 <= x.ino < |t.ilist| && x.name == DOT && x.ino != d then 1 else 0
  {
    var x := t.dirs[d][k];
    SizeMore(StraysIn(t, d, k), StraysIn(t, d, k + 1), k, x.ino != 0 && !t.InUse(x.ino));
    SizeMore(MisdotsIn(t, d, k), MisdotsIn(t, d, k + 1), k, 1 <= x.ino < |t.ilist| && x.name == DOT && x.ino != d);
  }

  lemma NoBadSlot(t: Tree)
    requires |t.dirs| == |t.ilist|
    ensures |Strays(t, |t.ilist|)| + |Misdots(t, |t.ilist|)| == 0 <==>
              forall d: nat | 1 <= d < |t.ilist| :: SlotsOk(t, d)
  {
    var a, b := Strays(t, |t.ilist|), Misdots(t, |t.ilist|);
    if a == {} && b == {} {
      forall d: nat, k: nat | 1 <= d < |t.ilist| && t.IsDir(d) && k < |t.dirs[d]|
        ensures SlotOk(t, d, t.dirs[d][k])
      {
        SpotsHave(t, |t.ilist|, (d, k));
        assert (d, k) !in a && (d, k) !in b;
      }
    } else {
      var p: Spot :| p in a || p in b;
      SpotsHave(t, |t.ilist|, p);
      assert !SlotOk(t, p.0, t.dirs[p.0][p.1]);
      assert 1 <= p.0 < |t.ilist| && !SlotsOk(t, p.0);
      assert a != {} || b != {};
    }
  }

  /** linkcnt holds m for every inode there is. */
  ghost predicate Tallied(linkcnt: array<nat>, m: multiset<nat>)
    reads linkcnt
  {
    forall i: nat | 1 <= i < linkcnt.Length :: linkcnt[i] == m[i]
  }

  /** Phase 4, first half: every entry of one directory. */
  method TallyDir(t: Tree, d: nat, linkcnt: array<nat>, ghost m: multiset<nat>) returns (bad: nat)
    requires |t.dirs| == |t.ilist| == linkcnt.Length && 1 <= d && t.IsDir(d) && Tallied(linkcnt, m)
    modifies linkcnt
    ensures Tallied(linkcnt, m + Targets(t.dirs[d]))
    ensures bad == |StraysIn(t, d, |t.dirs[d]|)| + |MisdotsIn(t, d, |t.dirs[d]|)|
  {
    hide Targets, StraysIn, MisdotsIn;
    NoSlots(t, d);
    ghost var s := t.dirs[d];
    TargetsNone();
    assert s[..0] == [] && m + multiset{} == m;
    bad := 0;
    for k := 0 to |t.dirs[d]|
      invariant Tallied(linkcnt, m + Targets(s[..k]))
      invariant bad == |StraysIn(t, d, k)| + |MisdotsIn(t, d, k)|
    {
      SlotMore(t, d, k);
      var x := t.dirs[d][k];
      assert s[..k + 1] == s[..k] + [x];
      TargetsSnoc(s[..k], x);
      ghost var was := m + Targets(s[..k]);
      assert m + Targets(s[..k + 1]) == was + Target(x);
      if x.ino != 0 {
        if x.ino >= |t.ilist| {
          bad := bad + 1;
        } else {
          linkcnt[x.ino] := linkcnt[x.ino] + 1;
          if !t.InUse(x.ino) {
            bad := bad + 1;
          }
          if x.name == DOT && x.ino != d {
            bad := bad + 1;
          }
        }
      }
      assert Tallied(linkcnt, was + Target(x));
    }
    assert s[..|s|] == s;
  }

  lemma NoSlots(t: Tree, d: nat)
    ensures Strays(t, 1) == {} && Misdots(t, 1) == {}
    ensures d < |t.dirs| ==> StraysIn(t, d, 0) == {} && MisdotsIn(t, d, 0) == {}
  {
  }

  lemma TargetsNone()
    ensures Targets([]) == multiset{}
  {
  }

  /** Phase 4, first half: every entry of every directory. */
  method Tally(t: Tree) returns (linkcnt: array<nat>, bad: nat)
    requires t.Shape()
    ensures fresh(linkcnt) && linkcnt.Length == |t.ilist| && Tallied(linkcnt, AllLinks(t))
    // one for each slot of a directory that names no inode in use, or is a "." astray
    ensures bad == |Strays(t, |t.ilist|)| + |Misdots(t, |t.ilist|)|
    ensures bad == 0 <==> forall d: nat | 1 <= d < |t.ilist| :: SlotsOk(t, d)
  {
    hide AllLinks, SlotTargets, Sum, SlotsOk, SlotTargetsOf, Strays, Misdots, StraysIn, MisdotsIn;
    NoSlots(t, 0);
    NoBadSlot(t);
    linkcnt := new nat[|t.ilist|](_ => 0);
    bad := 0;
    ghost var k := SlotTargets(t);
    AllLinksIs(t);
    NotADir(t, 0);
    FirstSum(k);
    for d := 1 to |t.ilist|
      invariant Tallied(linkcnt, Sum(k[..d]))
      invariant bad == |Strays(t, d)| + |Misdots(t, d)|
    {
      SlotsMore(t, d);
      if t.ilist[d].kind.Dir? {
        ADir(t, d);
        var b := TallyDir(t, d, linkcnt, Sum(k[..d]));
        bad := bad + b;
      } else {
        NotADir(t, d);
        assert Sum(k[..d]) + multiset{} == Sum(k[..d]);
      }
      assert k[..d + 1] == k[..d] + [k[d]];
      SumSnoc(k[..d], k[d]);
    }
    assert k[..|k|] == k;
  }

  lemma FirstSum(k: seq<multiset<nat>>)
    requires |k| > 0 && k[0] == multiset{}
    ensures Sum(k[..1]) == multiset{}
  {
    assert k[..1] == [] + [k[0]];
    SumSnoc([], k[0]);
  }

  lemma NotADir(t: Tree, d: nat)
    requires d < |t.ilist| && !t.IsDir(d)
    ensures SlotTargetsOf(t, d) == multiset{} && SlotsOk(t, d)
  {
  }

  lemma ADir(t: Tree, d: nat)
    requires |t.dirs| == |t.ilist| && t.IsDir(d)
    ensures SlotTargetsOf(t, d) == Targets(t.dirs[d])
  {
  }

  ghost function BadModes(t: Tree, n: nat): set<nat> {
    set i: nat | 1 <= i < n && i < |t.ilist| && t.ilist[i].kind.Invalid?
  }

  /** Inodes whose count on disk is not their number of entries. */
  ghost function BadCounts(t: Tree, n: nat, m: multiset<nat>): set<nat> {
    set i: nat | 1 <= i < n && i < |t.ilist| && DiskCount(t, i) != m[i]
  }

  ghost function NotReached(t: Tree, n: nat, reached: seq<bool>): set<nat> {
    set i: nat | 1 <= i < n && i < |reached| && t.InUse(i) && !reached[i]
  }

  /** Phase 1 with links wanted: file types. */
  method CheckModes(t: Tree) returns (bad: nat)
    ensures bad == |BadModes(t, |t.ilist|)|
  {
    bad := 0;
    var i := 1;
    assert BadModes(t, 1) == {};
    while i < |t.ilist|
      invariant 1 <= i && (i <= |t.ilist| || BadModes(t, i) == BadModes(t, |t.ilist|))
      invariant bad == |BadModes(t, i)|
    {
      SizeMore(BadModes(t, i), BadModes(t, i + 1), i, t.ilist[i].kind.Invalid?);
      if t.ilist[i].kind.Invalid? {
        bad := bad + 1;
      }
      i := i + 1;
    }
  }

  /** Phase 4, second half: counts on disk against entries found. */
  method CheckCounts(t: Tree, linkcnt: array<nat>, ghost m: multiset<nat>) returns (bad: nat)
    requires linkcnt.Length == |t.ilist| && Tallied(linkcnt, m)
    ensures bad == |BadCounts(t, |t.ilist|, m)|
  {
    bad := 0;
    var i := 1;
    assert BadCounts(t, 1, m) == {};
    while i < |t.ilist|
      invariant 1 <= i && (i <= |t.ilist| || BadCounts(t, i, m) == BadCounts(t, |t.ilist|, m))
      invariant bad == |BadCounts(t, i, m)|
    {
      SizeMore(BadCounts(t, i, m), BadCounts(t, i + 1, m), i, DiskCount(t, i) != m[i]);
      if linkcnt[i] != DiskCount(t, i) {
        bad := bad + 1;
      }
      i := i + 1;
    }
  }

  /** Phase 3: mark what the root reaches, then look for allocated inodes left out;
      inode 1 is exempt. */
  method MarkFromRoot(t: Tree) returns (reached: array<bool>)
    requires t.Shape()
    ensures fresh(reached) && reached.Length == |t.ilist|
    ensures forall i: nat | i < |t.ilist| :: reached[i] <==> Reachable(t, ROOTINO, i) || i == BADBLKINO
    ensures forall i: nat | i < |t.ilist| && reached[i] && i != BADBLKINO ::
              ReachIn(t, reached[..], ROOTINO, i)
  {
    hide Reachable, Closed, Spread, ReachIn;
    reached := new bool[|t.ilist|](_ => false);
    ghost var s := reached[..];
    NothingMarked(t, s);
    MarkReached(t, ROOTINO, reached);
    ghost var u := reached[..];
    SpreadExact(t, ROOTINO, s, u);
    assert forall i: nat | i < |t.ilist| :: reached[i] == u[i] && !s[i];
    reached[BADBLKINO] := true;
    forall i: nat | i < |t.ilist| && reached[i] && i != BADBLKINO
      ensures ReachIn(t, reached[..], ROOTINO, i)
    {
      FirstMarks(t, s, u, i);
      ReachInMore(t, u, t, reached[..], ROOTINO, i);
    }
  }

  lemma FirstMarks(t: Tree, s: seq<bool>, u: seq<bool>, i: nat)
    requires Spread(t, ROOTINO, s, u) && i < |s| && u[i] && !s[i]
    ensures ReachIn(t, u, ROOTINO, i)
  {
    hide ReachIn, Edge;
    ReachInMore(t, Newly(s, u), t, u, ROOTINO, i);
  }

  lemma NothingMarked(t: Tree, s: seq<bool>)
    requires forall i | 0 <= i < |s| :: !s[i]
    ensures Closed(t, s)
  {
  }

  method CheckOrphans(t: Tree, reached: array<bool>) returns (orphans: nat)
    requires reached.Length == |t.ilist|
    ensures orphans == |NotReached(t, |t.ilist|, reached[..])|
  {
    ghost var marks := reached[..];
    orphans := 0;
    var i := 1;
    assert NotReached(t, 1, marks) == {};
    while i < |t.ilist|
      invariant 1 <= i && (i <= |t.ilist| || NotReached(t, i, marks) == NotReached(t, |t.ilist|, marks))
      invariant orphans == |NotReached(t, i, marks)|
    {
      SizeMore(NotReached(t, i, marks), NotReached(t, i + 1, marks), i, t.InUse(i) && !reached[i]);
      if t.InUse(i) && !reached[i] {
        orphans := orphans + 1;
      }
      i := i + 1;
    }
  }

  /** What is counted: an error for each inode with a mode that is none, for each slot
      astray, one for all wrong counts together, and one for all orphans. */
  ghost function LinkErrors(t: Tree): nat {
    var n := |t.ilist|;
    var slots := |Strays(t, n)| + |Misdots(t, n)|;
    var wrong := exists i: nat :: 1 <= i < n && DiskCount(t, i) != AllLinks(t)[i];
    var lost := exists i: nat :: t.InUse(i) && i != BADBLKINO && !Reachable(t, ROOTINO, i);
    |BadModes(t, n)| + slots + (if wrong then 1 else 0) + if lost then 1 else 0
  }

  /** The link check of dcheck and fsck: it finds nothing exactly on clean images. */
  method CheckLinks(t: Tree) returns (errors: nat)
    requires t.Shape()
    ensures errors == LinkErrors(t)
    ensures errors == 0 <==> LinksClean(t)
  {
    hide Reachable, AllLinks, SlotsOk, DiskCount, Strays, Misdots;
    var modes := CheckModes(t);
    var linkcnt, slots := Tally(t);
    var counts := CheckCounts(t, linkcnt, AllLinks(t));
    var reached := MarkFromRoot(t);
    var orphans := CheckOrphans(t, reached);
    errors := modes + slots + (if counts != 0 then 1 else 0) + if orphans != 0 then 1 else 0;
    NoneBad(t, reached[..]);
  }

  lemma NoneBad(t: Tree, marks: seq<bool>)
    requires |marks| == |t.ilist|
    ensures |BadModes(t, |t.ilist|)| == 0 <==> forall i: nat | 1 <= i < |t.ilist| :: !t.ilist[i].kind.Invalid?
    ensures |BadCounts(t, |t.ilist|, AllLinks(t))| == 0 <==>
              forall i: nat | 1 <= i < |t.ilist| :: DiskCount(t, i) == AllLinks(t)[i]
    ensures |NotReached(t, |t.ilist|, marks)| == 0 <==> forall i: nat | t.InUse(i) :: marks[i]
  {
    hide AllLinks, DiskCount;
    var n := |t.ilist|;
    var a, b, c := BadModes(t, n), BadCounts(t, n, AllLinks(t)), NotReached(t, n, marks);
    assert |a| == 0 <==> a == {};
    assert |b| == 0 <==> b == {};
    assert |c| == 0 <==> c == {};
    assert forall i: nat :: i in a <==> 1 <= i < n && t.ilist[i].kind.Invalid?;
    assert forall i: nat :: i in b <==> 1 <= i < n && DiskCount(t, i) != AllLinks(t)[i];
    assert forall i: nat :: i in c <==> t.InUse(i) && !marks[i];
  }

  // ----- what the operations keep is what the checker asks for

  lemma {:induction false} ClimbReaches(t: Tree, d: nat, n: nat)
    requires Structured(t) && Climbs(t, d, n)
    ensures Reachable(t, ROOTINO, d)
    decreases n
  {
    hide Structured, Edge, Leads, Reachable, Up;
    if n == 0 {
      Itself(t, d);
    } else {
      ClimbReaches(t, Up(t, d), n - 1);
      UpEdge(t, d);
      StepLast(t, ROOTINO, Up(t, d), d);
    }
  }

  lemma UpEdge(t: Tree, d: nat)
    requires Structured(t) && t.IsDir(d) && d != ROOTINO
    ensures Edge(t, Up(t, d), d)
  {
    hide WellFormed, Edge, Refers, Up;
    var m :| !IsDot(m) && Refers(t, Up(t, d), m, d);
    EntryEdge(t, Up(t, d), m, d);
  }

  lemma EntryEdge(t: Tree, p: nat, m: string, c: nat)
    requires t.Shape() && NoDangling(t) && Refers(t, p, m, c) && !IsDot(m)
    ensures Edge(t, p, c)
  {
    var s := t.Ents(p);
    var k :| 0 <= k < |s| && s[k] == Slot(c, m);
    assert t.dirs[p][k] == Slot(c, m);
    assert t.InUse(c);
  }

  /** Free slots past the size count for nothing. */
  lemma {:induction false} TargetsFree(s: seq<Slot>, live: nat)
    requires live <= |s| && AllFree(s[live..])
    ensures Targets(s) == Targets(s[..live])
    decreases |s|
  {
    if live < |s| {
      var m, n := s[..|s| - 1], |s| - 1;
      assert s[n] == s[live..][n - live];
      assert m[..live] == s[..live];
      forall k | 0 <= k < |m[live..]| ensures m[live..][k].ino == 0 {
        assert m[live..][k] == s[live..][k];
      }
      TargetsFree(m, live);
      assert Targets(s) == Targets(m) + multiset{};
    } else {
      assert s[..live] == s;
    }
  }

  lemma LinksAgree(t: Tree)
    requires t.Shape() && WellFormedDirs(t)
    ensures AllLinks(t) == Links(t)
  {
    hide Targets, Sum, Unique;
    AllLinksIs(t);
    TargetsAt(t);
    SumOf(t);
    forall d: nat | d < |t.ilist| ensures SlotTargets(t)[d] == DirTargets(t)[d] {
      if t.IsDir(d) {
        assert WellFormed(t, d);
        TargetsFree(t.dirs[d], t.ilist[d].live);
      } else {
        NotADir(t, d);
        NoEntries(t, d);
      }
    }
    assert SlotTargets(t) == DirTargets(t);
  }

  /** An image whose namespace is consistent passes the link check: the checker finds
      nothing after any history of operations. */
  lemma ConsistentIsClean(t: Tree)
    requires Consistent(t) && forall i: nat | 1 <= i < |t.ilist| :: !t.ilist[i].kind.Invalid?
    ensures LinksClean(t)
  {
    hide Links, AllLinks, Reachable, OneParent, Rooted, Unique;
    LinksAgree(t);
    forall i: nat | 1 <= i < |t.ilist| ensures DiskCount(t, i) == AllLinks(t)[i] {
      if !t.InUse(i) {
        Unnamed(t, i);
      }
    }
    forall d: nat | 1 <= d < |t.ilist| ensures SlotsOk(t, d) {
      FormedSlots(t, d);
    }
    forall i: nat | t.InUse(i) && i != BADBLKINO ensures Reachable(t, ROOTINO, i) {
      InUseReached(t, i);
    }
  }

  lemma FormedSlots(t: Tree, d: nat)
    requires t.Shape() && WellFormedDirs(t) && NoDangling(t)
    ensures SlotsOk(t, d)
  {
    hide Has;
    if t.IsDir(d) {
      assert WellFormed(t, d);
      forall k | 0 <= k < |t.dirs[d]| ensures SlotOk(t, d, t.dirs[d][k]) {
        var x, live := t.dirs[d][k], t.ilist[d].live;
        if live <= k {
          assert x == t.dirs[d][live..][k - live];
        } else {
          SlotRefers(t, d, k);
          if x.ino != 0 && x.name == DOT {
            DotOf(t, d, DOT, x.ino);
          }
        }
      }
    }
  }

  lemma SlotRefers(t: Tree, d: nat, k: nat)
    requires t.Shape() && t.IsDir(d) && k < t.ilist[d].live
    ensures var x := t.dirs[d][k]; x.ino != 0 ==> Refers(t, d, x.name, x.ino)
  {
    var x := t.dirs[d][k];
    assert t.Ents(d)[k] == Slot(x.ino, x.name);
  }

  lemma InUseReached(t: Tree, i: nat)
    requires Consistent(t) && t.InUse(i) && i != BADBLKINO
    ensures Reachable(t, ROOTINO, i)
  {
    hide Links, Reachable, WellFormedDirs, OneParent, Climbs;
    if t.IsDir(i) {
      var n: nat :| Climbs(t, i, n);
      ClimbReaches(t, i, n);
    } else {
      LinkWitness(t, i);
      var d: nat, m :| Refers(t, d, m, i);
      RefersDir(t, d, m, i);
      if IsDot(m) {
        DotNames(t, d, m, i);
      }
      var n: nat :| Climbs(t, d, n);
      ClimbReaches(t, d, n);
      EntryEdge(t, d, m, i);
      StepLast(t, ROOTINO, d, i);
    }
  }

  /** "." and ".." name directories. */
  lemma DotNames(t: Tree, d: nat, m: string, i: nat)
    requires Structured(t) && Refers(t, d, m, i) && IsDot(m)
    ensures t.IsDir(i)
  {
    hide Refers, WellFormedDirs, Up, NoDangling, Climbs;
    RefersDir(t, d, m, i);
    DotOf(t, d, m, i);
    RootIsDir(t);
  }
}

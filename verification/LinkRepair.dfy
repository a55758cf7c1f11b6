/** The repair of links: entries that name nothing are cleared, orphans are hung into
    lost+found, and every link count is made to agree. */
module LinkRepair {
  import opened Multisets
  import opened Names
  import opened Reach
  import opened LinkCheck

  /** Decimal digits. */
  function Decimal(n: nat): (s: string)
    ensures s != []
  {
    (if n < 10 then "" else Decimal(n / 10)) + [['0', '1', '2', '3', '4', '5', '6', '7', '8', '9'][n % 10]]
  }

  /** The name an orphan gets, cut to what a slot can hold. */
  function OrphanName(ino: nat): (s: string)
    ensures 0 < |s| <= DIRSIZ && !IsDot(s)
  {
    var s := "#" + Decimal(ino);
    assert s[0] == '#';
    if |s| > DIRSIZ then s[..DIRSIZ] else s
  }

  /** A slot that does not name an allocated inode can be had for another use. */
  function Spare(t: Tree, s: seq<Slot>): nat {
    if s == [] then 0
    else Spare(t, s[..|s| - 1]) + if t.InUse(s[|s| - 1].ino) then 0 else 1
  }

  /** Allocated inodes from i on that are not marked. */
  function Pending(t: Tree, marks: seq<bool>, i: nat): nat
    decreases |marks| - i
  {
    if i >= |marks| then 0
    else Pending(t, marks, i + 1) + if t.InUse(i) && !marks[i] then 1 else 0
  }

  /** The slots that can be had, and the inodes still to be hung, one by one. */
  ghost function SpareSlots(t: Tree, s: seq<Slot>): set<nat> { set k: nat | k < |s| && !t.InUse(s[k].ino) }

  ghost function PendingInodes(t: Tree, marks: seq<bool>, i: nat): set<nat> {
    set j: nat | i <= j < |marks| && t.InUse(j) && !marks[j]
  }

  /** In use, not inode 1, and not to be reached from the root. */
  ghost function OrphanInodes(t: Tree): set<nat> {
    set i: nat | i < |t.ilist| && t.InUse(i) && i != 1 && !Reachable(t, 2, i)
  }

  lemma {:induction false} SpareCount(t: Tree, s: seq<Slot>)
    ensures Spare(t, s) == |SpareSlots(t, s)|
  {
    if s == [] {
      assert SpareSlots(t, s) == {};
    } else {
      var n := |s| - 1;
      SpareCount(t, s[..n]);
      SizeMore(SpareSlots(t, s[..n]), SpareSlots(t, s), n, !t.InUse(s[n].ino));
    }
  }

  lemma {:induction false} PendingCount(t: Tree, marks: seq<bool>, i: nat)
    ensures Pending(t, marks, i) == |PendingInodes(t, marks, i)|
    decreases |marks| - i
  {
    if i >= |marks| {
      assert PendingInodes(t, marks, i) == {};
    } else {
      PendingCount(t, marks, i + 1);
      SizeMore(PendingInodes(t, marks, i + 1), PendingInodes(t, marks, i), i, t.InUse(i) && !marks[i]);
    }
  }

  lemma OrphansCount(t: Tree)
    ensures Orphans(t) == |OrphanInodes(t)|
  {
    hide Reachable, Pending;
    var marks := seq(|t.ilist|, i requires 0 <= i < |t.ilist| => Reachable(t, ROOTINO, i) || i == BADBLKINO);
    PendingCount(t, marks, ROOTINO + 1);
    Itself(t, ROOTINO);
    assert OrphanInodes(t) == PendingInodes(t, marks, ROOTINO + 1);
  }

  lemma {:induction false} PendingMono(t: Tree, s: seq<bool>, u: seq<bool>, i: nat)
    requires |s| == |u| && forall j | 0 <= j < |s| && s[j] :: u[j]
    ensures Pending(t, u, i) <= Pending(t, s, i)
    decreases |s| - i
  {
    if i < |s| {
      PendingMono(t, s, u, i + 1);
    }
  }

  lemma {:induction false} SpareUpdate(t: Tree, s: seq<Slot>, k: nat, x: Slot)
    requires k < |s| && !t.InUse(s[k].ino) && t.InUse(x.ino)
    ensures Spare(t, s[k := x]) + 1 == Spare(t, s)
  {
    var n := |s| - 1;
    if k < n {
      SpareUpdate(t, s[..n], k, x);
      assert s[k := x][..n] == s[..n][k := x];
    } else {
      assert s[k := x][..n] == s[..n];
    }
  }

  lemma {:induction false} SpareNone(t: Tree, s: seq<Slot>)
    requires forall k | 0 <= k < |s| :: t.InUse(s[k].ino)
    ensures Spare(t, s) == 0
  {
    if s != [] {
      SpareNone(t, s[..|s| - 1]);
    }
  }

  lemma {:induction false} SpareSame(t: Tree, s: seq<Slot>, t': Tree, s': seq<Slot>)
    requires |s| == |s'| && forall k | 0 <= k < |s| :: t'.InUse(s'[k].ino) == t.InUse(s[k].ino)
    ensures Spare(t', s') == Spare(t, s)
  {
    if s != [] {
      SpareSame(t, s[..|s| - 1], t', s'[..|s'| - 1]);
    }
  }

  /** t' has the inodes of t, apart from link counts, and directories of the same sizes. */
  ghost predicate SameInodes(t: Tree, t': Tree) {
    && |t'.ilist| == |t.ilist| && |t'.dirs| == |t.dirs|
    && (forall i | 0 <= i < |t.ilist| ::
          t'.ilist[i].kind == t.ilist[i].kind && t'.ilist[i].live == t.ilist[i].live)
    && (forall d | 0 <= d < |t.dirs| :: |t'.dirs[d]| == |t.dirs[d]|)
  }

  lemma SameInodesMore(a: Tree, b: Tree, c: Tree)
    requires SameInodes(a, b) && SameInodes(b, c)
    ensures SameInodes(a, c)
  {
  }

  /** Every slot of every directory names an allocated inode or nothing, and every "."
      its own directory. */
  ghost predicate Sound(t: Tree) {
    forall d: nat | 1 <= d < |t.ilist| :: SlotsOk(t, d)
  }

  /** What the repair needs of an image: known file types, "." entries that are right
      where they name anything, and ".." in its place in directories cut off. */
  ghost predicate Repairable(t: Tree) {
    && t.Shape()
    && (forall i: nat | 1 <= i < |t.ilist| :: !t.ilist[i].kind.Invalid?)
    && (forall d: nat, k | t.IsDir(d) && 0 <= k < |t.dirs[d]| :: DotRight(t, d, t.dirs[d][k]))
    && (forall d: nat | t.IsDir(d) && !Reachable(t, ROOTINO, d) :: SecondNotDot(t, d))
  }

  predicate DotRight(t: Tree, d: nat, x: Slot) {
    x.name == DOT && t.InUse(x.ino) ==> x.ino == d
  }

  predicate SecondNotDot(t: Tree, d: nat)
    requires d < |t.dirs|
  {
    |t.dirs[d]| >= 2 ==> t.dirs[d][1].name != DOT
  }

  /** Number of allocated inodes the root does not reach. */
  ghost function Orphans(t: Tree): nat {
    Pending(t, seq(|t.ilist|, i requires 0 <= i < |t.ilist| => Reachable(t, ROOTINO, i) || i == BADBLKINO),
            ROOTINO + 1)
  }

  /** Slot x, cleared if it names nothing allocated. */
  function Zapped(t: Tree, x: Slot): Slot {
    if x.ino != 0 && !t.InUse(x.ino) then Slot(0, x.name) else x
  }

  /** One slot of directory d rewritten. */
  function WithSlot(t: Tree, d: nat, k: nat, x: Slot): Tree
    requires d < |t.dirs| && k < |t.dirs[d]|
  {
    t.(dirs := t.dirs[d := t.dirs[d][k := x]])
  }

  lemma LinksSlot(t: Tree, d: nat, k: nat, x: Slot)
    requires t.Shape() && t.IsDir(d) && k < |t.dirs[d]|
    ensures AllLinks(WithSlot(t, d, k, x)) + Target(t.dirs[d][k]) == AllLinks(t) + Target(x)
  {
    hide Targets, AllLinks, Sum;
    var t' := WithSlot(t, d, k, x);
    var a, b := SlotTargets(t), SlotTargets(t');
    AllLinksIs(t);
    AllLinksIs(t');
    TargetsUpdate(t.dirs[d], k, x);
    SumUpdate(a, d, b[d]);
    assert b == a[d := b[d]];
    var y, y' := Target(t.dirs[d][k]), Target(x);
    assert (Sum(b) + y) + a[d] == (Sum(b) + a[d]) + y == Sum(a) + (b[d] + y)
        == Sum(a) + (a[d] + y') == (Sum(a) + y') + a[d];
    assert Sum(b) + y == ((Sum(b) + y) + a[d]) - a[d] == ((Sum(a) + y') + a[d]) - a[d] == Sum(a) + y';
  }

  /** Where the reconnection stands when it comes to inode i: z is the image it started
      from, n orphans have been hung in so far. */
  ghost predicate Joining(z: Tree, t: Tree, lf: nat, marks: seq<bool>, i: nat, n: nat) {
    var shaped := t.Shape() && SameInodes(z, t) && Sound(t) && |marks| == |t.ilist|;
    var home := lf < |marks| && t.IsDir(lf) && ROOTINO < |marks| && marks[ROOTINO] && marks[lf]
      && ReachIn(t, marks, ROOTINO, lf);
    var ways := forall j: nat | j < |marks| && marks[j] && t.InUse(j) && j != BADBLKINO ::
      ReachIn(t, marks, ROOTINO, j);
    var done := forall j: nat | ROOTINO < j < i && t.InUse(j) :: j < |marks| && marks[j];
    var left := shaped && home && Spare(t, t.Ents(lf)) + n == Spare(z, z.Ents(lf));
    var rest := forall d: nat | d < |t.dirs| && d < |z.dirs| && d < |marks| && !marks[d] :: t.dirs[d] == z.dirs[d];
    var counts := forall x: nat :: AllLinks(t)[x] <= AllLinks(z)[x] + n;
    left && ways && done && rest && counts
  }

  /** The two writes that hang orphan i into slot k of lf. */
  function Hung(t: Tree, lf: nat, k: nat, i: nat): Tree
    requires lf < |t.dirs| && k < |t.dirs[lf]| && i < |t.dirs|
  {
    var t1 := WithSlot(t, lf, k, Slot(i, OrphanName(i)));
    if t.IsDir(i) && |t1.dirs[i]| >= 2 then WithSlot(t1, i, 1, Slot(lf, t1.dirs[i][1].name)) else t1
  }

  lemma HungShape(t: Tree, lf: nat, k: nat, i: nat)
    requires t.Shape() && t.IsDir(lf) && k < |t.dirs[lf]| && i < |t.ilist| && i != lf
    ensures var t2 := Hung(t, lf, k, i);
            t2.Shape() && SameInodes(t, t2) && forall j: nat :: t2.InUse(j) == t.InUse(j)
    ensures var t2 := Hung(t, lf, k, i);
            t2.dirs[lf] == t.dirs[lf][k := Slot(i, OrphanName(i))]
            && forall d: nat | d < |t.dirs| && d != lf && d != i :: t2.dirs[d] == t.dirs[d]
  {
    hide OrphanName;
  }

  lemma HungSound(t: Tree, lf: nat, k: nat, i: nat)
    requires t.Shape() && t.IsDir(lf) && k < |t.dirs[lf]| && t.InUse(i) && i != lf
    requires Sound(t) && (t.IsDir(i) ==> SecondNotDot(t, i))
    ensures Sound(Hung(t, lf, k, i))
  {
    hide OrphanName;
    var t2 := Hung(t, lf, k, i);
    HungShape(t, lf, k, i);
    forall d: nat | 1 <= d < |t2.ilist| ensures SlotsOk(t2, d) {
      assert SlotsOk(t, d);
      if t2.IsDir(d) {
        forall e | 0 <= e < |t2.dirs[d]| ensures SlotOk(t2, d, t2.dirs[d][e]) {
          assert d != lf && d != i ==> t2.dirs[d][e] == t.dirs[d][e];
          assert SlotOk(t, d, t.dirs[d][e]);
        }
      }
    }
  }

  lemma HungEdges(t: Tree, lf: nat, k: nat, i: nat, x: nat, y: nat)
    requires t.Shape() && t.IsDir(lf) && k < |t.dirs[lf]| && t.InUse(i) && i != lf
    requires t.dirs[lf][k].ino == 0 && x != i && Edge(t, x, y)
    ensures Edge(Hung(t, lf, k, i), x, y)
  {
    hide OrphanName;
    HungShape(t, lf, k, i);
    var e :| 0 <= e < |t.dirs[x]| && t.dirs[x][e].ino == y && !IsDot(t.dirs[x][e].name);
    assert Hung(t, lf, k, i).dirs[x][e] == t.dirs[x][e];
  }

  lemma HungNew(t: Tree, lf: nat, k: nat, i: nat)
    requires t.Shape() && t.IsDir(lf) && k < |t.dirs[lf]| && t.InUse(i) && i != lf
    ensures Edge(Hung(t, lf, k, i), lf, i)
  {
    HungShape(t, lf, k, i);
    assert Hung(t, lf, k, i).dirs[lf][k] == Slot(i, OrphanName(i));
  }

  lemma HungLinks(t: Tree, lf: nat, k: nat, i: nat)
    requires t.Shape() && t.IsDir(lf) && k < |t.dirs[lf]| && i < |t.ilist| && i != lf
    ensures forall x: nat :: AllLinks(Hung(t, lf, k, i))[x] <= AllLinks(t)[x] + 1
  {
    hide AllLinks, OrphanName;
    var x1 := Slot(i, OrphanName(i));
    var t1 := WithSlot(t, lf, k, x1);
    LinksSlot(t, lf, k, x1);
    var a, b := AllLinks(t), AllLinks(t1);
    forall x: nat ensures b[x] <= a[x] + Target(x1)[x] {
      assert (b + Target(t.dirs[lf][k]))[x] == (a + Target(x1))[x];
    }
    if t.IsDir(i) && |t1.dirs[i]| >= 2 {
      var x2 := Slot(lf, t1.dirs[i][1].name);
      var t2 := WithSlot(t1, i, 1, x2);
      LinksSlot(t1, i, 1, x2);
      var c := AllLinks(t2);
      forall x: nat ensures c[x] <= b[x] + Target(x2)[x] {
        assert (c + Target(t1.dirs[i][1]))[x] == (b + Target(x2))[x];
      }
    }
  }

  /** One orphan hung in, and everything below it marked. */
  lemma JoinStep(z: Tree, t: Tree, lf: nat, marks: seq<bool>, i: nat, n: nat, k: nat, marks': seq<bool>)
    requires Joining(z, t, lf, marks, i, n) && ROOTINO < i < |marks| && t.InUse(i) && !marks[i]
    requires k < t.ilist[lf].live && t.dirs[lf][k].ino == 0
    requires z.IsDir(i) ==> SecondNotDot(z, i)
    requires Spread(Hung(t, lf, k, i), i, marks, marks') && marks'[i]
    ensures Joining(z, Hung(t, lf, k, i), lf, marks', i + 1, n + 1)
    ensures Pending(Hung(t, lf, k, i), marks', i + 1) < Pending(t, marks, i)
  {
    var t2 := Hung(t, lf, k, i);
    hide Hung, Sound, AllLinks, ReachIn, Edge, Spare, Pending, OrphanName;
    HungShape(t, lf, k, i);
    SameInodesMore(z, t, t2);
    HungSound(t, lf, k, i);
    HungLinks(t, lf, k, i);
    JoinWays(t, lf, marks, i, k, marks');
    JoinLeft(t, lf, marks, i, k, marks');
  }

  lemma JoinWays(t: Tree, lf: nat, marks: seq<bool>, i: nat, k: nat, marks': seq<bool>)
    requires t.Shape() && |marks| == |t.ilist| && t.InUse(i) && i < |marks| && !marks[i] && i != lf
    requires t.IsDir(lf) && lf < |marks| && marks[lf] && ReachIn(t, marks, ROOTINO, lf)
    requires k < |t.dirs[lf]| && t.dirs[lf][k].ino == 0
    requires forall j: nat | j < |marks| && marks[j] && t.InUse(j) && j != BADBLKINO ::
               ReachIn(t, marks, ROOTINO, j)
    requires Spread(Hung(t, lf, k, i), i, marks, marks') && marks'[i]
    ensures var t2 := Hung(t, lf, k, i);
            ReachIn(t2, marks', ROOTINO, lf)
            && forall j: nat | j < |marks'| && marks'[j] && t.InUse(j) && j != BADBLKINO ::
                 ReachIn(t2, marks', ROOTINO, j)
  {
    var t2 := Hung(t, lf, k, i);
    hide Hung, ReachIn, Edge;
    forall x: nat, y: nat | x < |marks| && marks[x] && Edge(t, x, y) ensures Edge(t2, x, y) {
      HungEdges(t, lf, k, i, x, y);
    }
    HungNew(t, lf, k, i);
    ReachInMore(t, marks, t2, marks', ROOTINO, lf);
    forall j: nat | j < |marks'| && marks'[j] && t.InUse(j) && j != BADBLKINO
      ensures ReachIn(t2, marks', ROOTINO, j)
    {
      if marks[j] {
        ReachInMore(t, marks, t2, marks', ROOTINO, j);
      } else {
        ReachInMore(t2, Newly(marks, marks'), t2, marks', i, j);
        ReachInFirst(t2, marks', lf, i, j);
        ReachInJoin(t2, marks', ROOTINO, lf, j);
      }
    }
  }

  lemma JoinLeft(t: Tree, lf: nat, marks: seq<bool>, i: nat, k: nat, marks': seq<bool>)
    requires t.Shape() && |marks| == |t.ilist| == |marks'| && t.InUse(i) && i < |marks| && !marks[i] && i != lf
    requires t.IsDir(lf) && k < t.ilist[lf].live && t.dirs[lf][k].ino == 0
    requires forall j | 0 <= j < |marks| && marks[j] :: marks'[j]
    ensures var t2 := Hung(t, lf, k, i);
            Spare(t2, t2.Ents(lf)) + 1 == Spare(t, t.Ents(lf))
            && Pending(t2, marks', i + 1) < Pending(t, marks, i)
  {
    hide *;
    HungEnts(t, lf, k, i);
    var t2, x := Hung(t, lf, k, i), Slot(i, OrphanName(i));
    HangSpare(t, t.Ents(lf), k, x, t2);
    PendingFirst(t, marks, i);
    PendingMono(t, marks, marks', i + 1);
    PendingSame(t, t2, marks', i + 1);
  }

  lemma HungEnts(t: Tree, lf: nat, k: nat, i: nat)
    requires t.Shape() && t.IsDir(lf) && k < t.ilist[lf].live && t.InUse(i) && i != lf
    requires t.dirs[lf][k].ino == 0
    ensures lf < |t.dirs| && k < |t.dirs[lf]| && i < |t.dirs|
    ensures var t2, x := Hung(t, lf, k, i), Slot(i, OrphanName(i));
            && t2.Ents(lf) == t.Ents(lf)[k := x]
            && forall j: nat :: t2.InUse(j) == t.InUse(j)
    ensures k < |t.Ents(lf)| && t.Ents(lf)[k].ino == 0
  {
    hide OrphanName, Hung;
    HungShape(t, lf, k, i);
  }

  lemma HangSpare(t: Tree, s: seq<Slot>, k: nat, x: Slot, t2: Tree)
    requires k < |s| && s[k].ino == 0 && t.InUse(x.ino)
    requires forall j: nat :: t2.InUse(j) == t.InUse(j)
    ensures Spare(t2, s[k := x]) + 1 == Spare(t, s)
  {
    hide Spare;
    SpareUpdate(t, s, k, x);
    SpareSame(t, s[k := x], t2, s[k := x]);
  }

  lemma PendingFirst(t: Tree, marks: seq<bool>, i: nat)
    requires i < |marks| && t.InUse(i) && !marks[i]
    ensures Pending(t, marks, i) == Pending(t, marks, i + 1) + 1
  {
  }

  lemma {:induction false} PendingSame(t: Tree, t': Tree, marks: seq<bool>, i: nat)
    requires forall j: nat :: t'.InUse(j) == t.InUse(j)
    ensures Pending(t', marks, i) == Pending(t, marks, i)
    decreases |marks| - i
  {
    if i < |marks| {
      PendingSame(t, t', marks, i + 1);
    }
  }

  /** An inode already marked, or free, is passed over. */
  lemma JoinSkip(z: Tree, t: Tree, lf: nat, marks: seq<bool>, i: nat, n: nat)
    requires Joining(z, t, lf, marks, i, n) && i < |marks| && (!t.InUse(i) || marks[i])
    ensures Joining(z, t, lf, marks, i + 1, n)
    ensures Pending(t, marks, i + 1) <= Pending(t, marks, i)
  {
    hide Sound, AllLinks, ReachIn, Spare, SameInodes;
  }

  lemma JoiningShape(z: Tree, t: Tree, lf: nat, marks: seq<bool>, i: nat, n: nat)
    requires Joining(z, t, lf, marks, i, n)
    ensures t.Shape() && SameInodes(z, t) && |marks| == |t.ilist| && t.IsDir(lf)
    ensures lf < |marks| && marks[lf]
  {
    hide ReachIn, AllLinks, Sound, Spare, Pending;
  }

  /** With no free slot below its size lf has nothing to spare. */
  lemma NoneSpare(z: Tree, t: Tree, lf: nat, marks: seq<bool>, i: nat, n: nat)
    requires Joining(z, t, lf, marks, i, n)
    requires forall k | 0 <= k < t.ilist[lf].live && k < |t.dirs[lf]| :: t.dirs[lf][k].ino != 0
    ensures n == Spare(z, z.Ents(lf))
  {
    hide ReachIn, AllLinks, Spare;
    var s := t.Ents(lf);
    assert SlotsOk(t, lf);
    forall k | 0 <= k < |s| ensures t.InUse(s[k].ino) {
      assert SlotOk(t, lf, t.dirs[lf][k]);
    }
    SpareNone(t, s);
  }

  // ----- from the image as found to the image with dangling entries cleared

  /** z is t with its dangling entries cleared. */
  ghost predicate Cleared(t: Tree, z: Tree) {
    var same := z.Shape() && SameInodes(t, z) && z.ilist == t.ilist;
    var zapped := same && forall d: nat | t.IsDir(d) && 1 <= d ::
      forall k | 0 <= k < |z.dirs[d]| :: z.dirs[d][k] == Zapped(t, t.dirs[d][k]);
    zapped
  }

  lemma ClearedSound(t: Tree, z: Tree)
    requires Repairable(t) && Cleared(t, z)
    ensures Sound(z)
  {
    hide Reachable;
    forall d: nat | 1 <= d < |z.ilist| ensures SlotsOk(z, d) {
      if z.IsDir(d) {
        forall k | 0 <= k < |z.dirs[d]| ensures SlotOk(z, d, z.dirs[d][k]) {
          assert DotRight(t, d, t.dirs[d][k]);
        }
      }
    }
  }

  lemma {:induction false} ClearedWays(t: Tree, z: Tree, marks: seq<bool>, a: nat, b: nat, n: nat)
    requires t.Shape() && Cleared(t, z) && LeadsIn(t, marks, a, b, n) && t.InUse(b)
    ensures LeadsIn(z, marks, a, b, n)
    decreases n
  {
    if n > 0 {
      var m: nat :| Edge(t, a, m) && LeadsIn(t, marks, m, b, n - 1);
      hide LeadsIn;
      StepInUse(t, marks, m, b, n - 1);
      ClearedEdge(t, z, a, m);
      ClearedWays(t, z, marks, m, b, n - 1);
      LeadsInFirst(z, marks, a, m, b, n - 1) by { MarkedStart(t, marks, a, b, n); }
    }
  }

  lemma MarkedStart(t: Tree, marks: seq<bool>, a: nat, b: nat, n: nat)
    requires LeadsIn(t, marks, a, b, n)
    ensures a < |marks| && marks[a]
  {
    hide Edge;
  }

  lemma LeadsInFirst(t: Tree, marks: seq<bool>, a: nat, m: nat, b: nat, n: nat)
    requires a < |marks| && marks[a] && Edge(t, a, m) && LeadsIn(t, marks, m, b, n)
    ensures LeadsIn(t, marks, a, b, n + 1)
  {
    hide Edge;
  }

  /** Anything a way leads on from is a directory, hence allocated. */
  lemma StepInUse(t: Tree, marks: seq<bool>, m: nat, b: nat, n: nat)
    requires t.Shape() && LeadsIn(t, marks, m, b, n) && t.InUse(b)
    ensures t.InUse(m)
  {
  }

  lemma ClearedEdge(t: Tree, z: Tree, a: nat, m: nat)
    requires t.Shape() && Cleared(t, z) && Edge(t, a, m) && t.InUse(m)
    ensures Edge(z, a, m)
  {
    var k :| 0 <= k < |t.dirs[a]| && t.dirs[a][k].ino == m && !IsDot(t.dirs[a][k].name);
    assert z.dirs[a][k] == Zapped(t, t.dirs[a][k]);
  }

  lemma ClearedReach(t: Tree, z: Tree, marks: seq<bool>, b: nat)
    requires t.Shape() && Cleared(t, z) && ReachIn(t, marks, ROOTINO, b) && t.InUse(b)
    ensures ReachIn(z, marks, ROOTINO, b)
  {
    hide LeadsIn, Cleared;
    var n: nat :| LeadsIn(t, marks, ROOTINO, b, n);
    ClearedWays(t, z, marks, ROOTINO, b, n);
  }

  lemma ClearedSpare(t: Tree, z: Tree, d: nat)
    requires t.Shape() && Cleared(t, z) && t.IsDir(d)
    ensures Spare(z, z.Ents(d)) == Spare(t, t.Ents(d))
  {
    hide Spare;
    var s, s' := t.Ents(d), z.Ents(d);
    forall k | 0 <= k < |s| ensures z.InUse(s'[k].ino) == t.InUse(s[k].ino) {
      assert s'[k] == Zapped(t, s[k]);
    }
    SpareSame(t, s, z, s');
  }

  lemma {:induction false} ZappedTargets(t: Tree, s: seq<Slot>, s': seq<Slot>)
    requires |s| == |s'| && forall k | 0 <= k < |s| :: s'[k] == Zapped(t, s[k])
    ensures Targets(s') <= Targets(s)
  {
    if s != [] {
      ZappedTargets(t, s[..|s| - 1], s'[..|s'| - 1]);
    }
  }

  lemma ClearedLinks(t: Tree, z: Tree)
    requires t.Shape() && Cleared(t, z)
    ensures AllLinks(z) <= AllLinks(t)
  {
    hide Targets, Sum;
    AllLinksIs(t);
    AllLinksIs(z);
    forall d: nat | d < |t.ilist| ensures SlotTargets(z)[d] <= SlotTargets(t)[d] {
      if t.IsDir(d) {
        ZappedTargets(t, t.dirs[d], z.dirs[d]);
      }
    }
    SumMono(SlotTargets(z), SlotTargets(t));
  }

  /** The first inode a name stands for among the slots. */
  function First(s: seq<Slot>, name: string): nat {
    if s == [] then 0
    else if s[0].ino != 0 && s[0].name == name then s[0].ino
    else First(s[1..], name)
  }

  lemma {:induction false} FirstSlot(s: seq<Slot>, name: string)
    requires First(s, name) != 0
    ensures exists k :: 0 <= k < |s| && s[k] == Slot(First(s, name), name)
  {
    if s[0].ino != 0 && s[0].name == name {
      assert s[0] == Slot(First(s, name), name);
    } else {
      FirstSlot(s[1..], name);
      var k :| 0 <= k < |s[1..]| && s[1..][k] == Slot(First(s, name), name);
      assert s[k + 1] == Slot(First(s, name), name);
    }
  }

  /** The lost+found of the root, 0 if there is none. */
  function LostFound(t: Tree): nat
    requires t.Shape()
  {
    if t.IsDir(ROOTINO) then First(t.dirs[ROOTINO], LOSTFOUND) else 0
  }

  /** What is called lost+found is a directory, if it is there at all. */
  predicate LostFoundDir(t: Tree)
    requires t.Shape()
  {
    LostFound(t) == 0 || t.IsDir(LostFound(t))
  }

  /** There is one, and it has a slot for every orphan. */
  ghost predicate HasRoom(t: Tree)
    requires t.Shape()
  {
    var lf := LostFound(t);
    lf != 0 && t.IsDir(lf) && Spare(t, t.Ents(lf)) >= Orphans(t)
  }

  lemma LostFoundEdge(t: Tree)
    requires t.Shape() && LostFound(t) != 0 && t.IsDir(LostFound(t))
    ensures t.IsDir(ROOTINO) && Edge(t, ROOTINO, LostFound(t))
  {
    var s := t.dirs[ROOTINO];
    FirstSlot(s, LOSTFOUND);
    var k :| 0 <= k < |s| && s[k] == Slot(First(s, LOSTFOUND), LOSTFOUND);
    assert LOSTFOUND[0] == 'l' && !IsDot(LOSTFOUND);
  }

  /** Before the first orphan: the root's marks, on the cleared image. */
  lemma JoinStart(t: Tree, z: Tree, lf: nat, marks: seq<bool>)
    requires Repairable(t) && Cleared(t, z) && lf == LostFound(t) && lf != 0 && t.IsDir(lf)
    requires |marks| == |t.ilist|
    requires forall i: nat | i < |marks| :: marks[i] <==> Reachable(t, ROOTINO, i) || i == BADBLKINO
    requires forall i: nat | i < |marks| && marks[i] && i != BADBLKINO :: ReachIn(t, marks, ROOTINO, i)
    ensures Joining(z, z, lf, marks, ROOTINO + 1, 0)
  {
    hide Reachable, ReachIn, Cleared, Spare, Pending, AllLinks, Sound, Edge, SecondNotDot, DotRight;
    ClearedSame(t, z);
    ClearedSound(t, z);
    ClearedSpare(t, z, lf);
    LostFoundEdge(t);
    Itself(t, ROOTINO);
    StepLast(t, ROOTINO, ROOTINO, lf);
    RootIn(t, marks);
    ReachInFirst(t, marks, ROOTINO, lf, lf) by { MarkedItself(t, marks, lf); }
    ClearedReach(t, z, marks, lf);
    forall j: nat | j < |marks| && marks[j] && z.InUse(j) && j != BADBLKINO
      ensures ReachIn(z, marks, ROOTINO, j)
    {
      ClearedReach(t, z, marks, j);
    }
  }

  /** The marks leave out the orphans. */
  lemma PendingOrphans(t: Tree, z: Tree, marks: seq<bool>)
    requires t.Shape() && Cleared(t, z) && |marks| == |t.ilist|
    requires forall i: nat | i < |marks| :: marks[i] <==> Reachable(t, ROOTINO, i) || i == BADBLKINO
    ensures Pending(z, marks, ROOTINO + 1) == Orphans(t)
  {
    hide Reachable, Pending;
    PendingSame(t, z, marks, ROOTINO + 1);
    assert marks == seq(|t.ilist|, i requires 0 <= i < |t.ilist| => Reachable(t, ROOTINO, i) || i == BADBLKINO);
  }

  lemma ClearedSame(t: Tree, z: Tree)
    requires Cleared(t, z)
    ensures z.Shape() && SameInodes(t, z) && SameInodes(z, z) && z.ilist == t.ilist
    ensures forall d: nat :: z.IsDir(d) == t.IsDir(d)
  {
  }

  lemma RootIn(t: Tree, marks: seq<bool>)
    requires t.Shape() && |marks| == |t.ilist|
    requires forall i: nat | i < |marks| :: marks[i] <==> Reachable(t, ROOTINO, i) || i == BADBLKINO
    ensures marks[ROOTINO]
  {
    hide Reachable;
    Itself(t, ROOTINO);
  }

  // ----- the final counts

  lemma SoundLinks(t: Tree, i: nat)
    requires t.Shape() && Sound(t) && AllLinks(t)[i] > 0
    ensures t.InUse(i)
  {
    hide Targets, Sum, SlotTargets;
    AllLinksIs(t);
    var d := SumWitness(SlotTargets(t), i);
    assert SlotsOk(t, d);
    TargetsHas(t.dirs[d], i);
    var n :| Has(t.dirs[d], n, i);
    var k :| 0 <= k < |t.dirs[d]| && t.dirs[d][k] == Slot(i, n);
  }

  lemma {:induction false} SameLeads(t: Tree, t': Tree, a: nat, b: nat, n: nat)
    requires forall x: nat, y: nat | Edge(t, x, y) :: Edge(t', x, y)
    requires Leads(t, a, b, n)
    ensures Leads(t', a, b, n)
    decreases n
  {
    hide Edge;
    if n > 0 {
      var m: nat :| Edge(t, a, m) && Leads(t, m, b, n - 1);
      SameLeads(t, t', m, b, n - 1);
    }
  }

  /** Link counts play no part in what the entries say. */
  lemma Renumbered(t: Tree, t': Tree)
    requires t.Shape() && SameInodes(t, t') && t'.dirs == t.dirs
    ensures AllLinks(t') == AllLinks(t)
    ensures forall d: nat :: SlotsOk(t', d) == SlotsOk(t, d)
    ensures forall i: nat | Reachable(t, ROOTINO, i) :: Reachable(t', ROOTINO, i)
  {
    forall i: nat ensures t'.InUse(i) == t.InUse(i) && t'.IsDir(i) == t.IsDir(i) {}
    forall d: nat, x: Slot ensures SlotOk(t', d, x) == SlotOk(t, d, x) {}
    AllLinksIs(t);
    AllLinksIs(t');
    assert SlotTargets(t') == SlotTargets(t);
    forall x: nat, y: nat | Edge(t, x, y) ensures Edge(t', x, y) {}
    hide Edge, AllLinks;
    forall i: nat | Reachable(t, ROOTINO, i) ensures Reachable(t', ROOTINO, i) {
      var n: nat :| Leads(t, ROOTINO, i, n);
      SameLeads(t, t', ROOTINO, i, n);
    }
  }

  ghost predicate CountsFit(t: Tree) {
    forall i: nat | t.InUse(i) :: AllLinks(t)[i] < 0x1_0000
  }

  lemma RecountClean(t: Tree, t': Tree)
    requires t.Shape() && SameInodes(t, t') && t'.dirs == t.dirs && Sound(t)
    requires forall i: nat | 1 <= i < |t.ilist| :: !t.ilist[i].kind.Invalid?
    requires forall i: nat | t.InUse(i) && i != BADBLKINO :: Reachable(t, ROOTINO, i)
    requires forall i: nat | t.InUse(i) ::
               t'.ilist[i].nlink == if t.ilist[i].nlink != AllLinks(t)[i] then AllLinks(t)[i] % 0x1_0000
                                    else t.ilist[i].nlink
    requires forall i: nat | t.InUse(i) :: t.ilist[i].nlink < 0x1_0000
    ensures LinksClean(t') <==> CountsFit(t')
    ensures AllLinks(t') == AllLinks(t)
  {
    hide AllLinks, Reachable, SlotsOk;
    Renumbered(t, t');
    forall i: nat | 1 <= i < |t.ilist| && !t.InUse(i) ensures AllLinks(t)[i] == 0 {
      if AllLinks(t)[i] > 0 {
        SoundLinks(t, i);
      }
    }
    assert forall i: nat :: t'.InUse(i) == t.InUse(i);
    forall i: nat | t.InUse(i)
      ensures t'.ilist[i].nlink == AllLinks(t)[i] <==> AllLinks(t)[i] < 0x1_0000
    {
    }
  }

  lemma RepairableShape(t: Tree)
    requires Repairable(t)
    ensures t.Shape()
  {
    hide Reachable, DotRight, SecondNotDot;
  }

  /** Directories that are not marked are cut off. */
  lemma CutOff(t: Tree, z: Tree, marks: seq<bool>)
    requires Repairable(t) && Cleared(t, z) && |marks| == |t.ilist|
    requires forall i: nat | i < |marks| :: marks[i] <==> Reachable(t, ROOTINO, i) || i == BADBLKINO
    ensures forall d: nat | z.IsDir(d) && d < |marks| && !marks[d] :: SecondNotDot(z, d)
  {
    hide Reachable, DotRight;
    forall d: nat | z.IsDir(d) && d < |marks| && !marks[d] ensures SecondNotDot(z, d) {
      assert SecondNotDot(t, d);
      if |z.dirs[d]| >= 2 {
        assert z.dirs[d][1] == Zapped(t, t.dirs[d][1]);
      }
    }
  }

  /** Every slot that names an allocated inode is left alone, except the second slots
      of directories without a mark. */
  ghost predicate SlotsKept(t: Tree, t': Tree, marks: seq<bool>) {
    |t'.dirs| == |t.dirs| && forall d: nat, k: nat |
      t.IsDir(d) && d < |t.dirs| && k < |t.dirs[d]| && t.InUse(t.dirs[d][k].ino)
      && (k != 1 || (d < |marks| && marks[d])) ::
        k < |t'.dirs[d]| && t'.dirs[d][k] == t.dirs[d][k]
  }

  /** The same, said of what the root reaches. */
  ghost predicate EntriesKept(t: Tree, t': Tree) {
    |t'.dirs| == |t.dirs| && forall d: nat, k: nat |
      t.IsDir(d) && d < |t.dirs| && k < |t.dirs[d]| && t.InUse(t.dirs[d][k].ino)
      && (k != 1 || Reachable(t, ROOTINO, d)) ::
        k < |t'.dirs[d]| && t'.dirs[d][k] == t.dirs[d][k]
  }

  lemma KeptItself(t: Tree, marks: seq<bool>)
    ensures SlotsKept(t, t, marks)
  {
  }

  lemma KeptMore(a: Tree, b: Tree, c: Tree, marks: seq<bool>, marks': seq<bool>)
    requires SlotsKept(a, b, marks) && SlotsKept(b, c, marks') && SameInodes(a, b)
    requires |marks'| == |marks| && forall i | 0 <= i < |marks| && marks[i] :: marks'[i]
    ensures SlotsKept(a, c, marks)
  {
    forall i: nat ensures a.InUse(i) == b.InUse(i) && a.IsDir(i) == b.IsDir(i) {}
  }

  lemma HungKept(t: Tree, lf: nat, k: nat, i: nat, marks: seq<bool>)
    requires t.Shape() && t.IsDir(lf) && k < |t.dirs[lf]| && t.dirs[lf][k].ino == 0 && i < |marks| && !marks[i]
    requires i < |t.ilist| && i != lf
    ensures SlotsKept(t, Hung(t, lf, k, i), marks)
  {
    hide OrphanName;
  }

  lemma ClearedKept(t0: Tree, z: Tree, w: Tree, marks: seq<bool>)
    requires t0.Shape() && Cleared(t0, z) && SlotsKept(z, w, marks) && |marks| == |t0.ilist|
    requires forall i: nat | i < |marks| && Reachable(t0, ROOTINO, i) :: marks[i]
    ensures EntriesKept(t0, w)
  {
    hide Reachable;
    ClearedSame(t0, z);
    forall i: nat ensures z.InUse(i) == t0.InUse(i) {}
    forall d: nat, k: nat | t0.IsDir(d) && k < |t0.dirs[d]| && t0.InUse(t0.dirs[d][k].ino)
                            && (k != 1 || Reachable(t0, ROOTINO, d))
      ensures k < |w.dirs[d]| && w.dirs[d][k] == t0.dirs[d][k]
    {
      assert z.dirs[d][k] == Zapped(t0, t0.dirs[d][k]);
      assert z.IsDir(d);
    }
  }

  /** Nothing names a free inode, and the root reaches everything allocated. */
  ghost predicate Settled(w: Tree) {
    w.Shape() && Sound(w) && forall i: nat | w.InUse(i) && i != BADBLKINO :: Reachable(w, ROOTINO, i)
  }

  /** After the last inode everything allocated is marked, so the root reaches it. */
  lemma Joined(z: Tree, w: Tree, lf: nat, marks: seq<bool>, n: nat)
    requires Joining(z, w, lf, marks, |w.ilist|, n)
    ensures Settled(w)
  {
    hide ReachIn, AllLinks, Spare, Pending, Reachable, SlotsOk;
    forall i: nat | w.InUse(i) && i != BADBLKINO ensures Reachable(w, ROOTINO, i) {
      assert marks[i];
      ReachInReaches(w, marks, ROOTINO, i);
    }
  }

  lemma JoinedCounts(z: Tree, w: Tree, lf: nat, marks: seq<bool>, i: nat, n: nat)
    requires Joining(z, w, lf, marks, i, n)
    ensures w.Shape() && SameInodes(z, w) && forall i: nat :: AllLinks(w)[i] <= AllLinks(z)[i] + n
  {
    hide ReachIn, AllLinks, Spare, Pending, Sound;
  }

  /** w with every count that differs stored anew. */
  ghost predicate Recounted(w: Tree, t': Tree) {
    && |t'.ilist| == |w.ilist| && t'.dirs == w.dirs
    && forall i: nat | i < |w.ilist| ::
         t'.ilist[i] == if i >= 1 && t'.InUse(i) && w.ilist[i].nlink != AllLinks(w)[i]
                        then w.ilist[i].(nlink := AllLinks(w)[i] % 0x1_0000)
                        else w.ilist[i]
  }

  lemma RecountedSame(t0: Tree, z: Tree, w: Tree, t': Tree, n: nat)
    requires t0.Shape() && Cleared(t0, z) && w.Shape() && SameInodes(z, w) && Recounted(w, t')
    requires forall i: nat :: AllLinks(w)[i] <= AllLinks(z)[i] + n
    ensures SameInodes(w, t') && SameInodes(t0, t') && AllLinks(t') == AllLinks(w)
    ensures forall i: nat :: t'.InUse(i) == t0.InUse(i) && w.InUse(i) == t0.InUse(i)
    ensures forall i: nat :: AllLinks(t')[i] <= AllLinks(t0)[i] + n
  {
    hide AllLinks, Reachable, Sound, SlotsOk;
    ClearedSame(t0, z);
    assert SameInodes(w, t');
    SameInodesMore(t0, z, w);
    SameInodesMore(t0, w, t');
    Renumbered(w, t');
    ClearedLinks(t0, z);
    forall i: nat ensures AllLinks(t')[i] <= AllLinks(t0)[i] + n {
      assert AllLinks(z)[i] <= AllLinks(t0)[i];
    }
  }

  /** With every orphan hung the result is clean exactly when its counts fit. */
  lemma Converged(t0: Tree, z: Tree, w: Tree, t': Tree)
    requires Repairable(t0) && Cleared(t0, z) && Settled(w) && SameInodes(z, w) && Recounted(w, t')
    requires forall i: nat | t0.InUse(i) :: t0.ilist[i].nlink < 0x1_0000
    requires w.ilist == z.ilist
    ensures LinksClean(t') <==> CountsFit(t')
  {
    hide AllLinks, Reachable, LinksClean, CountsFit, Sound, DotRight, SecondNotDot;
    ClearedSame(t0, z);
    assert SameInodes(w, t');
    SameInodesMore(t0, z, w);
    forall i: nat ensures w.InUse(i) == t0.InUse(i) && t'.InUse(i) == w.InUse(i) {}
    RecountClean(w, t');
  }

  /** With an orphan left it is not. */
  lemma LeftOut(w: Tree, t': Tree, i: nat)
    requires w.Shape() && SameInodes(w, t') && t'.dirs == w.dirs
    requires w.InUse(i) && i != BADBLKINO && !Reachable(w, ROOTINO, i)
    ensures !LinksClean(t')
  {
    hide Edge;
    forall x: nat, y: nat | Edge(t', x, y) ensures Edge(w, x, y) {
      SameEdges(w, t', x, y);
    }
    if Reachable(t', ROOTINO, i) {
      var n: nat :| Leads(t', ROOTINO, i, n);
      SameLeads(t', w, ROOTINO, i, n);
    }
  }

  lemma SameEdges(w: Tree, t': Tree, x: nat, y: nat)
    requires SameInodes(w, t') && t'.dirs == w.dirs
    ensures Edge(t', x, y) <==> Edge(w, x, y)
  {
  }

  lemma SameEntriesKept(t: Tree, w: Tree, t': Tree)
    requires EntriesKept(t, w) && t'.dirs == w.dirs
    ensures EntriesKept(t, t')
  {
    hide Reachable;
  }
}

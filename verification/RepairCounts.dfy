/** Which orphans the repair hangs into lost+found, and what that does to the number of
    entries each inode has, told from the image as found. */
module RepairCounts {
  import opened Multisets
  import opened Names
  import opened Reach
  import opened LinkCheck
  import opened LinkRepair

  /** Allocated, not reached from the root, and not the exempt inode 1. */
  ghost predicate Orphan(t: Tree, i: nat) { t.InUse(i) && i != BADBLKINO && !Reachable(t, ROOTINO, i) }

  predicate HasSecond(t: Tree, i: nat) { t.IsDir(i) && i < |t.dirs| && |t.dirs[i]| >= 2 }

  /** What the walk from an orphan can still follow once the inodes in h have been hung:
      their second slots now lead to lost+found, and inode 1 is not entered. */
  function SeveredDir(t: Tree, h: seq<nat>, d: nat): seq<Slot>
    requires d < |t.dirs|
  {
    if d == BADBLKINO then []
    else if d in h && HasSecond(t, d) then t.dirs[d][1 := Slot(0, t.dirs[d][1].name)]
    else t.dirs[d]
  }

  function Severed(t: Tree, h: seq<nat>): Tree {
    t.(dirs := seq(|t.dirs|, d requires 0 <= d < |t.dirs| => SeveredDir(t, h, d)))
  }

  /** The j-th orphan hung leads to x. */
  ghost predicate CoveredBy(t: Tree, h: seq<nat>, j: nat, x: nat)
    requires j < |h|
  {
    Reachable(Severed(t, h[..j + 1]), h[j], x)
  }

  ghost predicate Covered(t: Tree, h: seq<nat>, x: nat) {
    exists j: nat :: j < |h| && CoveredBy(t, h, j, x)
  }

  /** The orphans below i that get hung: in order, those no earlier one leads to. */
  ghost function HungIn(t: Tree, i: nat): seq<nat> {
    if i == 0 then []
    else if Orphan(t, i - 1) && !Covered(t, HungIn(t, i - 1), i - 1) then HungIn(t, i - 1) + [i - 1]
    else HungIn(t, i - 1)
  }

  /** The entry an orphan directory's second slot held. */
  function Lost(t: Tree, i: nat): multiset<nat> {
    if HasSecond(t, i) then Target(t.dirs[i][1]) else multiset{}
  }

  /** Its new entry in lf, and its new second slot. */
  function Won(t: Tree, lf: nat, i: nat): multiset<nat> {
    multiset{i} + if HasSecond(t, i) then multiset{lf} else multiset{}
  }

  function Losses(t: Tree, h: seq<nat>): multiset<nat> {
    if h == [] then multiset{} else Losses(t, h[..|h| - 1]) + Lost(t, h[|h| - 1])
  }

  function Gains(t: Tree, lf: nat, h: seq<nat>): multiset<nat> {
    if h == [] then multiset{} else Gains(t, lf, h[..|h| - 1]) + Won(t, lf, h[|h| - 1])
  }

  /** How many orphans lost+found can take: none if there is no lost+found. */
  function Places(t: Tree): nat
    requires t.Shape()
  {
    if LostFound(t) == 0 then 0 else Spare(t, t.Ents(LostFound(t)))
  }

  /** The orphans that are hung: those to be, as far as lost+found goes. */
  ghost function HungFor(t: Tree): seq<nat>
    requires t.Shape()
  {
    var h := HungIn(t, |t.ilist|);
    if |h| <= Places(t) then h else h[..Places(t)]
  }

  /** lost+found takes all of them. */
  ghost predicate AllHung(t: Tree)
    requires t.Shape()
  {
    |HungIn(t, |t.ilist|)| <= Places(t)
  }

  /** The new count of entries of x fits the 16 bits it is stored in. */
  ghost predicate FitsAfter(t: Tree)
    requires t.Shape()
  {
    var h, lf := HungFor(t), LostFound(t);
    forall x: nat | t.InUse(x) :: AllLinks(t)[x] + Gains(t, lf, h)[x] < 0x1_0000 + Losses(t, h)[x]
  }

  ghost predicate Counts(t: Tree, t': Tree)
    requires t.Shape()
  {
    var h, lf := HungFor(t), LostFound(t);
    forall x: nat | t.InUse(x) :: AllLinks(t')[x] + Losses(t, h)[x] == AllLinks(t)[x] + Gains(t, lf, h)[x]
  }

  // ----- one orphan hung

  lemma HungExact(t: Tree, lf: nat, k: nat, i: nat)
    requires t.Shape() && t.IsDir(lf) && k < |t.dirs[lf]| && t.dirs[lf][k].ino == 0
    requires 0 < i < |t.ilist| && i != lf && 0 < lf
    ensures AllLinks(Hung(t, lf, k, i)) + Lost(t, i) == AllLinks(t) + Won(t, lf, i)
  {
    hide AllLinks, OrphanName;
    var x1 := Slot(i, OrphanName(i));
    var t1 := WithSlot(t, lf, k, x1);
    LinksSlot(t, lf, k, x1);
    assert AllLinks(t1) == AllLinks(t1) + multiset{} == AllLinks(t) + multiset{i};
    if HasSecond(t, i) {
      var x2 := Slot(lf, t1.dirs[i][1].name);
      assert t1.dirs[i] == t.dirs[i];
      LinksSlot(t1, i, 1, x2);
      assert AllLinks(Hung(t, lf, k, i)) + Lost(t, i) == AllLinks(t1) + multiset{lf};
      assert (AllLinks(t) + multiset{i}) + multiset{lf} == AllLinks(t) + (multiset{i} + multiset{lf});
    } else {
      assert Hung(t, lf, k, i) == t1;
    }
  }

  lemma LedgerStep(a: multiset<nat>, l: multiset<nat>, b: multiset<nat>, g: multiset<nat>,
                   c: multiset<nat>, l1: multiset<nat>, g1: multiset<nat>)
    requires a + l == b + g && c + l1 == a + g1
    ensures c + (l + l1) == b + (g + g1)
  {
    forall x ensures (c + (l + l1))[x] == (b + (g + g1))[x] {
      assert (a + l)[x] == (b + g)[x];
      assert (c + l1)[x] == (a + g1)[x];
    }
  }

  // ----- marks

  /** Marks lead nowhere else: what the walks so far did not mark they cannot reach. */
  ghost predicate SeveredClosed(z: Tree, h: seq<nat>, marks: seq<bool>) {
    forall x: nat, y: nat |
      x < |marks| && y < |marks| && marks[x] && Edge(Severed(z, h), x, y) :: marks[y]
  }

  /** Marks lead nowhere else in the image at hand, inode 1 aside. */
  ghost predicate Walled(t: Tree, marks: seq<bool>) {
    forall x: nat, y: nat |
      x < |marks| && y < |marks| && marks[x] && x != BADBLKINO && Edge(t, x, y) :: marks[y]
  }

  /** Where the accounts stand after the orphans h: z is the image it started from, with
      marks s. */
  ghost predicate Accounted(z: Tree, t: Tree, lf: nat, s: seq<bool>, marks: seq<bool>, h: seq<nat>) {
    && AllLinks(t) + Losses(z, h) == AllLinks(z) + Gains(z, lf, h)
    && |marks| == |s| == |z.ilist|
    && (forall x: nat | x < |marks| :: marks[x] <==> s[x] || Covered(z, h, x))
    && SeveredClosed(z, h, marks)
    && (forall x: nat | x in h :: x < |marks| && marks[x])
  }

  lemma SeveredEdge(z: Tree, h: seq<nat>, x: nat, y: nat)
    requires Edge(Severed(z, h), x, y)
    ensures Edge(z, x, y) && x != BADBLKINO
    ensures exists k :: 0 <= k < |z.dirs[x]| && z.dirs[x][k].ino == y && !IsDot(z.dirs[x][k].name)
                        && (x in h && HasSecond(z, x) ==> k != 1)
  {
    var c := Severed(z, h);
    assert c.dirs[x] == SeveredDir(z, h, x);
    var k :| 0 <= k < |c.dirs[x]| && c.dirs[x][k].ino == y && !IsDot(c.dirs[x][k].name);
    assert z.dirs[x][k].ino == y;
  }

  lemma EdgeSevered(z: Tree, h: seq<nat>, x: nat, y: nat, k: nat)
    requires z.IsDir(x) && x < |z.dirs| && 0 < y < |z.ilist| && x != BADBLKINO
    requires k < |z.dirs[x]| && z.dirs[x][k].ino == y && !IsDot(z.dirs[x][k].name)
    requires x in h && HasSecond(z, x) ==> k != 1
    ensures Edge(Severed(z, h), x, y)
  {
    var c := Severed(z, h);
    assert c.dirs[x] == SeveredDir(z, h, x);
    assert c.dirs[x][k] == z.dirs[x][k];
  }

  /** Hanging one more orphan severs only its own second slot. */
  lemma SeveredMore(z: Tree, h: seq<nat>, i: nat, x: nat, y: nat)
    requires Edge(Severed(z, h + [i]), x, y)
    ensures Edge(Severed(z, h), x, y)
  {
    hide Edge, Severed;
    SeveredEdge(z, h + [i], x, y);
    var k :| 0 <= k < |z.dirs[x]| && z.dirs[x][k].ino == y && !IsDot(z.dirs[x][k].name)
             && (x in h + [i] && HasSecond(z, x) ==> k != 1);
    DirEdge(z, x, y);
    EdgeSevered(z, h, x, y, k);
  }

  lemma DirEdge(z: Tree, x: nat, y: nat)
    requires Edge(z, x, y)
    ensures z.IsDir(x) && x < |z.dirs| && 0 < y < |z.ilist|
  {
  }

  /** From an inode that was not marked, the walk from i follows what is left of z. */
  lemma FreshEdge(z: Tree, t: Tree, lf: nat, marks: seq<bool>, h: seq<nat>, k: nat, i: nat, x: nat, y: nat)
    requires t.Shape() && z.Shape() && SameInodes(z, t) && |marks| == |t.ilist|
    requires t.IsDir(lf) && lf < |marks| && marks[lf] && k < |t.dirs[lf]| && t.InUse(i) && !marks[i]
    requires forall d: nat | d < |t.dirs| && !marks[d] :: t.dirs[d] == z.dirs[d]
    requires forall d: nat | d in h :: d < |marks| && marks[d]
    requires BADBLKINO < |marks| && marks[BADBLKINO] && x < |marks| && y < |marks| && !marks[x]
    ensures Edge(Severed(z, h + [i]), x, y) ==> Edge(Hung(t, lf, k, i), x, y)
    ensures Edge(Hung(t, lf, k, i), x, y) && !marks[y] ==> Edge(Severed(z, h + [i]), x, y)
  {
    hide OrphanName;
    var t2 := Hung(t, lf, k, i);
    HungShape(t, lf, k, i);
    if Edge(Severed(z, h + [i]), x, y) {
      SeveredEdge(z, h + [i], x, y);
      var e :| 0 <= e < |z.dirs[x]| && z.dirs[x][e].ino == y && !IsDot(z.dirs[x][e].name)
               && (x in h + [i] && HasSecond(z, x) ==> e != 1);
      assert t2.dirs[x][e] == z.dirs[x][e];
    }
    if Edge(t2, x, y) && !marks[y] {
      var e :| 0 <= e < |t2.dirs[x]| && t2.dirs[x][e].ino == y && !IsDot(t2.dirs[x][e].name);
      if x == i && HasSecond(t, i) && e == 1 {
        assert false;
      } else {
        assert t2.dirs[x][e] == z.dirs[x][e];
        assert x != i ==> x !in h + [i];
        EdgeSevered(z, h + [i], x, y, e);
      }
    }
  }

  lemma {:induction false} LeadsFresh(t2: Tree, c: Tree, m: seq<bool>, a: nat, b: nat, n: nat)
    requires forall x: nat, y: nat | x < |m| && y < |m| && m[x] && m[y] && Edge(t2, x, y) :: Edge(c, x, y)
    requires LeadsIn(t2, m, a, b, n)
    ensures Leads(c, a, b, n)
    decreases n
  {
    hide Edge;
    if n > 0 {
      var y: nat :| Edge(t2, a, y) && LeadsIn(t2, m, y, b, n - 1);
      assert y < |m| && m[y];
      LeadsFresh(t2, c, m, y, b, n - 1);
    }
  }

  lemma {:induction false} ClosedLeads(c: Tree, marks: seq<bool>, a: nat, b: nat, n: nat)
    requires forall x: nat, y: nat | x < |marks| && y < |marks| && marks[x] && Edge(c, x, y) :: marks[y]
    requires |marks| == |c.ilist| && a < |marks| && marks[a] && Leads(c, a, b, n)
    ensures b < |marks| && marks[b]
    decreases n
  {
    if n > 0 {
      var y: nat :| Edge(c, a, y) && Leads(c, y, b, n - 1);
      assert y < |c.ilist|;
      hide Edge;
      ClosedLeads(c, marks, y, b, n - 1);
    }
  }

  /** The walk from the orphan just hung marks exactly what it leads to. */
  lemma FreshMarks(z: Tree, t: Tree, lf: nat, marks: seq<bool>, h: seq<nat>, k: nat, i: nat, marks': seq<bool>)
    requires t.Shape() && z.Shape() && SameInodes(z, t) && |marks| == |t.ilist|
    requires t.IsDir(lf) && lf < |marks| && marks[lf] && k < |t.dirs[lf]| && t.InUse(i) && !marks[i]
    requires forall d: nat | d < |t.dirs| && !marks[d] :: t.dirs[d] == z.dirs[d]
    requires forall d: nat | d in h :: d < |marks| && marks[d]
    requires BADBLKINO < |marks| && marks[BADBLKINO] && SeveredClosed(z, h, marks)
    requires Spread(Hung(t, lf, k, i), i, marks, marks') && marks'[i]
    ensures SeveredClosed(z, h + [i], marks')
    ensures forall x: nat | x < |marks'| :: marks'[x] <==> marks[x] || Reachable(Severed(z, h + [i]), i, x)
  {
    var t2, c := Hung(t, lf, k, i), Severed(z, h + [i]);
    hide Edge, Hung, Severed, ReachIn, Leads, LeadsIn, Tree.Shape, SameInodes;
    SeveredSize(z, h + [i]);
    SameSize(z, t);
    forall x: nat, y: nat | x < |marks'| && y < |marks'| && marks'[x] && Edge(c, x, y) ensures marks'[y] {
      if marks[x] {
        SeveredMore(z, h, i, x, y);
      } else {
        FreshEdge(z, t, lf, marks, h, k, i, x, y);
      }
    }
    forall x: nat | x < |marks'| ensures marks'[x] <==> marks[x] || Reachable(c, i, x) {
      if marks'[x] && !marks[x] {
        FreshReached(z, t, lf, marks, h, k, i, marks', x);
      }
      if Reachable(c, i, x) {
        var n: nat :| Leads(c, i, x, n);
        ClosedLeads(c, marks', i, x, n);
      }
    }
  }

  lemma FreshReached(z: Tree, t: Tree, lf: nat, marks: seq<bool>, h: seq<nat>, k: nat,
                     i: nat, marks': seq<bool>, x: nat)
    requires t.Shape() && z.Shape() && SameInodes(z, t) && |marks| == |t.ilist| == |marks'|
    requires t.IsDir(lf) && lf < |marks| && marks[lf] && k < |t.dirs[lf]| && t.InUse(i) && !marks[i]
    requires forall d: nat | d < |t.dirs| && !marks[d] :: t.dirs[d] == z.dirs[d]
    requires forall d: nat | d in h :: d < |marks| && marks[d]
    requires BADBLKINO < |marks| && marks[BADBLKINO]
    requires ReachIn(Hung(t, lf, k, i), Newly(marks, marks'), i, x)
    ensures Reachable(Severed(z, h + [i]), i, x)
  {
    var t2, c, m := Hung(t, lf, k, i), Severed(z, h + [i]), Newly(marks, marks');
    hide Edge, Hung, Severed, Leads, LeadsIn, Tree.Shape, SameInodes;
    forall x: nat, y: nat | x < |m| && y < |m| && m[x] && m[y] && Edge(t2, x, y) ensures Edge(c, x, y) {
      FreshEdge(z, t, lf, marks, h, k, i, x, y);
    }
    var n: nat :| LeadsIn(t2, m, i, x, n);
    LeadsFresh(t2, c, m, i, x, n);
  }

  lemma SeveredSize(z: Tree, h: seq<nat>)
    ensures |Severed(z, h).ilist| == |z.ilist|
  {
  }

  lemma SameSize(z: Tree, t: Tree)
    requires SameInodes(z, t)
    ensures |z.ilist| == |t.ilist|
  {
  }

  lemma CoveredSnoc(z: Tree, h: seq<nat>, i: nat, x: nat)
    ensures Covered(z, h + [i], x) <==> Covered(z, h, x) || Reachable(Severed(z, h + [i]), i, x)
  {
    hide Reachable, Severed;
    var g := h + [i];
    assert g[..|h| + 1] == g;
    forall j: nat | j < |h| ensures CoveredBy(z, g, j, x) == CoveredBy(z, h, j, x) {
      assert g[..j + 1] == h[..j + 1];
    }
    if Covered(z, h, x) {
      var j: nat :| j < |h| && CoveredBy(z, h, j, x);
      assert CoveredBy(z, g, j, x);
    }
    if Reachable(Severed(z, g), i, x) {
      assert CoveredBy(z, g, |h|, x);
    }
  }

  lemma HungOldEdge(t: Tree, lf: nat, k: nat, i: nat, x: nat, y: nat)
    requires t.Shape() && t.IsDir(lf) && k < |t.dirs[lf]| && t.InUse(i) && i != lf && x != i
    requires Edge(Hung(t, lf, k, i), x, y)
    ensures Edge(t, x, y) || (x == lf && y == i)
  {
    hide OrphanName;
    var t2 := Hung(t, lf, k, i);
    HungShape(t, lf, k, i);
    var e :| 0 <= e < |t2.dirs[x]| && t2.dirs[x][e].ino == y && !IsDot(t2.dirs[x][e].name);
    if x == lf && e == k {
      assert y == i;
    } else {
      assert t2.dirs[x][e] == t.dirs[x][e];
    }
  }

  /** The walk from the orphan just hung keeps the marks walled. */
  lemma WalledStep(t: Tree, lf: nat, marks: seq<bool>, k: nat, i: nat, marks': seq<bool>)
    requires t.Shape() && |marks| == |t.ilist| && Walled(t, marks)
    requires t.IsDir(lf) && lf < |marks| && marks[lf] && k < |t.dirs[lf]| && t.InUse(i) && !marks[i]
    requires Spread(Hung(t, lf, k, i), i, marks, marks') && marks'[i]
    ensures Walled(Hung(t, lf, k, i), marks')
  {
    var t2 := Hung(t, lf, k, i);
    hide Edge, Hung, ReachIn, Tree.Shape;
    forall x: nat, y: nat |
      x < |marks'| && y < |marks'| && marks'[x] && x != BADBLKINO && Edge(t2, x, y)
      ensures marks'[y]
    {
      if marks[x] {
        HungOldEdge(t, lf, k, i, x, y);
      }
    }
  }

  lemma MarkStep(z: Tree, h: seq<nat>, s: seq<bool>, marks: seq<bool>, i: nat, marks': seq<bool>)
    requires |s| == |marks| == |marks'|
    requires forall x: nat | x < |marks| :: marks[x] <==> s[x] || Covered(z, h, x)
    requires forall x: nat | x < |marks'| :: marks'[x] <==> marks[x] || Reachable(Severed(z, h + [i]), i, x)
    ensures forall x: nat | x < |marks'| :: marks'[x] <==> s[x] || Covered(z, h + [i], x)
  {
    hide Covered, Reachable, Severed;
    forall x: nat | x < |marks'| ensures marks'[x] <==> s[x] || Covered(z, h + [i], x) {
      CoveredSnoc(z, h, i, x);
    }
  }

  lemma LedgerMore(z: Tree, t: Tree, lf: nat, marks: seq<bool>, h: seq<nat>, k: nat, i: nat)
    requires t.Shape() && z.Shape() && SameInodes(z, t) && |marks| == |t.ilist|
    requires 0 < lf && t.IsDir(lf) && lf < |marks| && marks[lf] && k < |t.dirs[lf]| && t.dirs[lf][k].ino == 0
    requires t.InUse(i) && i < |marks| && !marks[i] && t.dirs[i] == z.dirs[i]
    requires AllLinks(t) + Losses(z, h) == AllLinks(z) + Gains(z, lf, h)
    ensures AllLinks(Hung(t, lf, k, i)) + Losses(z, h + [i]) == AllLinks(z) + Gains(z, lf, h + [i])
  {
    HungExact(t, lf, k, i);
    assert Lost(t, i) == Lost(z, i) && Won(t, lf, i) == Won(z, lf, i);
    var links := AllLinks(Hung(t, lf, k, i));
    hide AllLinks, Hung, Lost, Won, Tree.Shape;
    assert (h + [i])[..|h + [i]| - 1] == h;
    LedgerStep(AllLinks(t), Losses(z, h), AllLinks(z), Gains(z, lf, h), links, Lost(z, i), Won(z, lf, i));
  }

  /** The accounts after one orphan more. */
  lemma AccountStep(z: Tree, t: Tree, lf: nat, s: seq<bool>, marks: seq<bool>, h: seq<nat>, k: nat,
                    i: nat, marks': seq<bool>)
    requires t.Shape() && z.Shape() && SameInodes(z, t) && Accounted(z, t, lf, s, marks, h)
    requires 0 < lf && t.IsDir(lf) && lf < |marks| && marks[lf] && k < |t.dirs[lf]| && t.dirs[lf][k].ino == 0
    requires t.InUse(i) && i < |marks| && !marks[i]
    requires forall d: nat | d < |t.dirs| && !marks[d] :: t.dirs[d] == z.dirs[d]
    requires BADBLKINO < |marks| && marks[BADBLKINO]
    requires Spread(Hung(t, lf, k, i), i, marks, marks') && marks'[i]
    ensures Accounted(z, Hung(t, lf, k, i), lf, s, marks', h + [i])
  {
    LedgerMore(z, t, lf, marks, h, k, i);
    FreshMarks(z, t, lf, marks, h, k, i, marks');
    hide AllLinks, Hung, Covered, SeveredClosed, Reachable, ReachIn, Edge, Severed, Losses, Gains, Tree.Shape;
    MarkStep(z, h, s, marks, i, marks');
  }

  // ----- the cleared image against the image as found

  lemma SeveredCleared(t: Tree, z: Tree, h: seq<nat>, x: nat, y: nat)
    requires t.Shape() && Cleared(t, z)
    ensures Edge(Severed(z, h), x, y) ==> Edge(Severed(t, h), x, y)
    ensures Edge(Severed(t, h), x, y) && t.InUse(y) ==> Edge(Severed(z, h), x, y)
  {
    if Edge(Severed(z, h), x, y) {
      SeveredEdge(z, h, x, y);
      var k :| 0 <= k < |z.dirs[x]| && z.dirs[x][k].ino == y && !IsDot(z.dirs[x][k].name)
               && (x in h && HasSecond(z, x) ==> k != 1);
      assert z.dirs[x][k] == Zapped(t, t.dirs[x][k]);
      EdgeSevered(t, h, x, y, k);
    }
    if Edge(Severed(t, h), x, y) && t.InUse(y) {
      SeveredEdge(t, h, x, y);
      var k :| 0 <= k < |t.dirs[x]| && t.dirs[x][k].ino == y && !IsDot(t.dirs[x][k].name)
               && (x in h && HasSecond(t, x) ==> k != 1);
      assert z.dirs[x][k] == Zapped(t, t.dirs[x][k]);
      EdgeSevered(z, h, x, y, k);
    }
  }

  /** Edges to allocated inodes decide what allocated inodes are reached. */
  lemma {:induction false} LeadsUse(t: Tree, c: Tree, c': Tree, a: nat, b: nat, n: nat)
    requires forall x: nat, y: nat | Edge(c, x, y) && t.InUse(y) :: Edge(c', x, y)
    requires t.InUse(b) && Leads(c, a, b, n) && forall i: nat :: c.IsDir(i) == t.IsDir(i)
    requires t.Shape()
    ensures Leads(c', a, b, n)
    decreases n
  {
    if n > 0 {
      var y: nat :| Edge(c, a, y) && Leads(c, y, b, n - 1);
      assert t.InUse(y) by {
        if n > 1 {
          var w: nat :| Edge(c, y, w) && Leads(c, w, b, n - 2);
        }
      }
      hide Edge;
      LeadsUse(t, c, c', y, b, n - 1);
    }
  }

  lemma CoveredCleared(t: Tree, z: Tree, h: seq<nat>, x: nat)
    requires t.Shape() && Cleared(t, z) && t.InUse(x)
    ensures Covered(z, h, x) <==> Covered(t, h, x)
  {
    hide Edge, Leads, Severed, Cleared;
    ClearedSame(t, z);
    forall j: nat | j < |h| ensures CoveredBy(z, h, j, x) <==> CoveredBy(t, h, j, x) {
      var c, c' := Severed(z, h[..j + 1]), Severed(t, h[..j + 1]);
      SeveredDirs(z, h[..j + 1]);
      SeveredDirs(t, h[..j + 1]);
      forall a: nat, b: nat
        ensures Edge(c, a, b) ==> Edge(c', a, b)
        ensures Edge(c', a, b) && t.InUse(b) ==> Edge(c, a, b)
      {
        SeveredCleared(t, z, h[..j + 1], a, b);
      }
      if CoveredBy(z, h, j, x) {
        var n: nat :| Leads(c, h[j], x, n);
        LeadsUse(t, c, c', h[j], x, n);
      }
      if CoveredBy(t, h, j, x) {
        var n: nat :| Leads(c', h[j], x, n);
        LeadsUse(t, c', c, h[j], x, n);
      }
    }
  }

  lemma SeveredDirs(z: Tree, h: seq<nat>)
    ensures forall i: nat :: Severed(z, h).IsDir(i) == z.IsDir(i)
  {
  }

  lemma {:induction false} LedgerCleared(t: Tree, z: Tree, lf: nat, h: seq<nat>)
    requires t.Shape() && Cleared(t, z)
    ensures Gains(z, lf, h) == Gains(t, lf, h)
    ensures forall x: nat | t.InUse(x) :: Losses(z, h)[x] == Losses(t, h)[x]
  {
    if h != [] {
      var n := |h| - 1;
      LedgerCleared(t, z, lf, h[..n]);
      assert HasSecond(z, h[n]) == HasSecond(t, h[n]);
      if HasSecond(t, h[n]) {
        if h[n] == 0 {
          assert false;
        }
        assert z.dirs[h[n]][1] == Zapped(t, t.dirs[h[n]][1]);
      }
    }
  }

  /** An allocated inode keeps all its entries when dangling ones are cleared. */
  lemma ClearedCounts(t: Tree, z: Tree, x: nat)
    requires t.Shape() && Cleared(t, z) && t.InUse(x)
    ensures AllLinks(z)[x] == AllLinks(t)[x]
  {
    hide Targets, Sum;
    AllLinksIs(t);
    AllLinksIs(z);
    forall d: nat | d < |t.ilist| ensures SlotTargets(z)[d][x] == SlotTargets(t)[d][x] {
      if t.IsDir(d) {
        ZappedCount(t, t.dirs[d], z.dirs[d], x);
      }
    }
    SumCount(SlotTargets(z), SlotTargets(t), x);
  }

  lemma {:induction false} ZappedCount(t: Tree, s: seq<Slot>, s': seq<Slot>, x: nat)
    requires |s| == |s'| && forall k | 0 <= k < |s| :: s'[k] == Zapped(t, s[k])
    requires t.InUse(x)
    ensures Targets(s')[x] == Targets(s)[x]
  {
    if s != [] {
      ZappedCount(t, s[..|s| - 1], s'[..|s'| - 1], x);
    }
  }

  lemma {:induction false} SumCount(a: seq<multiset<nat>>, b: seq<multiset<nat>>, x: nat)
    requires |a| == |b| && forall i | 0 <= i < |a| :: a[i][x] == b[i][x]
    ensures Sum(a)[x] == Sum(b)[x]
  {
    if a != [] {
      SumCount(a[..|a| - 1], b[..|b| - 1], x);
    }
  }

  // ----- the run as a whole

  lemma AccountStart(t: Tree, z: Tree, lf: nat, marks: seq<bool>)
    requires t.Shape() && Cleared(t, z) && |marks| == |t.ilist|
    requires forall i: nat | i < |marks| :: marks[i] <==> Reachable(t, ROOTINO, i) || i == BADBLKINO
    ensures Accounted(z, z, lf, marks, marks, []) && HungIn(t, ROOTINO + 1) == [] && Walled(z, marks)
  {
    hide Reachable, AllLinks, Edge, Severed;
    assert AllLinks(z) + multiset{} == AllLinks(z);
    forall x: nat, y: nat | x < |marks| && y < |marks| && marks[x] && Edge(Severed(z, []), x, y) ensures marks[y] {
      SeveredCleared(t, z, [], x, y);
      SeveredEdge(t, [], x, y);
      StepLast(t, ROOTINO, x, y);
    }
    forall x: nat, y: nat |
      x < |marks| && y < |marks| && marks[x] && x != BADBLKINO && Edge(z, x, y)
      ensures marks[y]
    {
      ClearedBack(t, z, x, y);
      StepLast(t, ROOTINO, x, y);
    }
    FirstHung(t);
  }

  lemma ClearedBack(t: Tree, z: Tree, x: nat, y: nat)
    requires t.Shape() && Cleared(t, z) && Edge(z, x, y)
    ensures Edge(t, x, y)
  {
    var k :| 0 <= k < |z.dirs[x]| && z.dirs[x][k].ino == y && !IsDot(z.dirs[x][k].name);
    assert z.dirs[x][k] == Zapped(t, t.dirs[x][k]);
  }

  lemma FirstHung(t: Tree)
    requires t.Shape()
    ensures HungIn(t, ROOTINO + 1) == []
  {
    hide Reachable;
    Itself(t, ROOTINO);
    assert !Orphan(t, 0) && !Orphan(t, 1) && !Orphan(t, 2);
    assert HungIn(t, 0) == [] && HungIn(t, 1) == [] && HungIn(t, 2) == [];
  }

  /** Whether inode i is hung, as the marks tell it. */
  lemma HungNext(t: Tree, z: Tree, w: Tree, lf: nat, s: seq<bool>, marks: seq<bool>, i: nat)
    requires t.Shape() && Cleared(t, z) && |marks| == |t.ilist| && i < |marks| && i != BADBLKINO
    requires Accounted(z, w, lf, s, marks, HungIn(t, i))
    requires forall j: nat | j < |s| :: s[j] <==> Reachable(t, ROOTINO, j) || j == BADBLKINO
    ensures HungIn(t, i + 1) == if t.InUse(i) && !marks[i] then HungIn(t, i) + [i] else HungIn(t, i)
  {
    hide Reachable, AllLinks, Edge, Covered, SeveredClosed;
    if t.InUse(i) {
      CoveredCleared(t, z, HungIn(t, i), i);
    }
  }

  /** From the accounts of the run to the counts on the image as found. */
  lemma AccountsDone(t: Tree, z: Tree, w: Tree, t': Tree, s: seq<bool>, marks: seq<bool>, h: seq<nat>)
    requires t.Shape() && Cleared(t, z) && AllLinks(t') == AllLinks(w)
    requires Accounted(z, w, LostFound(t), s, marks, h) && h == HungFor(t)
    requires forall i: nat :: t'.InUse(i) == t.InUse(i)
    ensures Counts(t, t') && (CountsFit(t') <==> FitsAfter(t))
  {
    hide AllLinks, Covered, SeveredClosed, HungFor, Cleared, Losses, Gains, LostFound;
    var lf := LostFound(t);
    LedgerCleared(t, z, lf, h);
    forall x: nat | t.InUse(x)
      ensures AllLinks(t')[x] + Losses(t, h)[x] == AllLinks(t)[x] + Gains(t, lf, h)[x]
    {
      ClearedCounts(t, z, x);
      assert (AllLinks(w) + Losses(z, h))[x] == (AllLinks(z) + Gains(z, lf, h))[x];
    }
  }

  lemma {:induction false} HungPrefix(t: Tree, i: nat, n: nat)
    requires i <= n
    ensures HungIn(t, i) <= HungIn(t, n)
    decreases n - i
  {
    hide Orphan, Covered;
    if i < n {
      HungPrefix(t, i + 1, n);
    }
  }

  /** The run came to its end, or lost+found filled up at inode i. */
  lemma HungWhole(t: Tree, i: nat)
    requires t.Shape() && i <= |t.ilist| && |HungIn(t, i)| <= Places(t)
    ensures i == |t.ilist| ==> HungFor(t) == HungIn(t, i) && AllHung(t)
    ensures i < |t.ilist| && |HungIn(t, i)| == Places(t) && |HungIn(t, i + 1)| > |HungIn(t, i)| ==>
              HungFor(t) == HungIn(t, i) && !AllHung(t)
  {
    hide HungIn, LostFound, Places;
    HungPrefix(t, i, |t.ilist|);
    if i < |t.ilist| {
      HungPrefix(t, i + 1, |t.ilist|);
    }
  }

  /** Without lost+found the image as cleared is what is left. */
  lemma NoneHungFor(t: Tree)
    requires t.Shape() && LostFound(t) == 0
    ensures HungFor(t) == [] && (AllHung(t) <==> HungIn(t, |t.ilist|) == [])
  {
    hide HungIn, LostFound;
  }

  /** If nothing is to be hung there is no orphan. */
  lemma {:induction false} NoOrphan(t: Tree, i: nat, n: nat)
    requires i < n && HungIn(t, n) == []
    ensures !Orphan(t, i)
    decreases n
  {
    hide Orphan, Reachable;
    assert HungIn(t, n - 1) == [];
    if i < n - 1 {
      NoOrphan(t, i, n - 1);
    } else {
      NothingCovers(t, i);
    }
  }

  lemma NothingCovers(t: Tree, x: nat)
    ensures !Covered(t, [], x)
  {
  }

  lemma {:induction false} SomeOrphan(t: Tree, n: nat) returns (i: nat)
    requires HungIn(t, n) != []
    ensures i < n && Orphan(t, i)
  {
    hide Orphan, Covered;
    if HungIn(t, n - 1) != [] {
      i := SomeOrphan(t, n - 1);
    } else {
      i := n - 1;
    }
  }

  /** With a slot for every orphan all of them are hung. */
  lemma {:induction false} HungCount(t: Tree, marks: seq<bool>, i: nat)
    requires ROOTINO + 1 <= i <= |marks| && t.Shape()
    requires forall j: nat | j < |marks| :: marks[j] <==> Reachable(t, ROOTINO, j) || j == BADBLKINO
    ensures |HungIn(t, i)| + Pending(t, marks, i) <= Pending(t, marks, ROOTINO + 1)
    decreases i
  {
    hide Reachable, Covered;
    if i == ROOTINO + 1 {
      FirstHung(t);
    } else {
      HungCount(t, marks, i - 1);
    }
  }

  lemma RoomIsEnough(t: Tree)
    requires t.Shape() && HasRoom(t)
    ensures AllHung(t)
  {
    hide Reachable, HungIn, Pending, Spare;
    var marks := seq(|t.ilist|, i requires 0 <= i < |t.ilist| => Reachable(t, ROOTINO, i) || i == BADBLKINO);
    HungCount(t, marks, |t.ilist|);
    NonePast(t, marks);
  }

  lemma NonePast(t: Tree, marks: seq<bool>)
    ensures Pending(t, marks, |marks|) == 0
  {
  }

  // ----- what is left out

  /** What is not marked in the end the root does not reach, as long as inode 1 holds no
      entries. */
  lemma WalledOut(w: Tree, marks: seq<bool>, i: nat)
    requires |marks| == |w.ilist| && Walled(w, marks) && !w.IsDir(BADBLKINO)
    requires ROOTINO < |marks| && marks[ROOTINO] && i < |marks| && !marks[i]
    ensures !Reachable(w, ROOTINO, i)
  {
    hide Leads;
    assert Closed(w, marks);
    hide Edge;
    if Reachable(w, ROOTINO, i) {
      var n: nat :| Leads(w, ROOTINO, i, n);
      ClosedReaches(w, marks, ROOTINO, i, n);
    }
  }

  /** Clearing dangling entries connects nothing. */
  lemma ClearedOut(t: Tree, z: Tree, i: nat)
    requires t.Shape() && Cleared(t, z) && !Reachable(t, ROOTINO, i)
    ensures !Reachable(z, ROOTINO, i)
  {
    hide Edge, Cleared;
    forall x: nat, y: nat | Edge(z, x, y) ensures Edge(t, x, y) {
      ClearedBack(t, z, x, y);
    }
    if Reachable(z, ROOTINO, i) {
      var n: nat :| Leads(z, ROOTINO, i, n);
      SameLeads(z, t, ROOTINO, i, n);
    }
  }

  /** With no orphan the cleared image is settled. */
  lemma ClearedSettled(t: Tree, z: Tree)
    requires Repairable(t) && Cleared(t, z) && forall i: nat | t.InUse(i) :: !Orphan(t, i)
    ensures Settled(z)
  {
    hide Sound, DotRight, SecondNotDot, Leads, LeadsIn;
    RepairableShape(t);
    ClearedSame(t, z);
    ClearedSound(t, z);
    var all := seq(|t.ilist|, _ => true);
    forall i: nat | z.InUse(i) && i != BADBLKINO ensures Reachable(z, ROOTINO, i) {
      assert !Orphan(t, i);
      var n: nat :| Leads(t, ROOTINO, i, n);
      LeadsAll(t, all, ROOTINO, i, n);
      ClearedReach(t, z, all, i);
      ReachInReaches(z, all, ROOTINO, i);
    }
  }

  lemma {:induction false} LeadsAll(t: Tree, all: seq<bool>, a: nat, b: nat, n: nat)
    requires Leads(t, a, b, n) && |all| == |t.ilist| && a < |all| && forall i | 0 <= i < |all| :: all[i]
    ensures LeadsIn(t, all, a, b, n)
    decreases n
  {
    if n > 0 {
      var m: nat :| Edge(t, a, m) && Leads(t, m, b, n - 1);
      assert m < |all|;
      hide Edge;
      LeadsAll(t, all, m, b, n - 1);
    }
  }

  // ----- which orphans are hung, when second slots hold no ordinary entry

  /** The second slot of no orphan directory leads on, and inode 1 holds no entries. */
  ghost predicate PlainSeconds(t: Tree) {
    && !t.IsDir(BADBLKINO)
    && forall d: nat | Orphan(t, d) && HasSecond(t, d) :: t.dirs[d][1].ino == 0 || IsDot(t.dirs[d][1].name)
  }

  lemma PlainSevered(t: Tree, h: seq<nat>, x: nat, y: nat)
    requires PlainSeconds(t) && forall d: nat | d in h :: Orphan(t, d)
    ensures Edge(Severed(t, h), x, y) <==> Edge(t, x, y)
  {
    hide Orphan, Severed;
    if Edge(Severed(t, h), x, y) {
      SeveredEdge(t, h, x, y);
    }
    if Edge(t, x, y) {
      var k :| 0 <= k < |t.dirs[x]| && t.dirs[x][k].ino == y && !IsDot(t.dirs[x][k].name);
      EdgeSevered(t, h, x, y, k);
    }
  }

  lemma PlainCovered(t: Tree, h: seq<nat>, x: nat)
    requires PlainSeconds(t) && forall d: nat | d in h :: Orphan(t, d)
    ensures Covered(t, h, x) <==> exists y: nat :: y in h && Reachable(t, y, x)
  {
    hide Edge, Leads, Severed, Orphan, PlainSeconds;
    forall j: nat | j < |h| ensures CoveredBy(t, h, j, x) <==> Reachable(t, h[j], x) {
      var c := Severed(t, h[..j + 1]);
      forall d: nat | d in h[..j + 1] ensures Orphan(t, d) {
        assert d in h;
      }
      forall a: nat, b: nat ensures Edge(c, a, b) <==> Edge(t, a, b) {
        PlainSevered(t, h[..j + 1], a, b);
      }
      if CoveredBy(t, h, j, x) {
        var n: nat :| Leads(c, h[j], x, n);
        SameLeads(c, t, h[j], x, n);
      }
      if Reachable(t, h[j], x) {
        var n: nat :| Leads(t, h[j], x, n);
        SameLeads(t, c, h[j], x, n);
      }
    }
    if y: nat :| y in h && Reachable(t, y, x) {
      var j: nat :| j < |h| && h[j] == y;
      assert CoveredBy(t, h, j, x);
    }
    if Covered(t, h, x) {
      var j: nat :| j < |h| && CoveredBy(t, h, j, x);
      assert h[j] in h && Reachable(t, h[j], x);
    }
  }

  /** Some orphan with a smaller number leads to x. */
  ghost predicate Below(t: Tree, x: nat) {
    exists y: nat :: y < x && Orphan(t, y) && Reachable(t, y, x)
  }

  lemma {:induction false} HungOrphans(t: Tree, i: nat, x: nat)
    requires x in HungIn(t, i)
    ensures x < i && Orphan(t, x)
  {
    hide Orphan, Covered;
    if x in HungIn(t, i - 1) {
      HungOrphans(t, i - 1, x);
    }
  }

  /** The orphans hung are those that no orphan with a smaller number leads to. */
  lemma {:induction false} HungHeads(t: Tree, i: nat, x: nat)
    requires PlainSeconds(t)
    ensures x in HungIn(t, i) <==> x < i && Orphan(t, x) && !Below(t, x)
    decreases i, 0, 0
  {
    hide Orphan, Covered, Reachable, PlainSeconds;
    if i > 0 {
      if x < i - 1 {
        HungHeads(t, i - 1, x);
        assert x in HungIn(t, i) <==> x in HungIn(t, i - 1);
      } else if x == i - 1 {
        var h := HungIn(t, x);
        forall d: nat | d in h ensures Orphan(t, d) && d < x {
          HungOrphans(t, x, d);
        }
        PlainCovered(t, h, x);
        if y: nat :| y < x && Orphan(t, y) && Reachable(t, y, x) {
          var u := FirstAbove(t, y, x);
        }
      } else if x in HungIn(t, i) {
        HungOrphans(t, i, x);
        assert false;
      }
    }
  }

  /** An orphan that leads to x is hung, or one that is hung leads there. */
  lemma {:induction false} FirstAbove(t: Tree, y: nat, x: nat) returns (u: nat)
    requires PlainSeconds(t) && y < x && Orphan(t, y) && Reachable(t, y, x)
    ensures u in HungIn(t, x) && Reachable(t, u, x)
    decreases x, 1, y
  {
    hide Orphan, Covered, Reachable, PlainSeconds, HungIn;
    HungHeads(t, x, y);
    if y in HungIn(t, x) {
      u := y;
    } else {
      var w: nat :| w < y && Orphan(t, w) && Reachable(t, w, y);
      ReachJoin(t, w, y, x);
      u := FirstAbove(t, w, x);
    }
  }

  lemma {:induction false} LeadsJoin(t: Tree, a: nat, m: nat, b: nat, n: nat, k: nat)
    requires Leads(t, a, m, n) && Leads(t, m, b, k)
    ensures Leads(t, a, b, n + k)
    decreases n
  {
    hide Edge;
    if n > 0 {
      var x: nat :| Edge(t, a, x) && Leads(t, x, m, n - 1);
      LeadsJoin(t, x, m, b, n - 1, k);
    }
  }

  lemma ReachJoin(t: Tree, a: nat, m: nat, b: nat)
    requires Reachable(t, a, m) && Reachable(t, m, b)
    ensures Reachable(t, a, b)
  {
    hide Edge, Leads;
    var n: nat :| Leads(t, a, m, n);
    var k: nat :| Leads(t, m, b, k);
    LeadsJoin(t, a, m, b, n, k);
  }
}

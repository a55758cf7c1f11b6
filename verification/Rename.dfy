/** rename: the refusal to move a directory under itself, and what a rename keeps. */
module Rename {
  import opened Arith
  import opened Errno
  import opened Names
  import opened NameSteps
  import opened NameTree
  import opened NameOps
  import opened NameRuns

  // ----- is_ancestor

  ghost predicate OnClimb(t: Tree, x: nat, n: nat) {
    x < |t.ilist| && exists m: nat :: m <= n && Climbs(t, x, m)
  }

  /** The directories on a climb are all different, so a climb is no longer than the
      i-list. */
  lemma {:induction false} ClimbSet(t: Tree, d: nat, n: nat) returns (s: set<nat>)
    requires Climbs(t, d, n) && t.IsDir(ROOTINO)
    ensures |s| == n + 1
    ensures forall x | x in s :: OnClimb(t, x, n)
    decreases n
  {
    if n == 0 {
      s := {d};
      forall x | x in s ensures OnClimb(t, x, n) {
        assert x == d && Climbs(t, x, n);
      }
    } else {
      var r := ClimbSet(t, Up(t, d), n - 1);
      if d in r {
        var m: nat :| m <= n - 1 && Climbs(t, d, m);
        ClimbsOnce(t, d, n, m);
      }
      s := r + {d};
      forall x | x in s ensures OnClimb(t, x, n) {
        if x in r {
          var m: nat :| m <= n - 1 && Climbs(t, x, m);
        } else {
          assert x == d && Climbs(t, x, n);
        }
      }
    }
  }

  lemma {:induction false} SetBelow(s: set<nat>, n: nat)
    requires forall x | x in s :: x < n
    ensures |s| <= n
  {
    if n > 0 {
      SetBelow(s - {n - 1}, n - 1);
      assert |s| <= |s - {n - 1}| + 1;
    } else {
      assert s == {};
    }
  }

  lemma ClimbBound(t: Tree, d: nat, n: nat)
    requires Climbs(t, d, n) && t.IsDir(ROOTINO)
    ensures n < |t.ilist|
  {
    hide Climbs;
    var s := ClimbSet(t, d, n);
    assert forall x | x in s :: OnClimb(t, x, n);
    SetBelow(s, |t.ilist|);
  }

  /** is_ancestor: climbs ".." from dino, at most once per inode there could be and a
      little more; on a well-kept tree it answers exactly "ancestor or equal". */
  method IsAncestor(h: RW, anc: nat, dino: nat) returns (yes: bool)
    requires h.Valid() && h.T().IsDir(dino)
    ensures Structured(h.T()) ==> (yes <==> Above(h.T(), anc, dino))
  {
    hide Structured, Above, Refers, WellFormed;
    ghost var t := h.T();
    ghost var n0 := 0;
    if Structured(t) {
      n0 := ClimbStart(t, dino, anc);
    }
    var cur: nat := dino;
    ghost var n: int := n0;
    for guard := 0 to |h.ilist| - 1 + 2 * h.inopb + 1
      invariant Structured(t) ==>
                  && n0 < |t.ilist| && n + guard == n0 && 0 <= n && Climbs(t, cur, n)
                  && (Above(t, anc, dino) <==> Meets(t, cur, n, anc))
    {
      if cur == anc {
        return true;
      }
      if cur == ROOTINO || cur == 0 {
        if Structured(t) {
          RootClimb(t, cur, n);
        }
        return false;
      }
      if Structured(t) {
        ClimbIsDir(t, cur, n);
      }
      if cur >= |h.ilist| || !h.ilist[cur].kind.Dir? {
        return false;
      }
      var up := h.Lookup(cur, DOTDOT);
      if Structured(t) {
        UpFound(t, cur, n, up);
      }
      if up == 0 || up == cur {
        return false;
      }
      cur := up;
      n := n - 1;
    }
    return true;
  }

  lemma ClimbStart(t: Tree, d: nat, anc: nat) returns (n: nat)
    requires Structured(t) && t.IsDir(d)
    ensures n < |t.ilist| && Climbs(t, d, n) && (Above(t, anc, d) <==> Meets(t, d, n, anc))
  {
    hide Climbs, Meets, WellFormed, OneParent, NoDangling;
    n :| Climbs(t, d, n);
    ClimbBound(t, d, n);
    forall m: nat | Climbs(t, d, m) ensures m == n {
      ClimbsOnce(t, d, n, m);
    }
  }

  lemma RootClimb(t: Tree, cur: nat, n: nat)
    requires Structured(t) && Climbs(t, cur, n) && (cur == ROOTINO || cur == 0)
    ensures forall anc: nat :: Meets(t, cur, n, anc) <==> anc == cur
  {
    hide OneParent, NoDangling, Rooted, WellFormed;
  }

  lemma ClimbIsDir(t: Tree, cur: nat, n: nat)
    requires Structured(t) && Climbs(t, cur, n)
    ensures t.IsDir(cur)
  {
    hide OneParent, NoDangling, Rooted, WellFormed;
  }

  lemma UpFound(t: Tree, cur: nat, n: nat, up: nat)
    requires Structured(t) && Climbs(t, cur, n) && cur != ROOTINO && t.IsDir(cur)
    requires WellFormed(t, cur) ==>
               (up == 0 <==> forall i: nat :: !Refers(t, cur, DOTDOT, i))
               && (up != 0 ==> Refers(t, cur, DOTDOT, up))
    ensures n > 0 && up == Up(t, cur) && up != 0 && up != cur && Climbs(t, up, n - 1)
    ensures forall anc: nat | anc != cur :: Meets(t, cur, n, anc) <==> Meets(t, up, n - 1, anc)
  {
    hide OneParent, NoDangling;
    assert WellFormed(t, cur);
    assert Refers(t, cur, DOTDOT, Up(t, cur)) by {
      assert t.Ents(cur)[1] == Slot(Up(t, cur), DOTDOT);
    }
    DotOf(t, cur, DOTDOT, up);
    NotOwnParent(t, cur);
  }

  // ----- single changes

  /** An entry added to p. */
  lemma AddEntry(t: Tree, t': Tree, p: nat, n: string, c: nat)
    requires t.Shape() && t'.Shape() && WellFormedDirs(t) && t.IsDir(p) && c != 0 && !IsDot(n)
    requires OnlyDir(t, t', p) && EntryAdded(t.Ents(p), t'.Ents(p), n, c)
    requires (forall i: nat :: !Refers(t, p, n, i)) && AllFree(Tail(t', p))
    ensures WellFormedDirs(t')
    ensures forall i: nat :: (t'.IsDir(i) <==> t.IsDir(i)) && (t'.InUse(i) <==> t.InUse(i))
    ensures forall d: nat | t.IsDir(d) :: Up(t', d) == Up(t, d)
    ensures forall d: nat, m, i: nat ::
              Refers(t', d, m, i) <==> Refers(t, d, m, i) || (d == p && m == n && i == c)
    ensures Links(t') == Links(t) + multiset{c}
  {
    hide Links, Targets, Has, Unique;
    DotsKept(t, t', p, n, c);
    forall d: nat | t'.IsDir(d) ensures WellFormed(t', d) {
      if d != p {
        FormedElsewhere(t, t', p, d);
      }
    }
    forall d: nat | d != p ensures t'.Ents(d) == t.Ents(d) {}
    RefersAfter(t, t', p);
    LinksStep(t, t', p);
    var x := Targets(t.Ents(p));
    assert Links(t') + x == Links(t) + (x + multiset{c});
    CancelRight(Links(t'), Links(t) + multiset{c}, x);
  }

  /** An entry removed from p. */
  lemma DropEntry(t: Tree, t': Tree, p: nat, n: string, c: nat)
    requires t.Shape() && t'.Shape() && WellFormedDirs(t) && t.IsDir(p) && c != 0 && !IsDot(n)
    requires OnlyDir(t, t', p) && EntryRemoved(t.Ents(p), t'.Ents(p), n, c)
    requires Tail(t', p) == Tail(t, p)
    ensures WellFormedDirs(t')
    ensures forall i: nat :: (t'.IsDir(i) <==> t.IsDir(i)) && (t'.InUse(i) <==> t.InUse(i))
    ensures forall d: nat | t.IsDir(d) :: Up(t', d) == Up(t, d)
    ensures forall d: nat, m, i: nat ::
              Refers(t', d, m, i) <==> Refers(t, d, m, i) && !(d == p && m == n)
    ensures Links(t') + multiset{c} == Links(t)
  {
    hide Links, Targets, Has, Unique;
    RemovedDots(t, t', p, n, c);
    forall d: nat | t'.IsDir(d) ensures WellFormed(t', d) {
      if d != p {
        FormedElsewhere(t, t', p, d);
      }
    }
    forall d: nat | d != p ensures t'.Ents(d) == t.Ents(d) {}
    RefersAfter(t, t', p);
    LinksStep(t, t', p);
    var x := Targets(t'.Ents(p));
    assert Links(t') + (x + multiset{c}) == Links(t) + x;
    assert (Links(t') + multiset{c}) + x == Links(t') + (x + multiset{c});
    CancelRight(Links(t') + multiset{c}, Links(t), x);
  }

  lemma RemovedDots(t: Tree, t': Tree, p: nat, n: string, c: nat)
    requires t.Shape() && t'.Shape() && t.IsDir(p) && t'.IsDir(p) && WellFormed(t, p) && !IsDot(n)
    requires EntryRemoved(t.Ents(p), t'.Ents(p), n, c) && Tail(t', p) == Tail(t, p)
    ensures WellFormed(t', p) && Up(t', p) == Up(t, p)
  {
    hide Has, Targets;
  }

  /** The ".." of directory c turned to q. */
  lemma TurnUp(t: Tree, t': Tree, c: nat, q: nat)
    requires t.Shape() && t'.Shape() && WellFormedDirs(t) && t.IsDir(c) && q != 0
    requires t'.ilist == t.ilist && |t.dirs[c]| >= 2
    requires t'.dirs == t.dirs[c := t.dirs[c][1 := Slot(q, t.dirs[c][1].name)]]
    ensures WellFormedDirs(t') && Up(t', c) == q
    ensures forall d: nat | d != c :: Up(t', d) == Up(t, d)
    ensures forall d: nat, m, i: nat ::
              Refers(t', d, m, i) <==>
                if d == c && m == DOTDOT then i == q else Refers(t, d, m, i)
    ensures Links(t') + multiset{Up(t, c)} == Links(t) + multiset{q}
  {
    hide Links, Targets;
    var s, s' := t.Ents(c), t'.Ents(c);
    assert WellFormed(t, c);
    assert s' == s[1 := Slot(q, DOTDOT)];
    TurnedSlot(s, q);
    assert Tail(t', c) == Tail(t, c);
    forall d: nat | d != c ensures t'.Ents(d) == t.Ents(d) {}
    forall d: nat | t'.IsDir(d) ensures WellFormed(t', d) {
      if d != c {
        FormedElsewhere(t, t', c, d);
      }
    }
    RefersAfter(t, t', c);
    LinksStep(t, t', c);
    TargetsUpdate(s, 1, Slot(q, DOTDOT));
    var a, b, x, y := Links(t'), Links(t), Targets(s), Targets(s');
    assert y + multiset{s[1].ino} == x + multiset{q} by { assert Target(s[1]) == multiset{s[1].ino}; }
    assert (a + multiset{s[1].ino}) + x == (a + x) + multiset{s[1].ino}
        == (b + y) + multiset{s[1].ino} == b + (y + multiset{s[1].ino}) == (b + multiset{q}) + x;
    CancelRight(a + multiset{s[1].ino}, b + multiset{q}, x);
  }

  lemma TurnedSlot(s: seq<Slot>, q: nat)
    requires |s| >= 2 && s[1].name == DOTDOT && s[1].ino != 0 && q != 0 && Unique(s)
    ensures var s' := s[1 := Slot(q, DOTDOT)];
            Unique(s') && forall m, i: nat ::
              Has(s', m, i) <==> if m == DOTDOT then i == q else Has(s, m, i)
  {
    var s' := s[1 := Slot(q, DOTDOT)];
    assert s'[1] == Slot(q, DOTDOT);
    forall m, i: nat ensures Has(s', m, i) <==> if m == DOTDOT then i == q else Has(s, m, i) {
      if Has(s, m, i) && m != DOTDOT {
        var k :| 0 <= k < |s| && s[k] == Slot(i, m);
        assert s'[k] == Slot(i, m);
      }
      if Has(s', m, i) {
        var k :| 0 <= k < |s'| && s'[k] == Slot(i, m);
        assert k == 1 || s[k] == Slot(i, m);
      }
    }
  }

  // ----- the two moves

  /** Entry (fp, fn) became (tp, tn); a directory's ".." now names tp. */
  ghost predicate NameMoved(t: Tree, t': Tree, fp: nat, fn: string, tp: nat, tn: string, c: nat) {
    forall d: nat, m, i: nat ::
      Refers(t', d, m, i) <==>
        (d == tp && m == tn && i == c) || (t.IsDir(c) && d == c && m == DOTDOT && i == tp)
        || (Refers(t, d, m, i) && !(d == fp && m == fn) && !(t.IsDir(c) && d == c && m == DOTDOT))
  }

  /** A file's entry moved. */
  lemma FileMoved(t: Tree, t2: Tree, t3: Tree, fp: nat, fn: string, tp: nat, tn: string, c: nat)
    requires Structured(t) && t2.Shape() && t3.Shape() && t.IsDir(fp) && t.IsDir(tp)
    requires Refers(t, fp, fn, c) && !t.IsDir(c) && !IsDot(fn) && !IsDot(tn)
    requires OnlyDir(t, t2, tp) && EntryAdded(t.Ents(tp), t2.Ents(tp), tn, c)
    requires (forall i: nat :: !Refers(t, tp, tn, i)) && AllFree(Tail(t2, tp))
    requires OnlyDir(t2, t3, fp) && EntryRemoved(t2.Ents(fp), t3.Ents(fp), fn, c)
    requires Tail(t3, fp) == Tail(t2, fp)
    ensures Structured(t3) && Links(t3) == Links(t) && NameMoved(t, t3, fp, fn, tp, tn, c)
  {
    hide Links, EntryAdded, EntryRemoved, WellFormedDirs, Refers, OneParent, Rooted, Up, AllFree;
    EntryInUse(t, fp, fn, c);
    AddEntry(t, t2, tp, tn, c);
    LinkFile(t, t2, tp, tn, c);
    DropEntry(t2, t3, fp, fn, c);
    UnlinkFile(t2, t3, fp, fn, c);
    CancelRight(Links(t3), Links(t), multiset{c});
  }

  lemma EntryInUse(t: Tree, p: nat, n: string, c: nat)
    requires NoDangling(t) && Refers(t, p, n, c)
    ensures t.InUse(c) && c != 0
  {
    hide Refers;
  }

  /** A directory's entry moved, and its ".." with it. */
  lemma DirMoved(t: Tree, t2: Tree, t3: Tree, t4: Tree, fp: nat, fn: string, tp: nat, tn: string, c: nat)
    requires Structured(t) && t2.Shape() && t3.Shape() && t4.Shape() && t.IsDir(fp) && t.IsDir(tp)
    requires Refers(t, fp, fn, c) && t.IsDir(c) && !IsDot(fn) && !IsDot(tn) && !Above(t, c, tp)
    requires OnlyDir(t, t2, tp) && EntryAdded(t.Ents(tp), t2.Ents(tp), tn, c)
    requires (forall i: nat :: !Refers(t, tp, tn, i)) && AllFree(Tail(t2, tp))
    requires OnlyDir(t2, t3, fp) && EntryRemoved(t2.Ents(fp), t3.Ents(fp), fn, c)
    requires Tail(t3, fp) == Tail(t2, fp)
    requires if fp == tp then t4 == t3
             else t4.ilist == t3.ilist && |t3.dirs[c]| >= 2
                  && t4.dirs == t3.dirs[c := t3.dirs[c][1 := Slot(tp, t3.dirs[c][1].name)]]
    ensures Structured(t4) && Links(t4) + multiset{fp} == Links(t) + multiset{tp}
    ensures NameMoved(t, t4, fp, fn, tp, tn, c)
  {
    hide Links, EntryAdded, EntryRemoved, WellFormedDirs, Refers, Rooted, Up, AllFree, Above;
    ParentOf(t, fp, fn, c);
    EntryInUse(t, fp, fn, c);
    AddEntry(t, t2, tp, tn, c);
    DropEntry(t2, t3, fp, fn, c);
    CancelRight(Links(t3), Links(t), multiset{c});
    DirInUse(t, tp);
    if fp == tp {
      UpRefers(t, c);
      forall d: nat, m, i: nat
        ensures Refers(t3, d, m, i) <==>
                  (d == tp && m == tn && i == c) || (d == c && m == DOTDOT && i == tp)
                  || (Refers(t, d, m, i) && !(d == fp && m == fn) && !(d == c && m == DOTDOT))
      {
        if d == c && m == DOTDOT && Refers(t, c, DOTDOT, i) {
          DotOf(t, c, DOTDOT, i);
        }
      }
      MoveDir(t, t3, fp, fn, tp, tn, c);
    } else {
      TurnUp(t3, t4, c, tp);
      MoveDir(t, t4, fp, fn, tp, tn, c);
    }
  }

  lemma UpRefers(t: Tree, c: nat)
    requires t.Shape() && WellFormedDirs(t) && t.IsDir(c)
    ensures Refers(t, c, DOTDOT, Up(t, c))
  {
    assert WellFormed(t, c);
    assert t.Ents(c)[1] == Slot(Up(t, c), DOTDOT);
  }

  // ----- rw_rename

  /** Counts are right, except that q's is `extra` too high. */
  ghost predicate CountedBut(t: Tree, q: nat, extra: nat) {
    forall i: nat | t.InUse(i) ::
      t.ilist[i].nlink == Links(t)[i] + (if i == q then extra else 0)
      && (i != BADBLKINO ==> Links(t)[i] > 0)
  }

  ghost predicate SmallCounts(t: Tree) {
    forall i | 0 <= i < |t.ilist| :: t.ilist[i].nlink < 0x8000
  }

  /** Tree t after the target x of the name (tp, tn) was let go. */
  ghost predicate Vacated(t: Tree, t1: Tree, tp: nat, tn: string, x: nat) {
    && t1.Shape() && |t1.ilist| == |t.ilist| && x != tp
    && (forall i: nat :: t1.IsDir(i) <==> t.IsDir(i) && i != x)
    && (forall d: nat | t.IsDir(d) && d != x :: Up(t1, d) == Up(t, d))
    && (forall d: nat, m, i: nat ::
          Refers(t1, d, m, i) <==> Refers(t, d, m, i) && !(d == tp && m == tn) && (d != x || !t.IsDir(x)))
  }

  lemma FileVacated(t: Tree, t0: Tree, t1: Tree, tp: nat, tn: string, x: nat)
    requires Consistent(t) && t.IsDir(tp) && Refers(t, tp, tn, x) && !t.IsDir(x) && !IsDot(tn)
    requires x < |t.ilist| && SmallCounts(t) && OnlyDir(t, t0, tp) && t0.ilist == t.ilist
    requires EntryRemoved(t.Ents(tp), t0.Ents(tp), tn, x) && Tail(t0, tp) == Tail(t, tp)
    requires t0.Shape() && t1.Shape() && t1 == FileUnref(t0, x)
    ensures Structured(t1) && CountedBut(t1, tp, 0) && SmallCounts(t1) && Vacated(t, t1, tp, tn, x)
    ensures AllFree(Tail(t1, tp))
    ensures t1.dirs[tp] == t0.dirs[tp] && t1.ilist[tp].live == t0.ilist[tp].live
  {
    hide Links, EntryRemoved, Refers, Up, OneParent, Rooted, NoDangling, WellFormed, AllFree;
    ConsistentParts(t, tp);
    assert t1.Ents(tp) == t0.Ents(tp);
    UnlinkKeeps(t, t1, tp, tn, x);
    ShrunkFormed(t, t1, tp, tn, x);
    ShrunkRefers(t, t1, tp, tn, x);
    NamedCount(t, tp, tn, x);
    DecrementedIs(t.ilist[x].nlink);
  }

  lemma NamedCount(t: Tree, p: nat, n: string, c: nat)
    requires Consistent(t) && Refers(t, p, n, c)
    ensures t.InUse(c) && t.ilist[c].nlink == Links(t)[c] > 0
  {
    hide Refers, OneParent, Rooted, WellFormedDirs, Links;
    LinkWitness(t, c);
  }

  lemma DirVacated(t: Tree, t0: Tree, t1: Tree, tp: nat, tn: string, x: nat, lost: bool)
    requires Consistent(t) && t.IsDir(tp) && Refers(t, tp, tn, x) && t.IsDir(x) && !IsDot(tn)
    requires x < |t.ilist| && SmallCounts(t) && OnlyDir(t, t0, tp) && t0.ilist == t.ilist
    requires forall m, i: nat | Refers(t, x, m, i) :: IsDot(m)
    requires EntryRemoved(t.Ents(tp), t0.Ents(tp), tn, x) && Tail(t0, tp) == Tail(t, tp)
    requires t0.Shape() && t1.Shape() && t1 == DirUnref(t0, x, tp, lost) && x != tp
    ensures Structured(t1) && CountedBut(t1, tp, if lost then 1 else 0) && SmallCounts(t1)
    ensures Vacated(t, t1, tp, tn, x) && AllFree(Tail(t1, tp))
    ensures t1.dirs[tp] == t0.dirs[tp] && t1.ilist[tp].live == t0.ilist[tp].live
  {
    hide Links, EntryRemoved, Refers, Up, OneParent, Rooted, NoDangling, WellFormed, AllFree;
    ConsistentParts(t, tp);
    ConsistentParts(t, x);
    assert t1.Ents(tp) == t0.Ents(tp);
    ParentOf(t, tp, tn, x);
    RmdirKeeps(t, t1, tp, tn, x, lost);
    ShrunkFormed(t, t1, tp, tn, x);
    ShrunkRefers(t, t1, tp, tn, x);
    RmdirLinks(t, t1, tp, tn, x);
    SelfLink(t1, tp);
    VacatedCounts(t, t1, tp, x, lost);
  }

  lemma VacatedCounts(t: Tree, t1: Tree, p: nat, c: nat, lost: bool)
    requires Counted(t) && t.InUse(p) && !t1.InUse(c) && p != c && Links(t1)[p] > 0
    requires Links(t1) + multiset{c, c, p} == Links(t) && SmallCounts(t)
    requires |t1.ilist| == |t.ilist| && t1.InUse(p) && c < |t.ilist| && t1.ilist[c] == FREE
    requires forall i | 0 <= i < |t.ilist| && i != p && i != c :: t1.ilist[i] == t.ilist[i]
    requires t1.ilist[p].nlink == if lost then t.ilist[p].nlink else Word16(t.ilist[p].nlink - 1)
    ensures CountedBut(t1, p, if lost then 1 else 0) && SmallCounts(t1)
  {
    hide Links;
    var x := multiset{c, c, p};
    forall i: nat ensures Links(t)[i] == Links(t1)[i] + x[i] {
      assert (Links(t1) + x)[i] == Links(t1)[i] + x[i];
    }
    assert x[p] == 1 && forall i: nat | i != p && i != c :: x[i] == 0;
    SmallMod(t.ilist[p].nlink - 1, 0x1_0000);
  }

  /** A directory that was not above another still is not, after the vacated one left. */
  lemma {:induction false} StillNotAbove(t: Tree, t1: Tree, tp: nat, c: nat)
    requires !Above(t, c, tp)
    requires forall d: nat | t1.IsDir(d) :: t.IsDir(d) && Up(t1, d) == Up(t, d)
    ensures !Above(t1, c, tp)
  {
    hide Up, Climbs, Meets;
    forall n: nat | Climbs(t1, tp, n) ensures !Meets(t1, tp, n, c) {
      ClimbsSame(t1, t, tp, n);
      MeetsSame(t1, t, tp, n, c);
    }
  }

  lemma {:induction false} MeetsSame(t: Tree, t': Tree, d: nat, n: nat, c: nat)
    requires Climbs(t, d, n)
    requires forall x: nat | t.IsDir(x) :: Up(t', x) == Up(t, x)
    ensures Meets(t', d, n, c) <==> Meets(t, d, n, c)
    decreases n
  {
    if n > 0 {
      MeetsSame(t, t', Up(t, d), n - 1, c);
    }
  }

  // facts about the two directories of a rename

  lemma StructuredDirs(t: Tree, fp: nat, fn: string, tp: nat, c: nat)
    requires Structured(t) && t.IsDir(fp) && t.IsDir(tp) && Refers(t, fp, fn, c) && !IsDot(fn)
    requires t.IsDir(c) ==> !Above(t, c, tp)
    ensures fp != 0 && tp != 0 && Unique(t.Ents(fp)) && Unique(t.Ents(tp)) && t.InUse(c)
    ensures t.IsDir(c) ==> c != fp && c != tp && |t.Ents(c)| >= 2
  {
    hide Refers, OneParent, NoDangling, Unique, AllFree, Climbs;
    EntryInUse(t, fp, fn, c);
    assert WellFormed(t, fp) && WellFormed(t, tp);
    if t.IsDir(c) {
      assert WellFormed(t, c);
      ParentOf(t, fp, fn, c);
      var n: nat :| Climbs(t, tp, n);
      assert Meets(t, tp, n, tp);
    }
  }

  lemma AddedUnique(t: Tree, t2: Tree, fp: nat, fn: string, tp: nat, tn: string, c: nat)
    requires t.Shape() && t2.Shape() && OnlyDir(t, t2, tp) && EntryAdded(t.Ents(tp), t2.Ents(tp), tn, c)
    requires Unique(t.Ents(fp)) && Unique(t.Ents(tp)) && forall i: nat :: !Refers(t, tp, tn, i)
    requires Refers(t, fp, fn, c)
    ensures Unique(t2.Ents(fp)) && Refers(t2, fp, fn, c)
  {
    hide Has, Unique, Targets;
    forall i: nat ensures !Has(t.Ents(tp), tn, i) {
      assert !Refers(t, tp, tn, i);
    }
    if fp != tp {
      assert t2.Ents(fp) == t.Ents(fp);
    }
  }

  lemma SameOne(t: Tree, p: nat, n: string, c: nat, di: nat)
    requires Unique(t.Ents(p)) && Refers(t, p, n, c)
    requires di == 0 ==> forall i: nat :: !Refers(t, p, n, i)
    requires di != 0 ==> Refers(t, p, n, di)
    ensures di == c && di != 0
  {
    hide Has, Unique;
    if di != 0 {
      HasOnce(t.Ents(p), n, c, di);
    }
    assert Refers(t, p, n, c);
  }

  lemma DirtyTail(t: Tree, tp: nat)
    requires t.Shape() && t.IsDir(tp) && !AllFree(Tail(t, tp))
    ensures !Structured(t)
  {
    hide NoDangling, OneParent, Rooted, Unique;
    assert WellFormedDirs(t) ==> WellFormed(t, tp);
  }

  /** Entry moved, ".." not concerned. */
  lemma Installed(t: Tree, t2: Tree, t3: Tree, fp: nat, fn: string, tp: nat, tn: string, c: nat,
                  extra: nat)
    requires Structured(t) && CountedBut(t, tp, extra) && t2.Shape() && t3.Shape()
    requires t.IsDir(fp) && t.IsDir(tp) && !IsDot(fn) && !IsDot(tn) && Refers(t, fp, fn, c)
    requires t.IsDir(c) ==> !Above(t, c, tp) && fp == tp
    requires OnlyDir(t, t2, tp) && EntryAdded(t.Ents(tp), t2.Ents(tp), tn, c)
    requires forall i: nat :: !Refers(t, tp, tn, i)
    requires OnlyDir(t2, t3, fp) && EntryRemoved(t2.Ents(fp), t3.Ents(fp), fn, c)
    requires Tail(t3, fp) == Tail(t2, fp)
    ensures Structured(t3) <==> AllFree(Tail(t2, tp))
    ensures AllFree(Tail(t2, tp)) ==>
              CountedBut(t3, tp, extra) && NameMoved(t, t3, fp, fn, tp, tn, c)
  {
    hide NameMoved, Structured, Links, Refers, EntryAdded, EntryRemoved, Above, AllFree;
    assert Tail(t3, tp) == Tail(t2, tp);
    if AllFree(Tail(t2, tp)) {
      StructuredDirs(t, fp, fn, tp, c);
      if t.IsDir(c) {
        DirMoved(t, t2, t3, t3, fp, fn, tp, tn, c);
        CancelRight(Links(t3), Links(t), multiset{fp});
      } else {
        FileMoved(t, t2, t3, fp, fn, tp, tn, c);
      }
    } else {
      DirtyTail(t3, tp);
    }
  }

  /** Entry moved between two directories, ".." turned, both counts adjusted. */
  lemma InstalledDir(t: Tree, t2: Tree, t3: Tree, t4: Tree, t5: Tree, fp: nat, fn: string,
                     tp: nat, tn: string, c: nat, extra: nat)
    requires Structured(t) && CountedBut(t, tp, extra) && SmallCounts(t)
    requires t2.Shape() && t3.Shape() && t4.Shape() && t5.Shape()
    requires t.IsDir(fp) && t.IsDir(tp) && !IsDot(fn) && !IsDot(tn) && Refers(t, fp, fn, c)
    requires t.IsDir(c) && !Above(t, c, tp) && fp != tp
    requires OnlyDir(t, t2, tp) && EntryAdded(t.Ents(tp), t2.Ents(tp), tn, c)
    requires forall i: nat :: !Refers(t, tp, tn, i)
    requires OnlyDir(t2, t3, fp) && EntryRemoved(t2.Ents(fp), t3.Ents(fp), fn, c)
    requires Tail(t3, fp) == Tail(t2, fp)
    requires t4.ilist == t3.ilist && |t3.dirs[c]| >= 2
    requires t4.dirs == t3.dirs[c := t3.dirs[c][1 := Slot(tp, t3.dirs[c][1].name)]]
    requires t5.dirs == t4.dirs
    requires var il := t4.ilist[fp := t4.ilist[fp].(nlink := Word16(t4.ilist[fp].nlink - 1))];
             t5.ilist == il[tp := il[tp].(nlink := Word16(il[tp].nlink + 1))]
    ensures Structured(t5) <==> AllFree(Tail(t2, tp))
    ensures AllFree(Tail(t2, tp)) ==>
              CountedBut(t5, tp, extra) && NameMoved(t, t5, fp, fn, tp, tn, c)
  {
    hide Structured, CountedBut, Links, Refers, EntryAdded, EntryRemoved, Above, AllFree, SmallCounts;
    StructuredDirs(t, fp, fn, tp, c);
    assert Tail(t5, tp) == Tail(t2, tp);
    if AllFree(Tail(t2, tp)) {
      DirMoved(t, t2, t3, t4, fp, fn, tp, tn, c);
      RenumberedDirs(t4, t5);
      StructuredSelf(t5, fp);
      MovedCounts(t, t4, t5, fp, tp, extra);
    } else {
      DirtyTail(t5, tp);
    }
  }

  lemma StructuredSelf(t: Tree, p: nat)
    requires Structured(t) && t.IsDir(p)
    ensures Links(t)[p] > 0
  {
    hide Links, NoDangling, OneParent, Rooted;
    assert WellFormed(t, p);
    SelfLink(t, p);
  }

  /** Counts have no part in the structure. */
  lemma RenumberedDirs(t: Tree, t': Tree)
    requires Structured(t) && t'.Shape() && t'.dirs == t.dirs && |t'.ilist| == |t.ilist|
    requires forall i | 0 <= i < |t.ilist| ::
               t'.ilist[i].kind == t.ilist[i].kind && t'.ilist[i].live == t.ilist[i].live
    ensures Structured(t') && Links(t') == Links(t)
    ensures forall d: nat, m, i: nat :: Refers(t', d, m, i) <==> Refers(t, d, m, i)
  {
    forall d: nat ensures t'.Ents(d) == t.Ents(d) {}
    hide Has;
    assert DirTargets(t') == DirTargets(t);
    hide Links, Targets;
    assert forall d: nat :: t'.IsDir(d) <==> t.IsDir(d);
    forall d: nat | t'.IsDir(d) ensures WellFormed(t', d) {
      assert WellFormed(t, d);
    }
    assert OneParent(t') && NoDangling(t') by {
      forall d: nat ensures Up(t', d) == Up(t, d) {}
      forall d: nat, m, i: nat ensures Refers(t', d, m, i) <==> Refers(t, d, m, i) {}
      hide Up, Refers;
      forall x: nat | t'.IsDir(x) && x != ROOTINO
        ensures t'.IsDir(Up(t', x)) && exists m :: !IsDot(m) && Refers(t', Up(t', x), m, x)
      {
        var m :| !IsDot(m) && Refers(t, Up(t, x), m, x);
        assert Refers(t', Up(t', x), m, x);
      }
    }
    RootedSame(t, t');
  }

  lemma MovedCounts(t: Tree, t4: Tree, t5: Tree, fp: nat, tp: nat, extra: nat)
    requires CountedBut(t, tp, extra) && SmallCounts(t) && t.InUse(fp) && t.InUse(tp) && fp != tp
    requires Links(t4) + multiset{fp} == Links(t) + multiset{tp} && Links(t5) == Links(t4)
    requires |t4.ilist| == |t.ilist| && Links(t5)[fp] > 0
    requires forall i | 0 <= i < |t.ilist| ::
               t4.ilist[i].kind == t.ilist[i].kind && t4.ilist[i].nlink == t.ilist[i].nlink
    requires var il := t4.ilist[fp := t4.ilist[fp].(nlink := Word16(t4.ilist[fp].nlink - 1))];
             t5.ilist == il[tp := il[tp].(nlink := Word16(il[tp].nlink + 1))]
    ensures CountedBut(t5, tp, extra)
  {
    hide Links;
    var a, b := Links(t4), Links(t);
    forall i: nat ensures a[i] + multiset{fp}[i] == b[i] + multiset{tp}[i] {
      assert (a + multiset{fp})[i] == (b + multiset{tp})[i];
    }
    var x, y := t.ilist[fp].nlink, t.ilist[tp].nlink;
    assert x == b[fp] == a[fp] + 1;
    SmallMod(x - 1, 0x1_0000);
    SmallMod(y + 1, 0x1_0000);
    forall i: nat | t5.InUse(i)
      ensures t5.ilist[i].nlink == a[i] + (if i == tp then extra else 0) && (i != BADBLKINO ==> a[i] > 0)
    {
      assert t.InUse(i);
    }
  }

  /** Directory c moves from fp to tp: its "..", and a link from the one to the other. */
  method Reparent(h: RW, fp: nat, tp: nat, c: nat)
    requires h.Valid() && h.T().IsDir(c) && |h.dirs[c]| >= 2
    requires 1 <= fp < |h.ilist| && 1 <= tp < |h.ilist|
    modifies h
    ensures h.Valid()
    ensures h.dirs == old(h.dirs)[c := old(h.dirs)[c][1 := Slot(tp, old(h.dirs)[c][1].name)]]
    ensures var il := old(h.ilist)[fp := old(h.ilist)[fp].(nlink := Word16(old(h.ilist)[fp].nlink - 1))];
            h.ilist == il[tp := il[tp].(nlink := Word16(il[tp].nlink + 1))]
  {
    h.SetDotdot(c, tp);
    h.BumpNlink(fp, -1);
    h.BumpNlink(tp, 1);
  }

  lemma StillDir(t: Tree, t': Tree, p: nat, d: nat)
    requires OnlyDir(t, t', p) && t.IsDir(d)
    ensures t'.IsDir(d)
  {
  }

  /** Writing two directories leaves every other inode alone. */
  lemma TwoWritten(t: Tree, t2: Tree, t3: Tree, fp: nat, tp: nat, c: nat)
    requires t.Shape() && OnlyDir(t, t2, tp) && OnlyDir(t2, t3, fp) && t.IsDir(fp) && t.IsDir(tp)
    requires t.IsDir(c) ==> c != fp && c != tp && |t.Ents(c)| >= 2
    ensures OthersKept(t, t3, tp, fp) && t3.IsDir(fp) && t3.IsDir(tp)
    ensures t.IsDir(c) ==> t3.IsDir(c) && c < |t3.dirs| && |t3.dirs[c]| >= 2
  {
  }

  lemma RenumberedKept(t: Tree, t3: Tree, t5: Tree, fp: nat, tp: nat)
    requires OthersKept(t, t3, tp, fp) && t3.IsDir(fp) && t3.IsDir(tp)
    requires var il := t3.ilist[fp := t3.ilist[fp].(nlink := Word16(t3.ilist[fp].nlink - 1))];
             t5.ilist == il[tp := il[tp].(nlink := Word16(il[tp].nlink + 1))]
    ensures OthersKept(t, t5, tp, fp) && t5.IsDir(tp)
  {
  }

  /** With the new entry in place: the old one goes, and a directory changes parents. */
  method MoveOut(h: RW, fp: nat, fn: string, tp: nat, tn: string, c: nat, sdir: bool, ghost t: Tree,
                 ghost extra: nat)
    requires h.Valid() && t.Shape() && Structured(t) && CountedBut(t, tp, extra) && SmallCounts(t)
    requires t.IsDir(fp) && t.IsDir(tp) && !IsDot(fn) && !IsDot(tn)
    requires Refers(t, fp, fn, c) && forall i: nat :: !Refers(t, tp, tn, i)
    requires sdir == t.IsDir(c) && (sdir ==> !Above(t, c, tp))
    requires OnlyDir(t, h.T(), tp) && EntryAdded(t.Ents(tp), h.T().Ents(tp), tn, c)
    modifies h
    ensures h.Valid() && h.T().IsDir(tp) && OthersKept(t, h.T(), tp, fp)
    ensures Structured(h.T()) <==> AllFree(Tail(old(h.T()), tp))
    ensures AllFree(Tail(old(h.T()), tp)) ==>
              CountedBut(h.T(), tp, extra) && NameMoved(t, h.T(), fp, fn, tp, tn, c)
  {
    hide NameMoved, Structured, CountedBut, SmallCounts, Refers, EntryAdded, EntryRemoved, Above, AllFree;
    hide Tail, NeedsBlock, Unique, NameOk, IsDot, Tree.Ents, OnlyDir, OthersKept;
    StructuredDirs(t, fp, fn, tp, c);
    ghost var t2 := h.T();
    AddedUnique(t, t2, fp, fn, tp, tn, c);
    StillDir(t, t2, tp, fp);
    var di := h.DirRemove(fp, fn);
    ghost var t3 := h.T();
    SameOne(t2, fp, fn, c, di);
    TwoWritten(t, t2, t3, fp, tp, c);
    if sdir && fp != tp {
      Reparent(h, fp, tp, c);
      RenumberedKept(t, t3, h.T(), fp, tp);
      InstalledDir(t, t2, t3, Tree(t3.ilist, h.dirs), h.T(), fp, fn, tp, tn, c, extra);
    } else {
      Installed(t, t2, t3, fp, fn, tp, tn, c, extra);
    }
  }

  /** The rest of a rename once the target name is vacant. */
  method Install(h: RW, fp: nat, fn: string, tp: nat, tn: string, c: nat, sdir: bool,
                 room: Room, stale: seq<Slot>, ghost extra: nat) returns (rc: int)
    requires h.Valid() && Structured(h.T()) && CountedBut(h.T(), tp, extra) && SmallCounts(h.T())
    requires h.T().IsDir(fp) && h.T().IsDir(tp) && !IsDot(fn) && !IsDot(tn) && NameOk(tn)
    requires |stale| == h.ndirect && AllFree(Tail(h.T(), tp))
    requires Refers(h.T(), fp, fn, c) && forall i: nat :: !Refers(h.T(), tp, tn, i)
    requires sdir == h.T().IsDir(c) && (sdir ==> !Above(h.T(), c, tp))
    modifies h
    ensures h.failed || h.Valid()
    ensures h.failed <==> NeedsBlock(old(h.T()), tp) && !room.Had?
    ensures rc == if h.failed then FailedReply(room) else 0
    ensures h.failed ==> h.T() == old(h.T())
    ensures h.T().IsDir(tp)
    ensures !h.failed ==>
              var clean := !NeedsBlock(old(h.T()), tp) || AllFree(stale[1..]);
              && (Structured(h.T()) <==> clean)
              && (clean ==> CountedBut(h.T(), tp, extra) && NameMoved(old(h.T()), h.T(), fp, fn, tp, tn, c))
              && OthersKept(old(h.T()), h.T(), tp, fp)
  {
    hide NameMoved, Structured, CountedBut, SmallCounts, Refers, EntryAdded, EntryRemoved, Above, AllFree;
    hide Tail, NeedsBlock, Unique, NameOk, IsDot, Tree.Ents, OnlyDir, OthersKept;
    ghost var t := h.T();
    StructuredDirs(t, fp, fn, tp, c);
    rc := h.DirAdd(tp, tn, c, room, stale);
    if h.failed {
      // answered or not, the writes that are left are refused
      return;
    }
    MoveOut(h, fp, fn, tp, tn, c, sdir, t, extra);
  }

  /** Let the target of a rename go. */
  method Vacate(h: RW, tp: nat, tn: string, x: nat, tdir: bool) returns (ghost lost: bool)
    requires h.Valid() && Consistent(h.T()) && SmallCounts(h.T()) && h.T().IsDir(tp) && !IsDot(tn)
    requires Refers(h.T(), tp, tn, x) && tdir == h.T().IsDir(x)
    requires tdir ==> forall m, i: nat | Refers(h.T(), x, m, i) :: IsDot(m)
    modifies h
    ensures h.Valid() && Structured(h.T()) && SmallCounts(h.T())
    ensures 1 <= x && 1 <= tp && lost == (tdir && h.SameBlock(x, tp))
    ensures CountedBut(h.T(), tp, if lost then 1 else 0)
    ensures Vacated(old(h.T()), h.T(), tp, tn, x) && OthersKept(old(h.T()), h.T(), tp, x)
    ensures AllFree(Tail(h.T(), tp)) && !NeedsBlock(h.T(), tp)
  {
    hide Consistent, Structured, CountedBut, SmallCounts, Refers, EntryRemoved, Vacated, AllFree;
    ghost var t := h.T();
    ConsistentParts(t, tp);
    NamedInUse(t, tp, tn, x);
    if tdir {
      ParentOf(t, tp, tn, x) by { ConsistentStructured(t); }
    }
    var di := h.DirRemove(tp, tn);
    SameOne(t, tp, tn, x, di);
    ghost var t0 := h.T();
    lost := tdir && h.SameBlock(x, tp);
    h.UnrefInode(x, tdir, tp);
    if tdir {
      DirVacated(t, t0, h.T(), tp, tn, x, lost);
    } else {
      FileVacated(t, t0, h.T(), tp, tn, x);
    }
  }

  /** The source of a rename is untouched by letting the target go. */
  lemma VacatedFor(t: Tree, t1: Tree, fp: nat, fn: string, tp: nat, tn: string, x: nat, c: nat)
    requires Structured(t) && Vacated(t, t1, tp, tn, x) && t.IsDir(fp) && t.IsDir(tp)
    requires Refers(t, fp, fn, c) && !IsDot(fn) && Refers(t, tp, tn, x) && x != c
    requires t.IsDir(x) ==> forall m, i: nat | Refers(t, x, m, i) :: IsDot(m)
    requires t.IsDir(c) ==> !Above(t, c, tp)
    ensures t1.IsDir(fp) && t1.IsDir(tp) && Refers(t1, fp, fn, c)
    ensures forall i: nat :: !Refers(t1, tp, tn, i)
    ensures t1.IsDir(c) <==> t.IsDir(c)
    ensures t1.IsDir(c) ==> !Above(t1, c, tp)
  {
    hide Refers, OneParent, NoDangling, Rooted, Up, Above, WellFormedDirs;
    if fp == tp && fn == tn {
      NameOnce(t, fp, fn, c, x);
    }
    if t.IsDir(c) {
      StillNotAbove(t, t1, tp, c);
    }
  }

  lemma NoZero(t: Tree, p: nat, n: string)
    ensures !Refers(t, p, n, 0)
  {
  }

  lemma CountedExactly(t: Tree, tp: nat)
    requires Consistent(t)
    ensures CountedBut(t, tp, 0)
  {
    hide Links, Structured;
  }

  lemma CountedFinally(t: Tree, tp: nat, extra: nat)
    requires Structured(t) && CountedBut(t, tp, extra) ==> t.InUse(tp)
    ensures Structured(t) && CountedBut(t, tp, extra) ==>
              && (Consistent(t) <==> extra == 0)
              && t.ilist[tp].nlink == Links(t)[tp] + extra
    ensures Consistent(t) ==> Structured(t)
  {
    hide Links, Structured;
  }

  /** Which answer a rename gives, and why. */
  ghost predicate RenameAnswer(t: Tree, fp: nat, fn: string, tp: nat, tn: string, room: Room,
                               rc: int, c: nat, x: nat)
    requires t.Shape() && t.IsDir(tp)
  {
    if rc == -ENOENT then
      forall i: nat :: !Refers(t, fp, fn, i)
    else
      && Refers(t, fp, fn, c)
      && if !NameOk(tn) then rc == -ENAMETOOLONG
         else if t.IsDir(c) && Above(t, c, tp) then rc == -EINVAL
         else
           && (if x == 0 then forall i: nat :: !Refers(t, tp, tn, i) else Refers(t, tp, tn, x))
           && rc == TargetAnswer(t, tp, room, c, x)
  }

  /** What the name to be taken over decides, x being 0 when it is free. */
  ghost function TargetAnswer(t: Tree, tp: nat, room: Room, c: nat, x: nat): int
    requires t.Shape() && t.IsDir(tp)
  {
    if x == 0 then (if NeedsBlock(t, tp) then FailedReply(room) else 0)
    else if x == c then 0
    else if t.IsDir(x) != t.IsDir(c) then (if t.IsDir(x) then -EISDIR else -ENOTDIR)
    else if t.IsDir(x) && HasEntries(t, x) then -ENOTEMPTY
    else 0
  }

  /** An entry besides "." and "..". */
  ghost predicate HasEntries(t: Tree, x: nat) {
    exists m, i: nat :: Refers(t, x, m, i) && !IsDot(m)
  }

  /** Each answer in its own words. */
  lemma RenameCodes(t: Tree, fp: nat, fn: string, tp: nat, tn: string, room: Room, rc: int, c: nat, x: nat)
    requires t.Shape() && t.IsDir(tp) && RenameAnswer(t, fp, fn, tp, tn, room, rc, c, x)
    ensures rc in {0, -2, -20, -21, -22, -28, -36, -39}
    ensures rc == -2 <==> forall i: nat :: !Refers(t, fp, fn, i)
    ensures rc == -36 ==> |tn| == 0 || |tn| > 14
    ensures rc == -22 ==> t.IsDir(c) && exists n: nat :: Climbs(t, tp, n) && Meets(t, tp, n, c)
    ensures rc == -21 ==> !t.IsDir(c) && Refers(t, tp, tn, x) && t.IsDir(x)
    ensures rc == -20 ==> t.IsDir(c) && Refers(t, tp, tn, x) && !t.IsDir(x)
    ensures rc == -39 ==>
              && t.IsDir(c) && Refers(t, tp, tn, x) && t.IsDir(x) && x != c
              && exists m, i: nat :: Refers(t, x, m, i) && m != "." && m != ".."
    ensures rc == -28 ==>
              && (forall i: nat :: !Refers(t, tp, tn, i))
              && t.ilist[tp].live == |t.dirs[tp]| && (forall k | 0 <= k < |t.dirs[tp]| :: t.dirs[tp][k].ino != 0)
    ensures rc == 0 ==>
              && Refers(t, fp, fn, c) && 0 < |tn| <= 14 && !(t.IsDir(c) && Above(t, c, tp))
              && (if x == 0 then forall i: nat :: !Refers(t, tp, tn, i) else Refers(t, tp, tn, x))
              && (x != 0 && x != c ==> t.IsDir(x) == t.IsDir(c))
              && (x != 0 && x != c && t.IsDir(x) ==>
                    forall m, i: nat | Refers(t, x, m, i) :: m == "." || m == "..")
  {
    hide Refers, Climbs, Meets;
  }

  /** The entries after a rename: the old name is gone, the new one stands for c, a
      directory that was replaced has none left, and a moved directory's ".." names its
      new parent. */
  ghost predicate NamesAfter(t: Tree, t': Tree, fp: nat, fn: string, tp: nat, tn: string, c: nat, x: nat) {
    forall d: nat, m, i: nat ::
      Refers(t', d, m, i) <==>
        (d == tp && m == tn && i == c) || (t.IsDir(c) && d == c && m == DOTDOT && i == tp)
        || (Refers(t, d, m, i) && !(d == fp && m == fn) && !(d == tp && m == tn) && d != x
            && !(t.IsDir(c) && d == c && m == DOTDOT))
  }

  /** Letting the target go, then moving. */
  lemma VacatedMoved(t: Tree, t1: Tree, t': Tree, fp: nat, fn: string, tp: nat, tn: string, c: nat, x: nat)
    requires Consistent(t) && Refers(t, fp, fn, c) && t1.IsDir(c) == t.IsDir(c)
    requires x != 0 ==> Vacated(t, t1, tp, tn, x)
    requires x == 0 ==> t1 == t && forall i: nat :: !Refers(t, tp, tn, i)
    requires NameMoved(t1, t', fp, fn, tp, tn, c)
    ensures NamesAfter(t, t', fp, fn, tp, tn, c, x)
  {
    hide Refers, OneParent, Rooted, NoDangling, Counted;
    if x == 0 {
      NoNames(t, 0);
    } else if !t.IsDir(x) {
      NoNames(t, x);
    }
  }

  /** What a rename that went through did: the structure is kept exactly when a parent
      that grew into a new block found its other slots free; the counts too, exactly
      when a replaced directory did not share an i-list block with its parent. */
  ghost predicate RenameEffect(t: Tree, t': Tree, fp: nat, fn: string, tp: nat, tn: string,
                               stale: seq<Slot>, c: nat, x: nat, shared: bool)
    requires t.Shape() && t.IsDir(tp) && |stale| > 0
  {
    var clean := x != 0 || !NeedsBlock(t, tp) || AllFree(stale[1..]);
    var lost := t.IsDir(x) && shared;
    var kept := Structured(t') <==> clean;
    var counts := Consistent(t') <==> clean && !lost;
    var off := clean && lost ==> t'.IsDir(tp) && t'.ilist[tp].nlink == Links(t')[tp] + 1;
    var moved := clean ==> NamesAfter(t, t', fp, fn, tp, tn, c, x);
    var others := |t'.ilist| == |t.ilist|
      && forall i | 0 <= i < |t.ilist| && i != fp && i != tp && i != x :: t'.ilist[i] == t.ilist[i];
    kept && counts && off && moved && others
  }

  lemma RenameDone(t: Tree, t1: Tree, t': Tree, fp: nat, fn: string, tp: nat, tn: string, stale: seq<Slot>,
                   c: nat, x: nat, extra: nat)
    requires Consistent(t) && t.Shape() && t.IsDir(tp) && |stale| > 0 && t'.Shape()
    requires Refers(t, fp, fn, c) && t1.Shape() && t1.IsDir(c) == t.IsDir(c) && t1.IsDir(tp) && t'.IsDir(tp)
    requires x != 0 ==> Vacated(t, t1, tp, tn, x) && OthersKept(t, t1, tp, x) && !NeedsBlock(t1, tp)
    requires x == 0 ==> t1 == t && forall i: nat :: !Refers(t, tp, tn, i)
    requires OthersKept(t1, t', tp, fp)
    requires var clean := !NeedsBlock(t1, tp) || AllFree(stale[1..]);
             && (Structured(t') <==> clean)
             && (clean ==> CountedBut(t', tp, extra) && NameMoved(t1, t', fp, fn, tp, tn, c))
    requires extra <= 1 && (extra == 1 ==> t.IsDir(x))
    ensures RenameEffect(t, t', fp, fn, tp, tn, stale, c, x, extra == 1)
    ensures !t.IsDir(x) ==> RenameEffect(t, t', fp, fn, tp, tn, stale, c, x, true)
  {
    hide Consistent, Structured, CountedBut, Refers, Vacated, AllFree, NameMoved, NamesAfter, NeedsBlock, Links;
    if !NeedsBlock(t1, tp) || AllFree(stale[1..]) {
      VacatedMoved(t, t1, t', fp, fn, tp, tn, c, x);
    }
    StaysInUse(t', tp);
    CountedFinally(t', tp, extra);
  }

  /** rw_rename, on two parents and two leaves.  c: what is renamed; x: what the new name
      stood for before, 0 if nothing.  On a handle that fails nothing is renamed, whatever
      the answer; it never fails once a target has been let go. */
  method DoRename(h: RW, fp: nat, fn: string, tp: nat, tn: string, room: Room, stale: seq<Slot>)
    returns (rc: int, ghost c: nat, ghost x: nat)
    requires h.Valid() && Consistent(h.T()) && SmallCounts(h.T())
    requires h.T().IsDir(fp) && h.T().IsDir(tp) && !IsDot(fn) && !IsDot(tn) && |stale| == h.ndirect
    modifies h
    ensures h.failed || h.Valid()
    ensures RenameAnswer(old(h.T()), fp, fn, tp, tn, room, rc, c, x)
    ensures h.failed ==> x == 0 && NeedsBlock(old(h.T()), tp) && !room.Had?
    ensures rc == -ENOSPC || (rc == 0 && x == 0 && NeedsBlock(old(h.T()), tp) && !room.Had?) ==> h.failed
    ensures rc != 0 || x == c || h.failed ==> h.T() == old(h.T())
    ensures rc == 0 && x != c && !h.failed ==>
              RenameEffect(old(h.T()), h.T(), fp, fn, tp, tn, stale, c, x,
                           x != 0 && tp != 0 && h.SameBlock(x, tp))
  {
    hide Consistent, Structured, CountedBut, SmallCounts, Refers, Vacated, Above, AllFree, WellFormed,
         NameMoved, NamesAfter, OthersKept, NeedsBlock, RenameEffect;
    ghost var t := h.T();
    c, x := 0, 0;
    ConsistentParts(t, fp);
    ConsistentParts(t, tp);
    NoZero(t, tp, tn);
    ConsistentStructured(t);
    var cino := h.Lookup(fp, fn);
    if cino == 0 {
      return -ENOENT, 0, 0;
    }
    c := cino;
    NamedInUse(t, fp, fn, c);
    if !NameOk(tn) {
      return -ENAMETOOLONG, c, 0;
    }
    var sdir := h.ilist[cino].kind.Dir?;
    if sdir {
      var anc := IsAncestor(h, cino, tp);
      if anc {
        return -EINVAL, c, 0;
      }
    }
    var tino := h.Lookup(tp, tn);
    x := tino;
    ghost var extra := 0;
    if tino != 0 {
      NamedInUse(t, tp, tn, x);
      if tino == cino {
        return 0, c, x;
      }
      var tdir := h.ilist[tino].kind.Dir?;
      if tdir != sdir {
        return if tdir then -EISDIR else -ENOTDIR, c, x;
      }
      if tdir {
        ConsistentParts(t, x);
        var ne := h.NonEmpty(tino);
        if ne {
          return -ENOTEMPTY, c, x;
        }
      }
      ghost var lost := Vacate(h, tp, tn, tino, tdir);
      extra := if lost then 1 else 0;
      VacatedFor(t, h.T(), fp, fn, tp, tn, x, c);
    } else {
      CountedExactly(t, tp);
    }
    ghost var t1 := h.T();
    rc := Install(h, fp, fn, tp, tn, cino, sdir, room, stale, extra);
    if !h.failed {
      RenameDone(t, t1, h.T(), fp, fn, tp, tn, stale, c, x, extra);
    }
  }

  lemma StaysInUse(t: Tree, tp: nat)
    requires t.Shape()
    ensures Structured(t) && t.IsDir(tp) ==> t.InUse(tp)
  {
    hide NoDangling, OneParent, Rooted, WellFormed;
  }
}

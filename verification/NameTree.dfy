/** The directory tree: what climbing ".." reaches, and how each kind of change keeps
    every directory under the root with exactly one parent entry. */
module NameTree {
  import opened Names

  // ----- climbing

  lemma {:induction false} ClimbsKept(t: Tree, t': Tree, d: nat, n: nat, c: nat)
    requires Climbs(t, d, n) && !Meets(t, d, n, c)
    requires forall x: nat | t.IsDir(x) && x != c :: t'.IsDir(x) && Up(t', x) == Up(t, x)
    ensures Climbs(t', d, n)
    decreases n
  {
    if n > 0 {
      ClimbsKept(t, t', Up(t, d), n - 1, c);
    }
  }

  /** c is met on the way from d to the root, d itself included. */
  ghost predicate Meets(t: Tree, d: nat, n: nat, c: nat)
    decreases n
  {
    d == c || (n > 0 && Meets(t, Up(t, d), n - 1, c))
  }

  /** c is d or above it. */
  ghost predicate Above(t: Tree, c: nat, d: nat) {
    exists n: nat :: Climbs(t, d, n) && Meets(t, d, n, c)
  }

  lemma {:induction false} ClimbsOnce(t: Tree, d: nat, n: nat, m: nat)
    requires Climbs(t, d, n) && Climbs(t, d, m)
    ensures n == m
    decreases n
  {
    if n > 0 && m > 0 {
      ClimbsOnce(t, Up(t, d), n - 1, m - 1);
    }
  }

  /** Whatever is met on the way is itself on a climb no longer than d's. */
  lemma {:induction false} MetClimbs(t: Tree, d: nat, n: nat, c: nat) returns (m: nat)
    requires Climbs(t, d, n) && Meets(t, d, n, c)
    ensures m <= n && Climbs(t, c, m)
    ensures d != c ==> m < n
    decreases n
  {
    if d == c {
      m := n;
    } else {
      m := MetClimbs(t, Up(t, d), n - 1, c);
    }
  }

  lemma NotOwnParent(t: Tree, c: nat)
    requires Rooted(t) && t.IsDir(c) && c != ROOTINO
    ensures Up(t, c) != c
  {
    var n: nat :| Climbs(t, c, n);
    if Climbs(t, c, n - 1) {
      ClimbsOnce(t, c, n, n - 1);
    }
  }

  lemma DotEntry(t: Tree, d: nat, n: string, i: nat)
    requires t.Shape() && WellFormedDirs(t) && t.IsDir(d) && Refers(t, d, n, i) && IsDot(n)
    ensures i == if n == DOT then d else Up(t, d)
  {
    var s := t.Ents(d);
    assert WellFormed(t, d);
    var k :| 0 <= k < |s| && s[k] == Slot(i, n);
    assert s[0].ino != 0;
  }

  // ----- changes, seen through who refers to whom

  /** Same directories, same "..": the climbs are the same. */
  lemma RootedSame(t: Tree, t': Tree)
    requires Rooted(t)
    requires forall d: nat :: t'.IsDir(d) <==> t.IsDir(d)
    requires forall d: nat | t.IsDir(d) :: Up(t', d) == Up(t, d)
    ensures Rooted(t')
  {
    hide Up, Climbs;
    forall d: nat | t'.IsDir(d) ensures exists n: nat :: Climbs(t', d, n) {
      var n: nat :| Climbs(t, d, n);
      ClimbsSame(t, t', d, n);
    }
  }

  lemma {:induction false} ClimbsSame(t: Tree, t': Tree, d: nat, n: nat)
    requires Climbs(t, d, n)
    requires forall x: nat | t.IsDir(x) :: t'.IsDir(x) && Up(t', x) == Up(t, x)
    ensures Climbs(t', d, n)
    decreases n
  {
    if n > 0 {
      ClimbsSame(t, t', Up(t, d), n - 1);
    }
  }

  /** Entry (n, c) added to p, where c is not a directory. */
  lemma LinkFile(t: Tree, t': Tree, p: nat, n: string, c: nat)
    requires Structured(t) && t'.Shape() && WellFormedDirs(t')
    requires !IsDot(n) && !t'.IsDir(c) && t'.InUse(c)
    requires forall i: nat :: (t'.IsDir(i) <==> t.IsDir(i)) && (t.InUse(i) ==> t'.InUse(i))
    requires forall d: nat | t.IsDir(d) :: Up(t', d) == Up(t, d)
    requires forall d: nat, m, i: nat ::
               Refers(t', d, m, i) <==> Refers(t, d, m, i) || (d == p && m == n && i == c)
    ensures Structured(t')
  {
    hide Up, Refers, WellFormedDirs;
    RootedSame(t, t');
    assert t.IsDir(ROOTINO) by { RootIsDir(t); }
    forall x: nat | t'.IsDir(x) && x != ROOTINO
      ensures t'.IsDir(Up(t', x)) && exists m :: !IsDot(m) && Refers(t', Up(t', x), m, x)
    {
      var m :| !IsDot(m) && Refers(t, Up(t, x), m, x);
      assert Refers(t', Up(t', x), m, x);
    }
  }

  lemma RootIsDir(t: Tree)
    requires t.Shape() && WellFormedDirs(t)
    ensures t.IsDir(ROOTINO)
  {
  }

  /** Entry (n, c) removed from p, where c is not a directory; when c goes too, nothing
      else may name it. */
  lemma UnlinkFile(t: Tree, t': Tree, p: nat, n: string, c: nat)
    requires Structured(t) && t'.Shape() && WellFormedDirs(t') && !t.IsDir(c)
    requires Refers(t, p, n, c) && t.IsDir(p)
    requires forall i: nat :: (t'.IsDir(i) <==> t.IsDir(i)) && (t.InUse(i) && i != c ==> t'.InUse(i))
    requires forall d: nat | t.IsDir(d) :: Up(t', d) == Up(t, d)
    requires forall d: nat, m, i: nat ::
               Refers(t', d, m, i) <==> Refers(t, d, m, i) && !(d == p && m == n)
    requires t'.InUse(c) || forall d: nat, m :: !Refers(t', d, m, c)
    ensures Structured(t')
  {
    hide Up, WellFormedDirs, Has, WellFormed;
    RootedSame(t, t');
    RootIsDir(t);
    forall x: nat | t'.IsDir(x) && x != ROOTINO
      ensures t'.IsDir(Up(t', x)) && exists m :: !IsDot(m) && Refers(t', Up(t', x), m, x)
    {
      var m :| !IsDot(m) && Refers(t, Up(t, x), m, x);
      if Up(t, x) == p && m == n {
        DirUnique(t, p);
        HasOnce(t.Ents(p), n, c, x);
      }
      assert Refers(t', Up(t', x), m, x);
    }
  }

  lemma DirUnique(t: Tree, p: nat)
    requires t.Shape() && WellFormedDirs(t) && t.IsDir(p)
    ensures Unique(t.Ents(p))
  {
  }

  /** A new empty directory c below p. */
  lemma NewDir(t: Tree, t': Tree, p: nat, n: string, c: nat)
    requires Structured(t) && t'.Shape() && WellFormedDirs(t')
    requires !IsDot(n) && t.IsDir(p) && !t.InUse(c) && t'.InUse(c) && c != ROOTINO
    requires forall i: nat :: (t'.IsDir(i) <==> t.IsDir(i) || i == c) && (t.InUse(i) ==> t'.InUse(i))
    requires (forall d: nat | t.IsDir(d) :: Up(t', d) == Up(t, d)) && Up(t', c) == p
    requires forall d: nat, m, i: nat | d != c ::
               Refers(t', d, m, i) <==> Refers(t, d, m, i) || (d == p && m == n && i == c)
    requires forall m, i: nat :: Refers(t', c, m, i) <==> (m == DOT && i == c) || (m == DOTDOT && i == p)
    ensures Structured(t')
  {
    hide Up, Refers, WellFormedDirs, Climbs;
    RootIsDir(t);
    forall d: nat | t'.IsDir(d) ensures exists n: nat :: Climbs(t', d, n) {
      var x := if d == c then p else d;
      var k: nat :| Climbs(t, x, k);
      ClimbsSame(t, t', x, k);
      if d == c {
        OneMore(t', c, k);
      }
    }
    forall d: nat, m, i: nat | Refers(t', d, m, i) ensures t'.InUse(i) {
      DirInUse(t, p);
    }
    forall x: nat | t'.IsDir(x) && x != ROOTINO
      ensures t'.IsDir(Up(t', x)) && exists m :: !IsDot(m) && Refers(t', Up(t', x), m, x)
    {
      if x == c {
        assert Refers(t', p, n, c) by { DirInUse(t, p); }
      } else {
        var m :| !IsDot(m) && Refers(t, Up(t, x), m, x);
        assert Up(t, x) != c by { DirInUse(t, Up(t, x)); }
        assert Refers(t', Up(t', x), m, x);
      }
    }
    assert forall d: nat, m :: !Refers(t, d, m, c);
  }

  lemma DirInUse(t: Tree, d: nat)
    requires t.Shape() && WellFormedDirs(t) && t.IsDir(d)
    ensures t.InUse(d)
  {
  }

  lemma OneMore(t: Tree, c: nat, k: nat)
    requires t.IsDir(c) && c != ROOTINO && Climbs(t, Up(t, c), k)
    ensures Climbs(t, c, k + 1)
  {
  }

  /** An empty directory has no directory below it. */
  lemma NoChildren(t: Tree, c: nat, x: nat)
    requires Structured(t) && t.IsDir(c) && t.IsDir(x) && x != c && c != ROOTINO
    requires forall m, i: nat | Refers(t, c, m, i) :: IsDot(m)
    ensures Up(t, x) != c
  {
    hide Up, Refers, WellFormedDirs, Rooted;
  }

  lemma NotMet(t: Tree, d: nat, n: nat, c: nat)
    requires Climbs(t, d, n) && d != c && c != ROOTINO
    requires forall x: nat | t.IsDir(x) && x != c :: Up(t, x) != c
    ensures !Meets(t, d, n, c)
    decreases n
  {
    if n > 0 {
      NotMet(t, Up(t, d), n - 1, c);
    }
  }

  /** An empty directory c, and its entry (n, c) in p, gone. */
  lemma DropDir(t: Tree, t': Tree, p: nat, n: string, c: nat)
    requires Structured(t) && t'.Shape() && WellFormedDirs(t')
    requires Refers(t, p, n, c) && !IsDot(n) && t.IsDir(c) && t.IsDir(p)
    requires forall m, i: nat | Refers(t, c, m, i) :: IsDot(m)
    requires forall i: nat :: (t'.IsDir(i) <==> t.IsDir(i) && i != c) && (t.InUse(i) && i != c ==> t'.InUse(i))
    requires forall d: nat | t.IsDir(d) && d != c :: Up(t', d) == Up(t, d)
    requires forall d: nat, m, i: nat ::
               Refers(t', d, m, i) <==> Refers(t, d, m, i) && !(d == p && m == n) && d != c
    ensures Structured(t')
  {
    hide Up, Refers, WellFormedDirs, Climbs;
    RootIsDir(t);
    forall x: nat | t.IsDir(x) && x != c ensures Up(t, x) != c {
      NoChildren(t, c, x);
    }
    forall d: nat | t'.IsDir(d) ensures exists k: nat :: Climbs(t', d, k) {
      var k: nat :| Climbs(t, d, k);
      NotMet(t, d, k, c);
      ClimbsKept(t, t', d, k, c);
    }
    forall d: nat, m, i: nat | Refers(t', d, m, i) ensures i != c {
      if i == c && IsDot(m) {
        RefersDir(t, d, m, i);
        DotOf(t, d, m, i);
      }
    }
    forall x: nat | t'.IsDir(x) && x != ROOTINO
      ensures t'.IsDir(Up(t', x)) && exists m :: !IsDot(m) && Refers(t', Up(t', x), m, x)
    {
      var m :| !IsDot(m) && Refers(t, Up(t, x), m, x);
      if Up(t, x) == p && m == n {
        NameOnce(t, p, n, c, x);
      }
      assert Refers(t', Up(t', x), m, x);
    }
  }

  lemma RefersDir(t: Tree, d: nat, m: string, i: nat)
    requires Refers(t, d, m, i)
    ensures t.IsDir(d)
  {
  }

  lemma DotOf(t: Tree, d: nat, m: string, i: nat)
    requires t.Shape() && WellFormedDirs(t) && Refers(t, d, m, i) && IsDot(m)
    ensures i == if m == DOT then d else Up(t, d)
  {
    hide Up, Refers, WellFormedDirs;
    RefersDir(t, d, m, i);
    DotEntry(t, d, m, i);
  }

  lemma NameOnce(t: Tree, p: nat, n: string, i: nat, j: nat)
    requires t.Shape() && WellFormedDirs(t) && Refers(t, p, n, i) && Refers(t, p, n, j)
    ensures i == j
  {
    hide Has, WellFormedDirs, Unique;
    RefersDir(t, p, n, i);
    DirUnique(t, p);
    HasOnce(t.Ents(p), n, i, j);
  }

  /** Directory c moved: entry (fn, c) of fp becomes (tn, c) of tp, and ".." follows.
      tp must not lie below c. */
  lemma MoveDir(t: Tree, t': Tree, fp: nat, fn: string, tp: nat, tn: string, c: nat)
    requires Structured(t) && t'.Shape() && WellFormedDirs(t')
    requires Refers(t, fp, fn, c) && !IsDot(fn) && !IsDot(tn) && t.IsDir(c) && t.IsDir(tp)
    requires (forall i: nat :: !Refers(t, tp, tn, i)) && !Above(t, c, tp)
    requires forall i: nat :: (t'.IsDir(i) <==> t.IsDir(i)) && (t.InUse(i) ==> t'.InUse(i))
    requires (forall d: nat | t.IsDir(d) && d != c :: Up(t', d) == Up(t, d)) && Up(t', c) == tp
    requires forall d: nat, m, i: nat ::
               Refers(t', d, m, i) <==>
                 (d == tp && m == tn && i == c) || (d == c && m == DOTDOT && i == tp)
                 || (Refers(t, d, m, i) && !(d == fp && m == fn) && !(d == c && m == DOTDOT))
    ensures Structured(t')
  {
    hide Up, Refers, WellFormedDirs, Climbs;
    RootIsDir(t);
    DirInUse(t, tp);
    MoveRooted(t, t', tp, c);
    forall x: nat | t'.IsDir(x) && x != ROOTINO
      ensures t'.IsDir(Up(t', x)) && exists m :: !IsDot(m) && Refers(t', Up(t', x), m, x)
    {
      if x == c {
        assert Refers(t', tp, tn, c);
      } else {
        var m :| !IsDot(m) && Refers(t, Up(t, x), m, x);
        if Up(t, x) == fp && m == fn {
          NameOnce(t, fp, fn, c, x);
        }
        assert Refers(t', Up(t', x), m, x);
      }
    }
  }

  /** Moving c under a directory not below it keeps every climb. */
  lemma MoveRooted(t: Tree, t': Tree, tp: nat, c: nat)
    requires Rooted(t) && t.IsDir(c) && t.IsDir(tp) && c != ROOTINO && !Above(t, c, tp)
    requires forall i: nat :: t'.IsDir(i) <==> t.IsDir(i)
    requires (forall d: nat | t.IsDir(d) && d != c :: Up(t', d) == Up(t, d)) && Up(t', c) == tp
    ensures Rooted(t')
  {
    hide Up, Climbs, Meets;
    var k: nat :| Climbs(t, tp, k);
    assert !Meets(t, tp, k, c);
    ClimbsKept(t, t', tp, k, c);
    OneMore(t', c, k);
    forall d: nat | t'.IsDir(d) ensures exists n: nat :: Climbs(t', d, n) {
      var n: nat :| Climbs(t, d, n);
      var m := MoveClimb(t, t', d, n, c, k + 1);
    }
  }

  lemma {:induction false} MoveClimb(t: Tree, t': Tree, d: nat, n: nat, c: nat, k: nat) returns (m: nat)
    requires Climbs(t, d, n) && Climbs(t', c, k)
    requires forall x: nat | t.IsDir(x) && x != c :: t'.IsDir(x) && Up(t', x) == Up(t, x)
    ensures Climbs(t', d, m)
    decreases n
  {
    if d == c {
      m := k;
    } else if n == 0 {
      m := 0;
    } else {
      m := MoveClimb(t, t', Up(t, d), n - 1, c, k);
      m := m + 1;
    }
  }
}

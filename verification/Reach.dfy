/** Connectivity: which inodes a depth-first walk from a directory marks. */
module Reach {
  import opened Names

  /** Directory x holds an entry for y other than "." and ".."; the checker reads every
      slot of the directory's blocks. */
  ghost predicate Edge(t: Tree, x: nat, y: nat) {
    t.IsDir(x) && x < |t.dirs| && 0 < y < |t.ilist|
    && exists k :: 0 <= k < |t.dirs[x]| && t.dirs[x][k].ino == y && !IsDot(t.dirs[x][k].name)
  }

  /** n edges lead from a to b. */
  ghost predicate Leads(t: Tree, a: nat, b: nat, n: nat)
    decreases n
  {
    if n == 0 then a == b else exists m: nat :: Edge(t, a, m) && Leads(t, m, b, n - 1)
  }

  ghost predicate Reachable(t: Tree, a: nat, b: nat) {
    exists n: nat :: Leads(t, a, b, n)
  }

  lemma {:induction false} LeadsLast(t: Tree, a: nat, m: nat, b: nat, n: nat)
    requires Leads(t, a, m, n) && Edge(t, m, b)
    ensures Leads(t, a, b, n + 1)
    decreases n
  {
    hide Edge;
    if n == 0 {
      assert Leads(t, b, b, 0);
    } else {
      var x: nat :| Edge(t, a, x) && Leads(t, x, m, n - 1);
      LeadsLast(t, x, m, b, n - 1);
    }
  }

  lemma StepLast(t: Tree, a: nat, m: nat, b: nat)
    requires Reachable(t, a, m) && Edge(t, m, b)
    ensures Reachable(t, a, b)
  {
    hide Edge, Leads;
    var n: nat :| Leads(t, a, m, n);
    LeadsLast(t, a, m, b, n);
  }

  lemma Itself(t: Tree, a: nat)
    ensures Reachable(t, a, a)
  {
    assert Leads(t, a, a, 0);
  }

  /** The names lead from directory a to b, one entry after the other. */
  ghost predicate PathTo(t: Tree, a: nat, names: seq<string>, b: nat)
    decreases |names|
  {
    if names == [] then a == b
    else
      && names[0] != "." && names[0] != ".." && t.IsDir(a) && a < |t.dirs|
      && exists m: nat :: 0 < m < |t.ilist| && Slot(m, names[0]) in t.dirs[a] && PathTo(t, m, names[1..], b)
  }

  ghost predicate HasPath(t: Tree, a: nat, b: nat) { exists names: seq<string> :: PathTo(t, a, names, b) }

  /** What can be reached is what has a path. */
  lemma ReachableByName(t: Tree, a: nat, b: nat)
    ensures Reachable(t, a, b) <==> HasPath(t, a, b)
  {
    hide Edge;
    if Reachable(t, a, b) {
      var n: nat :| Leads(t, a, b, n);
      var names := NamesOf(t, a, b, n);
      assert PathTo(t, a, names, b);
    }
    if HasPath(t, a, b) {
      var names: seq<string> :| PathTo(t, a, names, b);
      PathLeads(t, a, names, b);
    }
  }

  lemma {:induction false} NamesOf(t: Tree, a: nat, b: nat, n: nat) returns (names: seq<string>)
    requires Leads(t, a, b, n)
    ensures PathTo(t, a, names, b)
    decreases n
  {
    names := [];
    if n > 0 {
      var m: nat :| Edge(t, a, m) && Leads(t, m, b, n - 1);
      var k :| 0 <= k < |t.dirs[a]| && t.dirs[a][k].ino == m && !IsDot(t.dirs[a][k].name);
      var rest := NamesOf(t, m, b, n - 1);
      names := [t.dirs[a][k].name] + rest;
      assert names[1..] == rest && t.dirs[a][k] == Slot(m, names[0]);
    }
  }

  lemma {:induction false} PathLeads(t: Tree, a: nat, names: seq<string>, b: nat)
    requires PathTo(t, a, names, b)
    ensures Leads(t, a, b, |names|)
    decreases |names|
  {
    if names != [] {
      var m: nat :| 0 < m < |t.ilist| && Slot(m, names[0]) in t.dirs[a] && PathTo(t, m, names[1..], b);
      PathLeads(t, m, names[1..], b);
      assert Edge(t, a, m);
    }
  }

  /** A way from a to b through marked inodes only. */
  ghost predicate LeadsIn(t: Tree, marks: seq<bool>, a: nat, b: nat, n: nat)
    decreases n
  {
    a < |marks| && marks[a]
    && if n == 0 then a == b else exists m: nat :: Edge(t, a, m) && LeadsIn(t, marks, m, b, n - 1)
  }

  ghost predicate ReachIn(t: Tree, marks: seq<bool>, a: nat, b: nat) {
    exists n: nat :: LeadsIn(t, marks, a, b, n)
  }

  lemma {:induction false} LeadsInMore(t: Tree, s: seq<bool>, t': Tree, u: seq<bool>, a: nat, b: nat, n: nat)
    requires LeadsIn(t, s, a, b, n)
    requires forall i: nat | i < |s| && s[i] :: i < |u| && u[i]
    requires forall x: nat, y: nat | x < |s| && s[x] && Edge(t, x, y) :: Edge(t', x, y)
    ensures LeadsIn(t', u, a, b, n)
    decreases n
  {
    hide Edge;
    if n > 0 {
      var m: nat :| Edge(t, a, m) && LeadsIn(t, s, m, b, n - 1);
      LeadsInMore(t, s, t', u, m, b, n - 1);
    }
  }

  /** More marks, or more edges from marked inodes, keep a way. */
  lemma ReachInMore(t: Tree, s: seq<bool>, t': Tree, u: seq<bool>, a: nat, b: nat)
    requires ReachIn(t, s, a, b)
    requires forall i: nat | i < |s| && s[i] :: i < |u| && u[i]
    requires forall x: nat, y: nat | x < |s| && s[x] && Edge(t, x, y) :: Edge(t', x, y)
    ensures ReachIn(t', u, a, b)
  {
    hide Edge, LeadsIn;
    var n: nat :| LeadsIn(t, s, a, b, n);
    LeadsInMore(t, s, t', u, a, b, n);
  }

  lemma ReachInFirst(t: Tree, s: seq<bool>, a: nat, m: nat, b: nat)
    requires a < |s| && s[a] && Edge(t, a, m) && ReachIn(t, s, m, b)
    ensures ReachIn(t, s, a, b)
  {
    hide Edge;
    var n: nat :| LeadsIn(t, s, m, b, n);
    assert LeadsIn(t, s, a, b, n + 1);
  }

  lemma {:induction false} LeadsInJoin(t: Tree, s: seq<bool>, a: nat, m: nat, b: nat, n: nat, k: nat)
    requires LeadsIn(t, s, a, m, n) && LeadsIn(t, s, m, b, k)
    ensures LeadsIn(t, s, a, b, n + k)
    decreases n
  {
    hide Edge;
    if n > 0 {
      var x: nat :| Edge(t, a, x) && LeadsIn(t, s, x, m, n - 1);
      LeadsInJoin(t, s, x, m, b, n - 1, k);
    }
  }

  lemma ReachInJoin(t: Tree, s: seq<bool>, a: nat, m: nat, b: nat)
    requires ReachIn(t, s, a, m) && ReachIn(t, s, m, b)
    ensures ReachIn(t, s, a, b)
  {
    hide Edge, LeadsIn;
    var n: nat :| LeadsIn(t, s, a, m, n);
    var k: nat :| LeadsIn(t, s, m, b, k);
    LeadsInJoin(t, s, a, m, b, n, k);
  }

  lemma {:induction false} LeadsInLeads(t: Tree, s: seq<bool>, a: nat, b: nat, n: nat)
    requires LeadsIn(t, s, a, b, n)
    ensures Leads(t, a, b, n)
    decreases n
  {
    hide Edge;
    if n > 0 {
      var m: nat :| Edge(t, a, m) && LeadsIn(t, s, m, b, n - 1);
      LeadsInLeads(t, s, m, b, n - 1);
    }
  }

  lemma ReachInReaches(t: Tree, s: seq<bool>, a: nat, b: nat)
    requires ReachIn(t, s, a, b)
    ensures Reachable(t, a, b)
  {
    hide Edge, LeadsIn, Leads;
    var n: nat :| LeadsIn(t, s, a, b, n);
    LeadsInLeads(t, s, a, b, n);
  }

  lemma MarkedItself(t: Tree, s: seq<bool>, a: nat)
    requires a < |s| && s[a]
    ensures ReachIn(t, s, a, a)
  {
    assert LeadsIn(t, s, a, a, 0);
  }

  /** Marks are closed under edges. */
  ghost predicate Closed(t: Tree, marks: seq<bool>) {
    forall x: nat, y: nat | x < |marks| && y < |marks| && marks[x] && Edge(t, x, y) :: marks[y]
  }

  lemma {:induction false} ClosedReaches(t: Tree, marks: seq<bool>, a: nat, b: nat, n: nat)
    requires |marks| == |t.ilist| && Closed(t, marks) && a < |marks| && marks[a] && Leads(t, a, b, n)
    ensures b < |marks| && marks[b]
    decreases n
  {
    if n > 0 {
      var m: nat :| Edge(t, a, m) && Leads(t, m, b, n - 1);
      ClosedReaches(t, marks, m, b, n - 1);
    }
  }

  function Unmarked(marks: seq<bool>): nat {
    if marks == [] then 0
    else Unmarked(marks[..|marks| - 1]) + if marks[|marks| - 1] then 0 else 1
  }

  lemma {:induction false} UnmarkedMono(s: seq<bool>, u: seq<bool>)
    requires |s| == |u| && forall i | 0 <= i < |s| && s[i] :: u[i]
    ensures Unmarked(u) <= Unmarked(s)
  {
    if s != [] {
      UnmarkedMono(s[..|s| - 1], u[..|u| - 1]);
    }
  }

  lemma {:induction false} UnmarkedLess(s: seq<bool>, i: nat)
    requires i < |s| && !s[i]
    ensures Unmarked(s[i := true]) < Unmarked(s)
  {
    var n := |s| - 1;
    if i < n {
      UnmarkedLess(s[..n], i);
      assert s[i := true][..n] == s[..n][i := true];
    } else {
      assert s[i := true][..n] == s[..n];
    }
  }

  /** The marks of u that s does not have. */
  function Newly(s: seq<bool>, u: seq<bool>): (m: seq<bool>)
    requires |s| == |u|
    ensures |m| == |s|
  {
    seq(|s|, i requires 0 <= i < |s| => u[i] && !s[i])
  }

  /** Marking from ino turned marks s into u: nothing is unmarked, what is new can be
      reached from ino through new ones only, and everything the new ones lead to is
      marked. */
  ghost predicate Spread(t: Tree, ino: nat, s: seq<bool>, u: seq<bool>) {
    var grown := |s| == |u| && forall i | 0 <= i < |s| && s[i] :: u[i];
    var fair := grown && forall x: nat | x < |s| && u[x] && !s[x] :: ReachIn(t, Newly(s, u), ino, x);
    var closed := grown && forall x: nat, y: nat | x < |s| && y < |s| && u[x] && !s[x] && Edge(t, x, y) :: u[y];
    fair && closed
  }

  /** mark_reached. */
  method MarkReached(t: Tree, ino: nat, reached: array<bool>)
    requires |t.dirs| == |t.ilist| == reached.Length
    modifies reached
    ensures Spread(t, ino, old(reached[..]), reached[..])
    ensures 0 < ino < reached.Length ==> reached[ino]
    decreases Unmarked(reached[..])
  {
    hide Edge, ReachIn, Unmarked;
    ghost var s := reached[..];
    if ino == 0 || ino >= reached.Length || reached[ino] {
      return;
    }
    reached[ino] := true;
    ghost var u := reached[..];
    assert u == s[ino := true];
    UnmarkedLess(s, ino);
    MarkedItself(t, Newly(s, u), ino);
    if !t.ilist[ino].kind.Dir? {
      NotDir(t, ino);
      return;
    }
    for k := 0 to |t.dirs[ino]|
      invariant reached[ino] && SpreadBut(t, ino, s, reached[..])
      invariant forall j | 0 <= j < k && Follows(t, t.dirs[ino][j]) :: reached[t.dirs[ino][j].ino]
    {
      var x := t.dirs[ino][k];
      if Follows(t, x) {
        ghost var m := reached[..];
        UnmarkedMono(u, m);
        SlotEdge(t, ino, k);
        MarkReached(t, x.ino, reached);
        SpreadMore(t, ino, s, m, x.ino, reached[..]);
      }
    }
    SpreadDone(t, ino, s, reached[..]);
  }

  /** The slots the walk follows. */
  predicate Follows(t: Tree, x: Slot) { x.ino != 0 && x.ino < |t.ilist| && !IsDot(x.name) }

  /** As Spread, while the entries of ino itself are still being followed. */
  ghost predicate SpreadBut(t: Tree, ino: nat, s: seq<bool>, u: seq<bool>) {
    var grown := |s| == |u| && forall i | 0 <= i < |s| && s[i] :: u[i];
    var fair := grown && forall x: nat | x < |s| && u[x] && !s[x] :: ReachIn(t, Newly(s, u), ino, x);
    var closed := grown && forall x: nat, y: nat |
      x < |s| && y < |s| && u[x] && !s[x] && x != ino && Edge(t, x, y) :: u[y];
    fair && closed
  }

  lemma SlotEdge(t: Tree, x: nat, k: nat)
    requires t.IsDir(x) && x < |t.dirs| && k < |t.dirs[x]| && Follows(t, t.dirs[x][k])
    ensures Edge(t, x, t.dirs[x][k].ino)
  {
  }

  lemma NotDir(t: Tree, x: nat)
    requires !t.IsDir(x)
    ensures forall y: nat :: !Edge(t, x, y)
  {
  }

  lemma SpreadMore(t: Tree, ino: nat, s: seq<bool>, u: seq<bool>, child: nat, w: seq<bool>)
    requires SpreadBut(t, ino, s, u) && Spread(t, child, u, w) && Edge(t, ino, child)
    requires ino < |u| && u[ino] && !s[ino]
    ensures SpreadBut(t, ino, s, w)
  {
    hide Edge, ReachIn;
    var m := Newly(s, w);
    forall x: nat | x < |s| && w[x] && !s[x] ensures ReachIn(t, m, ino, x) {
      if u[x] {
        ReachInMore(t, Newly(s, u), t, m, ino, x);
      } else {
        ReachInMore(t, Newly(u, w), t, m, child, x);
        ReachInFirst(t, m, ino, child, x);
      }
    }
  }

  lemma SpreadDone(t: Tree, ino: nat, s: seq<bool>, u: seq<bool>)
    requires SpreadBut(t, ino, s, u) && |s| == |t.ilist| == |t.dirs| && t.IsDir(ino)
    requires forall j | 0 <= j < |t.dirs[ino]| && Follows(t, t.dirs[ino][j]) :: u[t.dirs[ino][j].ino]
    ensures Spread(t, ino, s, u)
  {
    hide ReachIn;
  }

  /** Starting from closed marks, exactly the inodes reachable from ino are added. */
  lemma SpreadExact(t: Tree, ino: nat, s: seq<bool>, u: seq<bool>)
    requires Spread(t, ino, s, u) && |s| == |t.ilist| && Closed(t, s) && 0 < ino < |s| && u[ino]
    ensures Closed(t, u)
    ensures forall x: nat | x < |s| :: u[x] <==> s[x] || Reachable(t, ino, x)
  {
    hide Edge, Leads, ReachIn;
    forall x: nat | x < |s| && Reachable(t, ino, x) ensures u[x] {
      var n: nat :| Leads(t, ino, x, n);
      ClosedReaches(t, u, ino, x, n);
    }
    forall x: nat | x < |s| && u[x] && !s[x] ensures Reachable(t, ino, x) {
      ReachInReaches(t, Newly(s, u), ino, x);
    }
  }
}

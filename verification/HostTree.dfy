/** The in-memory tree that tape and archive readers fill: nodes in order of creation,
    so that a child always has a higher index than its parent. */
module HostTree {
  import opened Names
  import FreeList

  datatype TKind = TDir | TReg | TDev | TLink

  datatype Pointer = Nothing | Node(node: nat)

  /** linkto is used by hard links only. */
  datatype TNode = TNode(name: string, kind: TKind, kids: seq<nat>, parent: nat, linkto: Pointer,
                         ino: nat, nlink: nat)

  /** Children come after their parents and point back at them; no node is the child of
      two, and the names below a directory are all different and fit a slot. */
  ghost predicate Shape(t: seq<TNode>) {
    && t != [] && (forall i | 0 <= i < |t| :: t[i].parent <= i)
    && (forall i, k | 0 <= i < |t| && 0 <= k < |t[i].kids| ::
          i < t[i].kids[k] < |t| && t[t[i].kids[k]].parent == i)
    && (forall i, j, k | 0 <= i < |t| && 0 <= j < k < |t[i].kids| :: t[i].kids[j] != t[i].kids[k])
    && (forall i, j, k | 0 <= i < |t| && t[i].kind.TDir? && 0 <= j < k < |t[i].kids| ::
          t[t[i].kids[j]].name != t[t[i].kids[k]].name)
    && (forall i, k | 0 <= i < |t| && 0 <= k < |t[i].kids| :: LeafOk(t[t[i].kids[k]].name))
  }

  predicate LeafOk(n: string) { NameOk(n) && !IsDot(n) }

  /** Below a node, in pre-order. */
  function Pre(t: seq<TNode>, n: nat): seq<nat>
    requires Shape(t) && n < |t|
    decreases |t| - n, 1, 0
  {
    [n] + if t[n].kind.TDir? then PreKids(t, n, |t[n].kids|) else []
  }

  function PreKids(t: seq<TNode>, n: nat, k: nat): seq<nat>
    requires Shape(t) && n < |t| && k <= |t[n].kids|
    decreases |t| - n, 0, k
  {
    if k == 0 then [] else PreKids(t, n, k - 1) + Pre(t, t[n].kids[k - 1])
  }

  /** Lies in the tree hanging off node n. */
  ghost predicate Under(t: seq<TNode>, x: nat, n: nat)
    requires Shape(t)
    decreases x
  {
    x < |t| && (x == n || (x > n && t[x].parent < x && t[t[x].parent].kind.TDir?
                            && x in t[t[x].parent].kids && Under(t, t[x].parent, n)))
  }

  lemma {:induction false} PreUnder(t: seq<TNode>, n: nat, x: nat)
    requires Shape(t) && n < |t|
    ensures x in Pre(t, n) <==> Under(t, x, n)
    decreases |t| - n, 1, 0
  {
    if t[n].kind.TDir? {
      KidsUnder(t, n, |t[n].kids|, x);
    }
    if Under(t, x, n) && x != n {
      FirstKid(t, n, x);
    }
    if exists k :: 0 <= k < |t[n].kids| && t[n].kind.TDir? && Under(t, x, t[n].kids[k]) {
      var k :| 0 <= k < |t[n].kids| && t[n].kind.TDir? && Under(t, x, t[n].kids[k]);
      KidUnder(t, n, k, x);
    }
  }

  lemma {:induction false} KidsUnder(t: seq<TNode>, n: nat, k: nat, x: nat)
    requires Shape(t) && n < |t| && k <= |t[n].kids|
    ensures x in PreKids(t, n, k) <==> exists j :: 0 <= j < k && Under(t, x, t[n].kids[j])
    decreases |t| - n, 0, k
  {
    if k > 0 {
      KidsUnder(t, n, k - 1, x);
      PreUnder(t, t[n].kids[k - 1], x);
    }
  }

  /** Below n means below one of its children. */
  lemma {:induction false} FirstKid(t: seq<TNode>, n: nat, x: nat)
    requires Shape(t) && n < |t| && Under(t, x, n) && x != n
    ensures t[n].kind.TDir? && exists k :: 0 <= k < |t[n].kids| && Under(t, x, t[n].kids[k])
    decreases x
  {
    var p := t[x].parent;
    if p == n {
      var k :| 0 <= k < |t[n].kids| && t[n].kids[k] == x;
      assert Under(t, x, t[n].kids[k]);
    } else {
      FirstKid(t, n, p);
      var k :| 0 <= k < |t[n].kids| && Under(t, p, t[n].kids[k]);
      assert Under(t, x, t[n].kids[k]);
    }
  }

  lemma {:induction false} KidUnder(t: seq<TNode>, n: nat, k: nat, x: nat)
    requires Shape(t) && n < |t| && t[n].kind.TDir? && k < |t[n].kids| && Under(t, x, t[n].kids[k])
    ensures Under(t, x, n) && x > n
    decreases x
  {
    var c := t[n].kids[k];
    if x == c {
      assert Under(t, n, n);
    } else {
      KidUnder(t, n, k, t[x].parent);
    }
  }

  /** The trees below two children have no node in common. */
  lemma {:induction false} KidsApart(t: seq<TNode>, n: nat, j: nat, k: nat, x: nat)
    requires Shape(t) && n < |t| && j < k < |t[n].kids|
    ensures !(Under(t, x, t[n].kids[j]) && Under(t, x, t[n].kids[k]))
    decreases x
  {
    var a, b := t[n].kids[j], t[n].kids[k];
    assert a != b && t[a].parent == n == t[b].parent;
    if Under(t, x, a) && Under(t, x, b) {
      if x != a && x != b {
        KidsApart(t, n, j, k, t[x].parent);
      } else if x == a {
        UnderBelow(t, n, b);
      } else {
        UnderBelow(t, n, a);
      }
    }
  }

  lemma UnderBelow(t: seq<TNode>, x: nat, n: nat)
    requires Shape(t)
    ensures Under(t, x, n) ==> n <= x
  {
  }

  /** Nodes that get an inode of their own. */
  function Owners(t: seq<TNode>, s: seq<nat>): seq<nat>
    requires forall i | 0 <= i < |s| :: s[i] < |t|
  {
    if s == [] then []
    else Owners(t, s[..|s| - 1]) + if t[s[|s| - 1]].kind.TLink? then [] else [s[|s| - 1]]
  }

  lemma {:induction false} OwnersJoin(t: seq<TNode>, s: seq<nat>, u: seq<nat>)
    requires (forall i | 0 <= i < |s| :: s[i] < |t|) && forall i | 0 <= i < |u| :: u[i] < |t|
    ensures forall i | 0 <= i < |s + u| :: (s + u)[i] < |t|
    ensures Owners(t, s + u) == Owners(t, s) + Owners(t, u)
  {
    if u == [] {
      assert s + u == s;
    } else {
      var m := u[..|u| - 1];
      OwnersJoin(t, s, m);
      assert (s + u)[..|s + u| - 1] == s + m;
      assert Owners(t, s + u) == (Owners(t, s) + Owners(t, m))
                                 + if t[u[|u| - 1]].kind.TLink? then [] else [u[|u| - 1]];
    }
  }

  lemma KidOf(t: seq<TNode>, n: nat, k: nat)
    requires Shape(t) && n < |t| && k < |t[n].kids|
    ensures n < t[n].kids[k] < |t|
  {
  }

  /** tree_count_inodes. */
  function CountInodes(t: seq<TNode>, n: nat): nat
    requires Shape(t) && n < |t|
    decreases |t| - n, 1, 0
  {
    if t[n].kind.TLink? then 0
    else 1 + if t[n].kind.TDir? then CountKids(t, n, |t[n].kids|) else 0
  }

  function CountKids(t: seq<TNode>, n: nat, k: nat): nat
    requires Shape(t) && n < |t| && k <= |t[n].kids|
    decreases |t| - n, 0, k
  {
    if k == 0 then 0 else CountKids(t, n, k - 1) + CountInodes(t, t[n].kids[k - 1])
  }

  lemma PreInRange(t: seq<TNode>, n: nat)
    requires Shape(t) && n < |t|
    ensures forall i | 0 <= i < |Pre(t, n)| :: Pre(t, n)[i] < |t|
  {
    forall i | 0 <= i < |Pre(t, n)| ensures Pre(t, n)[i] < |t| {
      PreUnder(t, n, Pre(t, n)[i]);
    }
  }

  lemma {:induction false} PreKidsInRange(t: seq<TNode>, n: nat, k: nat)
    requires Shape(t) && n < |t| && k <= |t[n].kids|
    ensures forall i | 0 <= i < |PreKids(t, n, k)| :: PreKids(t, n, k)[i] < |t|
  {
    if k > 0 {
      PreKidsInRange(t, n, k - 1);
      PreInRange(t, t[n].kids[k - 1]);
    }
  }

  /** The nodes below n that own an inode. */
  function OwnersOf(t: seq<TNode>, n: nat): seq<nat>
    requires Shape(t) && n < |t|
  {
    PreInRange(t, n);
    Owners(t, Pre(t, n))
  }

  function OwnersOfKids(t: seq<TNode>, n: nat, k: nat): seq<nat>
    requires Shape(t) && n < |t| && k <= |t[n].kids|
  {
    PreKidsInRange(t, n, k);
    Owners(t, PreKids(t, n, k))
  }

  lemma OwnersOne(t: seq<TNode>, n: nat)
    requires n < |t|
    ensures Owners(t, [n]) == if t[n].kind.TLink? then [] else [n]
  {
    assert [n][..0] == [];
  }

  lemma OwnersSplit(t: seq<TNode>, n: nat)
    requires Shape(t) && n < |t|
    ensures OwnersOf(t, n) == (if t[n].kind.TLink? then [] else [n])
                              + if t[n].kind.TDir? then OwnersOfKids(t, n, |t[n].kids|) else []
  {
    OwnersOne(t, n);
    PreKidsInRange(t, n, |t[n].kids|);
    if t[n].kind.TDir? {
      OwnersJoin(t, [n], PreKids(t, n, |t[n].kids|));
    } else {
      assert [n] + [] == [n];
    }
  }

  lemma OwnersKid(t: seq<TNode>, n: nat, k: nat)
    requires Shape(t) && n < |t| && k < |t[n].kids|
    ensures OwnersOfKids(t, n, k + 1) == OwnersOfKids(t, n, k) + OwnersOf(t, t[n].kids[k])
  {
    PreKidsInRange(t, n, k);
    PreInRange(t, t[n].kids[k]);
    OwnersJoin(t, PreKids(t, n, k), Pre(t, t[n].kids[k]));
  }

  lemma NoKids(t: seq<TNode>, n: nat)
    requires Shape(t) && n < |t|
    ensures OwnersOfKids(t, n, 0) == []
  {
  }

  lemma {:induction false} CountIsOwners(t: seq<TNode>, n: nat)
    requires Shape(t) && n < |t|
    ensures CountInodes(t, n) == |OwnersOf(t, n)|
    decreases |t| - n, 1, 0
  {
    hide OwnersOf, OwnersOfKids, Shape;
    OwnersSplit(t, n);
    if t[n].kind.TDir? {
      CountKidsIsOwners(t, n, |t[n].kids|);
    }
  }

  lemma {:induction false} CountKidsIsOwners(t: seq<TNode>, n: nat, k: nat)
    requires Shape(t) && n < |t| && k <= |t[n].kids|
    ensures CountKids(t, n, k) == |OwnersOfKids(t, n, k)|
    decreases |t| - n, 0, k
  {
    hide OwnersOf, OwnersOfKids, Shape, CountInodes;
    if k == 0 {
      NoKids(t, n);
    } else {
      KidOf(t, n, k - 1);
      OwnersKid(t, n, k - 1);
      CountKidsIsOwners(t, n, k - 1);
      CountIsOwners(t, t[n].kids[k - 1]);
    }
  }

  lemma DistinctJoin(s: seq<nat>, u: seq<nat>)
    requires FreeList.NoDup(s) && FreeList.NoDup(u) && forall x | x in s :: x !in u
    ensures FreeList.NoDup(s + u)
  {
    forall i, j | 0 <= i < j < |s + u| ensures (s + u)[i] != (s + u)[j] {
      if i < |s| <= j {
        assert s[i] in s && u[j - |s|] in u;
      }
    }
  }

  /** No node is met twice. */
  lemma {:induction false} PreDistinct(t: seq<TNode>, n: nat)
    requires Shape(t) && n < |t|
    ensures FreeList.NoDup(Pre(t, n))
    decreases |t| - n, 1, 0
  {
    if t[n].kind.TDir? {
      KidsDistinct(t, n, |t[n].kids|);
      forall x | x in PreKids(t, n, |t[n].kids|) ensures x != n {
        KidsUnder(t, n, |t[n].kids|, x);
        var j :| 0 <= j < |t[n].kids| && Under(t, x, t[n].kids[j]);
        KidUnder(t, n, j, x);
      }
      DistinctJoin([n], PreKids(t, n, |t[n].kids|));
    }
  }

  lemma {:induction false} KidsDistinct(t: seq<TNode>, n: nat, k: nat)
    requires Shape(t) && n < |t| && k <= |t[n].kids|
    ensures FreeList.NoDup(PreKids(t, n, k))
    decreases |t| - n, 0, k
  {
    if k > 0 {
      KidsDistinct(t, n, k - 1);
      PreDistinct(t, t[n].kids[k - 1]);
      var before, here := PreKids(t, n, k - 1), Pre(t, t[n].kids[k - 1]);
      forall x | x in before ensures x !in here {
        KidsUnder(t, n, k - 1, x);
        PreUnder(t, t[n].kids[k - 1], x);
        var j :| 0 <= j < k - 1 && Under(t, x, t[n].kids[j]);
        KidsApart(t, n, j, k - 1, x);
      }
      DistinctJoin(PreKids(t, n, k - 1), Pre(t, t[n].kids[k - 1]));
    }
  }

  lemma {:induction false} OwnersIn(t: seq<TNode>, s: seq<nat>, x: nat)
    requires forall i | 0 <= i < |s| :: s[i] < |t|
    ensures x in Owners(t, s) <==> x in s && !t[x].kind.TLink?
  {
    if s != [] {
      OwnersIn(t, s[..|s| - 1], x);
      assert s == s[..|s| - 1] + [s[|s| - 1]];
    }
  }

  lemma {:induction false} OwnersDistinct(t: seq<TNode>, s: seq<nat>)
    requires (forall i | 0 <= i < |s| :: s[i] < |t|) && FreeList.NoDup(s)
    ensures FreeList.NoDup(Owners(t, s))
  {
    if s != [] {
      var m, x := s[..|s| - 1], s[|s| - 1];
      OwnersDistinct(t, m);
      OwnersIn(t, m, x);
      assert x !in m;
      if !t[x].kind.TLink? {
        DistinctJoin(Owners(t, m), [x]);
      }
    }
  }
}

/** The tree of blocks hanging off one di_addr slot: which blocks it references
    and which data block each offset leads to. */
module BlockTree {
  import opened Layout
  import opened Multisets

  /** Every block number referenced at level lo or above from p, a level-l
      pointer.  Level 0 is data; a number outside the data region is counted but
      not followed. */
  function RefsFrom(v: Vol, d: Disk, p: nat, l: nat, lo: nat): multiset<nat>
    decreases l, 1
  {
    if p == 0 || l < lo then multiset{}
    else if l == 0 || !v.InData(p) then multiset{p}
    else multiset{p} + Sum(KidsFrom(v, d, p, l, lo))
  }

  function KidsFrom(v: Vol, d: Disk, p: nat, l: nat, lo: nat): (s: seq<multiset<nat>>)
    requires l > 0
    ensures |s| == v.nindir
    decreases l, 0
  {
    seq(v.nindir, i requires 0 <= i < v.nindir => RefsFrom(v, d, Ptr(v, d, p, i), l - 1, lo))
  }

  /** All references, and the indirect blocks among them. */
  function Refs(v: Vol, d: Disk, p: nat, l: nat): multiset<nat> { RefsFrom(v, d, p, l, 0) }
  function Inds(v: Vol, d: Disk, p: nat, l: nat): multiset<nat> { RefsFrom(v, d, p, l, 1) }

  /** The data block that a path of entries below a level-|path| pointer leads
      to, 0 for a hole. */
  function Descend(v: Vol, d: Disk, p: nat, path: seq<nat>): nat
    decreases |path|
  {
    if p == 0 || path == [] then p else Descend(v, d, Ptr(v, d, p, path[0]), path[1..])
  }

  /** Blocks absent on the way down a path, the data block included. */
  function Missing(v: Vol, d: Disk, p: nat, path: seq<nat>): nat
    decreases |path|
  {
    if p == 0 then |path| + 1
    else if path == [] then 0
    else Missing(v, d, Ptr(v, d, p, path[0]), path[1..])
  }

  /** A path of entries that exist. */
  ghost predicate IsPath(v: Vol, path: seq<nat>) {
    forall k | 0 <= k < |path| :: path[k] < v.nindir
  }

  ghost predicate AllData(v: Vol, m: multiset<nat>) {
    forall b | b in m :: v.InData(b)
  }

  /** d' differs from d only at blocks counted in m. */
  ghost predicate ChangedIn(d: Disk, d': Disk, m: multiset<nat>) {
    |d| == |d'| && forall b: nat | b < |d| && b !in m :: d'[b] == d[b]
  }

  lemma ChangedMono(d: Disk, d': Disk, m: multiset<nat>, m': multiset<nat>)
    requires ChangedIn(d, d', m) && m <= m'
    ensures ChangedIn(d, d', m')
  {
  }

  /** Block p holds the same pointers in d' as in d, except entry e. */
  ghost predicate SamePtrsBut(v: Vol, d: Disk, d': Disk, p: nat, e: nat) {
    forall i | 0 <= i < v.nindir && i != e :: Ptr(v, d', p, i) == Ptr(v, d, p, i)
  }

  lemma {:induction false} RefsFromMono(v: Vol, d: Disk, p: nat, l: nat, lo: nat, hi: nat)
    requires lo <= hi
    ensures RefsFrom(v, d, p, l, hi) <= RefsFrom(v, d, p, l, lo)
    decreases l
  {
    if p != 0 && hi <= l && l > 0 && v.InData(p) {
      forall i | 0 <= i < v.nindir
        ensures KidsFrom(v, d, p, l, hi)[i] <= KidsFrom(v, d, p, l, lo)[i]
      {
        RefsFromMono(v, d, Ptr(v, d, p, i), l - 1, lo, hi);
      }
      SumMono(KidsFrom(v, d, p, l, hi), KidsFrom(v, d, p, l, lo));
    }
  }

  /** A tree is carried by its indirect blocks alone. */
  lemma {:induction false} RefsFrame(v: Vol, d: Disk, d': Disk, p: nat, l: nat, lo: nat)
    requires |d| == |d'|
    requires forall b | b in Inds(v, d, p, l) && v.InData(b) && b < |d| :: d'[b] == d[b]
    ensures RefsFrom(v, d', p, l, lo) == RefsFrom(v, d, p, l, lo)
    decreases l
  {
    if p != 0 && l > 0 && v.InData(p) {
      forall i | 0 <= i < v.nindir
        ensures KidsFrom(v, d', p, l, lo)[i] == KidsFrom(v, d, p, l, lo)[i]
      {
        assert p in Inds(v, d, p, l);
        SumHas(KidsFrom(v, d, p, l, 1), i);
        assert Inds(v, d, Ptr(v, d, p, i), l - 1) <= Inds(v, d, p, l);
        RefsFrame(v, d, d', Ptr(v, d, p, i), l - 1, lo);
      }
      assert KidsFrom(v, d', p, l, lo) == KidsFrom(v, d, p, l, lo);
    }
  }

  lemma {:induction false} DescendFrame(v: Vol, d: Disk, d': Disk, p: nat, path: seq<nat>)
    requires |d| == |d'| && IsPath(v, path)
    requires AllData(v, Inds(v, d, p, |path|))
    requires forall b | b in Inds(v, d, p, |path|) && b < |d| :: d'[b] == d[b]
    ensures Descend(v, d', p, path) == Descend(v, d, p, path)
    ensures Missing(v, d', p, path) == Missing(v, d, p, path)
    decreases |path|
  {
    if p != 0 && path != [] {
      NodeParts(v, d, p, |path|, path[0]);
      DescendFrame(v, d, d', Ptr(v, d, p, path[0]), path[1..]);
    }
  }

  lemma SumAdd(s: seq<multiset<nat>>, j: nat, m: multiset<nat>)
    requires j < |s|
    ensures Sum(s[j := s[j] + m]) == Sum(s) + m
  {
    SumUpdate(s, j, s[j] + m);
    var t := Sum(s[j := s[j] + m]);
    assert t + s[j] == Sum(s) + m + s[j];
    assert t == (t + s[j]) - s[j] == Sum(s) + m;
  }

  /** A mapped data block is counted apart from all indirect blocks. */
  lemma {:induction false} LeafPart(v: Vol, d: Disk, p: nat, path: seq<nat>)
    requires IsPath(v, path) && Descend(v, d, p, path) != 0
    requires AllData(v, Inds(v, d, p, |path|))
    ensures Inds(v, d, p, |path|) + multiset{Descend(v, d, p, path)} <= Refs(v, d, p, |path|)
    decreases |path|
  {
    if path != [] {
      var l := |path|;
      var k0, k1 := KidsFrom(v, d, p, l, 0), KidsFrom(v, d, p, l, 1);
      NodeParts(v, d, p, l, path[0]);
      LeafPart(v, d, Ptr(v, d, p, path[0]), path[1..]);
      forall j | 0 <= j < v.nindir ensures k1[j] <= k0[j] {
        RefsFromMono(v, d, Ptr(v, d, p, j), l - 1, 0, 1);
      }
      SumMonoAdd(k1, k0, path[0], multiset{Descend(v, d, p, path)});
    }
  }

  lemma SumMonoAdd(s: seq<multiset<nat>>, t: seq<multiset<nat>>, j: nat, m: multiset<nat>)
    requires |s| == |t| && j < |s| && s[j] + m <= t[j]
    requires forall i | 0 <= i < |s| :: s[i] <= t[i]
    ensures Sum(s) + m <= Sum(t)
  {
    SumAdd(s, j, m);
    SumMono(s[j := s[j] + m], t);
  }

  /** Two mapped data blocks on different paths are counted twice. */
  lemma {:induction false} LeafPair(v: Vol, d: Disk, p: nat, x: seq<nat>, y: seq<nat>)
    requires |x| == |y| && IsPath(v, x) && IsPath(v, y) && x != y
    requires Descend(v, d, p, x) != 0 && Descend(v, d, p, y) != 0
    requires AllData(v, Inds(v, d, p, |x|))
    ensures multiset{Descend(v, d, p, x)} + multiset{Descend(v, d, p, y)} <= Refs(v, d, p, |x|)
    decreases |x|
  {
    var l := |x|;
    NodeParts(v, d, p, l, x[0]);
    if x[0] == y[0] {
      LeafPair(v, d, Ptr(v, d, p, x[0]), x[1..], y[1..]);
    } else {
      LeafInKid(v, d, p, x);
      LeafInKid(v, d, p, y);
      SumTwoParts(KidsFrom(v, d, p, l, 0), x[0], y[0],
                  multiset{Descend(v, d, p, x)}, multiset{Descend(v, d, p, y)});
    }
  }

  lemma LeafInKid(v: Vol, d: Disk, p: nat, path: seq<nat>)
    requires path != [] && IsPath(v, path) && Descend(v, d, p, path) != 0
    requires AllData(v, Inds(v, d, p, |path|))
    ensures v.InData(p)
    ensures multiset{Descend(v, d, p, path)} <= KidsFrom(v, d, p, |path|, 0)[path[0]]
  {
    NodeParts(v, d, p, |path|, path[0]);
    LeafPart(v, d, Ptr(v, d, p, path[0]), path[1..]);
  }

  lemma SumTwoParts(s: seq<multiset<nat>>, i: nat, j: nat, x: multiset<nat>, y: multiset<nat>)
    requires i < |s| && j < |s| && i != j && x <= s[i] && y <= s[j]
    ensures x + y <= Sum(s)
  {
    SumHasTwo(s, i, j);
  }

  /** An indirect block and the tree behind its entry i are part of its own tree. */
  lemma NodeParts(v: Vol, d: Disk, p: nat, l: nat, i: nat)
    requires p != 0 && l > 0 && i < v.nindir && AllData(v, Inds(v, d, p, l))
    ensures v.InData(p)
    ensures Inds(v, d, Ptr(v, d, p, i), l - 1) <= Inds(v, d, p, l)
    ensures Refs(v, d, Ptr(v, d, p, i), l - 1) <= Refs(v, d, p, l)
    ensures AllData(v, Inds(v, d, Ptr(v, d, p, i), l - 1))
  {
    assert p in Inds(v, d, p, l);
    SumHas(KidsFrom(v, d, p, l, 1), i);
    SumHas(KidsFrom(v, d, p, l, 0), i);
  }

  /** What a change confined to entry e of block p, and to the subtree behind it,
      does to the tree of p. */
  lemma KidChange(v: Vol, d: Disk, d': Disk, p: nat, l: nat, e: nat, m: multiset<nat>)
    requires l > 0 && e < v.nindir && v.InData(p)
    requires Distinct(Refs(v, d, p, l) + m)
    requires ChangedIn(d, d', multiset{p} + Refs(v, d, Ptr(v, d, p, e), l - 1) + m)
    requires SamePtrsBut(v, d, d', p, e)
    ensures Refs(v, d', p, l) + Refs(v, d, Ptr(v, d, p, e), l - 1)
            == Refs(v, d, p, l) + Refs(v, d', Ptr(v, d', p, e), l - 1)
    ensures forall i, lo | 0 <= i < v.nindir && i != e ::
              KidsFrom(v, d', p, l, lo)[i] == KidsFrom(v, d, p, l, lo)[i]
  {
    var k, k' := KidsFrom(v, d, p, l, 0), KidsFrom(v, d', p, l, 0);
    forall i, lo | 0 <= i < v.nindir && i != e
      ensures KidsFrom(v, d', p, l, lo)[i] == KidsFrom(v, d, p, l, lo)[i]
    {
      SiblingFrame(v, d, d', p, l, e, m, i);
      RefsFrame(v, d, d', Ptr(v, d, p, i), l - 1, lo);
    }
    SumUpdate(k, e, k'[e]);
    assert k' == k[e := k'[e]];
    Shift(multiset{p}, Sum(k'), k[e], Sum(k), k'[e]);
  }

  /** Such a change leaves the subtrees behind the other entries alone. */
  lemma SiblingFrame(v: Vol, d: Disk, d': Disk, p: nat, l: nat, e: nat, m: multiset<nat>, i: nat)
    requires l > 0 && e < v.nindir && v.InData(p) && i < v.nindir && i != e
    requires Distinct(Refs(v, d, p, l) + m)
    requires ChangedIn(d, d', multiset{p} + Refs(v, d, Ptr(v, d, p, e), l - 1) + m)
    ensures forall b | b in Inds(v, d, Ptr(v, d, p, i), l - 1) && b < |d| :: d'[b] == d[b]
  {
    var k := KidsFrom(v, d, p, l, 0);
    SumHasTwo(k, e, i);
    RefsFromMono(v, d, Ptr(v, d, p, i), l - 1, 0, 1);
    var part := multiset{p} + k[e] + k[i];
    assert part <= Refs(v, d, p, l);
    forall b | b in Inds(v, d, Ptr(v, d, p, i), l - 1) && b < |d| ensures d'[b] == d[b] {
      assert b in k[i];
      assert (part + m)[b] <= (Refs(v, d, p, l) + m)[b] <= 1;
    }
  }

  /** A block with no pointers in it is a tree of its own. */
  lemma EmptyNode(v: Vol, d: Disk, p: nat, l: nat)
    requires l > 0 && v.InData(p)
    requires forall i | 0 <= i < v.nindir :: Ptr(v, d, p, i) == 0
    ensures Refs(v, d, p, l) == Inds(v, d, p, l) == multiset{p}
    ensures forall path: seq<nat> | |path| == l && IsPath(v, path) ::
              Descend(v, d, p, path) == 0 && Missing(v, d, p, path) == l
  {
    forall lo | 0 <= lo <= 1 ensures Sum(KidsFrom(v, d, p, l, lo)) == multiset{} {
      var k := KidsFrom(v, d, p, l, lo);
      forall i | 0 <= i < |k| ensures k[i] == multiset{} {
        assert k[i] == RefsFrom(v, d, Ptr(v, d, p, i), l - 1, lo);
      }
      SumEmpty(k);
    }
    assert Sum(KidsFrom(v, d, p, l, 0)) == Sum(KidsFrom(v, d, p, l, 1)) == multiset{};
  }

  /** Below a single-indirect block there are only data blocks. */
  lemma SingleInds(v: Vol, d: Disk, p: nat)
    requires v.InData(p)
    ensures Inds(v, d, p, 1) == multiset{p}
  {
    var k := KidsFrom(v, d, p, 1, 1);
    forall i | 0 <= i < |k| ensures k[i] == multiset{} {
      assert k[i] == RefsFrom(v, d, Ptr(v, d, p, i), 0, 1);
    }
    SumEmpty(k);
  }
}

/** What each change of the namespace does to its structure: an entry added, removed
    or moved, a directory born or gone. */
module NameSteps {
  import opened Multisets
  import opened Names

  /** s' is s with the entry (n, c) more. */
  ghost predicate EntryAdded(s: seq<Slot>, s': seq<Slot>, n: string, c: nat) {
    var dots := |s| <= |s'| && forall k | 0 <= k < |s| && s[k].ino != 0 :: s'[k] == s[k];
    var named := forall m, i: nat :: Has(s', m, i) <==> Has(s, m, i) || (m == n && i == c && c != 0);
    dots && named && Targets(s') == Targets(s) + Target(Slot(c, n))
      && (Unique(s) && (forall i: nat :: !Has(s, n, i)) ==> Unique(s'))
  }

  /** s' is s with the entry (n, c) less. */
  ghost predicate EntryRemoved(s: seq<Slot>, s': seq<Slot>, n: string, c: nat) {
    var dots := |s| == |s'| && forall k | 0 <= k < |s| && s[k].name != n :: s'[k] == s[k];
    var named := forall m, i: nat :: Has(s', m, i) <==> Has(s, m, i) && m != n;
    dots && named && Targets(s') + Target(Slot(c, n)) == Targets(s) && (Unique(s) ==> Unique(s'))
  }

  lemma HasFilled(s: seq<Slot>, k: nat, n: string, c: nat, m: string, i: nat)
    requires k < |s| && s[k].ino == 0
    ensures Has(s[k := Slot(c, n)], m, i) <==> Has(s, m, i) || (m == n && i == c && c != 0)
  {
    var s' := s[k := Slot(c, n)];
    if Has(s, m, i) {
      var j :| 0 <= j < |s| && s[j] == Slot(i, m);
      assert s'[j] == Slot(i, m);
    }
    if m == n && i == c && c != 0 {
      assert s'[k] == Slot(i, m);
    }
  }

  lemma NoneNamed(s: seq<Slot>, n: string)
    requires forall j | 0 <= j < |s| :: s[j].ino == 0 || s[j].name != n
    ensures forall i: nat :: !Has(s, n, i)
  {
  }

  lemma HasAt(s: seq<Slot>, k: nat)
    requires k < |s| && s[k].ino != 0
    ensures Has(s, s[k].name, s[k].ino)
  {
    assert s[k] == Slot(s[k].ino, s[k].name);
  }

  lemma NotNamed(s: seq<Slot>, n: string)
    requires forall i: nat :: !Has(s, n, i)
    ensures forall j | 0 <= j < |s| && s[j].ino != 0 :: s[j].name != n
  {
    forall j | 0 <= j < |s| && s[j].ino != 0 ensures s[j].name != n {
      assert s[j] == Slot(s[j].ino, s[j].name);
      assert !Has(s, n, s[j].ino);
    }
  }

  lemma SlotFilled(s: seq<Slot>, k: nat, n: string, c: nat)
    requires k < |s| && s[k].ino == 0
    ensures EntryAdded(s, s[k := Slot(c, n)], n, c)
  {
    hide Has, Targets;
    var s' := s[k := Slot(c, n)];
    TargetsUpdate(s, k, Slot(c, n));
    assert Targets(s') + Target(s[k]) == Targets(s');
    forall m, i: nat ensures Has(s', m, i) <==> Has(s, m, i) || (m == n && i == c && c != 0) {
      HasFilled(s, k, n, c, m, i);
    }
    if Unique(s) && forall i: nat :: !Has(s, n, i) {
      NotNamed(s, n);
    }
  }

  lemma SlotAppended(s: seq<Slot>, n: string, c: nat)
    ensures EntryAdded(s, s + [Slot(c, n)], n, c)
  {
    var s', x := s + [Slot(c, n)], Slot(0, n);
    TargetsSnoc(s, Slot(c, n));
    forall m, i: nat ensures Has(s', m, i) <==> Has(s, m, i) || (m == n && i == c && c != 0) {
      if Has(s, m, i) {
        var j :| 0 <= j < |s| && s[j] == Slot(i, m);
        assert s'[j] == Slot(i, m);
      }
      if m == n && i == c && c != 0 {
        assert s'[|s|] == Slot(i, m);
      }
    }
    if Unique(s) && forall i: nat :: !Has(s, n, i) {
      forall j | 0 <= j < |s| && s[j].ino != 0 ensures s[j].name != n {
        assert s[j] == Slot(s[j].ino, s[j].name);
        assert !Has(s, n, s[j].ino);
      }
    }
  }

  lemma HasCleared(s: seq<Slot>, k: nat, n: string, m: string, i: nat)
    requires k < |s| && s[k].ino != 0 && s[k].name == n && Unique(s)
    ensures Has(s[k := Slot(0, n)], m, i) <==> Has(s, m, i) && m != n
  {
    var s' := s[k := Slot(0, n)];
    if Has(s, m, i) && m != n {
      var j :| 0 <= j < |s| && s[j] == Slot(i, m);
      assert s'[j] == Slot(i, m);
    }
    if Has(s', m, i) {
      var j :| 0 <= j < |s| && s'[j] == Slot(i, m);
      assert j != k && s[j] == Slot(i, m);
      assert m != n;
    }
  }

  lemma SlotCleared(s: seq<Slot>, k: nat, n: string)
    requires k < |s| && s[k].ino != 0 && s[k].name == n && Unique(s)
    ensures EntryRemoved(s, s[k := Slot(0, n)], n, s[k].ino)
  {
    hide Has, Targets;
    var s', c := s[k := Slot(0, n)], s[k].ino;
    TargetsUpdate(s, k, Slot(0, n));
    assert Targets(s') + Target(s[k]) == Targets(s) + Target(Slot(0, n)) == Targets(s);
    forall m, i: nat ensures Has(s', m, i) <==> Has(s, m, i) && m != n {
      HasCleared(s, k, n, m, i);
    }
  }

  /** Only directory p's slots and size changed. */
  ghost predicate OnlyDir(t: Tree, t': Tree, p: nat) {
    && |t'.ilist| == |t.ilist| && |t'.dirs| == |t.dirs| && p < |t.ilist|
    && (forall i | 0 <= i < |t.ilist| && i != p :: t'.ilist[i] == t.ilist[i])
    && (forall i | 0 <= i < |t.dirs| && i != p :: t'.dirs[i] == t.dirs[i])
    && t'.ilist[p].kind == t.ilist[p].kind && t'.ilist[p].nlink == t.ilist[p].nlink
  }

  /** Entries of one directory changed: so did the counts. */
  lemma LinksStep(t: Tree, t': Tree, p: nat)
    requires |t'.ilist| == |t.ilist| && p < |t.ilist|
    requires forall d: nat | d < |t.ilist| && d != p :: t'.Ents(d) == t.Ents(d)
    ensures Links(t') + Targets(t.Ents(p)) == Links(t) + Targets(t'.Ents(p))
  {
    var k, k' := DirTargets(t), DirTargets(t');
    hide *;
    SumUpdate(k, p, Targets(t'.Ents(p)));
    assert k' == k[p := Targets(t'.Ents(p))] by {
      TargetsAt(t);
      TargetsAt(t');
      assert |k'| == |k|;
    }
    TargetsAt(t);
    SumOf(t);
    SumOf(t');
  }

  lemma SumOf(t: Tree)
    ensures Links(t) == Sum(DirTargets(t))
  {
  }

  lemma TargetsAt(t: Tree)
    ensures |DirTargets(t)| == |t.ilist|
    ensures forall d: nat | d < |t.ilist| :: DirTargets(t)[d] == Targets(t.Ents(d))
  {
  }

  /** An inode is named by some entry exactly when it is counted. */
  lemma LinkWitness(t: Tree, i: nat)
    ensures Links(t)[i] > 0 <==> exists d: nat, n :: Refers(t, d, n, i)
  {
    hide *;
    TargetsAt(t);
    SumOf(t);
    if Links(t)[i] > 0 {
      var d := SumWitness(DirTargets(t), i);
      TargetsHas(t.Ents(d), i);
      var n :| Has(t.Ents(d), n, i);
      RefersIs(t, d, n, i);
    }
    if d: nat, n :| Refers(t, d, n, i) {
      RefersIs(t, d, n, i);
      TargetsHas(t.Ents(d), i);
      SumHas(DirTargets(t), d);
      assert i in DirTargets(t)[d];
    }
  }

  lemma RefersIs(t: Tree, d: nat, n: string, i: nat)
    ensures Refers(t, d, n, i) == Has(t.Ents(d), n, i)
    ensures Refers(t, d, n, i) ==> d < |t.ilist|
  {
  }
}

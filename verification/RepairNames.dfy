/** The names orphans get: each tells its inode number, and lost+found holds every orphan
    hung under its own. */
module RepairNames {
  import opened Names
  import opened LinkRepair
  import opened RepairCounts

  // ----- decimal numbers

  function DigitValue(c: char): nat { if '0' <= c <= '9' then c as int - '0' as int else 0 }

  /** The number a string of digits stands for. */
  function Value(s: string): nat {
    if s == "" then 0 else 10 * Value(s[..|s| - 1]) + DigitValue(s[|s| - 1])
  }

  lemma {:induction false} DecimalValue(n: nat)
    ensures Value(Decimal(n)) == n && forall k | 0 <= k < |Decimal(n)| :: '0' <= Decimal(n)[k] <= '9'
  {
    var c := ['0', '1', '2', '3', '4', '5', '6', '7', '8', '9'][n % 10];
    DigitOf(n % 10);
    if n < 10 {
      assert Decimal(n) == [c] && Value([]) == 0;
    } else {
      DecimalValue(n / 10);
      assert Decimal(n)[..|Decimal(n)| - 1] == Decimal(n / 10);
    }
  }

  lemma DigitOf(k: nat)
    requires k < 10
    ensures var c := ['0', '1', '2', '3', '4', '5', '6', '7', '8', '9'][k];
            '0' <= c <= '9' && DigitValue(c) == k
  {
  }

  lemma {:induction false} DecimalShort(n: nat, k: nat)
    requires n < Tens(k) && k >= 1
    ensures |Decimal(n)| <= k
  {
    if n >= 10 {
      assert Tens(k) == 10 * Tens(k - 1);
      DecimalShort(n / 10, k - 1);
    }
  }

  function Tens(k: nat): nat { if k == 0 then 1 else 10 * Tens(k - 1) }

  /** A '#' and the inode number: the name of an orphan tells which it is. */
  lemma OrphanNamed(ino: nat)
    requires ino < 0x1_0000
    ensures OrphanName(ino) == "#" + Decimal(ino) && Value(OrphanName(ino)[1..]) == ino
  {
    assert Tens(5) == 100000;
    DecimalShort(ino, 5);
    DecimalValue(ino);
    assert ("#" + Decimal(ino))[1..] == Decimal(ino);
  }

  lemma OrphansApart(i: nat, j: nat)
    requires i < 0x1_0000 && j < 0x1_0000 && OrphanName(i) == OrphanName(j)
    ensures i == j
  {
    OrphanNamed(i);
    OrphanNamed(j);
  }

  // ----- lost+found

  /** Slots a became b by giving each of h a free slot of its own, under its name. */
  ghost predicate Spots(a: seq<Slot>, b: seq<Slot>, h: seq<nat>, at: seq<nat>) {
    && |at| == |h| && |b| == |a|
    && (forall i, j | 0 <= i < j < |at| :: at[i] != at[j])
    && (forall j | 0 <= j < |h| ::
          at[j] < |a| && a[at[j]].ino == 0 && b[at[j]] == Slot(h[j], OrphanName(h[j])))
    && forall k: nat | k < |a| && k !in at :: b[k] == a[k]
  }

  ghost predicate Listed(z: Tree, t: Tree, lf: nat, h: seq<nat>) {
    lf < |z.dirs| && lf < |t.dirs| && exists at: seq<nat> :: Spots(z.dirs[lf], t.dirs[lf], h, at)
  }

  lemma ListedNone(z: Tree, lf: nat)
    requires lf < |z.dirs|
    ensures Listed(z, z, lf, [])
  {
    assert Spots(z.dirs[lf], z.dirs[lf], [], []);
  }

  lemma ListedMore(z: Tree, t: Tree, lf: nat, h: seq<nat>, k: nat, i: nat)
    requires Listed(z, t, lf, h) && k < |t.dirs[lf]| && t.dirs[lf][k].ino == 0 && i < |t.dirs| && i != lf
    requires forall x | x in h :: x != 0
    ensures Listed(z, Hung(t, lf, k, i), lf, h + [i])
  {
    hide OrphanName;
    var at :| Spots(z.dirs[lf], t.dirs[lf], h, at);
    var a, b, w := z.dirs[lf], t.dirs[lf], Hung(t, lf, k, i).dirs[lf];
    assert w == b[k := Slot(i, OrphanName(i))];
    forall j | 0 <= j < |at| ensures at[j] != k {
      assert h[j] in h;
    }
    assert b[k] == a[k];
    assert Spots(a, w, h + [i], at + [k]);
  }

  /** No name is used twice, and none could be an orphan's. */
  ghost predicate PlainNames(s: seq<Slot>) {
    Unique(s) && forall k | 0 <= k < |s| && s[k].ino != 0 && s[k].name != "" :: s[k].name[0] != '#'
  }

  /** Every one of h is in s; and if a held plain names only, a lookup of its name in s finds
      it, and no name is used twice. */
  ghost predicate FoundByName(a: seq<Slot>, s: seq<Slot>, h: seq<nat>) {
    && (forall x | x in h :: Has(s, OrphanName(x), x))
    && (PlainNames(a) && (forall x | x in h :: x < 0x1_0000) ==>
          Unique(s) && forall x | x in h :: First(s, OrphanName(x)) == x)
  }

  lemma SpotsFound(a: seq<Slot>, b: seq<Slot>, h: seq<nat>, at: seq<nat>)
    requires Spots(a, b, h, at) && (forall x | x in h :: x != 0)
    requires forall i, j | 0 <= i < j < |h| :: h[i] != h[j]
    ensures FoundByName(a, b, h)
  {
    hide OrphanName, First;
    forall x | x in h ensures Has(b, OrphanName(x), x) {
      var j :| 0 <= j < |h| && h[j] == x;
      assert b[at[j]] == Slot(x, OrphanName(x));
    }
    if PlainNames(a) && (forall x | x in h :: x < 0x1_0000) {
      forall k: nat, l: nat | k < l < |b| && b[k].ino != 0 && b[l].ino != 0 ensures b[k].name != b[l].name {
        SpotNames(a, b, h, at, k, l);
      }
      forall x | x in h ensures First(b, OrphanName(x)) == x {
        FirstHas(b, OrphanName(x), x);
      }
    }
  }

  lemma SpotNames(a: seq<Slot>, b: seq<Slot>, h: seq<nat>, at: seq<nat>, k: nat, l: nat)
    requires Spots(a, b, h, at) && PlainNames(a) && (forall x | x in h :: x < 0x1_0000)
    requires forall i, j | 0 <= i < j < |h| :: h[i] != h[j]
    requires k < l < |b| && b[k].ino != 0 && b[l].ino != 0
    ensures b[k].name != b[l].name
  {
    hide OrphanName;
    if k in at {
      var i :| 0 <= i < |at| && at[i] == k;
      assert h[i] in h;
      OrphanHash(h[i]);
      if l in at {
        var j :| 0 <= j < |at| && at[j] == l;
        assert h[j] in h;
        if OrphanName(h[i]) == OrphanName(h[j]) {
          OrphansApart(h[i], h[j]);
        }
      } else {
        assert b[l] == a[l];
      }
    } else {
      assert b[k] == a[k];
      if l in at {
        var j :| 0 <= j < |at| && at[j] == l;
        OrphanHash(h[j]);
      } else {
        assert b[l] == a[l];
      }
    }
  }

  lemma OrphanHash(i: nat)
    ensures OrphanName(i)[0] == '#'
  {
  }

  lemma {:induction false} FirstHas(s: seq<Slot>, n: string, x: nat)
    requires Unique(s) && Has(s, n, x)
    ensures First(s, n) == x
  {
    var k :| 0 <= k < |s| && s[k] == Slot(x, n);
    if k > 0 {
      assert s[1..][k - 1] == Slot(x, n);
      FirstHas(s[1..], n, x);
    }
  }

  /** Plain names stay so when dangling entries are cleared. */
  lemma ZappedPlain(t: Tree, s: seq<Slot>, z: seq<Slot>)
    requires |z| == |s| && (forall k | 0 <= k < |s| :: z[k] == Zapped(t, s[k])) && PlainNames(s)
    ensures PlainNames(z)
  {
  }

  /** Orphans are hung once each. */
  lemma {:induction false} HungOnce(t: Tree, i: nat)
    ensures forall j, k | 0 <= j < k < |HungIn(t, i)| :: HungIn(t, i)[j] != HungIn(t, i)[k]
    ensures forall x | x in HungIn(t, i) :: 0 < x < i && t.InUse(x)
  {
    hide Orphan, Covered;
    if i > 0 {
      HungOnce(t, i - 1);
      assert Orphan(t, i - 1) ==> t.InUse(i - 1) by { OrphanUsed(t, i - 1); }
    }
  }

  lemma OrphanUsed(t: Tree, i: nat)
    ensures Orphan(t, i) ==> t.InUse(i)
  {
  }

  lemma HungForOnce(t: Tree)
    requires t.Shape()
    ensures var h := HungFor(t);
            && (forall j, k | 0 <= j < k < |h| :: h[j] != h[k])
            && forall x | x in h :: 0 < x < |t.ilist|
  {
    hide HungIn, Places;
    HungOnce(t, |t.ilist|);
    assert forall x | x in HungFor(t) :: x in HungIn(t, |t.ilist|);
  }

  lemma DirZapped(t: Tree, z: Tree, d: nat)
    requires Cleared(t, z) && t.IsDir(d) && 1 <= d < |t.dirs|
    ensures d < |z.dirs| && |z.dirs[d]| == |t.dirs[d]|
    ensures forall k | 0 <= k < |t.dirs[d]| :: z.dirs[d][k] == Zapped(t, t.dirs[d][k])
  {
  }

  /** From the slots as cleared to the image as found. */
  lemma ListedFound(t: Tree, z: Tree, w: Tree, lf: nat)
    requires t.Shape() && Cleared(t, z) && t.IsDir(lf) && 1 <= lf
    requires Listed(z, w, lf, HungFor(t))
    ensures lf < |w.dirs| && FoundByName(t.dirs[lf], w.dirs[lf], HungFor(t))
  {
    hide HungFor, Spots, FoundByName, PlainNames, Cleared, Zapped;
    var h := HungFor(t);
    HungForOnce(t);
    DirZapped(t, z, lf);
    var at :| Spots(z.dirs[lf], w.dirs[lf], h, at);
    SpotsFound(z.dirs[lf], w.dirs[lf], h, at);
    FoundPlain(t, t.dirs[lf], z.dirs[lf], w.dirs[lf], h);
  }

  lemma FoundPlain(t: Tree, s: seq<Slot>, z: seq<Slot>, w: seq<Slot>, h: seq<nat>)
    requires |z| == |s| && (forall k | 0 <= k < |s| :: z[k] == Zapped(t, s[k])) && FoundByName(z, w, h)
    ensures FoundByName(s, w, h)
  {
    hide PlainNames, First, OrphanName, Zapped, Has;
    if PlainNames(s) {
      ZappedPlain(t, s, z);
    }
  }
}

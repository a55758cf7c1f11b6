/** What a file costs in blocks: its data and the indirect blocks above it, counted
    along the way a sequential write takes them. */
module Space {
  import opened Arith
  import opened Layout
  import opened BlockMap
  import opened BlockTree
  import opened InodeMap
  import opened Multisets
  import opened Builder

  /** Blocks of a file that starts with `count` data blocks and no hole. */
  function Cost(v: Vol, count: nat): nat { count + NeedTo(v, count, Naddr(v)) }

  /** The first `count` logical blocks are mapped. */
  ghost predicate Filled(v: Vol, d: Disk, addr: seq<nat>, count: nat)
    requires IsMap(v, addr)
  {
    forall lbn: nat | lbn < count :: MapOf(v, d, addr, lbn) != 0
  }

  // ----- one more block

  /** Behind entries k and up, one block more at offset e * per + r. */
  lemma {:induction false} FromGrow(n: nat, l: nat, c: nat, k: nat, e: nat, r: nat)
    requires c == e * Pow(n, l) + r && r < Pow(n, l) && k <= e < n
    ensures NeedFrom(n, l, c + 1, k) + Need(n, l, r) == NeedFrom(n, l, c, k) + Need(n, l, r + 1)
    decreases e - k
  {
    var per := Pow(n, l);
    assert (k + 1) * per == k * per + per;
    if k == e {
      assert NeedFrom(n, l, c + 1, k + 1) == 0 == NeedFrom(n, l, c, k + 1);
    } else {
      MulGap(k, e, per);
      FromGrow(n, l, c, k + 1, e, r);
    }
  }

  lemma NeedGrow(n: nat, l: nat, c: nat)
    requires n > 0 && l > 0 && c < Pow(n, l)
    ensures var r := Rest(n, c, l);
            Need(n, l, c + 1) + Need(n, l - 1, r)
            == Need(n, l, c) + Need(n, l - 1, r + 1) + if c == 0 then 1 else 0
  {
    var e, r := Lead(n, c, l), Rest(n, c, l);
    FromGrow(n, l - 1, c, 0, e, r);
  }

  lemma {:induction false} NeedOne(n: nat, l: nat)
    requires n > 0
    ensures Need(n, l, 1) == l
  {
    if l > 0 {
      NeedOne(n, l - 1);
      NeedGrow(n, l, 0);
      SmallMod(0, Pow(n, l - 1));
    }
  }

  /** The offset before idx lies behind the same entry unless idx starts a new one. */
  lemma DigitsBefore(n: nat, idx: nat, l: nat)
    requires n > 0 && l > 0 && Rest(n, idx, l) > 0
    ensures idx > 0 && Lead(n, idx - 1, l) == Lead(n, idx, l) && Rest(n, idx - 1, l) == Rest(n, idx, l) - 1
  {
    var per := Pow(n, l - 1);
    DivModUnique(idx - 1, per, idx / per, idx % per - 1);
  }

  lemma {:induction false} MissingAtMost(v: Vol, d: Disk, p: nat, path: seq<nat>)
    ensures Missing(v, d, p, path) <= |path| + if p == 0 then 1 else 0
    decreases |path|
  {
    if p != 0 && path != [] {
      MissingAtMost(v, d, Ptr(v, d, p, path[0]), path[1..]);
    }
  }

  /** Next to a block that is there, what is missing is what a file grows by. */
  lemma {:induction false} MissingBound(v: Vol, d: Disk, p: nat, l: nat, idx: nat)
    requires p != 0 && idx < Pow(v.nindir, l)
    requires idx > 0 ==> Descend(v, d, p, Digits(v.nindir, idx - 1, l)) != 0
    ensures Missing(v, d, p, Digits(v.nindir, idx, l)) + Need(v.nindir, l, idx) <= 1 + Need(v.nindir, l, idx + 1)
    decreases l
  {
    var n := v.nindir;
    if l > 0 {
      hide NeedFrom, Need;
      var e, r := Lead(n, idx, l), Rest(n, idx, l);
      var path := Digits(n, idx, l);
      assert path[0] == e && path[1..] == Digits(n, r, l - 1);
      NeedGrow(n, l, idx);
      if r > 0 {
        DigitsBefore(n, idx, l);
        var before := Digits(n, idx - 1, l);
        assert before[0] == e && before[1..] == Digits(n, r - 1, l - 1);
        MissingBound(v, d, Ptr(v, d, p, e), l - 1, r);
      } else {
        MissingAtMost(v, d, p, path);
        NeedOne(n, l - 1);
        NeedNone(n, l - 1);
      }
    }
  }

  lemma NeedNone(n: nat, l: nat)
    ensures Need(n, l, 0) == 0
  {
  }

  lemma {:induction false} NeedToNone(v: Vol, j: nat)
    requires j <= Naddr(v)
    ensures NeedTo(v, 0, j) == 0
  {
    if j > 0 {
      NeedToNone(v, j - 1);
    }
  }

  // ----- slot by slot

  lemma BasesApart(v: Vol, i: nat, j: nat)
    requires i < j < Naddr(v)
    ensures SlotBase(v, i) + Pow(v.nindir, SlotLevel(v, i)) <= SlotBase(v, j)
  {
    PowCaps(v.nindir);
  }

  /** First logical block past the first j slots. */
  function BaseOf(v: Vol, j: nat): nat { if j < Naddr(v) then SlotBase(v, j) else Capacity(v) }

  /** Of a file's first `count` blocks, those behind slot i. */
  function SlotShare(v: Vol, count: nat, i: nat): nat {
    var base := SlotBase(v, i);
    Min(if base <= count then count - base else 0, Pow(v.nindir, SlotLevel(v, i)))
  }

  lemma ShareStep(v: Vol, count: nat, i: nat)
    requires count <= Capacity(v) && i < Naddr(v)
    ensures Min(count, BaseOf(v, i + 1)) == Min(count, BaseOf(v, i)) + SlotShare(v, count, i)
    ensures NeedTo(v, count, i + 1) == NeedTo(v, count, i) + Need(v.nindir, SlotLevel(v, i), SlotShare(v, count, i))
  {
    hide Need, Pow, SlotBase, Capacity;
    BasesGrow(v, i);
  }

  lemma ShareGrow(v: Vol, lbn: nat, i: nat)
    requires lbn < Capacity(v) && i < Naddr(v)
    ensures lbn + 1 <= Capacity(v)
    ensures var r := LbnRoute(v, lbn);
            && r.Route? && r.level == SlotLevel(v, r.slot) && (i == r.slot ==> SlotShare(v, lbn, i) == r.idx)
            && SlotShare(v, lbn + 1, i) == SlotShare(v, lbn, i) + if i == r.slot then 1 else 0
  {
    RouteRange(v, lbn);
    hide LbnRoute, SlotBase;
    var r := LbnRoute(v, lbn);
    if i < r.slot {
      BasesApart(v, i, r.slot);
    } else if r.slot < i {
      BasesApart(v, r.slot, i);
    }
  }

  lemma NeedToFirst(v: Vol, count: nat)
    ensures NeedTo(v, count, 0) == 0
  {
  }

  lemma SomeSlot(v: Vol)
    ensures Naddr(v) > 0
  {
  }

  /** Only the slot of block lbn needs more when the file grows by it. */
  lemma {:induction false} NeedToGrow(v: Vol, lbn: nat, j: nat)
    requires lbn < Capacity(v) && j <= Naddr(v)
    ensures LbnRoute(v, lbn).Route?
    ensures var r := LbnRoute(v, lbn);
            NeedTo(v, lbn + 1, j) + (if r.slot < j then Need(v.nindir, r.level, r.idx) else 0)
            == NeedTo(v, lbn, j) + if r.slot < j then Need(v.nindir, r.level, r.idx + 1) else 0
  {
    hide *;
    SomeSlot(v);
    ShareGrow(v, lbn, 0);
    NeedToFirst(v, lbn);
    NeedToFirst(v, lbn + 1);
    if j > 0 {
      NeedToGrow(v, lbn, j - 1);
      ShareStep(v, lbn, j - 1);
      ShareStep(v, lbn + 1, j - 1);
      ShareGrow(v, lbn, j - 1);
    }
  }

  /** Mapping the next block of a file without holes takes no more than the file's cost
      grows by. */
  lemma StepCost(v: Vol, d: Disk, addr: seq<nat>, lbn: nat)
    requires IsMap(v, addr) && lbn < Capacity(v) && (lbn > 0 ==> MapOf(v, d, addr, lbn - 1) != 0)
    ensures MissingAt(v, d, addr, lbn) + Cost(v, lbn) <= Cost(v, lbn + 1)
  {
    RouteRange(v, lbn);
    NeedToGrow(v, lbn, Naddr(v));
    hide Need, LbnRoute, SlotBase, NeedTo;
    var r, n := LbnRoute(v, lbn), v.nindir;
    if r.idx > 0 {
      RouteOfSlot(v, r.slot, r.idx - 1);
    }
    if addr[r.slot] != 0 {
      MissingBound(v, d, addr[r.slot], r.level, r.idx);
    } else {
      assert r.idx == 0;
      NeedOne(n, r.level);
      NeedNone(n, r.level);
    }
  }

  lemma {:induction false} CostMono(v: Vol, a: nat, b: nat)
    requires a <= b <= Capacity(v)
    ensures Cost(v, a) <= Cost(v, b)
  {
    if a < b {
      CostMono(v, a, b - 1);
      CostGrows(v, b - 1);
    }
  }

  lemma CostGrows(v: Vol, lbn: nat)
    requires lbn < Capacity(v)
    ensures Cost(v, lbn) <= Cost(v, lbn + 1)
  {
    RouteRange(v, lbn);
    NeedToGrow(v, lbn, Naddr(v));
    var r := LbnRoute(v, lbn);
    NeedGrows(v.nindir, r.level, r.idx);
  }

  lemma {:induction false} NeedGrows(n: nat, l: nat, c: nat)
    requires n > 0 && c < Pow(n, l)
    ensures Need(n, l, c) <= Need(n, l, c + 1)
  {
    if l > 0 {
      NeedGrow(n, l, c);
      NeedGrows(n, l - 1, Rest(n, c, l));
    }
  }

  // ----- at least as many as that

  lemma {:induction false} SumCons(s: seq<multiset<nat>>)
    requires s != []
    ensures Sum(s) == s[0] + Sum(s[1..])
  {
    if |s| == 1 {
      assert s[..0] == [] && s[1..] == [];
    } else {
      var m := s[..|s| - 1];
      SumCons(m);
      assert s[1..][..|s[1..]| - 1] == m[1..];
    }
  }

  /** The first `count` offsets of a tree lead to blocks. */
  ghost predicate TreeFilled(v: Vol, d: Disk, p: nat, l: nat, count: nat) {
    forall idx: nat | idx < count && idx < Pow(v.nindir, l) :: Descend(v, d, p, Digits(v.nindir, idx, l)) != 0
  }

  /** So do the first offsets behind each of its entries. */
  lemma KidFilled(v: Vol, d: Disk, p: nat, l: nat, count: nat, e: nat)
    requires l > 0 && e < v.nindir && TreeFilled(v, d, p, l, count) && p != 0
    requires var per := Pow(v.nindir, l - 1); e * per <= count
    ensures var per := Pow(v.nindir, l - 1); TreeFilled(v, d, Ptr(v, d, p, e), l - 1, Min(per, count - e * per))
  {
    var n, per, m: nat := v.nindir, Pow(v.nindir, l - 1), l - 1;
    forall i: nat | i < Min(per, count - e * per)
      ensures Descend(v, d, Ptr(v, d, p, e), Digits(n, i, m)) != 0
    {
      var idx := e * per + i;
      DivModUnique(idx, per, e, i);
      MulGap(e, n, per);
      var path := Digits(n, idx, l);
      assert path[0] == e && path[1..] == Digits(n, i, m);
      assert Descend(v, d, p, path) != 0;
    }
  }

  lemma {:induction false} TreeCost(v: Vol, d: Disk, p: nat, l: nat, count: nat)
    requires count <= Pow(v.nindir, l) && TreeFilled(v, d, p, l, count) && AllData(v, Inds(v, d, p, l))
    ensures count + Need(v.nindir, l, count) <= |Refs(v, d, p, l)|
    decreases l, 1
  {
    if count > 0 {
      assert Descend(v, d, p, Digits(v.nindir, 0, l)) != 0;
      if l > 0 {
        assert p in Inds(v, d, p, l);
        KidsCost(v, d, p, l, count, 0);
        var k := KidsFrom(v, d, p, l, 0);
        assert k[0..] == k && Before(v.nindir, l - 1, count, 0) == 0;
        assert |multiset{p} + Sum(k)| == 1 + |Sum(k)|;
      }
    }
  }

  /** Of the first `count` offsets, those before entry e and those behind it. */
  function Before(n: nat, l: nat, count: nat, e: nat): nat { Min(e * Pow(n, l), count) }

  function EntryShare(n: nat, l: nat, count: nat, e: nat): int {
    Before(n, l, count, e + 1) - Before(n, l, count, e)
  }

  lemma EntryStep(n: nat, l: nat, count: nat, e: nat)
    requires e < n && Before(n, l, count, e) < count
    ensures var per := Pow(n, l);
            Before(n, l, count, e) == e * per <= count && EntryShare(n, l, count, e) == Min(per, count - e * per)
    ensures NeedFrom(n, l, count, e) == Need(n, l, EntryShare(n, l, count, e)) + NeedFrom(n, l, count, e + 1)
  {
    hide Need, Pow;
    assert (e + 1) * Pow(n, l) == e * Pow(n, l) + Pow(n, l);
  }

  lemma EntriesEnd(n: nat, l: nat, count: nat, e: nat)
    requires count <= Pow(n, l + 1) && e <= n && (e == n || Before(n, l, count, e) == count)
    ensures Before(n, l, count, e) == count && NeedFrom(n, l, count, e) == 0
  {
  }

  lemma SizeFirst(k: seq<multiset<nat>>, e: nat)
    requires e < |k|
    ensures |Sum(k[e..])| == |k[e]| + |Sum(k[e + 1..])|
  {
    SumCons(k[e..]);
    assert k[e..][1..] == k[e + 1..];
  }

  lemma KidRefs(v: Vol, d: Disk, p: nat, l: nat, e: nat)
    requires l > 0 && e < v.nindir
    ensures |KidsFrom(v, d, p, l, 0)| == v.nindir && KidsFrom(v, d, p, l, 0)[e] == Refs(v, d, Ptr(v, d, p, e), l - 1)
  {
  }

  lemma {:induction false} KidsCost(v: Vol, d: Disk, p: nat, l: nat, count: nat, e: nat)
    requires l > 0 && e <= v.nindir && count <= Pow(v.nindir, l) && v.InData(p)
    requires TreeFilled(v, d, p, l, count) && AllData(v, Inds(v, d, p, l))
    ensures count - Before(v.nindir, l - 1, count, e) + NeedFrom(v.nindir, l - 1, count, e)
            <= |Sum(KidsFrom(v, d, p, l, 0)[e..])|
    decreases l, 0, v.nindir - e
  {
    hide TreeFilled, Inds, Refs, AllData, Need, NeedFrom, Pow, Before, Sum;
    if e < v.nindir && Before(v.nindir, l - 1, count, e) != count {
      BeforeAll(v.nindir, l - 1, count, e);
      EntryStep(v.nindir, l - 1, count, e);
      KidFilled(v, d, p, l, count, e);
      NodeParts(v, d, p, l, e);
      KidRefs(v, d, p, l, e);
      BeforeAll(v.nindir, l - 1, count, e + 1);
      TreeCost(v, d, Ptr(v, d, p, e), l - 1, EntryShare(v.nindir, l - 1, count, e));
      KidsCost(v, d, p, l, count, e + 1);
      SizeFirst(KidsFrom(v, d, p, l, 0), e);
    } else {
      EntriesEnd(v.nindir, l - 1, count, e);
    }
  }

  lemma BeforeAll(n: nat, l: nat, count: nat, e: nat)
    ensures Before(n, l, count, e) <= count
  {
  }

  lemma SizeNext(k: seq<multiset<nat>>, i: nat)
    requires i < |k|
    ensures |Sum(k[..i + 1])| == |Sum(k[..i])| + |k[i]|
  {
    assert k[..i + 1][..i] == k[..i] && k[..i + 1][i] == k[i];
  }

  /** Behind the first j slots: what a file without holes holds. */
  lemma {:induction false} SlotsCost(v: Vol, d: Disk, addr: seq<nat>, count: nat, j: nat)
    requires IsMap(v, addr) && count <= Capacity(v) && Filled(v, d, addr, count) && j <= Naddr(v)
    requires AllData(v, InodeInds(v, d, addr))
    ensures Min(count, BaseOf(v, j)) + NeedTo(v, count, j) <= |Sum(SlotRefs(v, d, addr, 0)[..j])|
  {
    if j > 0 {
      hide *;
      SlotsCost(v, d, addr, count, j - 1);
      ShareStep(v, count, j - 1);
      SizeNext(SlotRefs(v, d, addr, 0), j - 1);
      SlotCost(v, d, addr, count, j - 1);
    } else {
      assert SlotBase(v, 0) == 0;
    }
  }

  lemma SlotCost(v: Vol, d: Disk, addr: seq<nat>, count: nat, i: nat)
    requires IsMap(v, addr) && count <= Capacity(v) && Filled(v, d, addr, count) && i < |addr|
    requires AllData(v, InodeInds(v, d, addr))
    ensures var here := SlotShare(v, count, i);
            here + Need(v.nindir, SlotLevel(v, i), here) <= |SlotRefs(v, d, addr, 0)[i]|
  {
    hide Need, Pow, AllData, Filled, TreeFilled, SlotBase, Capacity, InodeInds, RefsFrom;
    SlotFilled(v, d, addr, count, i, SlotShare(v, count, i));
    SlotIndsData(v, d, addr, i);
    TreeCost(v, d, addr[i], SlotLevel(v, i), SlotShare(v, count, i));
  }

  lemma SlotIndsData(v: Vol, d: Disk, addr: seq<nat>, i: nat)
    requires i < |addr| && AllData(v, InodeInds(v, d, addr))
    ensures AllData(v, Inds(v, d, addr[i], SlotLevel(v, i)))
  {
    SlotPart(v, d, addr, i, 1);
  }

  lemma SlotFilled(v: Vol, d: Disk, addr: seq<nat>, count: nat, i: nat, here: nat)
    requires IsMap(v, addr) && count <= Capacity(v) && Filled(v, d, addr, count) && i < Naddr(v)
    requires here <= (if SlotBase(v, i) <= count then count - SlotBase(v, i) else 0)
    ensures TreeFilled(v, d, addr[i], SlotLevel(v, i), here)
  {
    forall idx: nat | idx < here && idx < Pow(v.nindir, SlotLevel(v, i))
      ensures Descend(v, d, addr[i], Digits(v.nindir, idx, SlotLevel(v, i))) != 0
    {
      RouteOfSlot(v, i, idx);
      assert MapOf(v, d, addr, SlotBase(v, i) + idx) != 0;
    }
  }

  /** A file without holes holds at least its cost. */
  lemma RefsCost(v: Vol, d: Disk, addr: seq<nat>, count: nat)
    requires IsMap(v, addr) && count <= Capacity(v) && Filled(v, d, addr, count)
    requires AllData(v, InodeInds(v, d, addr))
    ensures Cost(v, count) <= |InodeRefs(v, d, addr)|
  {
    SlotsCost(v, d, addr, count, Naddr(v));
    var k := SlotRefs(v, d, addr, 0);
    assert k[..|k|] == k;
  }

  // ----- exactly that: a file that holds no more

  /** What the entries before e hold at least. */
  lemma {:induction false} KidsBefore(v: Vol, d: Disk, p: nat, l: nat, count: nat, e: nat)
    requires l > 0 && e <= v.nindir && count <= Pow(v.nindir, l) && v.InData(p)
    requires TreeFilled(v, d, p, l, count) && AllData(v, Inds(v, d, p, l))
    ensures Before(v.nindir, l - 1, count, e) + NeedFrom(v.nindir, l - 1, count, 0)
            <= |Sum(KidsFrom(v, d, p, l, 0)[..e])| + NeedFrom(v.nindir, l - 1, count, e)
  {
    hide *;
    var n, k := v.nindir, KidsFrom(v, d, p, l, 0);
    if e == 0 {
      NoneBefore(n, l - 1, count);
    } else {
      KidsBefore(v, d, p, l, count, e - 1);
      KidRefs(v, d, p, l, e - 1);
      SizeNext(k, e - 1);
      BeforeAll(n, l - 1, count, e - 1);
      BeforeAll(n, l - 1, count, e);
      if Before(n, l - 1, count, e - 1) < count {
        ShareSplit(n, l - 1, count, e - 1);
        KidCost(v, d, p, l, count, e - 1);
      } else {
        BeforeGrows(n, l - 1, count, e - 1);
        EntriesEnd(n, l - 1, count, e - 1);
        EntriesEnd(n, l - 1, count, e);
      }
    }
  }

  lemma NoneBefore(n: nat, l: nat, count: nat)
    ensures Before(n, l, count, 0) == 0
  {
  }

  lemma KidCost(v: Vol, d: Disk, p: nat, l: nat, count: nat, e: nat)
    requires l > 0 && e < v.nindir && count <= Pow(v.nindir, l) && v.InData(p)
    requires TreeFilled(v, d, p, l, count) && AllData(v, Inds(v, d, p, l))
    requires Before(v.nindir, l - 1, count, e) < count
    ensures var share := EntryShare(v.nindir, l - 1, count, e);
            && share >= 0
            && share + Need(v.nindir, l - 1, share) <= |Refs(v, d, Ptr(v, d, p, e), l - 1)|
  {
    hide TreeFilled, Inds, Refs, AllData, Need, Pow, Before;
    EntryStep(v.nindir, l - 1, count, e);
    KidFilled(v, d, p, l, count, e);
    NodeParts(v, d, p, l, e);
    TreeCost(v, d, Ptr(v, d, p, e), l - 1, EntryShare(v.nindir, l - 1, count, e));
  }

  lemma BeforeGrows(n: nat, l: nat, count: nat, e: nat)
    ensures Before(n, l, count, e) <= Before(n, l, count, e + 1)
  {
    assert (e + 1) * Pow(n, l) == e * Pow(n, l) + Pow(n, l);
  }

  lemma {:induction false} PrefixLess(k: seq<multiset<nat>>, i: nat)
    requires i <= |k|
    ensures |Sum(k[..i])| <= |Sum(k)|
    decreases |k| - i
  {
    if i < |k| {
      SizeNext(k, i);
      PrefixLess(k, i + 1);
    } else {
      assert k[..i] == k;
    }
  }

  /** The entry that offset idx lies behind holds no more than its share. */
  lemma KidHolds(v: Vol, d: Disk, p: nat, l: nat, idx: nat)
    requires l > 0 && 0 < idx < Pow(v.nindir, l) && v.InData(p)
    requires TreeFilled(v, d, p, l, idx) && AllData(v, Inds(v, d, p, l))
    requires |Refs(v, d, p, l)| <= idx + Need(v.nindir, l, idx)
    ensures var e, r := Lead(v.nindir, idx, l), Rest(v.nindir, idx, l);
            && TreeFilled(v, d, Ptr(v, d, p, e), l - 1, r)
            && |Refs(v, d, Ptr(v, d, p, e), l - 1)| <= r + Need(v.nindir, l - 1, r)
  {
    var n, e, r := v.nindir, Lead(v.nindir, idx, l), Rest(v.nindir, idx, l);
    var k := KidsFrom(v, d, p, l, 0);
    assert |Refs(v, d, p, l)| == 1 + |Sum(k)| && Need(n, l, idx) == 1 + NeedFrom(n, l - 1, idx, 0);
    EntryOfOffset(n, idx, l);
    KidFilled(v, d, p, l, idx, e);
    hide TreeFilled, Inds, Refs, AllData, Need, NeedFrom, Pow, Before, Sum, Lead, Rest, KidsFrom;
    KidsBefore(v, d, p, l, idx, e);
    KidRefs(v, d, p, l, e);
    SizeNext(k, e);
    PrefixLess(k, e + 1);
  }

  lemma EntryOfOffset(n: nat, idx: nat, l: nat)
    requires n > 0 && l > 0 && idx < Pow(n, l)
    ensures var e, r := Lead(n, idx, l), Rest(n, idx, l);
            && e < n && r < Pow(n, l - 1) && idx == e * Pow(n, l - 1) + r && e * Pow(n, l - 1) <= idx
            && Min(Pow(n, l - 1), idx - e * Pow(n, l - 1)) == r
            && Before(n, l - 1, idx, e) == idx - r && NeedFrom(n, l - 1, idx, e) == Need(n, l - 1, r)
  {
    var e, r, per := Lead(n, idx, l), Rest(n, idx, l), Pow(n, l - 1);
    assert idx == e * per + r;
    assert (e + 1) * per == e * per + per;
    NeedNone(n, l - 1);
  }

  /** In a tree that holds nothing else, what the next offset is missing is exactly what
      the file grows by. */
  lemma {:induction false} MissingExact(v: Vol, d: Disk, p: nat, l: nat, idx: nat)
    requires idx < Pow(v.nindir, l) && TreeFilled(v, d, p, l, idx) && AllData(v, Inds(v, d, p, l))
    requires |Refs(v, d, p, l)| <= idx + Need(v.nindir, l, idx)
    ensures Missing(v, d, p, Digits(v.nindir, idx, l)) + Need(v.nindir, l, idx) == 1 + Need(v.nindir, l, idx + 1)
    decreases l
  {
    var n := v.nindir;
    if idx == 0 {
      NothingHeld(v, d, p, l);
      NeedOne(n, l);
      NeedNone(n, l);
    } else {
      assert Descend(v, d, p, Digits(n, 0, l)) != 0;
      assert p in Inds(v, d, p, l);
      var e, r, path := Lead(n, idx, l), Rest(n, idx, l), Digits(n, idx, l);
      assert path[0] == e && path[1..] == Digits(n, r, l - 1);
      hide TreeFilled, Inds, AllData, Refs, Need;
      KidHolds(v, d, p, l, idx);
      EntryOfOffset(n, idx, l);
      NodeParts(v, d, p, l, e);
      MissingExact(v, d, Ptr(v, d, p, e), l - 1, r);
      NeedGrow(n, l, idx);
    }
  }

  lemma NothingHeld(v: Vol, d: Disk, p: nat, l: nat)
    requires |Refs(v, d, p, l)| == 0
    ensures p == 0
  {
    assert p != 0 ==> p in Refs(v, d, p, l);
  }

  /** Slots past the one of block lbn need nothing for lbn blocks. */
  lemma {:induction false} NeedToTail(v: Vol, lbn: nat, j: nat)
    requires lbn < Capacity(v) && LbnRoute(v, lbn).Route? && LbnRoute(v, lbn).slot < j <= Naddr(v)
    ensures var r := LbnRoute(v, lbn);
            NeedTo(v, lbn, j) == NeedTo(v, lbn, r.slot) + Need(v.nindir, r.level, r.idx)
  {
    hide Need, NeedTo, Pow, SlotBase, Capacity, BaseOf, SlotShare, SlotLevel, LbnRoute;
    var r := LbnRoute(v, lbn);
    ShareGrow(v, lbn, j - 1);
    ShareStep(v, lbn, j - 1);
    if r.slot < j - 1 {
      NeedToTail(v, lbn, j - 1);
      NoShare(v, lbn, j - 1);
      NeedNone(v.nindir, SlotLevel(v, j - 1));
    }
  }

  lemma NoShare(v: Vol, lbn: nat, i: nat)
    requires lbn < Capacity(v) && LbnRoute(v, lbn).Route? && LbnRoute(v, lbn).slot < i < Naddr(v)
    ensures SlotShare(v, lbn, i) == 0
  {
    RouteRange(v, lbn);
    hide LbnRoute, SlotBase, Pow;
    BasesApart(v, LbnRoute(v, lbn).slot, i);
  }

  lemma SlotHolds(v: Vol, d: Disk, addr: seq<nat>, lbn: nat)
    requires IsMap(v, addr) && lbn < Capacity(v) && Filled(v, d, addr, lbn)
    requires AllData(v, InodeInds(v, d, addr)) && |InodeRefs(v, d, addr)| <= Cost(v, lbn)
    ensures LbnRoute(v, lbn).Route? && LbnRoute(v, lbn).slot < |addr|
    ensures var r := LbnRoute(v, lbn);
            && r.level == SlotLevel(v, r.slot) && r.idx < Pow(v.nindir, r.level)
            && TreeFilled(v, d, addr[r.slot], r.level, r.idx)
            && |Refs(v, d, addr[r.slot], r.level)| <= r.idx + Need(v.nindir, r.level, r.idx)
  {
    RouteRange(v, lbn);
    var r := LbnRoute(v, lbn);
    SlotFilled(v, d, addr, lbn, r.slot, r.idx);
    NeedToTail(v, lbn, Naddr(v));
    var k := SlotRefs(v, d, addr, 0);
    assert k[r.slot] == Refs(v, d, addr[r.slot], r.level);
    hide Need, NeedTo, Pow, SlotBase, Capacity, LbnRoute, Sum, SlotRefs, Refs, Filled, TreeFilled, SlotLevel;
    SlotsCost(v, d, addr, lbn, r.slot);
    SizeNext(k, r.slot);
    PrefixLess(k, r.slot + 1);
  }

  /** Mapping the next block of a file that holds its cost and no more takes exactly what
      the cost grows by. */
  lemma StepExact(v: Vol, d: Disk, addr: seq<nat>, lbn: nat)
    requires IsMap(v, addr) && lbn < Capacity(v) && Filled(v, d, addr, lbn)
    requires AllData(v, InodeInds(v, d, addr)) && |InodeRefs(v, d, addr)| <= Cost(v, lbn)
    ensures MissingAt(v, d, addr, lbn) + Cost(v, lbn) == Cost(v, lbn + 1)
  {
    hide *;
    SlotHolds(v, d, addr, lbn);
    NeedToGrow(v, lbn, Naddr(v));
    MissingSlot(v, d, addr, lbn);
    MapSlots(v, addr);
    var r := LbnRoute(v, lbn);
    SlotIndsData(v, d, addr, r.slot);
    MissingExact(v, d, addr[r.slot], r.level, r.idx);
    CostIs(v, lbn);
    CostIs(v, lbn + 1);
  }

  lemma MapSlots(v: Vol, addr: seq<nat>)
    requires IsMap(v, addr)
    ensures |addr| == Naddr(v)
  {
  }

  lemma CostIs(v: Vol, count: nat)
    ensures Cost(v, count) == count + NeedTo(v, count, Naddr(v))
  {
  }

  lemma {:induction false} CostStrict(v: Vol, a: nat, b: nat)
    requires a < b <= Capacity(v)
    ensures Cost(v, a) < Cost(v, b)
  {
    RouteRange(v, b - 1);
    NeedToGrow(v, b - 1, Naddr(v));
    var r := LbnRoute(v, b - 1);
    NeedGrows(v.nindir, r.level, r.idx);
    CostMono(v, a, b - 1);
  }

  // ----- at most four times the data

  lemma {:induction false} NeedBound(n: nat, l: nat, c: nat)
    ensures Need(n, l, c) <= l * c
    decreases l, 1, 0
  {
    if l > 0 && c > 0 {
      NeedFromBound(n, l - 1, c, 0);
      assert Before(n, l - 1, c, 0) == 0;
      assert l * c == (l - 1) * c + c;
    }
  }

  lemma {:induction false} NeedFromBound(n: nat, l: nat, c: nat, e: nat)
    ensures Before(n, l, c, e) <= c && NeedFrom(n, l, c, e) <= l * (c - Before(n, l, c, e))
    decreases l, 2, if e <= n then n - e else 0
  {
    hide *;
    BeforeAll(n, l, c, e);
    if e < n && Before(n, l, c, e) < c {
      ShareSplit(n, l, c, e);
      NeedBound(n, l, EntryShare(n, l, c, e));
      NeedFromBound(n, l, c, e + 1);
      TimesAdd(l, EntryShare(n, l, c, e), c - Before(n, l, c, e + 1));
    } else {
      NoneFrom(n, l, c, e);
      TimesAdd(l, 0, c - Before(n, l, c, e));
    }
  }

  lemma ShareSplit(n: nat, l: nat, c: nat, e: nat)
    requires e < n && Before(n, l, c, e) < c
    ensures EntryShare(n, l, c, e) >= 0 && Before(n, l, c, e + 1) <= c
    ensures Before(n, l, c, e + 1) == Before(n, l, c, e) + EntryShare(n, l, c, e)
    ensures NeedFrom(n, l, c, e) == Need(n, l, EntryShare(n, l, c, e)) + NeedFrom(n, l, c, e + 1)
  {
    hide Need, Pow;
    EntryStep(n, l, c, e);
    BeforeAll(n, l, c, e + 1);
  }

  lemma NoneFrom(n: nat, l: nat, c: nat, e: nat)
    requires e >= n || Before(n, l, c, e) == c
    ensures NeedFrom(n, l, c, e) == 0
  {
  }

  lemma TimesAdd(l: nat, a: nat, b: nat)
    ensures l * (a + b) == l * a + l * b && l * (a + b) >= 0
  {
  }

  lemma {:induction false} NeedToBound(v: Vol, count: nat, j: nat)
    requires count <= Capacity(v) && j <= Naddr(v)
    ensures NeedTo(v, count, j) <= 3 * Min(count, BaseOf(v, j))
  {
    if j > 0 {
      hide Need, NeedTo, Pow, SlotBase, Capacity, BaseOf, SlotShare, SlotLevel;
      NeedToBound(v, count, j - 1);
      ShareStep(v, count, j - 1);
      NeedBound(v.nindir, SlotLevel(v, j - 1), SlotShare(v, count, j - 1));
      ThreeLevels(SlotLevel(v, j - 1), SlotShare(v, count, j - 1));
    }
  }

  lemma ThreeLevels(l: nat, c: nat)
    requires l <= 3
    ensures l * c <= 3 * c
  {
  }

  lemma CostBound(v: Vol, count: nat)
    requires count <= Capacity(v)
    ensures count <= Cost(v, count) <= 4 * count
  {
    NeedToBound(v, count, Naddr(v));
  }

  /** The direct slots need no indirect block. */
  lemma DirectCost(v: Vol, count: nat)
    requires count <= v.laddr
    ensures Cost(v, count) == count
  {
    DirectNeed(v, count, Naddr(v));
  }

  lemma {:induction false} DirectNeed(v: Vol, count: nat, j: nat)
    requires count <= v.laddr && j <= Naddr(v)
    ensures NeedTo(v, count, j) == 0
  {
    if j > 0 {
      DirectNeed(v, count, j - 1);
    }
  }

  /** With the direct slots full, one indirect block serves up to nindir blocks more. */
  lemma SingleCost(v: Vol, count: nat)
    requires v.laddr < count <= v.laddr + v.nindir
    ensures Cost(v, count) == count + 1
  {
    SingleNeed(v, count, v.laddr + 1);
    assert NeedTo(v, count, v.laddr + 2) == NeedTo(v, count, v.laddr + 1);
    assert NeedTo(v, count, v.laddr + 3) == NeedTo(v, count, v.laddr + 2);
  }

  lemma {:induction false} SingleNeed(v: Vol, count: nat, j: nat)
    requires v.laddr < count <= v.laddr + v.nindir && j <= v.laddr + 1
    ensures NeedTo(v, count, j) == if j == v.laddr + 1 then 1 else 0
  {
    if j > 0 {
      SingleNeed(v, count, j - 1);
      PowCaps(v.nindir);
      DataNeeds(v.nindir, count - v.laddr, 0);
    }
  }

  lemma {:induction false} DataNeeds(n: nat, c: nat, e: nat)
    ensures NeedFrom(n, 0, c, e) == 0
    decreases if e <= n then n - e else 0
  {
    if e < n {
      DataNeeds(n, c, e + 1);
    }
  }
}

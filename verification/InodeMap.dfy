/** The map of one inode: its di_addr slots and the trees behind them. */
module InodeMap {
  import opened Layout
  import opened BlockMap
  import opened BlockTree
  import opened Multisets
  import opened MapOps
  import opened Arith

  ghost predicate IsMap(v: Vol, addr: seq<nat>) { |addr| == Naddr(v) }

  function SlotRefs(v: Vol, d: Disk, addr: seq<nat>, lo: nat): (s: seq<multiset<nat>>)
    ensures |s| == |addr|
  {
    seq(|addr|, i requires 0 <= i < |addr| => RefsFrom(v, d, addr[i], SlotLevel(v, i), lo))
  }

  /** Every block the inode references, indirect blocks included. */
  function InodeRefs(v: Vol, d: Disk, addr: seq<nat>): multiset<nat> {
    Sum(SlotRefs(v, d, addr, 0))
  }

  function InodeInds(v: Vol, d: Disk, addr: seq<nat>): multiset<nat> {
    Sum(SlotRefs(v, d, addr, 1))
  }

  /** The data block of logical block lbn: 0 for a hole or past the map's reach. */
  function MapOf(v: Vol, d: Disk, addr: seq<nat>, lbn: nat): nat
    requires IsMap(v, addr)
  {
    RouteRange(v, lbn);
    match LbnRoute(v, lbn)
    case Unmapped => 0
    case Route(l, slot, idx) => Descend(v, d, addr[slot], Digits(v.nindir, idx, l))
  }

  /** Blocks that mapping lbn would have to take from the free list. */
  function MissingAt(v: Vol, d: Disk, addr: seq<nat>, lbn: nat): nat
    requires IsMap(v, addr)
  {
    RouteRange(v, lbn);
    match LbnRoute(v, lbn)
    case Unmapped => 0
    case Route(l, slot, idx) => Missing(v, d, addr[slot], Digits(v.nindir, idx, l))
  }

  /** Slots in use stay as they are, and every slot leads to at least what it led to. */
  ghost predicate Extends(v: Vol, d: Disk, addr: seq<nat>, d': Disk, addr': seq<nat>) {
    && |addr'| == |addr|
    && forall i | 0 <= i < |addr| ::
         && (addr[i] == 0 || addr'[i] == addr[i])
         && SlotRefs(v, d, addr, 0)[i] <= SlotRefs(v, d', addr', 0)[i]
  }

  lemma ExtendsMore(v: Vol, d: Disk, addr: seq<nat>, d1: Disk, addr1: seq<nat>, d2: Disk, addr2: seq<nat>)
    requires Extends(v, d, addr, d1, addr1) && Extends(v, d1, addr1, d2, addr2)
    ensures Extends(v, d, addr, d2, addr2)
  {
  }

  /** The old slots still lead to all they led to. */
  lemma ExtendsOld(v: Vol, d: Disk, addr: seq<nat>, d': Disk, addr': seq<nat>)
    requires Extends(v, d, addr, d', addr')
    ensures Extends(v, d, addr, d', addr) && InodeRefs(v, d, addr) <= InodeRefs(v, d', addr)
  {
    var k, k', m := SlotRefs(v, d, addr, 0), SlotRefs(v, d', addr', 0), SlotRefs(v, d', addr, 0);
    forall i | 0 <= i < |addr| ensures k[i] <= m[i] {
      if addr[i] == 0 {
        assert k[i] == multiset{};
      } else {
        assert m[i] == k'[i];
      }
    }
    SumMono(k, m);
  }

  /** What a lookup or allocation does to a whole inode, for a logical block number. */
  ghost predicate InodeMapped(v: Vol, d: Disk, s: seq<nat>, addr: seq<nat>,
                              d': Disk, s': seq<nat>, addr': seq<nat>,
                              lbn: nat, alloc: bool, phys: nat)
    requires IsMap(v, addr)
  {
    && IsMap(v, addr')
    && InodeRefs(v, d', addr') + multiset(s') == InodeRefs(v, d, addr) + multiset(s)
    && ChangedIn(d, d', InodeInds(v, d', addr'))
    && Extends(v, d, addr, d', addr')
    && (forall other: nat | other != lbn :: MapOf(v, d', addr', other) == MapOf(v, d, addr, other))
    && phys == MapOf(v, d', addr', lbn)
    && (alloc && lbn < Capacity(v) ==>
          phys != 0 && Taken(s, s', MissingAt(v, d, addr, lbn)))
    && (!alloc || MapOf(v, d, addr, lbn) != 0 || Capacity(v) <= lbn ==>
          d' == d && s' == s && addr' == addr)
  }

  lemma SlotPart(v: Vol, d: Disk, addr: seq<nat>, slot: nat, lo: nat)
    requires slot < |addr|
    ensures RefsFrom(v, d, addr[slot], SlotLevel(v, slot), lo) <= Sum(SlotRefs(v, d, addr, lo))
  {
    SumHas(SlotRefs(v, d, addr, lo), slot);
  }

  /** A change confined to one slot's pointer and tree leaves the others' trees alone. */
  lemma OtherSlot(v: Vol, d: Disk, d': Disk, addr: seq<nat>, slot: nat, m: multiset<nat>, i: nat)
    requires slot < |addr| && i < |addr| && i != slot
    requires Distinct(InodeRefs(v, d, addr) + m)
    requires ChangedIn(d, d', Refs(v, d, addr[slot], SlotLevel(v, slot)) + m)
    ensures forall b | b in Inds(v, d, addr[i], SlotLevel(v, i)) && b < |d| :: d'[b] == d[b]
  {
    var k := SlotRefs(v, d, addr, 0);
    SumHasTwo(k, slot, i);
    RefsFromMono(v, d, addr[i], SlotLevel(v, i), 0, 1);
    forall b | b in Inds(v, d, addr[i], SlotLevel(v, i)) && b < |d| ensures d'[b] == d[b] {
      assert b in k[i];
      assert (k[slot] + k[i] + m)[b] <= (InodeRefs(v, d, addr) + m)[b] <= 1;
    }
  }

  lemma OtherSlotsSame(v: Vol, d: Disk, d': Disk, addr: seq<nat>, slot: nat, q: nat, m: multiset<nat>)
    requires slot < |addr| && Distinct(InodeRefs(v, d, addr) + m)
    requires ChangedIn(d, d', Refs(v, d, addr[slot], SlotLevel(v, slot)) + m)
    ensures SlotRefs(v, d', addr[slot := q], 0)
            == SlotRefs(v, d, addr, 0)[slot := Refs(v, d', q, SlotLevel(v, slot))]
  {
    var k, k' := SlotRefs(v, d, addr, 0), SlotRefs(v, d', addr[slot := q], 0);
    forall i | 0 <= i < |addr| && i != slot ensures k'[i] == k[i] {
      OtherSlot(v, d, d', addr, slot, m, i);
      RefsFrame(v, d, d', addr[i], SlotLevel(v, i), 0);
    }
  }

  lemma SlotChange(v: Vol, d: Disk, d': Disk, addr: seq<nat>, slot: nat, q: nat, m: multiset<nat>)
    requires slot < |addr| && Distinct(InodeRefs(v, d, addr) + m)
    requires ChangedIn(d, d', Refs(v, d, addr[slot], SlotLevel(v, slot)) + m)
    ensures InodeRefs(v, d', addr[slot := q]) + Refs(v, d, addr[slot], SlotLevel(v, slot))
            == InodeRefs(v, d, addr) + Refs(v, d', q, SlotLevel(v, slot))
  {
    OtherSlotsSame(v, d, d', addr, slot, q, m);
    SumUpdate(SlotRefs(v, d, addr, 0), slot, Refs(v, d', q, SlotLevel(v, slot)));
  }

  /** A slot that grew extends the inode. */
  lemma SlotExtends(v: Vol, d: Disk, d': Disk, addr: seq<nat>, slot: nat, q: nat, m: multiset<nat>)
    requires slot < |addr| && Distinct(InodeRefs(v, d, addr) + m) && (addr[slot] == 0 || q == addr[slot])
    requires ChangedIn(d, d', Refs(v, d, addr[slot], SlotLevel(v, slot)) + m)
    requires Refs(v, d, addr[slot], SlotLevel(v, slot)) <= Refs(v, d', q, SlotLevel(v, slot))
    ensures Extends(v, d, addr, d', addr[slot := q])
  {
    OtherSlotsSame(v, d, d', addr, slot, q, m);
  }

  lemma TakenLess(s: seq<nat>, s': seq<nat>, n: nat, a: multiset<nat>, b: multiset<nat>)
    requires Taken(s, s', n) && b + multiset(s') == a + multiset(s)
    ensures a <= b
  {
    assert s == s[..n] + s[n..];
    forall x ensures a[x] <= b[x] {
      assert (b + multiset(s'))[x] == (a + multiset(s))[x];
    }
  }

  /** Routes to different logical blocks differ in slot or in path. */
  lemma RoutesApart(v: Vol, i: nat, j: nat)
    requires i != j && i < Capacity(v) && j < Capacity(v)
    ensures var r, q := LbnRoute(v, i), LbnRoute(v, j);
            r.slot != q.slot || Digits(v.nindir, r.idx, r.level) != Digits(v.nindir, q.idx, q.level)
  {
    RouteRange(v, i);
    RouteRange(v, j);
    if LbnRoute(v, i).slot == LbnRoute(v, j).slot {
      if Path(v, i) == Path(v, j) {
        PathInjective(v, i, j);
      }
    }
  }

  /** The route of a logical block, as a path below its slot. */
  lemma RoutePath(v: Vol, lbn: nat)
    requires lbn < Capacity(v)
    ensures var r := LbnRoute(v, lbn);
            && r.Route? && r.slot < Naddr(v) && r.level == SlotLevel(v, r.slot)
            && r.idx < Pow(v.nindir, r.level)
            && IsPath(v, Digits(v.nindir, r.idx, r.level))
  {
    RouteRange(v, lbn);
    DigitsArePath(v, LbnRoute(v, lbn).idx, LbnRoute(v, lbn).level);
  }

  /** Lookups through the other slots, and other paths of the same slot, survive
      a slot step. */
  lemma OtherLbn(v: Vol, d: Disk, s: seq<nat>, addr: seq<nat>, d': Disk, s': seq<nat>, q: nat,
                 lbn: nat, alloc: bool, phys: nat, other: nat)
    requires IsMap(v, addr) && lbn < Capacity(v) && other != lbn
    requires Apart(v, InodeRefs(v, d, addr), s)
    requires var r := LbnRoute(v, lbn);
             && r.Route? && r.slot < |addr|
             && ChangedIn(d, d', Refs(v, d, addr[r.slot], SlotLevel(v, r.slot)) + multiset(s))
             && SlotMapped(v, d, s, addr[r.slot], d', s', q,
                           Digits(v.nindir, r.idx, r.level), alloc, phys)
    ensures MapOf(v, d', addr[LbnRoute(v, lbn).slot := q], other) == MapOf(v, d, addr, other)
  {
    var r, o := LbnRoute(v, lbn), LbnRoute(v, other);
    RouteRange(v, other);
    if o.Route? {
      RoutePath(v, lbn);
      RoutePath(v, other);
      RoutesApart(v, lbn, other);
      if o.slot != r.slot {
        OtherSlotLookup(v, d, s, addr, d', r.slot, q, other);
      }
    }
  }

  /** A logical block behind another slot than the changed one. */
  lemma OtherSlotLookup(v: Vol, d: Disk, s: seq<nat>, addr: seq<nat>, d': Disk, slot: nat,
                        q: nat, lbn: nat)
    requires IsMap(v, addr) && slot < |addr| && lbn < Capacity(v)
    requires Apart(v, InodeRefs(v, d, addr), s)
    requires ChangedIn(d, d', Refs(v, d, addr[slot], SlotLevel(v, slot)) + multiset(s))
    requires LbnRoute(v, lbn).Route? && LbnRoute(v, lbn).slot != slot
    ensures MapOf(v, d', addr[slot := q], lbn) == MapOf(v, d, addr, lbn)
  {
    RoutePath(v, lbn);
    var o := LbnRoute(v, lbn);
    OtherSlot(v, d, d', addr, slot, multiset(s), o.slot);
    SlotPart(v, d, addr, o.slot, 0);
    RefsFromMono(v, d, addr[o.slot], o.level, 0, 1);
    DescendFrame(v, d, d', addr[o.slot], Digits(v.nindir, o.idx, o.level));
  }

  lemma SlotApart(v: Vol, d: Disk, addr: seq<nat>, slot: nat, s: seq<nat>)
    requires slot < |addr| && Apart(v, InodeRefs(v, d, addr), s)
    ensures Apart(v, Refs(v, d, addr[slot], SlotLevel(v, slot)), s)
    ensures addr[slot] != 0 ==> v.InData(addr[slot])
  {
    SlotPart(v, d, addr, slot, 0);
    SubDistinct(Refs(v, d, addr[slot], SlotLevel(v, slot)) + multiset(s),
                InodeRefs(v, d, addr) + multiset(s));
    if addr[slot] != 0 {
      assert addr[slot] in Refs(v, d, addr[slot], SlotLevel(v, slot));
    }
  }

  /** A slot step, seen from the inode: what it references, what it leads to, and what
      was written. */
  lemma SlotParts(v: Vol, d: Disk, s: seq<nat>, addr: seq<nat>, d': Disk, s': seq<nat>, q: nat,
                  slot: nat, path: seq<nat>, alloc: bool, phys: nat)
    requires slot < |addr| && Apart(v, InodeRefs(v, d, addr), s) && |path| == SlotLevel(v, slot)
    requires SlotMapped(v, d, s, addr[slot], d', s', q, path, alloc, phys)
    ensures InodeRefs(v, d', addr[slot := q]) + multiset(s') == InodeRefs(v, d, addr) + multiset(s)
    ensures ChangedIn(d, d', Refs(v, d, addr[slot], SlotLevel(v, slot)) + multiset(s))
    ensures ChangedIn(d, d', InodeInds(v, d', addr[slot := q]))
    ensures Extends(v, d, addr, d', addr[slot := q])
  {
    hide Missing, Descend, IsPath, AllData, Distinct, InodeRefs, InodeInds, Extends, RefsFrom;
    var l := SlotLevel(v, slot);
    var addr' := addr[slot := q];
    RefsFromMono(v, d', q, l, 0, 1);
    PartOfSum(Inds(v, d', q, l), Refs(v, d', q, l), multiset(s'), Refs(v, d, addr[slot], l) + multiset(s));
    ChangedMono(d, d', Inds(v, d', q, l), Refs(v, d, addr[slot], l) + multiset(s));
    SlotChange(v, d, d', addr, slot, q, multiset(s));
    Cancel(InodeRefs(v, d', addr'), Refs(v, d, addr[slot], l), InodeRefs(v, d, addr),
           Refs(v, d', q, l), multiset(s'), multiset(s));
    IndsOfSlot(v, d', addr', slot);
    ChangedMono(d, d', Inds(v, d', q, l), InodeInds(v, d', addr'));
    if alloc {
      TakenLess(s, s', Missing(v, d, addr[slot], path), Refs(v, d, addr[slot], l), Refs(v, d', q, l));
    }
    SlotExtends(v, d, d', addr, slot, q, multiset(s));
  }

  lemma IndsOfSlot(v: Vol, d: Disk, addr: seq<nat>, slot: nat)
    requires slot < |addr|
    ensures Inds(v, d, addr[slot], SlotLevel(v, slot)) <= InodeInds(v, d, addr)
  {
    SlotPart(v, d, addr, slot, 1);
  }

  /** A step at the slot of lbn is the step of the whole inode. */
  lemma SlotStep(v: Vol, d: Disk, s: seq<nat>, addr: seq<nat>, d': Disk, s': seq<nat>, q: nat,
                 lbn: nat, alloc: bool, phys: nat)
    requires IsMap(v, addr) && lbn < Capacity(v)
    requires Apart(v, InodeRefs(v, d, addr), s)
    requires LbnRoute(v, lbn).Route? && LbnRoute(v, lbn).slot < |addr|
    requires var r := LbnRoute(v, lbn);
             SlotMapped(v, d, s, addr[r.slot], d', s', q,
                        Digits(v.nindir, r.idx, r.level), alloc, phys)
    ensures InodeMapped(v, d, s, addr, d', s', addr[LbnRoute(v, lbn).slot := q], lbn, alloc, phys)
  {
    hide Refs, Inds, RefsFrom, IsPath, AllData, Distinct, InodeRefs, InodeInds, Extends, Apart, ChangedIn;
    var r := LbnRoute(v, lbn);
    var addr' := addr[r.slot := q];
    RoutePath(v, lbn);
    SlotParts(v, d, s, addr, d', s', q, r.slot, Digits(v.nindir, r.idx, r.level), alloc, phys);
    forall other: nat | other != lbn
      ensures MapOf(v, d', addr', other) == MapOf(v, d, addr, other)
    {
      OtherLbn(v, d, s, addr, d', s', q, lbn, alloc, phys, other);
    }
    assert q == addr[r.slot] ==> addr' == addr;
  }

  lemma MissingSlot(v: Vol, d: Disk, addr: seq<nat>, lbn: nat)
    requires IsMap(v, addr) && lbn < Capacity(v)
    ensures var r := LbnRoute(v, lbn);
            r.Route? && r.slot < |addr|
            && MissingAt(v, d, addr, lbn) == Missing(v, d, addr[r.slot], Digits(v.nindir, r.idx, r.level))
            && (addr[r.slot] == 0 ==> MissingAt(v, d, addr, lbn) == r.level + 1)
  {
    RouteRange(v, lbn);
  }

  /** An inode without blocks. */
  lemma NoRefs(v: Vol, d: Disk, addr: seq<nat>)
    requires forall i | 0 <= i < |addr| :: addr[i] == 0
    ensures InodeRefs(v, d, addr) == multiset{}
  {
    SumEmpty(SlotRefs(v, d, addr, 0));
  }

  /** References depend on nothing but the data blocks they name. */
  lemma SlotsFrame(v: Vol, d: Disk, d': Disk, addr: seq<nat>)
    requires |d| == |d'|
    requires forall b | b in InodeRefs(v, d, addr) && v.InData(b) && b < |d| :: d'[b] == d[b]
    ensures SlotRefs(v, d', addr, 0) == SlotRefs(v, d, addr, 0)
  {
    var k, k' := SlotRefs(v, d, addr, 0), SlotRefs(v, d', addr, 0);
    forall i | 0 <= i < |addr| ensures k'[i] == k[i] {
      SlotPart(v, d, addr, i, 0);
      RefsFromMono(v, d, addr[i], SlotLevel(v, i), 0, 1);
      RefsFrame(v, d, d', addr[i], SlotLevel(v, i), 0);
    }
  }

  lemma InodeFrame(v: Vol, d: Disk, d': Disk, addr: seq<nat>)
    requires |d| == |d'|
    requires forall b | b in InodeRefs(v, d, addr) && v.InData(b) && b < |d| :: d'[b] == d[b]
    ensures InodeRefs(v, d', addr) == InodeRefs(v, d, addr)
  {
    SlotsFrame(v, d, d', addr);
  }
}

/** Logical block numbers: which di_addr slot covers one, and which entries of
    the indirect blocks below that slot lead to it. */
module BlockMap {
  import opened Arith
  import opened Layout

  /** Blocks behind one slot at indirection level l. */
  function LevelCap(n: nat, l: nat): nat {
    if l == 1 then n else if l == 2 then n * n else n * n * n
  }

  /** The whole reach of an inode's map. */
  function Capacity(v: Vol): nat {
    v.laddr + LevelCap(v.nindir, 1) + LevelCap(v.nindir, 2) + LevelCap(v.nindir, 3)
  }

  /** A slot at level 0 is a data block; level 1..3 a tree of indirect blocks. */
  datatype Route = Unmapped | Route(level: nat, slot: nat, idx: nat)

  function LbnRoute(v: Vol, lbn: nat): (r: Route)
  {
    var n := v.nindir;
    if lbn < v.laddr then Route(0, lbn, 0)
    else
      var l1 := lbn - v.laddr;
      if l1 < LevelCap(n, 1) then Route(1, v.laddr, l1)
      else
        var l2 := l1 - LevelCap(n, 1);
        if l2 < LevelCap(n, 2) then Route(2, v.laddr + 1, l2)
        else
          var l3 := l2 - LevelCap(n, 2);
          if l3 < LevelCap(n, 3) then Route(3, v.laddr + 2, l3) else Unmapped
  }

  /** Level of a di_addr slot. */
  function SlotLevel(v: Vol, slot: nat): nat {
    if slot < v.laddr then 0 else slot - v.laddr + 1
  }

  function Naddr(v: Vol): nat { v.laddr + 3 }

  /** First logical block behind a slot. */
  function SlotBase(v: Vol, slot: nat): nat {
    var n := v.nindir;
    if slot <= v.laddr then slot
    else if slot == v.laddr + 1 then v.laddr + n
    else v.laddr + n + n * n
  }

  lemma PowCaps(n: nat)
    ensures Pow(n, 0) == 1
    ensures Pow(n, 1) == n == LevelCap(n, 1)
    ensures Pow(n, 2) == n * n == LevelCap(n, 2)
    ensures Pow(n, 3) == n * n * n == LevelCap(n, 3)
  {
    assert Pow(n, 1) == n * Pow(n, 0);
    assert Pow(n, 2) == n * Pow(n, 1);
    assert Pow(n, 3) == n * Pow(n, 2) == n * (n * n) == n * n * n;
  }

  /** The route is defined exactly below the capacity, lands in the slot's own
      range, and the slot and offset give the block number back. */
  lemma RouteRange(v: Vol, lbn: nat)
    ensures LbnRoute(v, lbn).Unmapped? <==> Capacity(v) <= lbn
    ensures var r := LbnRoute(v, lbn);
            r.Route? ==>
              && r.slot < Naddr(v) && r.level == SlotLevel(v, r.slot)
              && r.idx < Pow(v.nindir, r.level)
              && lbn == SlotBase(v, r.slot) + r.idx
  {
    PowCaps(v.nindir);
  }

  /** Every offset behind every slot is routed to: routing inverts SlotBase. */
  lemma RouteOfSlot(v: Vol, slot: nat, idx: nat)
    requires slot < Naddr(v) && idx < Pow(v.nindir, SlotLevel(v, slot))
    ensures LbnRoute(v, SlotBase(v, slot) + idx) == Route(SlotLevel(v, slot), slot, idx)
  {
    PowCaps(v.nindir);
  }

  /** The level sizes and the capacity stay inside a 32-bit unsigned. */
  lemma LevelCapsFit(v: Vol)
    ensures LevelCap(v.nindir, 3) <= 0x800_0000
    ensures v.laddr <= 10 ==> Capacity(v) < 0x1_0000_0000
  {
    var n := v.nindir;
    MulLe(n, 512, n);
    MulLe(n, 512, 512);
    MulLe(n * n, 512 * 512, n);
    MulLe(n, 512, 512 * 512);
    assert n * n <= 512 * n == n * 512 <= 512 * 512;
    assert n * n * n <= 512 * 512 * n == n * (512 * 512) <= 512 * (512 * 512);
  }

  lemma MulLe(a: nat, b: nat, d: nat)
    requires a <= b
    ensures a * d <= b * d
  {
    if a < b {
      MulGap(a, b, d);
    }
  }

  /** The entry of a level-l block on the way to offset idx below it ... */
  function Lead(n: nat, idx: nat, l: nat): (e: nat)
    requires n > 0 && l > 0
    ensures idx < Pow(n, l) ==> e < n
  {
    assert idx < Pow(n, l) ==> idx / Pow(n, l - 1) < n by {
      if idx < Pow(n, l) {
        DivBound(idx, Pow(n, l - 1), n);
      }
    }
    idx / Pow(n, l - 1)
  }

  /** ... and the offset that remains below the child. */
  function Rest(n: nat, idx: nat, l: nat): (r: nat)
    requires n > 0 && l > 0
    ensures r < Pow(n, l - 1)
  {
    idx % Pow(n, l - 1)
  }

  lemma LeadRestInjective(n: nat, i: nat, j: nat, l: nat)
    requires n > 0 && l > 0 && Lead(n, i, l) == Lead(n, j, l) && Rest(n, i, l) == Rest(n, j, l)
    ensures i == j
  {
    assert i == i / Pow(n, l - 1) * Pow(n, l - 1) + i % Pow(n, l - 1);
  }

  /** The entries followed below a level-l slot: the base-nindir digits of idx,
      most significant first. */
  function Digits(n: nat, idx: nat, l: nat): (s: seq<nat>)
    requires n > 0
    ensures |s| == l
  {
    if l == 0 then [] else [Lead(n, idx, l)] + Digits(n, Rest(n, idx, l), l - 1)
  }

  /** The full path to a logical block: its slot, then the entries below it. */
  function Path(v: Vol, lbn: nat): seq<nat>
    requires lbn < Capacity(v)
  {
    RouteRange(v, lbn);
    var r := LbnRoute(v, lbn);
    [r.slot] + Digits(v.nindir, r.idx, r.level)
  }

  lemma {:induction false} DigitsBound(n: nat, idx: nat, l: nat, k: nat)
    requires n > 0 && idx < Pow(n, l) && k < l
    ensures Digits(n, idx, l)[k] < n
  {
    if k > 0 {
      DigitsBound(n, Rest(n, idx, l), l - 1, k - 1);
    }
  }

  lemma {:induction false} DigitsInjective(n: nat, i: nat, j: nat, l: nat)
    requires n > 0 && i < Pow(n, l) && j < Pow(n, l)
    requires Digits(n, i, l) == Digits(n, j, l)
    ensures i == j
  {
    if l > 0 {
      assert Digits(n, i, l)[0] == Digits(n, j, l)[0];
      assert Digits(n, i, l)[1..] == Digits(n, j, l)[1..];
      DigitsInjective(n, Rest(n, i, l), Rest(n, j, l), l - 1);
      LeadRestInjective(n, i, j, l);
    }
  }

  /** Distinct logical blocks never share a path. */
  lemma PathInjective(v: Vol, i: nat, j: nat)
    requires i < Capacity(v) && j < Capacity(v) && Path(v, i) == Path(v, j)
    ensures i == j
  {
    RouteRange(v, i);
    RouteRange(v, j);
    var r, q := LbnRoute(v, i), LbnRoute(v, j);
    assert Path(v, i)[0] == r.slot && Path(v, j)[0] == q.slot;
    assert Path(v, i)[1..] == Digits(v.nindir, r.idx, r.level);
    assert Path(v, j)[1..] == Digits(v.nindir, q.idx, q.level);
    DigitsInjective(v.nindir, r.idx, q.idx, r.level);
  }

  /** The k-th digit below a level-l slot in closed form, as the reader computes it. */
  function ClosedDigit(n: nat, idx: nat, level: nat): nat
    requires n > 0 && level >= 1
  {
    idx / Pow(n, level - 1) % n
  }

  /** The reader's closed form of a digit is the same as the writers' running
      division and remainder. */
  lemma {:induction false} DigitsClosedForm(n: nat, idx: nat, l: nat, k: nat)
    requires n > 0 && idx < Pow(n, l) && k < l
    ensures Digits(n, idx, l)[k] == ClosedDigit(n, idx, l - k)
  {
    if k == 0 {
      DigitLeading(n, idx, l);
    } else {
      var rest := Rest(n, idx, l);
      assert Digits(n, idx, l)[k] == Digits(n, rest, l - 1)[k - 1];
      DigitsClosedForm(n, rest, l - 1, k - 1);
      ModOfPow(n, idx, l - 1, l - 1 - k);
      assert ClosedDigit(n, rest, l - k) == ClosedDigit(n, idx, l - k);
    }
  }

  lemma DigitLeading(n: nat, idx: nat, l: nat)
    requires n > 0 && idx < Pow(n, l) && 0 < l
    ensures Digits(n, idx, l)[0] == ClosedDigit(n, idx, l)
    ensures Digits(n, idx, l)[0] < n
  {
    DivBound(idx, Pow(n, l - 1), n);
    SmallMod(idx / Pow(n, l - 1), n);
  }

  /** Reducing modulo a higher power leaves a lower digit alone. */
  lemma {:induction false} ModOfPow(n: nat, x: nat, hi: nat, lo: nat)
    requires n > 0 && lo < hi
    ensures ClosedDigit(n, x % Pow(n, hi), lo + 1) == ClosedDigit(n, x, lo + 1)
    decreases hi
  {
    var a := Pow(n, hi - 1);
    assert Pow(n, hi) == a * n;
    DigitOfMod(x, a, n);
    if lo == hi - 1 {
      DivBound(x % Pow(n, hi), a, n);
      SmallMod(x % Pow(n, hi) / a, n);
    } else {
      ModOfPow(n, x, hi - 1, lo);
      ModOfPow(n, x % Pow(n, hi), hi - 1, lo);
    }
  }

  /** fsr_ind_index: the entry of the level-l block on the way to idx. */
  method IndIndex(v: Vol, idx: nat, level: nat) returns (e: nat)
    requires level >= 1
    ensures e == ClosedDigit(v.nindir, idx, level)
  {
    var d := 1;
    for k := 1 to level
      invariant d == Pow(v.nindir, k - 1)
    {
      d := d * v.nindir;
    }
    e := idx / d % v.nindir;
  }

  /** per_at: data blocks covered by one entry of a level-l block. */
  method PerAt(v: Vol, levels: nat) returns (p: nat)
    requires levels >= 1
    ensures p == Pow(v.nindir, levels - 1)
  {
    p := 1;
    for k := 1 to levels
      invariant p == Pow(v.nindir, k - 1)
    {
      p := p * v.nindir;
    }
  }
}

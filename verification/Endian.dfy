/** The three byte orders an s5fs image can be written in, as get/put pairs
    over a block of bytes. */
module Endian {
  import opened Arith

  type byte = x: int | 0 <= x < 0x100

  type u32 = x: int | 0 <= x < 0x1_0000_0000

  /** One filesystem block, as it lies on the disk. */
  type Block = seq<byte>

  datatype Order = Pdp11 | Little | Big

  function Get8(b: Block, k: nat): (v: nat)
    requires k < |b|
    ensures v < 0x100
  {
    b[k]
  }

  function Get16(o: Order, b: Block, k: nat): (v: nat)
    requires k + 2 <= |b|
    ensures v < 0x1_0000
  {
    if o.Big? then Get8(b, k) * 0x100 + Get8(b, k + 1) else Get8(b, k) + Get8(b, k + 1) * 0x100
  }

  /** The 3-byte block address of a dinode. */
  function Get24(o: Order, b: Block, k: nat): (v: nat)
    requires k + 3 <= |b|
    ensures v < 0x100_0000
  {
    match o
    case Pdp11 => Get8(b, k) * 0x1_0000 + Get8(b, k + 2) * 0x100 + Get8(b, k + 1)
    case Little => Get8(b, k) + Get8(b, k + 1) * 0x100 + Get8(b, k + 2) * 0x1_0000
    case Big => Get8(b, k) * 0x1_0000 + Get8(b, k + 1) * 0x100 + Get8(b, k + 2)
  }

  /** A 32-bit field is two 16-bit words; only the little-endian order puts the
      low word first (the PDP-11 swaps the words, not the bytes). */
  function Get32(o: Order, b: Block, k: nat): (v: nat)
    requires k + 4 <= |b|
    ensures v < 0x1_0000_0000
  {
    var w0, w1 := Get16(o, b, k), Get16(o, b, k + 2);
    if o.Little? then w1 * 0x1_0000 + w0 else w0 * 0x1_0000 + w1
  }

  /** The number whose bytes, from the top down, are those at the given places from k. */
  function TopDown(b: Block, k: nat, places: seq<nat>): nat
    requires forall i | 0 <= i < |places| :: k + places[i] < |b|
  {
    if places == [] then 0
    else TopDown(b, k, places[..|places| - 1]) * 0x100 + Get8(b, k + places[|places| - 1])
  }

  lemma TopDownMore(b: Block, k: nat, places: seq<nat>, p: nat)
    requires k + p < |b| && forall i | 0 <= i < |places| :: k + places[i] < |b|
    ensures TopDown(b, k, places + [p]) == TopDown(b, k, places) * 0x100 + Get8(b, k + p)
  {
    assert (places + [p])[..|places|] == places;
  }

  /** Where the bytes are in each of the orders, the top one first. */
  lemma ByteOrders(b: Block, k: nat)
    ensures k + 2 <= |b| ==>
              && Get16(Big, b, k) == TopDown(b, k, [0, 1])
              && Get16(Little, b, k) == Get16(Pdp11, b, k) == TopDown(b, k, [1, 0])
    ensures k + 3 <= |b| ==>
              && Get24(Big, b, k) == TopDown(b, k, [0, 1, 2]) && Get24(Little, b, k) == TopDown(b, k, [2, 1, 0])
              && Get24(Pdp11, b, k) == TopDown(b, k, [0, 2, 1])
    ensures k + 4 <= |b| ==>
              && Get32(Big, b, k) == TopDown(b, k, [0, 1, 2, 3]) && Get32(Little, b, k) == TopDown(b, k, [3, 2, 1, 0])
              && Get32(Pdp11, b, k) == TopDown(b, k, [1, 0, 3, 2])
  {
    hide TopDown;
    if k + 2 <= |b| {
      TwoBytes(b, k, 0, 1);
      TwoBytes(b, k, 1, 0);
    }
    if k + 3 <= |b| {
      ThreeBytes(b, k, 0, 1, 2);
      ThreeBytes(b, k, 2, 1, 0);
      ThreeBytes(b, k, 0, 2, 1);
    }
    if k + 4 <= |b| {
      FourBytes(b, k, 0, 1, 2, 3);
      FourBytes(b, k, 3, 2, 1, 0);
      FourBytes(b, k, 1, 0, 3, 2);
    }
  }

  lemma TwoBytes(b: Block, k: nat, p: nat, q: nat)
    requires k + p < |b| && k + q < |b|
    ensures TopDown(b, k, [p, q]) == Get8(b, k + p) * 0x100 + Get8(b, k + q)
  {
    TopDownMore(b, k, [], p);
    TopDownMore(b, k, [p], q);
    assert [] + [p] == [p] && [p] + [q] == [p, q];
  }

  lemma ThreeBytes(b: Block, k: nat, p: nat, q: nat, r: nat)
    requires k + p < |b| && k + q < |b| && k + r < |b|
    ensures TopDown(b, k, [p, q, r]) == Get8(b, k + p) * 0x1_0000 + Get8(b, k + q) * 0x100 + Get8(b, k + r)
  {
    TwoBytes(b, k, p, q);
    TopDownMore(b, k, [p, q], r);
    assert [p, q] + [r] == [p, q, r];
  }

  lemma FourBytes(b: Block, k: nat, p: nat, q: nat, r: nat, s: nat)
    requires k + p < |b| && k + q < |b| && k + r < |b| && k + s < |b|
    ensures TopDown(b, k, [p, q, r, s])
            == Get8(b, k + p) * 0x100_0000 + Get8(b, k + q) * 0x1_0000 + Get8(b, k + r) * 0x100 + Get8(b, k + s)
  {
    ThreeBytes(b, k, p, q, r);
    TopDownMore(b, k, [p, q, r], s);
    assert [p, q, r] + [s] == [p, q, r, s];
  }

  /** a and b agree outside bytes [k, k + n). */
  ghost predicate SameBut(a: Block, b: Block, k: nat, n: nat) {
    |a| == |b| && forall i | 0 <= i < |a| && !(k <= i < k + n) :: a[i] == b[i]
  }

  method Put16(o: Order, b: Block, k: nat, v: nat) returns (r: Block)
    requires k + 2 <= |b|
    ensures SameBut(b, r, k, 2)
    ensures Get16(o, r, k) == v % 0x1_0000
  {
    var lo, hi := v % 0x100, v / 0x100 % 0x100;
    SplitMod(v, 0x100, 0x100);
    r := if o.Big? then b[k := hi][k + 1 := lo] else b[k := lo][k + 1 := hi];
  }

  method Put24(o: Order, b: Block, k: nat, v: nat) returns (r: Block)
    requires k + 3 <= |b|
    ensures SameBut(b, r, k, 3)
    ensures Get24(o, r, k) == v % 0x100_0000
  {
    var lo, mid, hi := v % 0x100, v / 0x100 % 0x100, v / 0x1_0000 % 0x100;
    SplitMod(v, 0x100, 0x100);
    SplitMod(v, 0x1_0000, 0x100);
    r := match o
      case Pdp11 => b[k := hi][k + 1 := lo][k + 2 := mid]
      case Little => b[k := lo][k + 1 := mid][k + 2 := hi]
      case Big => b[k := hi][k + 1 := mid][k + 2 := lo];
  }

  method Put32(o: Order, b: Block, k: nat, v: nat) returns (r: Block)
    requires k + 4 <= |b|
    ensures SameBut(b, r, k, 4)
    ensures Get32(o, r, k) == v % 0x1_0000_0000
  {
    var lo, hi := v % 0x1_0000, v / 0x1_0000;
    SplitMod(v, 0x1_0000, 0x1_0000);
    var b1 := Put16(o, b, k, if o.Little? then lo else hi);
    r := Put16(o, b1, k + 2, if o.Little? then hi else lo);
    Get16Frame(o, b1, r, k + 2, 2, k);
  }

  /** A field is untouched by a change outside the bytes it covers. */
  lemma Get16Frame(o: Order, a: Block, b: Block, k: nat, n: nat, j: nat)
    requires SameBut(a, b, k, n) && j + 2 <= |a| && (j + 2 <= k || k + n <= j)
    ensures Get16(o, a, j) == Get16(o, b, j)
  {
  }

  lemma Get24Frame(o: Order, a: Block, b: Block, k: nat, n: nat, j: nat)
    requires SameBut(a, b, k, n) && j + 3 <= |a| && (j + 3 <= k || k + n <= j)
    ensures Get24(o, a, j) == Get24(o, b, j)
  {
  }

  lemma Get32Frame(o: Order, a: Block, b: Block, k: nat, n: nat, j: nat)
    requires SameBut(a, b, k, n) && j + 4 <= |a| && (j + 4 <= k || k + n <= j)
    ensures Get32(o, a, j) == Get32(o, b, j)
  {
  }
}

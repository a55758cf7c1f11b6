/** Writing one inode to a dump tape: its header, its direct blocks, and a
    continuation header with data for every leaf indirect block. */
module Dump {
  import opened Arith
  import opened Endian
  import opened Layout
  import opened BlockMap
  import opened BlockTree
  import opened InodeMap
  import opened BlockCheck
  import opened Builder
  import opened TapeRecords

  function Flatten<T>(s: seq<seq<T>>): seq<T> {
    if s == [] then [] else Flatten(s[..|s| - 1]) + s[|s| - 1]
  }

  lemma FlattenSnoc<T>(s: seq<seq<T>>, x: seq<T>)
    ensures Flatten(s + [x]) == Flatten(s) + x
  {
    assert (s + [x])[..|s|] == s;
  }

  lemma {:induction false} FlattenJoin<T>(s: seq<seq<T>>, t: seq<seq<T>>)
    ensures Flatten(s + t) == Flatten(s) + Flatten(t)
  {
    if t == [] {
      assert s + t == s;
    } else {
      var n := |t| - 1;
      FlattenJoin(s, t[..n]);
      assert (s + t)[..|s + t| - 1] == s + t[..n];
      assert Flatten(s + t) == (Flatten(s) + Flatten(t[..n])) + t[n];
    }
  }

  /** The blocks that are there, in order. */
  function Present(d: Disk, blks: seq<nat>): seq<Block> {
    if blks == [] then []
    else
      var b := blks[|blks| - 1];
      Present(d, blks[..|blks| - 1]) + if b != 0 && b < |d| then [d[b]] else []
  }

  lemma PresentSnoc(d: Disk, blks: seq<nat>, b: nat)
    ensures Present(d, blks + [b]) == Present(d, blks) + if b != 0 && b < |d| then [d[b]] else []
  {
    assert (blks + [b])[..|blks|] == blks;
  }

  /** One header and the data it announces. */
  ghost predicate IsSegment(v: Vol, d: Disk, part: seq<Block>, typ: nat, ino: nat, di: seq<byte>,
                            blks: seq<nat>) {
    |part| >= 1 && IsHeader(v, part[0], typ, ino, di, blks) && part[1..] == Present(d, blks)
  }

  ghost predicate Segments(v: Vol, d: Disk, parts: seq<seq<Block>>, ino: nat, di: seq<byte>,
                           segs: seq<seq<nat>>) {
    |parts| == |segs| && forall i | 0 <= i < |parts| :: IsSegment(v, d, parts[i], TS_ADDR, ino, di, segs[i])
  }

  lemma SegmentsJoin(v: Vol, d: Disk, p: seq<seq<Block>>, q: seq<seq<Block>>, ino: nat, di: seq<byte>,
                     s: seq<seq<nat>>, u: seq<seq<nat>>)
    requires Segments(v, d, p, ino, di, s) && Segments(v, d, q, ino, di, u)
    ensures Segments(v, d, p + q, ino, di, s + u)
  {
    hide IsSegment;
  }

  /** segs, each n long, spell out run and then fewer than n zeros. */
  ghost predicate Covers(segs: seq<seq<nat>>, run: seq<nat>, n: nat) {
    var full := forall i | 0 <= i < |segs| :: |segs[i]| == n;
    var flat := Flatten(segs);
    var exact := |run| <= |flat| < |run| + n && flat[..|run|] == run;
    var rest := |run| <= |flat| && forall i | |run| <= i < |flat| :: flat[i] == 0;
    full && exact && rest
  }

  lemma CoversNone(n: nat)
    requires n > 0
    ensures Covers([], [], n)
  {
  }

  lemma {:induction false} FlatLength(segs: seq<seq<nat>>, n: nat)
    requires forall i | 0 <= i < |segs| :: |segs[i]| == n
    ensures |Flatten(segs)| == Times(|segs|, n)
  {
    if segs != [] {
      FlatLength(segs[..|segs| - 1], n);
    }
  }

  /** x is a whole number of n's. */
  ghost predicate Whole(x: nat, n: nat) {
    exists q: nat :: x == Times(q, n)
  }

  lemma WholeTimes(j: nat, x: nat, n: nat)
    requires Whole(x, n)
    ensures Whole(Times(j, x), n)
  {
    var q: nat :| x == Times(q, n);
    TimesIs(q, n);
    TimesIs(j, x);
    TimesIs(j * q, n);
    hide Times;
    Assoc(j, q, n);
  }

  lemma WholeApart(x: nat, y: nat, n: nat)
    requires Whole(x, n) && Whole(y, n) && x <= y < x + n
    ensures x == y
  {
    var p: nat :| x == Times(p, n);
    var q: nat :| y == Times(q, n);
    TimesIs(p, n);
    TimesIs(q, n);
    if p < q {
      MulGap(p, q, n);
    } else if q < p {
      MulGap(q, p, n);
    }
  }

  /** A run of whole segments, then another run. */
  lemma CoversJoin(s: seq<seq<nat>>, r: seq<nat>, t: seq<seq<nat>>, q: seq<nat>, n: nat)
    requires n > 0 && Covers(s, r, n) && Covers(t, q, n) && Whole(|r|, n)
    ensures Covers(s + t, r + q, n)
  {
    FlattenJoin(s, t);
    FlatLength(s, n);
    WholeApart(|r|, |Flatten(s)|, n);
    assert Flatten(s) == r;
  }

  /** Where the j-th run of `per` starts. */
  function Off(j: nat, per: nat, len: nat): (o: nat)
    ensures o <= len
  {
    Min(Times(j, per), len)
  }

  lemma PartTimes(run: seq<nat>, j: nat, per: nat)
    ensures Off(j, per, |run|) <= Off(j + 1, per, |run|)
    ensures Part(run, j, per) == run[Off(j, per, |run|)..Off(j + 1, per, |run|)]
  {
    PartAt(run, j, per);
    TimesIs(j, per);
  }

  lemma RunOff(run: seq<nat>, j: nat, per: nat, n: nat)
    requires Whole(per, n)
    ensures Off(j, per, |run|) <= Off(j + 1, per, |run|)
    ensures run[..Off(j + 1, per, |run|)] == run[..Off(j, per, |run|)] + Part(run, j, per)
    ensures Part(run, j, per) != [] ==> Whole(Off(j, per, |run|), n)
  {
    PartTimes(run, j, per);
    WholeTimes(j, per, n);
  }

  lemma PowWhole(n: nat, l: nat)
    requires n > 0 && l > 0
    ensures Whole(Pow(n, l), n)
  {
    var q := Pow(n, l - 1);
    TimesIs(q, n);
    assert Pow(n, l) == n * q == q * n;
  }

  lemma OffEnds(n: nat, l: nat, len: nat)
    requires len <= Pow(n, l + 1)
    ensures Off(0, Pow(n, l), len) == 0 && Off(n, Pow(n, l), len) == len
  {
    TimesIs(n, Pow(n, l));
  }

  /** A built tree whose blocks all lie in the data region. */
  ghost predicate Tree(v: Vol, d: Disk, p: nat, l: nat, run: seq<nat>) {
    Built(v, d, p, l, run) && AllData(v, Refs(v, d, p, l)) && |run| <= Pow(v.nindir, l)
  }

  lemma TreeEnds(v: Vol, d: Disk, p: nat, l: nat, run: seq<nat>, per: nat)
    requires Tree(v, d, p, l + 1, run) && per == Pow(v.nindir, l)
    ensures Off(0, per, |run|) == 0 && Off(v.nindir, per, |run|) == |run|
  {
    hide Built, Refs;
    OffEnds(v.nindir, l, |run|);
  }

  lemma TreeKid(v: Vol, d: Disk, p: nat, l: nat, run: seq<nat>, j: nat)
    requires Tree(v, d, p, l + 1, run) && run != [] && j < v.nindir
    ensures p != 0 && v.InData(p)
    ensures Tree(v, d, Ptr(v, d, p, j), l, Part(run, j, Pow(v.nindir, l)))
    ensures l > 0 ==> (Ptr(v, d, p, j) != 0 <==> Part(run, j, Pow(v.nindir, l)) != [])
  {
    RefsFromMono(v, d, p, l + 1, 0, 1);
    NodeParts(v, d, p, l + 1, j);
  }

  /** The entries of a leaf indirect block: its run, then zeros. */
  lemma LeafEntries(v: Vol, d: Disk, p: nat, run: seq<nat>, blks: seq<nat>)
    requires Tree(v, d, p, 1, run) && run != [] && |blks| == v.nindir
    requires forall j | 0 <= j < v.nindir :: blks[j] == Ptr(v, d, p, j)
    ensures Covers([blks], run, v.nindir)
    ensures forall j | 0 <= j < v.nindir :: blks[j] != 0 ==> v.InData(blks[j])
  {
    var n := v.nindir;
    PowCaps(n);
    forall j | 0 <= j < n
      ensures blks[j] == (if j < |run| then run[j] else 0) && (blks[j] != 0 ==> v.InData(blks[j]))
    {
      LeafEntry(v, d, p, run, j);
    }
    FlattenSnoc([], blks);
    assert [] + [blks] == [blks];
    assert Flatten([blks]) == [] + blks == blks;
  }

  lemma LeafEntry(v: Vol, d: Disk, p: nat, run: seq<nat>, j: nat)
    requires Tree(v, d, p, 1, run) && run != [] && j < v.nindir
    ensures Ptr(v, d, p, j) == (if j < |run| then run[j] else 0)
    ensures Ptr(v, d, p, j) != 0 ==> v.InData(Ptr(v, d, p, j))
  {
    PowCaps(v.nindir);
    TreeKid(v, d, p, 0, run, j);
    PartAt(run, j, 1);
    var q := Ptr(v, d, p, j);
    if q != 0 {
      assert q in Refs(v, d, q, 0);
    }
  }

  class Dumper {
    const v: Vol
    const d: Disk
    var spcl: Block
    var out: seq<Block>

    ghost predicate Valid()
      reads this
    {
      var records := forall i | 0 <= i < |out| :: |out[i]| == v.Bsize();
      Sized(v, d) && |spcl| == v.Bsize() && records
    }

    /** The dinode every header carries along. */
    ghost function Di(): seq<byte>
      reads this
      requires Valid()
    {
      spcl[C_DINODE..C_COUNT]
    }

    constructor (vol: Vol, image: Disk, start: Block)
      requires Sized(vol, image) && |start| == vol.Bsize()
      ensures Valid() && v == vol && d == image && out == []
    {
      v, d, spcl, out := vol, image, start, [];
    }

    /** spclrec. */
    method SpclRec(ino: nat)
      requires Valid()
      modifies this
      ensures Valid() && out == old(out) + [spcl]
      ensures Finalized(old(spcl), spcl) && CksumOk(v, spcl)
      ensures Get16(v.order, spcl, C_INUM) == ino % 0x1_0000 && Get16(v.order, spcl, C_MAGIC) == DMAGIC
    {
      spcl := Finalize(v, spcl, ino);
      out := out + [spcl];
    }

    /** A header of type typ for blks, then the blocks that are there. */
    method Segment(typ: nat, ino: nat, blks: seq<nat>) returns (ghost part: seq<Block>)
      requires Valid() && |blks| <= v.nindir && typ < 0x1_0000
      requires forall j | 0 <= j < |blks| :: blks[j] < |d|
      modifies this
      ensures Valid() && Di() == old(Di()) && out == old(out) + part
      ensures IsSegment(v, d, part, typ, ino, Di(), blks)
    {
      hide CksumOk, IsHeader, Present;
      ghost var out0, di := out, Di();
      spcl := Draft(v, spcl, typ, blks);
      ghost var draft := spcl;
      SpclRec(ino);
      DraftDone(v, draft, spcl, typ, ino, di, blks);
      HeaderDi(v, spcl, typ, di, blks);
      ghost var hdr := spcl;
      NonePresent(d);
      for j := 0 to |blks|
        invariant Valid() && spcl == hdr && out == out0 + [hdr] + Present(d, blks[..j])
      {
        PresentSnoc(d, blks[..j], blks[j]);
        assert blks[..j + 1] == blks[..j] + [blks[j]];
        if blks[j] != 0 {
          out := out + [d[blks[j]]];
        }
      }
      assert blks[..|blks|] == blks;
      part := [hdr] + Present(d, blks);
    }

    /** indir: one continuation per leaf indirect block below blk. */
    method Indir(blk: nat, level: nat, ino: nat, ghost run: seq<nat>)
      returns (ghost parts: seq<seq<Block>>, ghost segs: seq<seq<nat>>)
      requires Valid() && Tree(v, d, blk, level + 1, run) && run != []
      modifies this
      ensures Valid() && Di() == old(Di()) && out == old(out) + Flatten(parts)
      ensures Segments(v, d, parts, ino, Di(), segs) && Covers(segs, run, v.nindir)
      decreases level
    {
      hide Tree, IsSegment, Segments, Covers, Ptr, Off, Part, Flatten, Whole, Pow;
      TreeKid(v, d, blk, level, run, 0);
      var ptrs := seq(v.nindir, j requires 0 <= j < v.nindir => Ptr(v, d, blk, j));
      parts, segs := [], [];
      FlattenNone();
      NoSegments(v, d, ino, Di());
      if level == 0 {
        LeafEntries(v, d, blk, run, ptrs);
        ghost var part := Segment(TS_ADDR, ino, ptrs);
        parts, segs := [part], [ptrs];
        FlattenSnoc([], part);
        assert [] + [part] == [part];
        OneSegment(v, d, part, ino, Di(), ptrs);
        return;
      }
      ghost var per, out0, di := Pow(v.nindir, level), out, Di();
      PowWhole(v.nindir, level);
      TreeEnds(v, d, blk, level, run, per);
      CoversNone(v.nindir);
      assert run[..0] == [];
      for j := 0 to v.nindir
        invariant Valid() && Di() == di && out == out0 + Flatten(parts)
        invariant Segments(v, d, parts, ino, di, segs)
        invariant Covers(segs, run[..Off(j, per, |run|)], v.nindir)
      {
        TreeKid(v, d, blk, level, run, j);
        RunOff(run, j, per, v.nindir);
        if ptrs[j] != 0 {
          ghost var p, s := Indir(ptrs[j], level - 1, ino, Part(run, j, per));
          assert |run[..Off(j, per, |run|)]| == Off(j, per, |run|);
          CoversJoin(segs, run[..Off(j, per, |run|)], s, Part(run, j, per), v.nindir);
          SegmentsJoin(v, d, parts, p, ino, di, segs, s);
          FlattenJoin(parts, p);
          parts, segs := parts + p, segs + s;
        } else {
          assert run[..Off(j + 1, per, |run|)] == run[..Off(j, per, |run|)];
        }
      }
      assert run[..|run|] == run;
    }

    /** dump_inode for a regular file or a directory; other types get a bare header. */
    method DumpInode(ino: nat, ghost da: seq<nat>)
      returns (ghost head: seq<Block>, ghost parts: seq<seq<Block>>, ghost segs: seq<seq<nat>>)
      requires Valid() && 1 <= ino <= Ninodes(v) && ReadDinode(v, d, ino).mode != 0
      requires var di := ReadDinode(v, d, ino);
               di.HasMap() ==> FileMapped(v, d, di.addr, da)
      modifies this
      ensures Valid() && out == old(out) + head + Flatten(parts)
      ensures var di := ReadDinode(v, d, ino);
              var blks := if di.HasMap() then di.addr[..v.laddr] else [];
              && |Di()| == DINODESZ && IsSegment(v, d, head, TS_INODE, ino, Di(), blks)
              && Segments(v, d, parts, ino, Di(), segs)
              && (if di.HasMap() then Spelled(v, blks, segs, da) else parts == [])
              && |head| >= 1 && |head[0]| == v.Bsize() && InodeAt(v, head[0], C_DINODE) == di
    {
      hide Tree, IsSegment, Segments, FileMapped, Spelled, Flatten, ReadDinode, Ninodes, InodeRefs, InodeAt;
      hide Covers, Below, Whole, InodeBlock, InodeOffset;
      InodeInList(v, ino);
      var pb := d[InodeBlock(v, ino)];
      var k := InodeOffset(v, ino);
      var di := InodeAt(v, pb, k);
      ReadIs(v, d, ino);
      LoadDinode(pb, k);
      ghost var bytes := Di();
      parts, segs := [], [];
      FlattenNone();
      NoSegments(v, d, ino, bytes);
      if !di.HasMap() {
        head := Segment(TS_INODE, ino, []);
        HeadDinode(v, d, head, ino, bytes, [], pb, k);
        return;
      }
      MappedSlots(v, d, di.addr, da);
      head := Segment(TS_INODE, ino, di.addr[..v.laddr]);
      HeadDinode(v, d, head, ino, bytes, di.addr[..v.laddr], pb, k);
      ghost var out1 := out;
      for i := v.laddr to v.laddr + 3
        invariant Valid() && Di() == bytes && out == out1 + Flatten(parts)
        invariant Segments(v, d, parts, ino, bytes, segs)
        invariant Covers(segs, Below(v, da, i), v.nindir)
      {
        MappedSlot(v, d, di.addr, da, i);
        if di.addr[i] != 0 {
          ghost var p, s := Indir(di.addr[i], i - v.laddr, ino, SlotRun(v, da, i));
          CoversJoin(segs, Below(v, da, i), s, SlotRun(v, da, i), v.nindir);
          SegmentsJoin(v, d, parts, p, ino, bytes, segs, s);
          FlattenJoin(parts, p);
          parts, segs := parts + p, segs + s;
        } else {
          assert Below(v, da, i + 1) == Below(v, da, i);
        }
      }
      AllSpelled(v, d, di.addr, da, segs);
    }

    /** The working record takes over the dinode, and its flags are cleared. */
    method LoadDinode(pb: Block, k: nat)
      requires Valid() && |pb| == v.Bsize() && k + DINODESZ <= |pb|
      modifies this`spcl
      ensures Valid() && Di() == pb[k..k + DINODESZ] && |Di()| == DINODESZ
      ensures forall i | C_ADDR <= i < |spcl| :: spcl[i] == 0
    {
      spcl := spcl[..C_DINODE] + pb[k..k + DINODESZ] + spcl[C_COUNT..C_ADDR] + seq(|spcl| - C_ADDR, _ => 0);
      assert spcl[C_DINODE..C_COUNT] == pb[k..k + DINODESZ];
    }
  }

  /** Every header repeats the dinode, so a reader finds mode and size in it. */
  lemma HeadDinode(v: Vol, d: Disk, head: seq<Block>, ino: nat, di: seq<byte>, blks: seq<nat>, pb: Block, k: nat)
    requires IsSegment(v, d, head, TS_INODE, ino, di, blks) && |pb| == v.Bsize() && k + DINODESZ <= |pb|
    requires di == pb[k..k + DINODESZ]
    ensures |head| >= 1 && |head[0]| == v.Bsize() && InodeAt(v, head[0], C_DINODE) == InodeAt(v, pb, k)
  {
    hide InodeAt;
    SameDinode(v, head[0], C_DINODE, pb, k);
  }

  lemma SameDinode(v: Vol, a: Block, i: nat, b: Block, j: nat)
    requires |a| == |b| == v.Bsize() && i + DINODESZ <= |a| && j + DINODESZ <= |b|
    requires a[i..i + DINODESZ] == b[j..j + DINODESZ]
    ensures InodeAt(v, a, i) == InodeAt(v, b, j)
  {
    forall y | 0 <= y < v.laddr + 3
      ensures Get24(v.order, a, i + DI_ADDR + 3 * y) == Get24(v.order, b, j + DI_ADDR + 3 * y)
    {
      Same24(v.order, a, i, b, j, DI_ADDR + 3 * y);
    }
    assert InodeAt(v, a, i).addr == InodeAt(v, b, j).addr;
    Same16(v.order, a, i, b, j, DI_MODE);
    Same16(v.order, a, i, b, j, DI_NLINK);
    Same16(v.order, a, i, b, j, DI_SIZE);
    Same16(v.order, a, i, b, j, DI_SIZE + 2);
  }

  lemma Same16(o: Order, a: Block, i: nat, b: Block, j: nat, z: nat)
    requires i + DINODESZ <= |a| && j + DINODESZ <= |b| && z + 2 <= DINODESZ
    requires a[i..i + DINODESZ] == b[j..j + DINODESZ]
    ensures Get16(o, a, i + z) == Get16(o, b, j + z)
  {
    var s, u := a[i..i + DINODESZ], b[j..j + DINODESZ];
    assert s[z] == u[z] && s[z + 1] == u[z + 1];
  }

  lemma Same24(o: Order, a: Block, i: nat, b: Block, j: nat, z: nat)
    requires i + DINODESZ <= |a| && j + DINODESZ <= |b| && z + 3 <= DINODESZ
    requires a[i..i + DINODESZ] == b[j..j + DINODESZ]
    ensures Get24(o, a, i + z) == Get24(o, b, j + z)
  {
    var s, u := a[i..i + DINODESZ], b[j..j + DINODESZ];
    assert s[z] == u[z] && s[z + 1] == u[z + 1] && s[z + 2] == u[z + 2];
  }

  /** The inode maps exactly da, and all its blocks lie in the data region. */
  ghost predicate FileMapped(v: Vol, d: Disk, addr: seq<nat>, da: seq<nat>) {
    MapBuilt(v, d, addr, da) && AllData(v, InodeRefs(v, d, addr)) && |da| <= Capacity(v)
  }

  /** The part of da behind the indirect slots below slot i. */
  function Below(v: Vol, da: seq<nat>, i: nat): seq<nat> {
    var lo, hi := Min(v.laddr, |da|), if i < v.laddr + 3 then SlotBase(v, i) else |da|;
    if lo <= hi <= |da| then da[lo..hi] else da[lo..]
  }

  lemma MappedSlots(v: Vol, d: Disk, addr: seq<nat>, da: seq<nat>)
    requires FileMapped(v, d, addr, da) && v.fsize <= |d|
    ensures IsMap(v, addr) && forall j | 0 <= j < v.laddr :: addr[j] < |d|
    ensures Covers([], Below(v, da, v.laddr), v.nindir)
  {
    hide Built, InodeRefs, Covers;
    forall j | 0 <= j < v.laddr ensures addr[j] < |d| {
      DirectInData(v, d, addr, j);
    }
    assert Below(v, da, v.laddr) == [];
    CoversNone(v.nindir);
  }

  lemma DirectInData(v: Vol, d: Disk, addr: seq<nat>, j: nat)
    requires IsMap(v, addr) && AllData(v, InodeRefs(v, d, addr)) && j < v.laddr
    ensures addr[j] != 0 ==> v.InData(addr[j])
  {
    SlotPart(v, d, addr, j, 0);
    assert addr[j] != 0 ==> addr[j] in Refs(v, d, addr[j], 0);
  }

  lemma MappedSlot(v: Vol, d: Disk, addr: seq<nat>, da: seq<nat>, i: nat)
    requires FileMapped(v, d, addr, da) && v.laddr <= i < v.laddr + 3
    ensures i < |addr| && Tree(v, d, addr[i], i - v.laddr + 1, SlotRun(v, da, i))
    ensures addr[i] != 0 <==> SlotRun(v, da, i) != []
    ensures Below(v, da, i + 1) == Below(v, da, i) + SlotRun(v, da, i)
    ensures SlotRun(v, da, i) != [] ==> Whole(|Below(v, da, i)|, v.nindir)
  {
    hide Below, SlotRun, Whole, Capacity;
    assert SlotBuilt(v, d, addr, da, i);
    SlotPart(v, d, addr, i, 0);
    hide InodeRefs, RefsFrom;
    BelowNext(v, da, i);
    BelowWhole(v, da, i);
    RunBound(v, da, i);
  }

  lemma RunBound(v: Vol, da: seq<nat>, i: nat)
    ensures |SlotRun(v, da, i)| <= Pow(v.nindir, SlotLevel(v, i))
  {
    hide Pow;
  }

  lemma BelowNext(v: Vol, da: seq<nat>, i: nat)
    requires v.laddr <= i < v.laddr + 3 && |da| <= Capacity(v)
    ensures Below(v, da, i + 1) == Below(v, da, i) + SlotRun(v, da, i)
  {
    BasesGrow(v, i);
    hide Pow;
  }

  lemma BelowWhole(v: Vol, da: seq<nat>, i: nat)
    requires v.laddr <= i < v.laddr + 3
    ensures SlotRun(v, da, i) != [] ==> Whole(|Below(v, da, i)|, v.nindir)
  {
    var n := v.nindir;
    TimesIs(1 + n, n);
    assert (1 + n) * n == n + n * n;
    assert Times(0, n) == 0 && Times(1, n) == n;
    if SlotRun(v, da, i) != [] {
      var q := if i == v.laddr then 0 else if i == v.laddr + 1 then 1 else 1 + n;
      assert |Below(v, da, i)| == Times(q, n);
    }
  }

  /** What a tape says about an inode: the direct slots, padded with holes, then the
      rest in segments, the last one padded with holes. */
  ghost predicate Spelled(v: Vol, blks: seq<nat>, segs: seq<seq<nat>>, da: seq<nat>) {
    var lo := Min(v.laddr, |da|);
    var direct := |blks| == v.laddr && blks[..lo] == da[..lo] && forall j | lo <= j < |blks| :: blks[j] == 0;
    direct && Covers(segs, da[lo..], v.nindir)
  }

  lemma AllSpelled(v: Vol, d: Disk, addr: seq<nat>, da: seq<nat>, segs: seq<seq<nat>>)
    requires FileMapped(v, d, addr, da) && Covers(segs, Below(v, da, v.laddr + 3), v.nindir)
    ensures IsMap(v, addr) && Spelled(v, addr[..v.laddr], segs, da)
  {
    hide Covers, InodeRefs, Capacity;
    var lo := Min(v.laddr, |da|);
    forall j | 0 <= j < v.laddr ensures addr[j] == if j < |da| then da[j] else 0 {
      assert SlotBuilt(v, d, addr, da, j);
    }
    assert addr[..v.laddr][..lo] == da[..lo];
    assert Below(v, da, v.laddr + 3) == da[lo..];
  }

  lemma NoSegments(v: Vol, d: Disk, ino: nat, di: seq<byte>)
    ensures Segments(v, d, [], ino, di, [])
  {
  }

  lemma OneSegment(v: Vol, d: Disk, part: seq<Block>, ino: nat, di: seq<byte>, blks: seq<nat>)
    requires IsSegment(v, d, part, TS_ADDR, ino, di, blks)
    ensures Segments(v, d, [part], ino, di, [blks])
  {
    hide IsSegment;
  }

  lemma FlattenNone()
    ensures Flatten<Block>([]) == [] && Flatten<nat>([]) == []
  {
  }

  lemma NonePresent(d: Disk)
    ensures Present(d, []) == []
  {
  }

  lemma HeaderDi(v: Vol, h: Block, typ: nat, di: seq<byte>, blks: seq<nat>)
    requires Drafted(v, h, typ, di, blks)
    ensures |h| == v.Bsize() && h[C_DINODE..C_COUNT] == di
  {
  }
}

/** Reading one inode back from a tape: the block map is rebuilt from the presence
    flags, the data goes to fresh blocks, and the inode gets a new map. */
module Restore {
  import opened Arith
  import opened Endian
  import opened Layout
  import opened FreeList
  import opened Allocator
  import opened BlockCheck
  import opened TapeRecords
  import opened Dump

  /** How many of the entries are blocks. */
  function Count(s: seq<nat>): (n: nat)
    ensures n <= |s|
  {
    if s == [] then 0 else Count(s[..|s| - 1]) + if s[|s| - 1] != 0 then 1 else 0
  }

  lemma CountSnoc(s: seq<nat>, x: nat)
    ensures Count(s + [x]) == Count(s) + if x != 0 then 1 else 0
  {
    assert (s + [x])[..|s|] == s;
  }

  lemma {:induction false} CountMono(s: seq<nat>, i: nat, j: nat)
    requires i <= j <= |s|
    ensures Count(s[..i]) <= Count(s[..j])
  {
    if i < j {
      CountMono(s, i, j - 1);
      assert s[..j] == s[..j - 1] + [s[j - 1]];
      CountSnoc(s[..j - 1], s[j - 1]);
    }
  }

  lemma CountBelow(s: seq<nat>, i: nat, j: nat)
    requires i < j <= |s| && s[i] != 0
    ensures Count(s[..i]) < Count(s[..j])
  {
    CountMono(s, i + 1, j);
    assert s[..i + 1] == s[..i] + [s[i]];
    CountSnoc(s[..i], s[i]);
  }

  /** Restoring reads every tape in PDP-11 order, whatever volume it was dumped from. */
  function Reader(v: Vol): Vol { v.(order := Pdp11) }

  class DR {
    const v: Vol
    const tape: seq<Block>
    var pos: nat

    ghost predicate Valid()
      reads this
    {
      pos <= |tape| && forall i | 0 <= i < |tape| :: |tape[i]| == v.Bsize()
    }

    constructor (vol: Vol, records: seq<Block>)
      requires forall i | 0 <= i < |records| :: |records[i]| == vol.Bsize()
      ensures Valid() && v == Reader(vol) && tape == records && pos == 0
    {
      v, tape, pos := Reader(vol), records, 0;
    }

    method RecRead() returns (ok: bool, rec: Block)
      requires Valid()
      modifies this
      ensures Valid() && (ok <==> old(pos) < |tape|)
      ensures ok ==> rec == tape[old(pos)] && pos == old(pos) + 1
      ensures !ok ==> pos == old(pos)
    {
      ok, rec := pos < |tape|, [];
      if ok {
        rec := tape[pos];
        pos := pos + 1;
      }
    }

    /** gethead, without -f: a record with the magic number and a right checksum. */
    method GetHead() returns (ok: bool, hdr: Block)
      requires Valid()
      modifies this
      ensures Valid() && pos >= old(pos)
      ensures ok <==> old(pos) < |tape| && SoundHeader(v, tape[old(pos)])
      ensures ok ==> hdr == tape[old(pos)] && pos == old(pos) + 1 && |hdr| == v.Bsize()
    {
      ok, hdr := RecRead();
      if ok {
        var sum := HdrCksumOk(v, hdr);
        ok := Get16(v.order, hdr, C_MAGIC) == DMAGIC && sum;
      }
    }
  }

  predicate SoundHeader(v: Vol, h: Block)
    requires |h| == v.Bsize()
  {
    Get16(v.order, h, C_MAGIC) == DMAGIC && CksumOk(v, h)
  }

  /** What has been rebuilt of src: new blocks, taken in order from the free list s0, hold
      what the old ones held in image d; holes stay holes; nothing else was written. */
  ghost predicate Got(d: Disk, src: seq<nat>, d0: Disk, s0: seq<nat>, d1: Disk, s1: seq<nat>, da: seq<nat>)
    requires |da| <= |src|
  {
    var n := Count(src[..|da|]);
    var sized := |d1| == |d0| && n <= |s0| && s1 == s0[n..];
    var mapped := sized && forall i | 0 <= i < |da| :: GotOne(d, src, s0, n, d1, da, i);
    var kept := sized && forall b: nat | b < |d0| && b !in s0[..n] :: d1[b] == d0[b];
    mapped && kept
  }

  ghost predicate GotOne(d: Disk, src: seq<nat>, s0: seq<nat>, n: nat, d1: Disk, da: seq<nat>, i: nat)
    requires i < |da| <= |src|
  {
    if src[i] == 0 then da[i] == 0
    else
      var r := Count(src[..i]);
      r < n && r < |s0| && da[i] == s0[r] && src[i] < |d| && da[i] < |d1| && d1[da[i]] == d[src[i]]
  }

  lemma GotNothing(d: Disk, src: seq<nat>, d0: Disk, s0: seq<nat>)
    ensures Got(d, src, d0, s0, d0, s0, [])
  {
    assert src[..0] == [];
    assert s0[0..] == s0;
  }

  lemma GotHole(d: Disk, src: seq<nat>, d0: Disk, s0: seq<nat>, d1: Disk, s1: seq<nat>, da: seq<nat>)
    requires |da| < |src| && Got(d, src, d0, s0, d1, s1, da) && src[|da|] == 0
    ensures Got(d, src, d0, s0, d1, s1, da + [0])
  {
    assert src[..|da| + 1] == src[..|da|] + [0];
    CountSnoc(src[..|da|], 0);
    var n := Count(src[..|da|]);
    forall i | 0 <= i < |da| ensures GotOne(d, src, s0, n, d1, da + [0], i) {
      assert GotOne(d, src, s0, n, d1, da, i);
    }
  }

  lemma GotBlock(d: Disk, src: seq<nat>, d0: Disk, s0: seq<nat>, d1: Disk, s1: seq<nat>, da: seq<nat>,
                 d2: Disk)
    requires |da| < |src| && Got(d, src, d0, s0, d1, s1, da) && src[|da|] != 0 && src[|da|] < |d|
    requires NoDup(s0) && s1 != [] && s1[0] < |d1| && d2 == d1[s1[0] := d[src[|da|]]]
    ensures Got(d, src, d0, s0, d2, s1[1..], da + [s1[0]])
  {
    hide Count;
    var x, n := src[|da|], Count(src[..|da|]);
    assert src[..|da| + 1] == src[..|da|] + [x];
    CountSnoc(src[..|da|], x);
    assert s1[0] == s0[n] && s1[1..] == s0[n + 1..];
    assert s0[..n + 1] == s0[..n] + [s0[n]];
    var da', n' := da + [s1[0]], n + 1;
    forall i | 0 <= i < |da'| ensures GotOne(d, src, s0, n', d2, da', i) {
      if i < |da| {
        assert GotOne(d, src, s0, n, d1, da, i);
      }
    }
  }

  /** What is still to come of an inode: rem blocks, spelled by the rest of this
      segment's flags and the segments after it, with holes for padding. */
  ghost predicate Spans(rem: seq<nat>, blks: seq<nat>, segs: seq<seq<nat>>) {
    var flat := blks + Flatten(segs);
    var spelled := |rem| <= |flat| && flat[..|rem|] == rem && forall i | |rem| <= i < |flat| :: flat[i] == 0;
    var tight := segs != [] ==> |rem| > |blks| + |Flatten(segs[..|segs| - 1])|;
    spelled && tight
  }

  lemma SpansStart(v: Vol, blks: seq<nat>, segs: seq<seq<nat>>, src: seq<nat>)
    requires Spelled(v, blks, segs, src)
    ensures Spans(src, blks, segs)
  {
    var lo, run := Min(v.laddr, |src|), src[Min(v.laddr, |src|)..];
    FlatLength(segs, v.nindir);
    if segs != [] {
      FlatLength(segs[..|segs| - 1], v.nindir);
      assert |Flatten(segs)| == |Flatten(segs[..|segs| - 1])| + v.nindir;
      hide Flatten;
      assert run != [];
      assert (blks + Flatten(segs))[..|src|] == blks + Flatten(segs)[..|run|] == src;
    } else {
      assert Flatten(segs) == [];
    }
  }

  lemma SpansNext(rem: seq<nat>, blks: seq<nat>, segs: seq<seq<nat>>)
    requires Spans(rem, blks, segs) && |rem| > |blks|
    ensures segs != [] && Spans(rem[|blks|..], segs[0], segs[1..])
    ensures rem[..|blks|] == blks
  {
    var flat, more := blks + Flatten(segs), segs[1..];
    FlattenNone();
    assert segs == [segs[0]] + more;
    FlattenJoin([segs[0]], more);
    FlattenOne(segs[0]);
    assert flat[|blks|..] == segs[0] + Flatten(more);
    if more != [] {
      var u := more[..|more| - 1];
      assert segs[..|segs| - 1] == [segs[0]] + u;
      FlattenJoin([segs[0]], u);
    }
    assert flat[..|rem|][|blks|..] == flat[|blks|..][..|rem| - |blks|];
  }

  lemma FlattenOne<T>(x: seq<T>)
    ensures Flatten([x]) == x
  {
    assert [x][..0] == [];
    assert Flatten([x]) == Flatten([x][..0]) + x;
  }

  /** The last segment: nothing but padding after what is wanted. */
  lemma SpansEnd(rem: seq<nat>, blks: seq<nat>, segs: seq<seq<nat>>)
    requires Spans(rem, blks, segs) && |rem| <= |blks|
    ensures segs == [] && rem == blks[..|rem|] && forall i | |rem| <= i < |blks| :: blks[i] == 0
  {
    if segs == [] {
      assert blks + Flatten(segs) == blks;
    }
  }

  lemma {:induction false} PresentHead(d: Disk, s: seq<nat>)
    requires s != []
    ensures Present(d, s) == (if s[0] != 0 && s[0] < |d| then [d[s[0]]] else []) + Present(d, s[1..])
    decreases |s|
  {
    if |s| > 1 {
      var m := s[..|s| - 1];
      PresentHead(d, m);
      assert m[1..] == s[1..][..|s| - 2];
      assert s[1..][|s| - 2] == s[|s| - 1];
    } else {
      assert s[..0] == s[1..] == [];
    }
  }

  lemma {:induction false} PresentNone(d: Disk, s: seq<nat>)
    requires forall i | 0 <= i < |s| :: s[i] == 0
    ensures Present(d, s) == []
  {
    if s != [] {
      PresentNone(d, s[..|s| - 1]);
    }
  }

  /** The count and flags of a record, as read_blocks takes them. */
  ghost predicate FlagsOf(v: Vol, h: Block, blks: seq<nat>) {
    var sized := |h| == v.Bsize() && |blks| <= v.nindir;
    sized && Get16(v.order, h, C_COUNT) == |blks|
    && forall j | 0 <= j < |blks| :: h[C_ADDR + j] == Flag(blks[j])
  }

  /** A tape that tells about src: segments for what is to come, then the header of
      something else. */
  datatype Story = Story(src: seq<nat>, d: Disk, ino: nat, di: seq<byte>, rest: seq<Block>)

  ghost predicate Ending(v: Vol, rest: seq<Block>) {
    rest != [] && |rest[0]| == v.Bsize() && SoundHeader(v, rest[0]) && Get16(v.order, rest[0], C_TYPE) != TS_ADDR
  }

  /** The reader stands at flag i of a record that spells out blks. */
  ghost predicate Reading(v: Vol, st: Story, tape: seq<Block>, ab: Block, b: nat, i: nat,
                          blks: seq<nat>, parts: seq<seq<Block>>, segs: seq<seq<nat>>) {
    var flags := FlagsOf(v, ab, blks) && i <= |blks| && i <= b <= |st.src|;
    var spans := flags && Spans(st.src[b - i..], blks, segs);
    var coming := flags && tape == Present(st.d, blks[i..]) + Flatten(parts) + st.rest;
    spans && coming && Segments(v, st.d, parts, st.ino, st.di, segs) && Ending(v, st.rest)
  }

  /** What has been restored so far, and that the free list will last. */
  ghost predicate Restored(st: Story, d0: Disk, s0: seq<nat>, d1: Disk, s1: seq<nat>, da: seq<nat>) {
    var readable := forall j | 0 <= j < |st.src| && st.src[j] != 0 :: st.src[j] < |st.d|;
    readable && Count(st.src) <= |s0| && |da| <= |st.src| && Got(st.d, st.src, d0, s0, d1, s1, da)
  }

  /** The flag at hand says what src says. */
  lemma FlagNext(v: Vol, st: Story, tape: seq<Block>, ab: Block, b: nat, i: nat,
                 blks: seq<nat>, parts: seq<seq<Block>>, segs: seq<seq<nat>>)
    requires Reading(v, st, tape, ab, b, i, blks, parts, segs) && i < |blks| && b < |st.src|
    requires st.src[b] != 0 ==> st.src[b] < |st.d|
    ensures blks[i] == st.src[b] && ab[C_ADDR + i] == Flag(st.src[b])
    ensures st.src[b] != 0 ==> tape != [] && tape[0] == st.d[st.src[b]]
                               && Reading(v, st, tape[1..], ab, b + 1, i + 1, blks, parts, segs)
    ensures st.src[b] == 0 ==> Reading(v, st, tape, ab, b + 1, i + 1, blks, parts, segs)
  {
    hide Flatten, Ending, Segments;
    var rem := st.src[b - i..];
    assert rem[i] == st.src[b];
    assert (blks + Flatten(segs))[..|rem|][i] == blks[i];
    PresentHead(st.d, blks[i..]);
    assert blks[i..][1..] == blks[i + 1..];
    hide Spans, FlagsOf, Present;
    var more := Present(st.d, blks[i + 1..]) + Flatten(parts) + st.rest;
    if st.src[b] != 0 {
      assert tape == [st.d[st.src[b]]] + more;
    } else {
      assert [] + Present(st.d, blks[i + 1..]) == Present(st.d, blks[i + 1..]);
    }
  }

  /** All flags of a record used up with blocks still wanted: a continuation follows. */
  lemma RecordNext(v: Vol, st: Story, tape: seq<Block>, ab: Block, b: nat,
                   blks: seq<nat>, parts: seq<seq<Block>>, segs: seq<seq<nat>>)
    requires Reading(v, st, tape, ab, b, |blks|, blks, parts, segs) && b < |st.src|
    ensures segs != [] && parts != [] && tape != [] && |tape[0]| == v.Bsize() && SoundHeader(v, tape[0])
    ensures Get16(v.order, tape[0], C_TYPE) == TS_ADDR
    ensures Reading(v, st, tape[1..], tape[0], b, 0, segs[0], parts[1..], segs[1..])
  {
    hide CksumOk, Flatten, Present, Ending;
    var rem := st.src[b - |blks|..];
    SpansNext(rem, blks, segs);
    assert rem[|blks|..] == st.src[b..];
    NonePresent(st.d);
    assert blks[|blks|..] == [];
    assert parts == [parts[0]] + parts[1..];
    FlattenJoin([parts[0]], parts[1..]);
    FlattenOne(parts[0]);
    assert IsSegment(v, st.d, parts[0], TS_ADDR, st.ino, st.di, segs[0]);
    assert parts[0] == [parts[0][0]] + parts[0][1..];
    assert tape == parts[0] + (Flatten(parts[1..]) + st.rest);
    assert segs[0][0..] == segs[0];
  }

  /** Everything wanted has been read: what follows is the next record proper. */
  lemma RecordLast(v: Vol, st: Story, tape: seq<Block>, ab: Block, i: nat,
                   blks: seq<nat>, parts: seq<seq<Block>>, segs: seq<seq<nat>>)
    requires Reading(v, st, tape, ab, |st.src|, i, blks, parts, segs)
    ensures tape == st.rest && Ending(v, st.rest)
  {
    hide Ending, Flatten, Present;
    var rem := st.src[|st.src| - i..];
    SpansEnd(rem, blks, segs);
    PresentNone(st.d, blks[i..]);
    FlattenNone();
    assert parts == [];
  }

  /** The reader in the middle of its work. */
  ghost predicate Telling(fs: S5FS, dr: DR, st: Story, d0: Disk, s0: seq<nat>, ab: Block, da: array<nat>,
                          b: nat, i: nat, blks: seq<nat>, parts: seq<seq<Block>>, segs: seq<seq<nat>>)
    reads fs, dr, da
  {
    var there := dr.pos <= |dr.tape| && b <= da.Length == |st.src| && NoDup(s0);
    there && Reading(dr.v, st, dr.tape[dr.pos..], ab, b, i, blks, parts, segs)
    && Restored(st, d0, s0, fs.dev, fs.stack, da[..b])
  }

  lemma RoomForNext(st: Story, d0: Disk, s0: seq<nat>, d1: Disk, s1: seq<nat>, da: seq<nat>)
    requires Restored(st, d0, s0, d1, s1, da) && |da| < |st.src| && st.src[|da|] != 0
    ensures s1 != [] && st.src[|da|] < |st.d|
  {
    CountBelow(st.src, |da|, |st.src|);
    assert st.src[..|st.src|] == st.src;
  }

  lemma RestoredBlock(st: Story, d0: Disk, s0: seq<nat>, d1: Disk, s1: seq<nat>, da: seq<nat>, d2: Disk,
                      da': seq<nat>)
    requires Restored(st, d0, s0, d1, s1, da) && |da| < |st.src| && st.src[|da|] != 0 && NoDup(s0)
    requires s1 != [] && s1[0] < |d1| && st.src[|da|] < |st.d|
    requires d2 == d1[s1[0] := st.d[st.src[|da|]]] && da' == da + [s1[0]]
    ensures Restored(st, d0, s0, d2, s1[1..], da')
  {
    hide Got;
    GotBlock(st.d, st.src, d0, s0, d1, s1, da, d2);
  }

  lemma RestoredHole(st: Story, d0: Disk, s0: seq<nat>, d1: Disk, s1: seq<nat>, da: seq<nat>, da': seq<nat>)
    requires Restored(st, d0, s0, d1, s1, da) && |da| < |st.src| && st.src[|da|] == 0 && da' == da + [0]
    ensures Restored(st, d0, s0, d1, s1, da')
  {
    hide Got;
    GotHole(st.d, st.src, d0, s0, d1, s1, da);
  }

  /** One set flag: read a record, put it in a fresh block.  Once the free list has run out
      the records are still read; what da gets for them is stray. */
  method TakeBlock(fs: S5FS, dr: DR, ab: Block, da: array<nat>, b: nat, stray: nat -> nat, ghost told: bool,
                   ghost i: nat, ghost st: Story, ghost d0: Disk, ghost s0: seq<nat>, ghost blks: seq<nat>,
                   ghost parts: seq<seq<Block>>, ghost segs: seq<seq<nat>>)
    returns (ok: bool)
    requires (fs.error || fs.Valid()) && dr.Valid() && fs.v.Bsize() == dr.v.Bsize() && b < da.Length
    requires da as object != fs.s_free as object
    requires told ==> fs.Valid() && Telling(fs, dr, st, d0, s0, ab, da, b, i, blks, parts, segs)
    requires told ==> i < |blks| && st.src[b] != 0
    modifies fs, fs.s_free, dr, da
    ensures (fs.error || fs.Valid()) && dr.Valid() && dr.pos == old(dr.pos) + (if ok then 1 else 0)
    ensures ok <==> old(dr.pos < |dr.tape|)
    ensures old(fs.error) || (ok && old(fs.stack == [])) ==> fs.error && fs.dev == old(fs.dev)
    ensures ok && old(!fs.error && fs.stack != []) ==>
              && fs.Valid() && da[b] == old(fs.stack[0]) && fs.stack == old(fs.stack[1..])
              && fs.dev == old(fs.dev)[da[b] := dr.tape[old(dr.pos)]]
    ensures forall j | 0 <= j < da.Length && j != b :: da[j] == old(da[j])
    ensures told ==> ok && fs.Valid() && Telling(fs, dr, st, d0, s0, ab, da, b + 1, i + 1, blks, parts, segs)
  {
    hide Restored, Reading;
    ghost var d1, s1, got, tape := fs.dev, fs.stack, da[..b], dr.tape[dr.pos..];
    if told {
      RoomForNext(st, d0, s0, d1, s1, got);
      FlagNext(dr.v, st, tape, ab, b, i, blks, parts, segs);
      assert dr.tape[dr.pos + 1..] == tape[1..];
    }
    var rec;
    ok, rec := dr.RecRead();
    if !ok {
      return;
    }
    if fs.error {
      da[b] := stray(b);
      return;
    }
    var bno := fs.Alloc();
    da[b] := bno;
    if fs.error {
      return;
    }
    assert bno !in fs.stack by { assert forall j | 0 <= j < |s1[1..]| :: s1[1..][j] == s1[j + 1]; }
    fs.WtBlk(bno, rec);
    if told {
      assert da[..b + 1] == got + [bno];
      RestoredBlock(st, d0, s0, d1, s1, got, fs.dev, da[..b + 1]);
    }
  }

  /** One clear flag: a hole. */
  method TakeHole(fs: S5FS, dr: DR, ab: Block, da: array<nat>, b: nat, ghost told: bool, ghost i: nat,
                  ghost st: Story, ghost d0: Disk, ghost s0: seq<nat>, ghost blks: seq<nat>,
                  ghost parts: seq<seq<Block>>, ghost segs: seq<seq<nat>>)
    requires (fs.error || fs.Valid()) && dr.Valid() && b < da.Length && da as object != fs.s_free as object
    requires told ==> fs.Valid() && Telling(fs, dr, st, d0, s0, ab, da, b, i, blks, parts, segs)
    requires told ==> i < |blks| && st.src[b] == 0
    modifies da
    ensures (fs.error || fs.Valid()) && dr.Valid() && da[b] == 0
    ensures forall j | 0 <= j < da.Length && j != b :: da[j] == old(da[j])
    ensures told ==> fs.Valid()
    ensures told ==> Telling(fs, dr, st, d0, s0, ab, da, b + 1, i + 1, blks, parts, segs)
  {
    hide Restored, Reading;
    ghost var got := da[..b];
    da[b] := 0;
    if told {
      assert da[..b + 1] == got + [0];
      FlagNext(dr.v, st, dr.tape[dr.pos..], ab, b, i, blks, parts, segs);
      RestoredHole(st, d0, s0, fs.dev, fs.stack, got, da[..b + 1]);
    }
  }

  /** The flags of one record. */
  method ReadRecord(fs: S5FS, dr: DR, ab: Block, da: array<nat>, b0: nat, stray: nat -> nat,
                    ghost told: bool, ghost st: Story, ghost d0: Disk, ghost s0: seq<nat>, ghost blks: seq<nat>,
                    ghost parts: seq<seq<Block>>, ghost segs: seq<seq<nat>>)
    returns (ok: bool, b: nat, ghost i: nat)
    requires (fs.error || fs.Valid()) && dr.Valid()
    requires fs.v.Bsize() == dr.v.Bsize() && |ab| == dr.v.Bsize()
    requires da as object != fs.s_free as object && b0 <= da.Length
    requires told ==> fs.Valid() && Telling(fs, dr, st, d0, s0, ab, da, b0, 0, blks, parts, segs)
    modifies fs, fs.s_free, dr, da
    ensures (fs.error || fs.Valid()) && dr.Valid() && dr.pos >= old(dr.pos) && b <= da.Length
    ensures old(fs.error) ==> fs.error && fs.dev == old(fs.dev)
    ensures told ==> ok && fs.Valid() && Telling(fs, dr, st, d0, s0, ab, da, b, i, blks, parts, segs)
                     && (i == |blks| || b == da.Length)
  {
    hide Telling, CksumOk;
    var count := Get16(dr.v.order, ab, C_COUNT);
    var maxa := dr.v.Bsize() - C_ADDR;
    if count > maxa {
      count := maxa;
    }
    if told {
      CountIs(fs, dr, st, d0, s0, ab, da, b0, blks, parts, segs);
    }
    ok, b := true, b0;
    var k := 0;
    i := 0;
    while k < count && b < da.Length
      invariant (fs.error || fs.Valid()) && dr.Valid() && b <= da.Length && k <= count && dr.pos >= old(dr.pos)
      invariant old(fs.error) ==> fs.error && fs.dev == old(fs.dev)
      invariant told ==> i == k && fs.Valid() && Telling(fs, dr, st, d0, s0, ab, da, b, k, blks, parts, segs)
    {
      if told {
        FlagIs(fs, dr, st, d0, s0, ab, da, b, k, blks, parts, segs);
      }
      if ab[C_ADDR + k] != 0 {
        ok := TakeBlock(fs, dr, ab, da, b, stray, told, k, st, d0, s0, blks, parts, segs);
        if !ok {
          return;
        }
      } else {
        TakeHole(fs, dr, ab, da, b, told, k, st, d0, s0, blks, parts, segs);
      }
      k, b := k + 1, b + 1;
      i := k;
    }
  }

  lemma CountIs(fs: S5FS, dr: DR, st: Story, d0: Disk, s0: seq<nat>, ab: Block, da: array<nat>,
                b: nat, blks: seq<nat>, parts: seq<seq<Block>>, segs: seq<seq<nat>>)
    requires Telling(fs, dr, st, d0, s0, ab, da, b, 0, blks, parts, segs)
    ensures |ab| == dr.v.Bsize() && Get16(dr.v.order, ab, C_COUNT) == |blks| <= dr.v.Bsize() - C_ADDR
  {
    hide Restored, Spans, Segments, Ending;
  }

  lemma FlagIs(fs: S5FS, dr: DR, st: Story, d0: Disk, s0: seq<nat>, ab: Block, da: array<nat>,
               b: nat, i: nat, blks: seq<nat>, parts: seq<seq<Block>>, segs: seq<seq<nat>>)
    requires Telling(fs, dr, st, d0, s0, ab, da, b, i, blks, parts, segs) && i < |blks| && b < da.Length
    ensures |ab| == dr.v.Bsize() && C_ADDR + i < |ab| && (ab[C_ADDR + i] != 0 <==> st.src[b] != 0)
  {
    hide Spans, Segments, Ending, Got;
    FlagNext(dr.v, st, dr.tape[dr.pos..], ab, b, i, blks, parts, segs);
    InRecord(dr.v, ab, blks, i);
  }

  lemma InRecord(v: Vol, h: Block, blks: seq<nat>, i: nat)
    requires |h| == v.Bsize() && |blks| <= v.nindir && i < |blks|
    ensures C_ADDR + i < |h|
  {
  }

  /** Continuations nobody wants are passed over, header by header. */
  method NextProper(dr: DR) returns (ok: bool, hdr: Block)
    requires dr.Valid()
    modifies dr
    ensures dr.Valid() && dr.pos >= old(dr.pos)
    ensures old(dr.pos < |dr.tape| && Ending(dr.v, dr.tape[dr.pos..])) ==>
              ok && hdr == dr.tape[old(dr.pos)] && dr.pos == old(dr.pos) + 1
  {
    hide CksumOk;
    while true
      invariant dr.Valid() && dr.pos >= old(dr.pos)
      invariant old(dr.pos < |dr.tape| && Ending(dr.v, dr.tape[dr.pos..])) ==> dr.pos == old(dr.pos)
      decreases |dr.tape| - dr.pos
    {
      ok, hdr := dr.GetHead();
      if !ok || Get16(dr.v.order, hdr, C_TYPE) != TS_ADDR {
        return;
      }
    }
  }

  /** The tape from the reader's position on tells src's story, with hdr its header. */
  ghost predicate Told(fs: S5FS, dr: DR, st: Story, hdr: Block, n: nat, blks: seq<nat>,
                       parts: seq<seq<Block>>, segs: seq<seq<nat>>)
    reads fs, dr
  {
    var there := dr.pos <= |dr.tape| && n == |st.src| && NoDup(fs.stack);
    there && Reading(dr.v, st, dr.tape[dr.pos..], hdr, 0, 0, blks, parts, segs)
    && Restored(st, fs.dev, fs.stack, fs.dev, fs.stack, [])
  }

  /** read_blocks: da gets a new block for every flag that is set and 0 for every hole, up
      to its length; hdr' is the next header that is not a continuation.  It keeps to
      the record and to da whatever the tape holds; and on a tape that tells src's story
      it restores exactly that, and stops right after it. */
  method ReadBlocks(fs: S5FS, dr: DR, hdr: Block, da: array<nat>, stray: nat -> nat, ghost st: Story,
                    ghost blks0: seq<nat>, ghost parts0: seq<seq<Block>>, ghost segs0: seq<seq<nat>>)
    returns (ok: bool, hdr': Block)
    requires (fs.error || fs.Valid()) && dr.Valid()
    requires fs.v.Bsize() == dr.v.Bsize() && |hdr| == dr.v.Bsize()
    requires da as object != fs.s_free as object
    modifies fs, fs.s_free, dr, da
    ensures (fs.error || fs.Valid()) && dr.Valid()
    ensures old(fs.error) ==> fs.error && fs.dev == old(fs.dev)
    ensures old(fs.Valid() && Told(fs, dr, st, hdr, da.Length, blks0, parts0, segs0)) ==>
              && ok && fs.Valid() && st.rest != [] && hdr' == st.rest[0]
              && dr.pos <= |dr.tape| && dr.tape[dr.pos..] == st.rest[1..]
              && da.Length == |st.src| && Restored(st, old(fs.dev), old(fs.stack), fs.dev, fs.stack, da[..])
  {
    hide Telling, CksumOk, Restored, Reading;
    ghost var told := fs.Valid() && Told(fs, dr, st, hdr, da.Length, blks0, parts0, segs0);
    ghost var d0, s0, blks, parts, segs := fs.dev, fs.stack, blks0, parts0, segs0;
    if told {
      TellingStart(fs, dr, st, hdr, da, blks, parts, segs);
    }
    var ab: Block, b: nat := hdr, 0;
    while true
      invariant (fs.error || fs.Valid()) && dr.Valid() && |ab| == dr.v.Bsize() && b <= da.Length
      invariant old(fs.error) ==> fs.error && fs.dev == old(fs.dev)
      invariant told ==> fs.Valid() && Telling(fs, dr, st, d0, s0, ab, da, b, 0, blks, parts, segs)
      decreases |dr.tape| - dr.pos
    {
      ghost var i;
      ok, b, i := ReadRecord(fs, dr, ab, da, b, stray, told, st, d0, s0, blks, parts, segs);
      if !ok {
        return false, hdr;
      }
      if b >= da.Length {
        if told {
          AllTold(fs, dr, st, d0, s0, ab, da, i, blks, parts, segs);
        }
        ok, hdr' := NextProper(dr);
        return;
      }
      if told {
        MoreTold(fs, dr, st, d0, s0, ab, da, b, blks, parts, segs);
      }
      ghost var at := dr.pos;
      ok, hdr' := dr.GetHead();
      if !ok {
        return;
      }
      if Get16(dr.v.order, hdr', C_TYPE) != TS_ADDR {
        return true, hdr';
      }
      if told {
        NextTold(fs, dr, at, st, d0, s0, ab, da, b, blks, parts, segs);
        blks, parts, segs := segs[0], parts[1..], segs[1..];
      }
      ab := hdr';
    }
  }

  lemma TellingStart(fs: S5FS, dr: DR, st: Story, hdr: Block, da: array<nat>, blks: seq<nat>,
                     parts: seq<seq<Block>>, segs: seq<seq<nat>>)
    requires Told(fs, dr, st, hdr, da.Length, blks, parts, segs)
    ensures Telling(fs, dr, st, fs.dev, fs.stack, hdr, da, 0, 0, blks, parts, segs)
  {
    hide Reading, Restored;
    assert da[..0] == [];
  }

  lemma AllTold(fs: S5FS, dr: DR, st: Story, d0: Disk, s0: seq<nat>, ab: Block, da: array<nat>,
                i: nat, blks: seq<nat>, parts: seq<seq<Block>>, segs: seq<seq<nat>>)
    requires Telling(fs, dr, st, d0, s0, ab, da, da.Length, i, blks, parts, segs)
    ensures dr.pos < |dr.tape| && Ending(dr.v, dr.tape[dr.pos..]) && dr.tape[dr.pos..] == st.rest
    ensures dr.tape[dr.pos] == st.rest[0] && dr.tape[dr.pos + 1..] == st.rest[1..]
    ensures da.Length == |st.src| && Restored(st, d0, s0, fs.dev, fs.stack, da[..])
  {
    hide Reading, Restored, CksumOk;
    RecordLast(dr.v, st, dr.tape[dr.pos..], ab, i, blks, parts, segs);
    assert da[..da.Length] == da[..];
  }

  lemma MoreTold(fs: S5FS, dr: DR, st: Story, d0: Disk, s0: seq<nat>, ab: Block, da: array<nat>,
                 b: nat, blks: seq<nat>, parts: seq<seq<Block>>, segs: seq<seq<nat>>)
    requires Telling(fs, dr, st, d0, s0, ab, da, b, |blks|, blks, parts, segs) && b < da.Length
    ensures dr.pos < |dr.tape| && |dr.tape[dr.pos]| == dr.v.Bsize() && SoundHeader(dr.v, dr.tape[dr.pos])
    ensures Get16(dr.v.order, dr.tape[dr.pos], C_TYPE) == TS_ADDR
    ensures Reading(dr.v, st, dr.tape[dr.pos..], ab, b, |blks|, blks, parts, segs)
    ensures Restored(st, d0, s0, fs.dev, fs.stack, da[..b]) && da.Length == |st.src| && NoDup(s0)
  {
    hide Reading, Restored, CksumOk;
    RecordNext(dr.v, st, dr.tape[dr.pos..], ab, b, blks, parts, segs);
  }

  lemma NextTold(fs: S5FS, dr: DR, at: nat, st: Story, d0: Disk, s0: seq<nat>, ab: Block, da: array<nat>,
                 b: nat, blks: seq<nat>, parts: seq<seq<Block>>, segs: seq<seq<nat>>)
    requires at < |dr.tape| && dr.pos == at + 1 && b < da.Length == |st.src| && NoDup(s0)
    requires Reading(dr.v, st, dr.tape[at..], ab, b, |blks|, blks, parts, segs)
    requires Restored(st, d0, s0, fs.dev, fs.stack, da[..b])
    ensures segs != [] && parts != []
    ensures Telling(fs, dr, st, d0, s0, dr.tape[at], da, b, 0, segs[0], parts[1..], segs[1..])
  {
    hide Reading, Restored, CksumOk;
    RecordNext(dr.v, st, dr.tape[at..], ab, b, blks, parts, segs);
    assert dr.tape[at..][1..] == dr.tape[dr.pos..];
  }
}

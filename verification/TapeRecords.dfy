/** The header records of a dump tape: fields, presence flags, and the checksum that
    makes the 16-bit words of a record add up to a constant. */
module TapeRecords {
  import opened Arith
  import opened Endian
  import opened Layout

  const DMAGIC: nat := 60011
  const DCHECKSUM: nat := 84446
  const TS_INODE: nat := 2
  const TS_ADDR: nat := 4

  const C_TYPE: nat := 0
  const C_INUM: nat := 16
  const C_MAGIC: nat := 18
  const C_CHECKSUM: nat := 20
  const C_DINODE: nat := 22
  const C_COUNT: nat := 86
  const C_ADDR: nat := 88

  /** Sum of the first n words of a record. */
  function WordSum(o: Order, rec: Block, n: nat): nat
    requires 2 * n <= |rec|
  {
    if n == 0 then 0 else WordSum(o, rec, n - 1) + Get16(o, rec, 2 * (n - 1))
  }

  function Words(v: Vol): nat { v.Bsize() / 2 }

  predicate CksumOk(v: Vol, rec: Block)
    requires |rec| == v.Bsize()
  {
    WordSum(v.order, rec, Words(v)) % 0x1_0000 == DCHECKSUM % 0x1_0000
  }

  /** Rewriting one word shifts the sum by the difference. */
  lemma {:induction false} WordChange(o: Order, a: Block, b: Block, i: nat, n: nat)
    requires 2 * n <= |a| && 2 * i + 2 <= |a| && SameBut(a, b, 2 * i, 2)
    ensures WordSum(o, b, n) + (if i < n then Get16(o, a, 2 * i) else 0)
            == WordSum(o, a, n) + if i < n then Get16(o, b, 2 * i) else 0
  {
    if n > 0 {
      WordChange(o, a, b, i, n - 1);
      if i != n - 1 {
        Get16Frame(o, a, b, 2 * i, 2, 2 * (n - 1));
      }
    }
  }

  /** Any one word of a sound header changed, and the header is no longer sound. */
  lemma OneWordOff(v: Vol, a: Block, b: Block, i: nat)
    requires |a| == v.Bsize() && CksumOk(v, a) && 2 * i + 2 <= |a|
    requires SameBut(a, b, 2 * i, 2) && Get16(v.order, a, 2 * i) != Get16(v.order, b, 2 * i)
    ensures !CksumOk(v, b)
  {
    var n := Words(v);
    WordChange(v.order, a, b, i, n);
    ModApart(WordSum(v.order, a, n), WordSum(v.order, b, n),
             Get16(v.order, a, 2 * i), Get16(v.order, b, 2 * i));
  }

  /** Sums that differ by less than 2^16 differ modulo 2^16. */
  lemma ModApart(s: nat, t: nat, x: nat, y: nat)
    requires t + x == s + y && x != y && x < 0x1_0000 && y < 0x1_0000
    ensures s % 0x1_0000 != t % 0x1_0000
  {
  }

  /** hdr_cksum_ok. */
  method HdrCksumOk(v: Vol, hdr: Block) returns (ok: bool)
    requires |hdr| == v.Bsize()
    ensures ok <==> CksumOk(v, hdr)
  {
    var s := 0;
    for i := 0 to Words(v)
      invariant s == WordSum(v.order, hdr, i)
    {
      s := s + Get16(v.order, hdr, 2 * i);
    }
    ok := s % 0x1_0000 == DCHECKSUM % 0x1_0000;
  }

  /** A and b agree except in bytes [16, 22): inode number, magic and checksum. */
  ghost predicate Finalized(a: Block, b: Block) { SameBut(a, b, C_INUM, 6) }

  /** spclrec without the write: inode number, magic, and a checksum that makes the
      record sound whatever the rest of it holds. */
  method Finalize(v: Vol, spcl: Block, ino: nat) returns (r: Block)
    requires |spcl| == v.Bsize()
    ensures |r| == v.Bsize() && Finalized(spcl, r) && CksumOk(v, r)
    ensures Get16(v.order, r, C_INUM) == ino % 0x1_0000 && Get16(v.order, r, C_MAGIC) == DMAGIC
  {
    var a := Put16(v.order, spcl, C_INUM, ino);
    var b := Put16(v.order, a, C_MAGIC, DMAGIC);
    var c := Put16(v.order, b, C_CHECKSUM, 0);
    var s := 0;
    for i := 0 to Words(v)
      invariant s == WordSum(v.order, c, i)
    {
      s := s + Get16(v.order, c, 2 * i);
    }
    var sum := (DCHECKSUM - s) % 0x1_0000;
    r := Put16(v.order, c, C_CHECKSUM, sum);
    SmallMod(DMAGIC, 0x1_0000);
    SmallMod(sum, 0x1_0000);
    WordChange(v.order, c, r, C_CHECKSUM / 2, Words(v));
    SumsRight(s, WordSum(v.order, r, Words(v)), sum);
    Get16Frame(v.order, a, b, C_MAGIC, 2, C_INUM);
    Get16Frame(v.order, b, c, C_CHECKSUM, 2, C_INUM);
    Get16Frame(v.order, c, r, C_CHECKSUM, 2, C_INUM);
    Get16Frame(v.order, b, c, C_CHECKSUM, 2, C_MAGIC);
    Get16Frame(v.order, c, r, C_CHECKSUM, 2, C_MAGIC);
  }

  lemma SumsRight(s: nat, t: nat, sum: nat)
    requires sum == (DCHECKSUM - s) % 0x1_0000 && t == s + sum
    ensures t % 0x1_0000 == DCHECKSUM % 0x1_0000
  {
  }

  function Flag(b: nat): byte { if b != 0 then 1 else 0 }

  /** h is a sound header of the given type for inode ino, carrying dinode di, whose
      flags say which of blks are there. */
  ghost predicate IsHeader(v: Vol, h: Block, typ: nat, ino: nat, di: seq<byte>, blks: seq<nat>)
  {
    var sized := |h| == v.Bsize() && |blks| <= v.nindir && |di| == DINODESZ;
    var sound := sized && CksumOk(v, h) && Get16(v.order, h, C_MAGIC) == DMAGIC;
    var fields := sized && Get16(v.order, h, C_TYPE) == typ && Get16(v.order, h, C_INUM) == ino % 0x1_0000
      && Get16(v.order, h, C_COUNT) == |blks| && h[C_DINODE..C_COUNT] == di;
    var flags := sized && forall j | 0 <= j < |blks| :: h[C_ADDR + j] == Flag(blks[j]);
    sound && fields && flags
  }

  /** Type, count and flags of a header to be. */
  ghost predicate Drafted(v: Vol, spcl: Block, typ: nat, di: seq<byte>, blks: seq<nat>) {
    var sized := |spcl| == v.Bsize() && |blks| <= v.nindir && |di| == DINODESZ;
    var fields := sized && Get16(v.order, spcl, C_TYPE) == typ
      && Get16(v.order, spcl, C_COUNT) == |blks| && spcl[C_DINODE..C_COUNT] == di;
    var flags := sized && forall j | 0 <= j < |blks| :: spcl[C_ADDR + j] == Flag(blks[j]);
    fields && flags
  }

  /** Set type, count and flags of the working record, as dump_inode and indir do. */
  method Draft(v: Vol, spcl: Block, typ: nat, blks: seq<nat>) returns (r: Block)
    requires |spcl| == v.Bsize() && |blks| <= v.nindir && typ < 0x1_0000
    ensures Drafted(v, r, typ, spcl[C_DINODE..C_COUNT], blks)
  {
    var a := Put16(v.order, spcl, C_TYPE, typ);
    var b := Put16(v.order, a, C_COUNT, |blks|);
    r := b;
    for j := 0 to |blks|
      invariant SameBut(b, r, C_ADDR, |blks|)
      invariant forall i | 0 <= i < j :: r[C_ADDR + i] == Flag(blks[i])
    {
      r := r[C_ADDR + j := Flag(blks[j])];
    }
    SmallMod(typ, 0x1_0000);
    SmallMod(|blks|, 0x1_0000);
    Get16Frame(v.order, a, b, C_COUNT, 2, C_TYPE);
    Get16Frame(v.order, b, r, C_ADDR, |blks|, C_TYPE);
    Get16Frame(v.order, b, r, C_ADDR, |blks|, C_COUNT);
    assert r[C_DINODE..C_COUNT] == spcl[C_DINODE..C_COUNT];
  }

  lemma DraftDone(v: Vol, spcl: Block, r: Block, typ: nat, ino: nat, di: seq<byte>, blks: seq<nat>)
    requires Drafted(v, spcl, typ, di, blks) && |r| == v.Bsize() && Finalized(spcl, r) && CksumOk(v, r)
    requires Get16(v.order, r, C_INUM) == ino % 0x1_0000 && Get16(v.order, r, C_MAGIC) == DMAGIC
    ensures IsHeader(v, r, typ, ino, di, blks) && Drafted(v, r, typ, di, blks)
  {
    Get16Frame(v.order, spcl, r, C_INUM, 6, C_TYPE);
    Get16Frame(v.order, spcl, r, C_INUM, 6, C_COUNT);
    assert r[C_DINODE..C_COUNT] == spcl[C_DINODE..C_COUNT];
  }
}

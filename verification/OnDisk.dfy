/** Where things are on the disk and on the tape, in bytes, and how the layers' views of
    it fit together. */
module OnDisk {
  import opened Arith
  import opened Endian
  import opened Layout
  import opened BlockCheck
  import opened Names
  import opened NameOps
  import opened DiskTree
  import opened TapeRecords
  import FileOps

  /** Inode ino is the 64 bytes at 2 * Bsize + 64 * (ino - 1) of the image: mode, link
      count, size at 8, three-byte addresses from 12 on. */
  lemma DinodeBytes(v: Vol, d: Disk, ino: nat)
    requires Sized(v, d) && v.Bsize() % 64 == 0 && 1 <= ino <= Ninodes(v)
    ensures var at := 2 * v.Bsize() + 64 * (ino - 1);
            var b, k := at / v.Bsize(), at % v.Bsize();
            && 2 <= b < v.isize && k + 64 <= v.Bsize()
            && ReadDinode(v, d, ino).mode == Get16(v.order, d[b], k)
            && ReadDinode(v, d, ino).nlink == Get16(v.order, d[b], k + 2)
            && ReadDinode(v, d, ino).size == Get32(v.order, d[b], k + 8)
            && |ReadDinode(v, d, ino).addr| == v.laddr + 3
            && forall i | 0 <= i < v.laddr + 3 ::
                 k + 12 + 3 * i + 3 <= |d[b]|
                 && ReadDinode(v, d, ino).addr[i] == Get24(v.order, d[b], k + 12 + 3 * i)
  {
    hide Ninodes, InodeBlock, InodeOffset, Get16, Get24, Get32;
    DinodePlace(v, ino);
    DivModUnique(2 * v.Bsize() + 64 * (ino - 1), v.Bsize(), InodeBlock(v, ino), InodeOffset(v, ino));
    ReadIs(v, d, ino);
  }

  /** The superblock's free cache and totals; a chain block's cache. */
  lemma SuperBytes(v: Vol, sb: Block)
    requires |sb| == v.Bsize()
    ensures SbCache(v, sb).nfree == ClampNfree(Get16(v.order, sb, 6))
    ensures forall i | 0 <= i < 50 :: SbCache(v, sb).free[i] == Get32(v.order, sb, 8 + 4 * i)
    ensures var sysv := Get32(v.order, sb, 504) == 0xfd18_7e20;
            && SbTfree(v, sb) == Get32(v.order, sb, if sysv then 426 else 418)
            && SbTinode(v, sb) == Get16(v.order, sb, if sysv then 430 else 422)
    ensures ChainBlock(v, sb).nfree == ClampNfree(Get16(v.order, sb, 0))
    ensures forall i | 0 <= i < 50 :: ChainBlock(v, sb).free[i] == Get32(v.order, sb, 2 + 4 * i)
  {
    hide Get16, Get32;
  }

  /** The count taken from the disk, a signed word, is the one of 0 to 50 next to it. */
  lemma ClampNearest(w: nat, k: nat)
    requires w < 0x1_0000 && k <= 50
    ensures var s, n := Int16(w), ClampNfree(w);
            n <= 50 && (if s <= n then n - s else s - n) <= if s <= k then k - s else s - k
  {
  }

  /** Entry e of a directory block: 16 bytes, an inode number and up to 14 of a name. */
  lemma EntryBytes(v: Vol, b: Block, e: nat)
    requires |b| == v.Bsize() && 16 * e + 16 <= |b|
    ensures e < |BlockSlots(v, b)| && BlockSlots(v, b)[e].ino == Get16(v.order, b, 16 * e)
    ensures var n := BlockSlots(v, b)[e].name;
            && |n| <= 14 && (forall i | 0 <= i < |n| :: b[16 * e + 2 + i] != 0 && n[i] as int == b[16 * e + 2 + i])
            && (|n| < 14 ==> b[16 * e + 2 + |n|] == 0)
  {
    hide Get16;
    CStringIs(b[16 * e + 2..16 * e + 16]);
  }

  lemma {:induction false} CStringIs(s: seq<byte>)
    ensures var n := CString(s);
            && |n| <= |s| && (forall i | 0 <= i < |n| :: s[i] != 0 && n[i] as int == s[i])
            && (|n| < |s| ==> s[|n|] == 0)
  {
    if s != [] && s[0] != 0 {
      CStringIs(s[1..]);
    }
  }

  /** A dump header: type, inode number, magic number, dinode, count, and a flag byte for
      each block; its words add up to 84446 modulo 2^16. */
  lemma RecordBytes(v: Vol, h: Block, typ: nat, ino: nat, di: seq<byte>, blks: seq<nat>)
    requires IsHeader(v, h, typ, ino, di, blks)
    ensures |h| == v.Bsize() && |di| == 64 && 88 + |blks| <= |h|
    ensures Get16(v.order, h, 0) == typ && Get16(v.order, h, 16) == ino % 0x1_0000
    ensures Get16(v.order, h, 18) == 60011 && Get16(v.order, h, 86) == |blks| && h[22..86] == di
    ensures forall i | 0 <= i < |blks| :: h[88 + i] != 0 <==> blks[i] != 0
    ensures 2 * (|h| / 2) <= |h| && WordSum(v.order, h, |h| / 2) % 0x1_0000 == 84446 % 0x1_0000
  {
    hide Get16, WordSum;
  }

  /** The file types, by the top four bits of the mode. */
  lemma KindExact(mode: nat)
    requires mode < 0x1_0000
    ensures KindOf(mode).Free? <==> mode == 0
    ensures KindOf(mode).Reg? <==> 0x8000 <= mode < 0x9000
    ensures KindOf(mode).Dir? <==> 0x4000 <= mode < 0x5000
    ensures KindOf(mode).Special? <==> 0x2000 <= mode < 0x3000 || 0x6000 <= mode < 0x7000
    ensures forall di: Dinode | di.mode == mode ::
              && (di.HasMap() <==> KindOf(mode).Reg? || KindOf(mode).Dir?)
              && (FileOps.IsDir(di) <==> KindOf(mode).Dir?) && (FileOps.IsReg(di) <==> KindOf(mode).Reg?)
  {
  }

  /** A slot of a directory is live exactly when its first byte lies below the size. */
  lemma LiveSlots(v: Vol, d: Disk, i: nat, k: nat)
    requires Sized(v, d) && 1 <= i && KindOf(ReadDinode(v, d, i).mode).Dir?
    ensures k < InodeOf(v, d, i).live <==> k < |SlotsOf(v, d, i)| && 16 * k < ReadDinode(v, d, i).size
  {
    hide ReadDinode, DirSlots;
  }

  /** Sharing an i-list block, for the name operations, is lying in one block of the disk. */
  lemma SharedBlock(v: Vol, h: RW, i: nat, j: nat)
    requires h.inopb == v.Inopb() && i >= 1 && j >= 1
    ensures h.SameBlock(i, j) <==> InodeBlock(v, i) == InodeBlock(v, j)
  {
    var k := v.Inopb();
    OneRun(i, j, k);
    OneRun(j, i, k);
  }

  lemma OneRun(i: nat, j: nat, k: nat)
    requires k > 0 && i >= 1 && j >= 1
    ensures Div(i + 2 * k - 1, k) == (i - 1) / k + 2
    ensures i - (i - 1) % k == (i - 1) / k * k + 1
    ensures (i - 1) / k * k == (j - 1) / k * k ==> (i - 1) / k == (j - 1) / k
  {
    DivMul(i - 1, k);
    BlockOfRun(i - 1, k);
    SameProduct((i - 1) / k, (j - 1) / k, k);
  }

  lemma BlockOfRun(x: nat, k: nat)
    requires k > 0
    ensures Div(x + 2 * k, k) == x / k + 2
  {
    DivModIs(x + 2 * k, k);
    DivMul(x, k);
    var q := x / k;
    assert (q + 2) * k == q * k + 2 * k;
    DivModUnique(x + 2 * k, k, q + 2, x % k);
  }

  lemma SameProduct(p: nat, q: nat, k: nat)
    requires k > 0
    ensures p * k == q * k ==> p == q
  {
    if p < q {
      MulGap(p, q, k);
    } else if q < p {
      MulGap(q, p, k);
    }
  }
}

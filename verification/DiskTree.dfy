/** The namespace as it lies on the disk: directory slots in blocks, and the tree the
    link check reads off an image. */
module DiskTree {
  import opened Arith
  import opened Endian
  import opened Layout
  import opened InodeMap
  import opened BlockCheck
  import opened FileBytes
  import opened Names

  const DIRENTSZ: nat := 16

  /** Bytes up to the first NUL. */
  function CString(s: seq<byte>): string {
    if s == [] || s[0] == 0 then "" else [s[0] as char] + CString(s[1..])
  }

  /** Slot e of a directory block. */
  function SlotAt(v: Vol, b: Block, e: nat): Slot
    requires DIRENTSZ * e + DIRENTSZ <= |b|
  {
    Slot(Get16(v.order, b, DIRENTSZ * e), CString(b[DIRENTSZ * e + 2..DIRENTSZ * e + DIRENTSZ]))
  }

  /** Slots per block. */
  function Ndirect(v: Vol): nat { v.nindir / 4 }

  lemma SlotFits(v: Vol, e: nat)
    requires e < Ndirect(v)
    ensures DIRENTSZ * e + DIRENTSZ <= v.Bsize()
  {
  }

  function BlockSlots(v: Vol, b: Block): (s: seq<Slot>)
    requires |b| == v.Bsize()
    ensures |s| == Ndirect(v)
  {
    seq(Ndirect(v), e requires 0 <= e < Ndirect(v) => SlotFits(v, e); SlotAt(v, b, e))
  }

  /** Every slot of the first n logical blocks; holes hold none. */
  function DirSlots(v: Vol, d: Disk, addr: seq<nat>, n: nat): seq<Slot>
    requires Sized(v, d) && IsMap(v, addr)
  {
    if n == 0 then []
    else
      var b := MapOf(v, d, addr, n - 1);
      DirSlots(v, d, addr, n - 1) + if b == 0 || b >= |d| then [] else BlockSlots(v, d[b])
  }

  function KindOf(mode: nat): Kind {
    var t := mode / 0x1000 * 0x1000;
    if mode == 0 then Free
    else if t == IFREG then Reg
    else if t == IFDIR then Dir
    else if t == IFCHR || t == IFBLK then Special
    else Invalid
  }

  function SlotsOf(v: Vol, d: Disk, i: nat): seq<Slot>
    requires Sized(v, d) && 1 <= i
  {
    var di := ReadDinode(v, d, i);
    if KindOf(di.mode).Dir? then DirSlots(v, d, di.addr, BlocksFor(v, di.size)) else []
  }

  function InodeOf(v: Vol, d: Disk, i: nat): Inode
    requires Sized(v, d) && 1 <= i
  {
    var di := ReadDinode(v, d, i);
    var slots := |SlotsOf(v, d, i)|;
    var live := (di.size + DIRENTSZ - 1) / DIRENTSZ;
    Inode(KindOf(di.mode), if di.mode == 0 then 0 else di.nlink, if live <= slots then live else slots)
  }

  /** What the link check sees of an image. */
  function TreeOf(v: Vol, d: Disk): (t: Tree)
    requires Sized(v, d)
    ensures |t.ilist| == |t.dirs| == Ninodes(v) + 1
  {
    var n := Ninodes(v) + 1;
    Tree(seq(n, i requires 0 <= i < n => if i == 0 then FREE else InodeOf(v, d, i)),
         seq(n, i requires 0 <= i < n => if i == 0 then [] else SlotsOf(v, d, i)))
  }

  lemma TreeAt(v: Vol, d: Disk, i: nat)
    requires Sized(v, d) && 1 <= i <= Ninodes(v)
    ensures var t := TreeOf(v, d);
            t.ilist[i] == InodeOf(v, d, i) && t.dirs[i] == SlotsOf(v, d, i) && t.ilist[0] == FREE
  {
  }

  lemma TreeShape(v: Vol, d: Disk)
    requires Sized(v, d) && Ninodes(v) >= ROOTINO
    ensures TreeOf(v, d).Shape()
  {
    hide ReadDinode, Ninodes, DirSlots, KindOf;
    var t := TreeOf(v, d);
    forall i | 0 <= i < |t.ilist| && t.ilist[i].kind.Dir? ensures t.ilist[i].live <= |t.dirs[i]| {
      if i > 0 {
        TreeAt(v, d, i);
      }
    }
  }

  // ----- entries

  function NameBytes(n: string): seq<byte>
    requires forall i | 0 <= i < |n| :: 0 < n[i] as int < 0x100
  {
    seq(|n|, i requires 0 <= i < |n| => n[i] as int)
  }

  lemma {:induction false} NameBack(n: string, pad: seq<byte>)
    requires forall i | 0 <= i < |n| :: 0 < n[i] as int < 0x100
    requires forall i | 0 <= i < |pad| :: pad[i] == 0
    ensures CString(NameBytes(n) + pad) == n
  {
    var s := NameBytes(n) + pad;
    if n != "" {
      NameBack(n[1..], pad);
      assert s[1..] == NameBytes(n[1..]) + pad;
      assert n == [n[0]] + n[1..];
    }
  }

  /** s5fs_entry's slot: inode number and zero-padded name. */
  method PutEntry(v: Vol, db: Block, e: nat, ino: nat, name: string) returns (r: Block)
    requires |db| == v.Bsize() && e < Ndirect(v) && NameOk(name) && ino < 0x1_0000
    requires forall i | 0 <= i < |name| :: 0 < name[i] as int < 0x100
    ensures |r| == v.Bsize() && BlockSlots(v, r) == BlockSlots(v, db)[e := Slot(ino, name)]
  {
    SlotFits(v, e);
    var k := DIRENTSZ * e;
    var a := Put16(v.order, db, k, ino);
    SmallMod(ino, 0x1_0000);
    var pad: seq<byte> := seq(DIRSIZ - |name|, _ => 0);
    var field := NameBytes(name) + pad;
    NameBack(name, pad);
    r := a[..k + 2] + field + a[k + DIRENTSZ..];
    assert r[k + 2..k + DIRENTSZ] == field;
    Get16Frame(v.order, a, r, k + 2, DIRSIZ, k);
    forall j: nat | j < Ndirect(v) && j != e ensures SlotAt(v, r, j) == SlotAt(v, db, j) {
      OtherSlots(v, db, r, e, j);
    }
  }

  lemma OtherSlots(v: Vol, db: Block, r: Block, e: nat, j: nat)
    requires |db| == v.Bsize() && e < Ndirect(v) && j < Ndirect(v) && j != e
    requires SameBut(db, r, DIRENTSZ * e, DIRENTSZ)
    ensures SlotAt(v, r, j) == SlotAt(v, db, j)
  {
    SlotFits(v, j);
    Get16Frame(v.order, db, r, DIRENTSZ * e, DIRENTSZ, DIRENTSZ * j);
    assert r[DIRENTSZ * j + 2..DIRENTSZ * j + DIRENTSZ] == db[DIRENTSZ * j + 2..DIRENTSZ * j + DIRENTSZ];
  }

  lemma ZeroSlots(v: Vol, b: Block)
    requires |b| == v.Bsize() && forall i | 0 <= i < |b| :: b[i] == 0
    ensures AllFree(BlockSlots(v, b))
  {
    forall e: nat | e < Ndirect(v) ensures BlockSlots(v, b)[e].ino == 0 {
      SlotFits(v, e);
    }
  }
}

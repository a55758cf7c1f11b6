/** Whole histories of namespace operations. */
module NameHistory {
  import opened Errno
  import opened Names
  import opened NameTree
  import opened NameOps
  import opened NameRuns
  import opened Rename

  /** One call, on parent directories and leaf names. */
  datatype Call =
    | CallCreat(p: nat, leaf: string)
    | CallMkdir(p: nat, leaf: string)
    | CallUnlink(p: nat, leaf: string)
    | CallRmdir(p: nat, leaf: string)
    | CallRename(fp: nat, fn: string, tp: nat, tn: string)

  predicate DirAt(t: Tree, p: nat) { 1 <= p && t.IsDir(p) }

  /** The call is one the operations are meant for: parents are directories, leaves are
      not "." or "..", and a directory is not replaced by one whose parent shares its
      i-list block. */
  ghost predicate Meant(h: RW, t: Tree, call: Call)
    requires h.inopb > 0
  {
    if call.CallRename? then
      && 1 <= call.fp && t.IsDir(call.fp) && 1 <= call.tp && t.IsDir(call.tp)
      && !IsDot(call.fn) && !IsDot(call.tn)
      && forall x: nat | Refers(t, call.tp, call.tn, x) && t.IsDir(x) :: x >= 1 && !h.SameBlock(x, call.tp)
    else
      1 <= call.p && t.IsDir(call.p) && !IsDot(call.leaf)
  }

  /** What a call does to the tree, a free block being there for the asking. */
  ghost predicate Effect(t: Tree, call: Call, t': Tree)
    requires t.Shape()
  {
    match call
    case CallCreat(p, leaf) =>
      if !NameOk(leaf) || Taken(t, p, leaf) || !FreeInode(t) then t' == t
      else exists c: nat ::
             && !t.InUse(c) && c < |t'.ilist| && t'.ilist[c] == Inode(Reg, 1, 0)
             && NameAdded(t, t', p, leaf, c) && OthersKept(t, t', p, c)
    case CallMkdir(p, leaf) =>
      if !NameOk(leaf) || Taken(t, p, leaf) || !FreeInode(t) then t' == t
      else exists c: nat ::
             && !t.InUse(c) && c < |t'.ilist| && t'.ilist[c] == Inode(Dir, 2, 2)
             && DirAdded(t, t', p, leaf, c) && OthersKept(t, t', p, c)
    case CallUnlink(p, leaf) =>
      if forall c: nat | Refers(t, p, leaf, c) :: t.IsDir(c) then t' == t
      else exists c: nat ::
             Refers(t, p, leaf, c) && NameDropped(t, t', p, leaf) && OthersKept(t, t', p, c)
    case CallRmdir(p, leaf) =>
      if forall c: nat | Refers(t, p, leaf, c) :: !t.IsDir(c) || HasEntries(t, c) then t' == t
      else exists c: nat ::
             && Refers(t, p, leaf, c) && !t'.InUse(c)
             && DirDropped(t, t', p, leaf, c) && OthersKept(t, t', p, c)
    case CallRename(fp, fn, tp, tn) =>
      t.IsDir(tp) && exists rc: int, c: nat, x: nat ::
        && RenameAnswer(t, fp, fn, tp, tn, Had, rc, c, x)
        && if rc == 0 && x != c then NamesAfter(t, t', fp, fn, tp, tn, c, x) else t' == t
  }

  method Proper(h: RW, call: Call) returns (ok: bool)
    requires h.Valid() && Consistent(h.T())
    ensures ok <==> Meant(h, h.T(), call)
  {
    hide Refers, Consistent, WellFormed;
    if call.CallRename? {
      ok := DirAt(Tree(h.ilist, h.dirs), call.fp) && DirAt(Tree(h.ilist, h.dirs), call.tp)
            && !IsDot(call.fn) && !IsDot(call.tn);
      if ok {
        ConsistentParts(h.T(), call.tp);
        ConsistentFormed(h.T());
        var x := h.Lookup(call.tp, call.tn);
        forall y: nat | Refers(h.T(), call.tp, call.tn, y) ensures y == x && y >= 1 && h.T().InUse(y) {
          NameOnce(h.T(), call.tp, call.tn, x, y);
          NamedInUse(h.T(), call.tp, call.tn, y);
        }
        ok := x == 0 || !h.ilist[x].kind.Dir? || !h.SameBlock(x, call.tp);
      }
    } else {
      ok := DirAt(Tree(h.ilist, h.dirs), call.p) && !IsDot(call.leaf);
    }
  }

  /** No link count has reached 32768. */
  method CountsSmall(h: RW) returns (small: bool)
    requires h.Valid()
    ensures small <==> SmallCounts(h.T())
  {
    for i := 0 to |h.ilist|
      invariant forall j | 0 <= j < i :: h.ilist[j].nlink < 0x8000
    {
      if h.ilist[i].nlink >= 0x8000 {
        return false;
      }
    }
    return true;
  }

  /** ts are the trees a run of calls went through. */
  ghost predicate Ran(h: RW, calls: seq<Call>, ts: seq<Tree>)
    requires h.inopb > 0
  {
    && |ts| == |calls| + 1
    && forall i | 0 <= i < |calls| ::
         ts[i].Shape() && if Meant(h, ts[i], calls[i]) then Effect(ts[i], calls[i], ts[i + 1]) else ts[i + 1] == ts[i]
  }

  /** Any sequence of calls, run while free blocks last, while fresh directory blocks
      hold no stale entries and while link counts stay below 32768: each has its effect,
      names stay unique, every link count is the number of entries, and every directory
      hangs off the root by exactly one entry, with ".." its inverse. */
  method RunCalls(h: RW, calls: seq<Call>, spare: seq<Slot>) returns (done: nat, ghost ts: seq<Tree>)
    requires h.Valid() && Consistent(h.T()) && h.ndirect >= 2
    requires |spare| == h.ndirect && AllFree(spare[1..])
    modifies h
    ensures h.Valid() && Consistent(h.T()) && done <= |calls|
    ensures done < |calls| ==> !SmallCounts(h.T())
    ensures Ran(h, calls[..done], ts) && ts[0] == old(h.T()) && ts[done] == h.T()
  {
    hide Consistent, SmallCounts, AllFree, Refers, RenameAnswer, Meant, Effect;
    done, ts := 0, [h.T()];
    while done < |calls|
      invariant h.Valid() && Consistent(h.T()) && done <= |calls|
      invariant Ran(h, calls[..done], ts) && ts[0] == old(h.T()) && ts[done] == h.T()
    {
      var small := CountsSmall(h);
      if !small {
        return;
      }
      ghost var t := h.T();
      var ok := Proper(h, calls[done]);
      if ok {
        RunCall(h, calls[done], spare);
      }
      ts := ts + [h.T()];
      done := done + 1;
    }
  }

  method RunCall(h: RW, call: Call, spare: seq<Slot>)
    requires h.Valid() && Consistent(h.T()) && SmallCounts(h.T()) && h.ndirect >= 2
    requires |spare| == h.ndirect && AllFree(spare[1..]) && Meant(h, h.T(), call)
    modifies h
    ensures h.Valid() && Consistent(h.T()) && Effect(old(h.T()), call, h.T())
  {
    hide Consistent, AllFree, SmallCounts, Meant, Effect;
    match call {
      case CallCreat(_, _) => RunNew(h, call, spare);
      case CallMkdir(_, _) => RunNew(h, call, spare);
      case CallUnlink(_, _) => RunGone(h, call);
      case CallRmdir(_, _) => RunGone(h, call);
      case CallRename(_, _, _, _) => RunRename(h, call, spare);
    }
  }

  method RunNew(h: RW, call: Call, spare: seq<Slot>)
    requires h.Valid() && Consistent(h.T()) && SmallCounts(h.T()) && h.ndirect >= 2
    requires |spare| == h.ndirect && AllFree(spare[1..])
    requires (call.CallCreat? || call.CallMkdir?) && Meant(h, h.T(), call)
    modifies h
    ensures h.Valid() && Consistent(h.T()) && Effect(old(h.T()), call, h.T())
  {
    hide Consistent, AllFree, Refers, Structured, NeedsBlock, NameAdded, DirAdded, NameDropped, DirDropped,
         OthersKept, NamesAfter, RenameAnswer, Taken, FreeInode, HasEntries, SmallCounts;
    ghost var t := h.T();
    if call.CallCreat? {
      var rc, c := Creat(h, call.p, call.leaf, Had, spare);
    } else {
      MeantSmall(t, call.p);
      var rc, c := Mkdir(h, call.p, call.leaf, Had, Had, spare);
    }
  }

  lemma MeantSmall(t: Tree, p: nat)
    requires SmallCounts(t) && DirAt(t, p)
    ensures t.ilist[p].nlink < 0xFFFF
  {
  }

  method RunGone(h: RW, call: Call)
    requires h.Valid() && Consistent(h.T()) && SmallCounts(h.T())
    requires (call.CallUnlink? || call.CallRmdir?) && Meant(h, h.T(), call)
    modifies h
    ensures h.Valid() && Consistent(h.T()) && Effect(old(h.T()), call, h.T())
  {
    hide Consistent, Refers, Structured, NameDropped, DirDropped, OthersKept, SmallCounts, Effect;
    ghost var t := h.T();
    if call.CallUnlink? {
      ghost var c;
      var rc;
      rc, c := Unlink(h, call.p, call.leaf);
      SmallAt(t, c);
      UnlinkEffect(t, h.T(), call.p, call.leaf, rc, c);
    } else {
      ghost var c;
      var rc;
      rc, c := Rmdir(h, call.p, call.leaf);
      RmdirEffect(t, h.T(), call.p, call.leaf, rc, c);
    }
  }

  lemma UnlinkEffect(t: Tree, t': Tree, p: nat, leaf: string, rc: int, c: nat)
    requires t.Shape() && Consistent(t) && t.IsDir(p) && (rc == 0 || rc == -ENOENT || rc == -EISDIR)
    requires rc == -ENOENT <==> forall i: nat :: !Refers(t, p, leaf, i)
    requires rc == -EISDIR ==> Refers(t, p, leaf, c) && t.IsDir(c)
    requires rc != 0 ==> t' == t
    requires rc == 0 ==>
               && Refers(t, p, leaf, c) && !t.IsDir(c) && NameDropped(t, t', p, leaf) && OthersKept(t, t', p, c)
    ensures Effect(t, CallUnlink(p, leaf), t')
  {
    hide Consistent, Refers, NameDropped, OthersKept;
    OneNamed(t, p, leaf, c);
  }

  lemma RmdirEffect(t: Tree, t': Tree, p: nat, leaf: string, rc: int, c: nat)
    requires t.Shape() && Consistent(t) && t.IsDir(p)
    requires rc == 0 || rc == -ENOENT || rc == -ENOTDIR || rc == -ENOTEMPTY
    requires rc == -ENOENT <==> forall i: nat :: !Refers(t, p, leaf, i)
    requires rc != -ENOENT ==>
               && Refers(t, p, leaf, c) && (rc == -ENOTDIR <==> !t.IsDir(c))
               && (rc == -ENOTEMPTY <==> t.IsDir(c) && HasEntries(t, c))
    requires rc != 0 ==> t' == t
    requires rc == 0 ==> !t'.InUse(c) && DirDropped(t, t', p, leaf, c) && OthersKept(t, t', p, c)
    ensures Effect(t, CallRmdir(p, leaf), t')
  {
    hide Consistent, Refers, DirDropped, OthersKept, HasEntries;
    OneNamed(t, p, leaf, c);
  }

  lemma OneNamed(t: Tree, p: nat, n: string, c: nat)
    requires Consistent(t) && t.IsDir(p)
    ensures forall x: nat | Refers(t, p, n, x) && Refers(t, p, n, c) :: x == c
  {
    hide Refers, Consistent, WellFormed;
    ConsistentFormed(t);
    forall x: nat | Refers(t, p, n, x) && Refers(t, p, n, c) ensures x == c {
      NameOnce(t, p, n, x, c);
    }
  }

  lemma SmallAt(t: Tree, c: nat)
    requires SmallCounts(t)
    ensures c < |t.ilist| ==> t.ilist[c].nlink < 0x8000
  {
  }

  method RunRename(h: RW, call: Call, spare: seq<Slot>)
    requires h.Valid() && Consistent(h.T()) && SmallCounts(h.T()) && h.ndirect >= 2
    requires |spare| == h.ndirect && AllFree(spare[1..]) && call.CallRename? && Meant(h, h.T(), call)
    modifies h
    ensures h.Valid() && Consistent(h.T()) && Effect(old(h.T()), call, h.T())
  {
    hide Consistent, AllFree, Refers, Structured, NeedsBlock, NameAdded, DirAdded, NameDropped, DirDropped,
         OthersKept, NamesAfter, RenameAnswer, Taken, FreeInode, HasEntries, SmallCounts;
    ghost var t := h.T();
    ghost var c, x;
    var rc;
    rc, c, x := DoRename(h, call.fp, call.fn, call.tp, call.tn, Had, spare);
    NameTarget(t, call.fp, call.fn, call.tp, call.tn, rc, c, x);
  }

  lemma NameTarget(t: Tree, fp: nat, fn: string, tp: nat, tn: string, rc: int, c: nat, x: nat)
    requires t.Shape() && t.IsDir(tp) && RenameAnswer(t, fp, fn, tp, tn, Had, rc, c, x)
    ensures rc == 0 && x != 0 ==> Refers(t, tp, tn, x)
  {
    hide Refers, Above;
  }
}

/** rm_dir_entry: what it does to the live records, and that it keeps the invariant. */
module RemovalProofs {
  import opened Options
  import opened Bytes
  import opened Records
  import opened DirBlocks
  import opened DiskState
  import opened Directory
  import opened Invariant
  import opened Insertion

  // ---------- freeing and marking blocks ----------

  ghost predicate Distinct(ps: seq<nat>) { forall i, j :: 0 <= i < j < |ps| ==> ps[i] != ps[j] }

  /** The bits that stand for the blocks in `ps`. */
  ghost function BitsOf(ps: seq<nat>): set<nat> { set p | p in ps && p > 0 :: p - 1 }

  lemma BitsOfIs(ps: seq<nat>, k: nat)
    ensures k in BitsOf(ps) <==> k + 1 in ps
  {
    if k + 1 in ps {
      var p := k + 1;
      assert p - 1 == k && p - 1 in BitsOf(ps);
    }
  }

  lemma {:induction false} DistinctCard(ps: seq<nat>)
    requires Distinct(ps) && 0 !in ps
    ensures |BitsOf(ps)| == |ps|
  {
    if ps != [] {
      var last, rest := ps[|ps| - 1], ps[..|ps| - 1];
      assert ps == rest + [last];
      DistinctCard(rest);
      forall k: nat ensures k in BitsOf(ps) <==> k in BitsOf(rest) + {last - 1} {
        BitsOfIs(ps, k);
        BitsOfIs(rest, k);
      }
      BitsOfIs(rest, last - 1);
      assert BitsOf(ps) == BitsOf(rest) + {last - 1};
    } else {
      assert BitsOf(ps) == {};
    }
  }

  lemma DropAllFree(s: State, ps: seq<nat>)
    requires forall p :: p in ps ==> 0 < p <= |s.blockBits| && s.blockBits[p - 1]
    ensures FreeBlocks(DropAll(s, ps)) == FreeBlocks(s) + BitsOf(ps) && FreeBlocks(s) !! BitsOf(ps)
  {
    forall k: nat
      ensures (k in FreeBlocks(DropAll(s, ps)) <==> k in FreeBlocks(s) || k in BitsOf(ps))
              && !(k in FreeBlocks(s) && k in BitsOf(ps))
    {
      BitsOfIs(ps, k);
    }
  }

  lemma TakeAllFree(s: State, ps: seq<nat>)
    requires forall p :: p in ps ==> 0 < p <= |s.blockBits| && !s.blockBits[p - 1]
    ensures FreeBlocks(TakeAll(s, ps)) == FreeBlocks(s) - BitsOf(ps) && BitsOf(ps) <= FreeBlocks(s)
  {
    forall k: nat
      ensures k in FreeBlocks(TakeAll(s, ps)) <==> k in FreeBlocks(s) && k !in BitsOf(ps)
      ensures k in BitsOf(ps) ==> k in FreeBlocks(s)
    {
      BitsOfIs(ps, k);
    }
  }

  lemma CountedAfter(s: State, s': State, d: int)
    requires Shaped(s) && Counted(s) && |s'.blockBits| == |s.blockBits| && s'.inodeBits == s.inodeBits
    requires s'.sbFreeBlocks == U32(s.sbFreeBlocks + d) && s'.gdFreeBlocks == U16(s.gdFreeBlocks + d)
    requires s'.sbFreeInodes == s.sbFreeInodes && s'.gdFreeInodes == s.gdFreeInodes
    requires |FreeBlocks(s')| == |FreeBlocks(s)| + d
    ensures Counted(s')
  {
    SubsetCard(FreeBlocks(s'), |s.blockBits|);
    assert FreeInodes(s') == FreeInodes(s);
  }

  /** Clearing the bits of distinct marked blocks keeps the counters right. */
  lemma DropAllCounted(s: State, ps: seq<nat>)
    requires Shaped(s) && Counted(s) && Distinct(ps)
    requires forall p :: p in ps ==> 0 < p < |s.blocks| && s.blockBits[p - 1]
    ensures Shaped(DropAll(s, ps)) && Counted(DropAll(s, ps))
  {
    DropAllShaped(s, ps);
    DropAllCard(s, ps);
    CountedAfter(s, DropAll(s, ps), |ps|);
  }

  lemma DropAllCard(s: State, ps: seq<nat>)
    requires Distinct(ps) && forall p :: p in ps ==> 0 < p <= |s.blockBits| && s.blockBits[p - 1]
    ensures |FreeBlocks(DropAll(s, ps))| == |FreeBlocks(s)| + |ps|
  {
    DropAllFree(s, ps);
    DistinctCard(ps);
    UnionCard(FreeBlocks(s), BitsOf(ps), FreeBlocks(DropAll(s, ps)));
  }

  lemma DropAllShaped(s: State, ps: seq<nat>)
    requires Shaped(s) && forall p :: p in ps ==> p < |s.blocks|
    ensures Shaped(DropAll(s, ps))
  {
  }

  lemma UnionCard(a: set<nat>, b: set<nat>, c: set<nat>)
    requires c == a + b && a !! b
    ensures |c| == |a| + |b|
  {
  }

  /** Setting the bits of distinct free blocks keeps the counters right. */
  lemma TakeAllCounted(s: State, ps: seq<nat>)
    requires Shaped(s) && Counted(s) && Distinct(ps)
    requires forall p :: p in ps ==> 0 < p < |s.blocks| && !s.blockBits[p - 1]
    ensures Shaped(TakeAll(s, ps)) && Counted(TakeAll(s, ps))
  {
    TakeAllFree(s, ps);
    DistinctCard(ps);
    CountedAfter(s, TakeAll(s, ps), -|ps|);
  }

  lemma InodesCountedAfter(s: State, s': State, d: int)
    requires Shaped(s) && Counted(s) && |s'.inodeBits| == |s.inodeBits| && s'.blockBits == s.blockBits
    requires s'.sbFreeInodes == U32(s.sbFreeInodes + d) && s'.gdFreeInodes == U16(s.gdFreeInodes + d)
    requires s'.sbFreeBlocks == s.sbFreeBlocks && s'.gdFreeBlocks == s.gdFreeBlocks
    requires |FreeInodes(s')| == |FreeInodes(s)| + d
    ensures Counted(s') && FreeBlocks(s') == FreeBlocks(s)
  {
    SubsetCard(FreeInodes(s'), |s.inodeBits|);
    assert FreeBlocks(s') == FreeBlocks(s);
  }

  lemma DropInodeCounted(s: State, n: nat)
    requires Shaped(s) && Counted(s) && Used(s, n) && !Reserved(n)
    ensures Shaped(DropInode(s, n)) && Counted(DropInode(s, n))
    ensures FreeBlocks(DropInode(s, n)) == FreeBlocks(s)
  {
    var s' := DropInode(s, n);
    InodeFreed(s, s', n);
    InodesCountedAfter(s, s', 1);
  }

  lemma InodeFreed(s: State, s': State, n: nat)
    requires Used(s, n) && !Reserved(n) && s'.inodeBits == s.inodeBits[n := false]
    ensures |FreeInodes(s')| == |FreeInodes(s)| + 1
  {
    assert FreeInodes(s') == FreeInodes(s) + {n};
  }

  lemma TakeInodeCounted(s: State, n: nat)
    requires Shaped(s) && Counted(s) && n in FreeInodes(s)
    ensures Shaped(TakeInode(s, n)) && Counted(TakeInode(s, n))
    ensures FreeBlocks(TakeInode(s, n)) == FreeBlocks(s)
  {
    assert FreeInodes(TakeInode(s, n)) == FreeInodes(s) - {n};
    InodesCountedAfter(s, TakeInode(s, n), -1);
  }

  /** The state after the last link of `n` is gone. */
  ghost function Freed(s: State, n: nat): State
    requires Shaped(s) && n < |s.inodes|
  { DropInode(DropAll(s, Direct(s.inodes[n].ptr)), n) }

  lemma FreedOwned(s: State, n: nat)
    requires AllocOk(s) && Used(s, n)
    ensures var s' := Freed(s, n);
            && (forall m :: Used(s', m) ==> MarksOwned(s', m))
            && (forall l, m :: Used(s', l) && Used(s', m) && l != m ==> Owned(s', l) !! Owned(s', m))
  {
    var s' := Freed(s, n);
    forall m | Used(s', m) ensures MarksOwned(s', m) && Used(s, m) && Owned(s', m) == Owned(s, m) {
      assert MarksOwned(s, m) && m != n && Owned(s, m) !! Owned(s, n);
    }
  }

  lemma FreedAlloc(s: State, n: nat)
    requires AllocOk(s) && Used(s, n) && !Reserved(n)
    ensures AllocOk(Freed(s, n))
  {
    var ps := Direct(s.inodes[n].ptr);
    assert MarksOwned(s, n);
    assert forall p :: p in ps ==> p in Owned(s, n);
    DropAllCounted(s, ps);
    DropInodeCounted(DropAll(s, ps), n);
    FreedOwned(s, n);
  }

  // ---------- the live records of the directory ----------

  /** The named record comes first in its block; removal then acts on the record behind it. */
  ghost predicate FirstInBlock(s: State, d: nat, name: Name)
    requires DirOk(s, d)
  {
    var r := FindSlot(s.blocks, Direct(s.inodes[d].ptr), name);
    r.Some? && r.value.1 == 0
  }

  /** Away from the head of a block, the predecessor is the record before and has another name. */
  lemma BeforeIs(b: Block, f: nat, name: Name)
    requires BlockOk(b) && FindName(b, 0, name) == Some(f) && f > 0
    ensures Chain(b, 0, f) && RecOk(b, f) && Chain(b, f + RecLen(b, f), BLOCK_SIZE) && NameOf(b, f) == name
    ensures var p := Predecessor(b, 0, f);
            && RecOk(b, p) && Chain(b, 0, p) && p + RecLen(b, p) == f && NameOf(b, p) != name
            && FindIno(Entries(b, 0, p), name) == None
  {
    FindNameSome(b, 0, name);
    PredecessorIs(b, 0, f);
    NoneBefore(b, Predecessor(b, 0, f), f, name);
  }

  lemma NoneBefore(b: Block, p: nat, f: nat, name: Name)
    requires Chain(b, 0, p) && RecOk(b, p) && p + RecLen(b, p) == f
    requires Chain(b, 0, f) && FindIno(Entries(b, 0, f), name) == None
    ensures FindIno(Entries(b, 0, p), name) == None && NameOf(b, p) != name
  {
    var x := At(b, p);
    ChainCons(b, p, x, f);
    ChainAppend(b, 0, p, f);
    FindConcat(Entries(b, 0, p), Entries(b, p, f), name);
    assert Entries(b, p, f)[0] == x;
  }

  lemma MergeContext(es: seq<Entry>, es': seq<Entry>, a: seq<Entry>, x: Entry, y: Entry, b: seq<Entry>,
                     before: seq<Entry>, after: seq<Entry>)
    requires MergedInto(es, es', a, x, y, b)
    ensures MergedInto(before + es + after, before + es' + after, before + a, x, y, b + after)
  {
    ConcatFive(before, a, [x, y], b, after);
    ConcatFive(before, a, [x.(len := x.len + y.len)], b, after);
  }

  lemma BlockMerge(b: Block, f: nat, name: Name) returns (a: seq<Entry>, after: seq<Entry>)
    requires BlockOk(b) && FindName(b, 0, name) == Some(f) && f > 0
    ensures Chain(b, 0, f) && f + HEADER <= BLOCK_SIZE
    ensures var p := Predecessor(b, 0, f);
            && p + HEADER <= BLOCK_SIZE && p + RecLen(b, p) == f
            && BlockOk(Unlink(b, p)) && MergedInto(Live(b), Live(Unlink(b, p)), a, At(b, p), At(b, f), after)
  {
    BeforeIs(b, f, name);
    var p := Predecessor(b, 0, f);
    UnlinkLive(b, p, f);
    a, after := Entries(b, 0, p), Entries(b, f + RecLen(b, f), BLOCK_SIZE);
  }

  lemma {:induction false} SlotIndex(blocks: seq<Block>, ps: seq<nat>, name: Name) returns (j: nat)
    requires BlocksOk(blocks, ps) && FindSlot(blocks, ps, name).Some?
    ensures j < |ps| && ps[j] == FindSlot(blocks, ps, name).value.0
    ensures BlocksOk(blocks, ps[..j]) && FindIno(LiveOf(blocks, ps[..j]), name) == None
  {
    FindNameNone(blocks[ps[0]], 0, name);
    if FindName(blocks[ps[0]], 0, name).Some? {
      j := 0;
    } else {
      j := SlotIndex(blocks, ps[1..], name);
      j := j + 1;
      assert ps[..j][0] == ps[0] && ps[..j][1..] == ps[1..][..j - 1];
      FindConcat(Live(blocks[ps[0]]), LiveOf(blocks, ps[1..][..j - 1]), name);
    }
  }

  /** The inode that removal takes a link from. */
  ghost function RmInode(s: State, d: nat, name: Name): nat
    requires Removable(s, d, name) && FindRemoval(s, d, name).Some?
  {
    var r := FindRemoval(s, d, name).value;
    Ino(s.blocks[r.block], r.target) - 1
  }

  /** The step without the link count: the chain of one block changed. */
  ghost function Unlinked(s: State, d: nat, name: Name): State
    requires DirOk(s, d) && FindRemoval(s, d, name).Some?
    requires FindRemoval(s, d, name).value.target + HEADER <= BLOCK_SIZE
  {
    var r := FindRemoval(s, d, name).value;
    SetBlock(s, r.block, Unlink(s.blocks[r.block], r.before))
  }

  lemma RmIs(s: State, d: nat, name: Name)
    requires Shaped(s) && Removable(s, d, name) && FindRemoval(s, d, name).Some? && !FirstInBlock(s, d, name)
    ensures RmDirEntry(s, d, name) == (DropLink(Unlinked(s, d, name), RmInode(s, d, name)), true)
  {
    var (k, f) := FindSlot(s.blocks, Direct(s.inodes[d].ptr), name).value;
    BeforeIs(s.blocks[k], f, name);
  }

  /** One block of a directory had two records merged: so had the directory. */
  lemma DirMerge(s: State, s': State, d: nat, j: nat, a: seq<Entry>, x: Entry, y: Entry, b: seq<Entry>)
    returns (a': seq<Entry>, b': seq<Entry>)
    requires DirOk(s, d) && PointersOk(s.inodes[d].ptr, |s.blocks|) && j < NumDirect(s.inodes[d].ptr)
    requires d < |s'.inodes| && s'.inodes[d].ptr == s.inodes[d].ptr
    requires var k := s.inodes[d].ptr[j];
             && k < |s.blocks| && BlockOk(s.blocks[k])
             && |s'.blocks| == |s.blocks| && s'.blocks == s.blocks[k := s'.blocks[k]]
             && BlockOk(s'.blocks[k]) && MergedInto(Live(s.blocks[k]), Live(s'.blocks[k]), a, x, y, b)
    ensures DirOk(s', d) && MergedInto(DirEntries(s, d), DirEntries(s', d), a', x, y, b')
    ensures BlocksOk(s.blocks, s.inodes[d].ptr[..j]) && a' == LiveOf(s.blocks, s.inodes[d].ptr[..j]) + a
  {
    var ps := Direct(s.inodes[d].ptr);
    var before, after := LiveOfChange(s.blocks, s'.blocks, ps, j);
    assert ps[..j] == s.inodes[d].ptr[..j];
    MergeContext(Live(s.blocks[ps[j]]), Live(s'.blocks[ps[j]]), a, x, y, b, before, after);
    a', b' := before + a, b + after;
  }

  /** Where the removal takes place, away from the head of a block. */
  lemma RemovalSite(s: State, d: nat, name: Name) returns (j: nat, k: nat, p: nat, f: nat)
    requires Shaped(s) && Removable(s, d, name) && FindRemoval(s, d, name).Some? && !FirstInBlock(s, d, name)
    ensures FindRemoval(s, d, name) == Some(Removal(k, p, f))
    ensures j < NumDirect(s.inodes[d].ptr) && s.inodes[d].ptr[j] == k < |s.blocks| && BlockOk(s.blocks[k])
    ensures FindName(s.blocks[k], 0, name) == Some(f) && f > 0
    ensures Chain(s.blocks[k], 0, f) && p == Predecessor(s.blocks[k], 0, f)
    ensures f + HEADER <= BLOCK_SIZE && RecOk(s.blocks[k], p) && NameOf(s.blocks[k], f) == name
    ensures BlocksOk(s.blocks, s.inodes[d].ptr[..j]) && FindIno(LiveOf(s.blocks, s.inodes[d].ptr[..j]), name) == None
  {
    var ps := Direct(s.inodes[d].ptr);
    j := SlotIndex(s.blocks, ps, name);
    assert ps[..j] == s.inodes[d].ptr[..j];
    k, f := ps[j], FindSlot(s.blocks, ps, name).value.1;
    BeforeIs(s.blocks[k], f, name);
    p := RemovalAt(s, d, name, k, f);
  }

  lemma RemovalAt(s: State, d: nat, name: Name, k: nat, f: nat) returns (p: nat)
    requires DirOk(s, d) && FindSlot(s.blocks, Direct(s.inodes[d].ptr), name) == Some((k, f)) && f > 0
    ensures Chain(s.blocks[k], 0, f) && p == Predecessor(s.blocks[k], 0, f)
    ensures FindRemoval(s, d, name) == Some(Removal(k, p, f))
  {
    BeforeIs(s.blocks[k], f, name);
    p := Predecessor(s.blocks[k], 0, f);
  }

  /**
   * Away from the head of a block, removal takes exactly the named record out of the live chain;
   * the others stay, in order, and only the predecessor's length changes.
   */
  lemma RmShape(s: State, d: nat, name: Name) returns (a: seq<Entry>, x: Entry, y: Entry, b: seq<Entry>)
    requires Shaped(s) && Removable(s, d, name) && FindRemoval(s, d, name).Some? && !FirstInBlock(s, d, name)
    requires PointersOk(s.inodes[d].ptr, |s.blocks|)
    ensures DirOk(Unlinked(s, d, name), d)
    ensures MergedInto(DirEntries(s, d), DirEntries(Unlinked(s, d, name), d), a, x, y, b)
    ensures y.name == name && y.ino == RmInode(s, d, name) + 1
    ensures var r := FindRemoval(s, d, name).value; var blk := s.blocks[r.block];
            && x.off == r.before && x.len == RecLen(blk, r.before) && |x.name| == NameLen(blk, r.before)
            && y.off == r.target && y.ft == FileType(blk, r.target)
  {
    var j, k, p, f := RemovalSite(s, d, name);
    NameFits(s.blocks[k], p);
    a, b := BlockMerge(s.blocks[k], f, name);
    x, y := At(s.blocks[k], p), At(s.blocks[k], f);
    a, b := DirMerge(s, Unlinked(s, d, name), d, j, a, x, y, b);
  }

  lemma MergeCounts(a: seq<Entry>, x: Entry, y: Entry, b: seq<Entry>)
    ensures CountsMove(a + [x, y] + b, a + [x.(len := x.len + y.len)] + b, y.ino, -1)
  {
    var x' := x.(len := x.len + y.len);
    forall ino ensures Count(a + [x'] + b, ino) == Count(a + [x, y] + b, ino) + (if ino == y.ino then -1 else 0) {
      CountThree(a, [x'], b, ino);
      CountThree(a, [x, y], b, ino);
      CountPair(x, y, ino);
    }
  }

  // ---------- the invariant ----------

  /** The named record is not at the head of its block and does not name a directory. */
  ghost predicate CanRemove(s: State, d: nat, name: Name) {
    && UsedDir(s, d) && Removable(s, d, name)
    && (FindRemoval(s, d, name).Some? ==>
          !FirstInBlock(s, d, name) && !IsDir(s.inodes[RmInode(s, d, name)].mode))
  }

  lemma DropLinksMove(s: State, u: State, c: nat)
    requires Used(s, c) && 0 < s.inodes[c].links < 0x1_0000
    requires u == s.(blocks := u.blocks)
    ensures LinksMove(s, AddLinks(u, c, -1), c, -1)
  {
  }

  lemma UnlinkedEntry(s: State, d: nat, name: Name, exact: bool := true) returns (y: Entry)
    requires Inv(s, exact) && CanRemove(s, d, name) && FindRemoval(s, d, name).Some?
    ensures y in DirEntries(s, d) && y.ino == RmInode(s, d, name) + 1
    ensures DirOk(Unlinked(s, d, name), d)
    ensures CountsMove(DirEntries(s, d), DirEntries(Unlinked(s, d, name), d), y.ino, -1)
  {
    assert DirSound(s, d);
    var a, x, b;
    a, x, y, b := RmShape(s, d, name);
    assert (a + [x, y] + b)[|a| + 1] == y;
    MergeCounts(a, x, y, b);
  }

  lemma LinksPositive(s: State, d: nat, y: Entry, exact: bool := true)
    requires TreeOk(s, exact) && UsedDir(s, d) && DirOk(s, d) && y in DirEntries(s, d) && y.ino > 0
    ensures Used(s, y.ino - 1) && s.inodes[y.ino - 1].links > 0
    ensures Reserved(y.ino - 1) ==> IsDir(s.inodes[y.ino - 1].mode)
  {
    assert DirSound(s, d);
    CountZero(DirEntries(s, d), y.ino);
    TotalZero(s, |s.inodes|, y.ino);
    assert DirCount(s, d, y.ino) > 0;
    assert InodeSound(s, y.ino - 1, exact);
  }

  lemma UnlinkOthers(s: State, d: nat, name: Name, exact: bool := true)
    requires Inv(s, exact) && CanRemove(s, d, name) && FindRemoval(s, d, name).Some?
    ensures forall f :: UsedDir(s, f) && f != d ==>
              SameDir(s, AddLinks(Unlinked(s, d, name), RmInode(s, d, name), -1), f)
  {
    var j := SlotIndex(s.blocks, Direct(s.inodes[d].ptr), name);
    assert FindRemoval(s, d, name).value.block in Owned(s, d);
    forall f | UsedDir(s, f) && f != d ensures Owned(s, f) !! Owned(s, d) {}
  }

  lemma FreedDir(s: State, s': State, n: nat, d: nat, exact: bool := true)
    requires AllocOk(s) && TreeOk(s, exact) && Used(s, n) && s.inodes[n].links == 0 && UsedDir(s, d) && d != n
    requires s'.inodes == s.inodes && s'.blocks == s.blocks && s'.inodeBits == s.inodeBits[n := false]
    ensures DirSound(s', d) && DirEntries(s', d) == DirEntries(s, d)
  {
    assert InodeSound(s, n, exact) && DirSound(s, d);
    TotalZero(s, |s.inodes|, n + 1);
    SameEntries(s, s', d);
    assert DirCount(s, d, n + 1) == 0;
    CountZero(DirEntries(s, d), n + 1);
  }

  /** Freeing an inode that no record names. */
  lemma FreedTree(s: State, n: nat, exact: bool := true)
    requires AllocOk(s) && TreeOk(s, exact) && Used(s, n) && s.inodes[n].links == 0
    requires !IsDir(s.inodes[n].mode) && !Reserved(n)
    ensures TreeOk(Freed(s, n), exact)
  {
    var s' := Freed(s, n);
    FreedAlloc(s, n);
    forall d | UsedDir(s', d) ensures UsedDir(s, d) && DirSound(s', d) && DirEntries(s', d) == DirEntries(s, d) {
      FreedDir(s, s', n, d, exact);
    }
    forall d | UsedDir(s, d) ensures UsedDir(s', d) && DirSound(s, d) {}
    forall m | 0 <= m < |s.inodes| ensures InodeSound(s', m, exact) {
      assert InodeSound(s, m, exact);
      FreedTotals(s, s', m + 1);
    }
  }

  lemma FreedTotals(s: State, s': State, ino: nat)
    requires |s'.inodes| == |s.inodes|
    requires forall d :: UsedDir(s', d) <==> UsedDir(s, d)
    requires forall d :: UsedDir(s, d) ==> DirOk(s, d) && DirOk(s', d) && DirEntries(s', d) == DirEntries(s, d)
    ensures Total(s', ino) == Total(s, ino)
  {
    TotalShift(s, s', |s.inodes|, ino, 0, 0);
  }
}

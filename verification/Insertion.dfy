/** new_dir_entry: what it does to the live records, and that it keeps the invariant. */
module Insertion {
  import opened Options
  import opened Bytes
  import opened Records
  import opened DirBlocks
  import opened DiskState
  import opened Directory
  import opened Invariant

  // ---------- allocation ----------

  lemma {:induction false} NumDirectIs(ptr: Pointers, i: nat, k: nat)
    requires i <= k <= DIRECT && (forall j :: i <= j < k ==> ptr[j] != 0) && (k < DIRECT ==> ptr[k] == 0)
    ensures NumDirect(ptr, i) == k
    decreases k - i
  {
    if i < k { NumDirectIs(ptr, i + 1, k); }
  }

  /** The ownership facts look at nothing but bits, counters and pointers. */
  lemma AllocFrame(s: State, s': State)
    requires AllocOk(s) && |s'.blocks| == |s.blocks| && |s'.inodes| == |s.inodes|
    requires s'.blockBits == s.blockBits && s'.inodeBits == s.inodeBits && s'.dataStart == s.dataStart
    requires s'.sbFreeBlocks == s.sbFreeBlocks && s'.gdFreeBlocks == s.gdFreeBlocks
    requires s'.sbFreeInodes == s.sbFreeInodes && s'.gdFreeInodes == s.gdFreeInodes
    requires forall n :: 0 <= n < |s.inodes| ==> s'.inodes[n].ptr == s.inodes[n].ptr
    ensures AllocOk(s')
  {
    assert FreeBlocks(s') == FreeBlocks(s) && FreeInodes(s') == FreeInodes(s);
    assert forall n :: 0 <= n < |s.inodes| ==> Owned(s', n) == Owned(s, n);
    assert forall n :: Used(s', n) == Used(s, n);
    assert forall n :: Used(s, n) ==> MarksOwned(s, n);
  }

  lemma TakeBlockCounted(s: State, k: nat)
    requires Shaped(s) && Counted(s) && k in FreeBlocks(s)
    ensures Shaped(TakeBlock(s, k)) && Counted(TakeBlock(s, k))
    ensures FreeBlocks(TakeBlock(s, k)) == FreeBlocks(s) - {k}
  {
    var s' := TakeBlock(s, k);
    assert FreeBlocks(s') == FreeBlocks(s) - {k};
    assert FreeInodes(s') == FreeInodes(s);
    SubsetCard(FreeBlocks(s), |s.blockBits|);
  }

  lemma {:induction false} SubsetCard(S: set<nat>, n: nat)
    requires forall x :: x in S ==> x < n
    ensures |S| <= n
  {
    if n == 0 {
      assert S == {};
    } else {
      SubsetCard(S - {n - 1}, n - 1);
    }
  }

  lemma AppendToPointers(ptr: Pointers, p: nat, size: nat)
    requires PointersOk(ptr, size) && NumDirect(ptr) < DIRECT && 0 < p < size && p !in Direct(ptr)
    ensures PointersOk(ptr[NumDirect(ptr) := p], size)
    ensures Direct(ptr[NumDirect(ptr) := p]) == Direct(ptr) + [p]
  {
    var k := NumDirect(ptr);
    var ptr' := ptr[k := p];
    NumDirectIs(ptr', 0, k + 1);
    assert forall j :: 0 <= j < k ==> ptr[j] in Direct(ptr) by {
      assert forall j :: 0 <= j < k ==> ptr[..k][j] == ptr[j];
    }
  }

  /** A free block appended to the pointers of an inode in use. */
  lemma AppendPointer(s: State, n: nat, a: nat, i: Inode)
    requires AllocOk(s) && Used(s, n) && NumDirect(s.inodes[n].ptr) < DIRECT && a in FreeBlocks(s)
    requires i.ptr == s.inodes[n].ptr[NumDirect(s.inodes[n].ptr) := a + 1]
    ensures a + 1 < |s.blocks| && Direct(i.ptr) == Direct(s.inodes[n].ptr) + [a + 1]
    ensures AllocOk(SetInode(TakeBlock(s, a), n, i))
  {
    FreeNotOwned(s, a);
    assert s.inodes[n].ptr == s.inodes[n].ptr;
    AppendToPointers(s.inodes[n].ptr, a + 1, |s.blocks|);
    TakeBlockCounted(s, a);
    var s1 := TakeBlock(s, a);
    var s' := SetInode(s1, n, i);
    assert FreeBlocks(s') == FreeBlocks(s1) && FreeInodes(s') == FreeInodes(s1);
    AppendOwned(s, s', n, a, i);
  }

  lemma FreeNotOwned(s: State, a: nat)
    requires AllocOk(s) && a in FreeBlocks(s)
    ensures s.dataStart <= a + 1 < |s.blocks|
    ensures forall m :: Used(s, m) ==> a + 1 !in Owned(s, m)
  {
    forall m | Used(s, m) ensures a + 1 !in Owned(s, m) {
      assert MarksOwned(s, m);
    }
  }

  lemma AppendOwned(s: State, s': State, n: nat, a: nat, i: Inode)
    requires AllocOk(s) && Used(s, n) && a in FreeBlocks(s) && a + 1 < |s.blocks| == |s'.blocks|
    requires s'.blockBits == s.blockBits[a := true] && s'.inodeBits == s.inodeBits && s'.dataStart == s.dataStart
    requires s'.inodes == s.inodes[n := i] && Direct(i.ptr) == Direct(s.inodes[n].ptr) + [a + 1]
    ensures forall m :: Used(s', m) ==> MarksOwned(s', m)
    ensures forall l, m :: Used(s', l) && Used(s', m) && l != m ==> Owned(s', l) !! Owned(s', m)
  {
    FreeNotOwned(s, a);
    assert Owned(s', n) == Owned(s, n) + {a + 1};
    forall m | Used(s', m) && m != n ensures Used(s, m) && Owned(s', m) == Owned(s, m) {}
    forall m | Used(s', m) ensures MarksOwned(s', m) {
      assert Used(s, m) && MarksOwned(s, m);
      assert Owned(s', m) <= Owned(s, m) + {a + 1};
    }
  }

  // ---------- the live records of the directory ----------

  /** `es'` has one record more than `es`, and look-ups of other names answer as before. */
  ghost predicate Adds(es: seq<Entry>, es': seq<Entry>, e: Entry) {
    && (forall ino :: Count(es', ino) == Count(es, ino) + (if ino == e.ino then 1 else 0))
    && (forall name :: name != e.name ==> FindIno(es', name) == FindIno(es, name))
    && (FindIno(es, e.name) == None ==> FindIno(es', e.name) == Some(e.ino))
  }

  lemma SplitAdds(a: seq<Entry>, x: Entry, m: nat, e: Entry, b: seq<Entry>)
    ensures Adds(a + [x] + b, a + [x.(len := m), e] + b, e)
  {
    var x' := x.(len := m);
    forall ino ensures Count(a + [x', e] + b, ino) == Count(a + [x] + b, ino) + (if ino == e.ino then 1 else 0) {
      CountThree(a, [x], b, ino);
      CountThree(a, [x', e], b, ino);
      CountPair(x', e, ino);
    }
    forall name ensures name != e.name || FindIno(a + [x] + b, name) == None ==>
        FindIno(a + [x', e] + b, name) == if name == e.name then Some(e.ino) else FindIno(a + [x] + b, name)
    {
      FindThree(a, [x], b, name);
      FindThree(a, [x', e], b, name);
      FindPair(x', e, name);
      FindPair(x, x, name);
    }
  }

  lemma SplitContext(es: seq<Entry>, es': seq<Entry>, a: seq<Entry>, x: Entry, e: Entry, b: seq<Entry>,
                     before: seq<Entry>, after: seq<Entry>)
    requires SplitInto(es, es', a, x, e, b)
    ensures SplitInto(before + es + after, before + es' + after, before + a, x, e, b + after)
  {
    ConcatFive(before, a, [x], b, after);
    ConcatFive(before, a, [x.(len := MinLen(|x.name|)), e], b, after);
  }

  /**
   * A directory with room: the old records stay, in order, and the new one comes right behind
   * the record the scan stopped at.
   */
  lemma InsertShape(s: State, d: nat, child: nat, name: Name, ft: Byte)
    returns (a: seq<Entry>, x: Entry, e: Entry, b: seq<Entry>)
    requires Shaped(s) && Insertable(s, d) && HasRoom(s, d, |name|) && child < |s.inodes| && |name| < 0x100
    requires Tallied(s, d)
    ensures DirOk(NewDirEntry(s, d, child, name, ft).0, d)
    ensures SplitInto(DirEntries(s, d), DirEntries(NewDirEntry(s, d, child, name, ft).0, d), a, x, e, b)
    ensures x.off == TailRecord(s, d) && e.ino == child + 1 && e.name == name && e.ft == ft
  {
    e := InsertFacts(s, d, child, name, ft);
    a, x, b := TailShape(s, NewDirEntry(s, d, child, name, ft).0, d, e);
  }

  /** The record at the tail of `d` was split, `e` filling the part split off. */
  ghost predicate TailSplit(s: State, s': State, d: nat, e: Entry)
    requires Insertable(s, d) && s.inodes[d].sectors / 2 > 0
  {
    var k, p := TailBlock(s, d), TailRecord(s, d);
    && |s'.blocks| == |s.blocks| && s'.blocks == s.blocks[k := s'.blocks[k]]
    && d < |s'.inodes| && s'.inodes[d].ptr == s.inodes[d].ptr
    && p + HEADER <= BLOCK_SIZE && e.off == p + MinLen(NameLen(s.blocks[k], p)) && e.off + HEADER <= BLOCK_SIZE
    && SplitAt(s.blocks[k], s'.blocks[k], p, e.off - p) && At(s'.blocks[k], e.off) == e
  }

  lemma InsertInodes(s: State, d: nat, child: nat, name: Name, ft: Byte)
    requires Shaped(s) && Insertable(s, d) && child < |s.inodes| && |name| < 0x100
    requires NewDirEntry(s, d, child, name, ft).1 && (HasRoom(s, d, |name|) || s.inodes[d].sectors / 2 == 0)
    ensures var s' := NewDirEntry(s, d, child, name, ft).0;
            && s'.inodeBits == s.inodeBits
            && s'.inodes == if HasRoom(s, d, |name|) then AddLinks(s, child, 1).inodes
                            else AddLinks(GrowDir(s, d, 0, Least(FreeBlocks(s))), child, 1).inodes
  {
    if HasRoom(s, d, |name|) {
    } else {
      var a := Least(FreeBlocks(s));
      assert GrowDir(TakeBlock(s, a), d, 0, a).inodes == GrowDir(s, d, 0, a).inodes;
    }
  }

  lemma InsertIs(s: State, d: nat, child: nat, name: Name, ft: Byte)
    requires Shaped(s) && Insertable(s, d) && HasRoom(s, d, |name|) && child < |s.inodes| && |name| < 0x100
    ensures var s' := NewDirEntry(s, d, child, name, ft).0; var k := TailBlock(s, d);
            && |s'.blocks| == |s.blocks| && s'.blocks == s.blocks[k := s'.blocks[k]]
            && s'.blocks[k] == InsertAt(s.blocks[k], TailRecord(s, d), child + 1, name, ft)
            && d < |s'.inodes| && s'.inodes[d].ptr == s.inodes[d].ptr
  {
  }

  lemma InsertFacts(s: State, d: nat, child: nat, name: Name, ft: Byte) returns (e: Entry)
    requires Shaped(s) && Insertable(s, d) && HasRoom(s, d, |name|) && child < |s.inodes| && |name| < 0x100
    ensures TailSplit(s, NewDirEntry(s, d, child, name, ft).0, d, e)
    ensures e.ino == child + 1 && e.name == name && e.ft == ft
  {
    InsertIs(s, d, child, name, ft);
    e := InsertedAt(s, NewDirEntry(s, d, child, name, ft).0, d, child, name, ft);
  }

  lemma InsertedAt(s: State, s': State, d: nat, child: nat, name: Name, ft: Byte) returns (e: Entry)
    requires Shaped(s) && Insertable(s, d) && HasRoom(s, d, |name|) && child < |s.inodes| && |name| < 0x100
    requires var k := TailBlock(s, d);
             && |s'.blocks| == |s.blocks| && s'.blocks == s.blocks[k := s'.blocks[k]]
             && s'.blocks[k] == InsertAt(s.blocks[k], TailRecord(s, d), child + 1, name, ft)
             && d < |s'.inodes| && s'.inodes[d].ptr == s.inodes[d].ptr
    ensures TailSplit(s, s', d, e) && e.ino == child + 1 && e.name == name && e.ft == ft
  {
    var k := TailBlock(s, d);
    e := InsertedIn(s.blocks[k], s'.blocks[k], TailRecord(s, d), child + 1, name, ft);
  }

  lemma InsertedIn(b: Block, b': Block, p: nat, ino: nat, name: Name, ft: Byte) returns (e: Entry)
    requires BlockOk(b) && TailScan(b, 0, 0) == Some(p) && RoomAt(b, p, |name|) && |name| < 0x100
    requires ino < 0x1_0000_0000 && b' == InsertAt(b, p, ino, name, ft)
    ensures e.off == p + MinLen(NameLen(b, p)) && e.off + HEADER <= BLOCK_SIZE
    ensures SplitAt(b, b', p, e.off - p) && At(b', e.off) == e
    ensures e.ino == ino && e.name == name && e.ft == ft
  {
    TailOnChain(b);
    InsertSplits(b, p, ino, name, ft);
    var m := MinLen(NameLen(b, p));
    e := Entry(p + m, ino, RecLen(b, p) - m, name, ft);
  }

  lemma TailShape(s: State, s': State, d: nat, e: Entry) returns (a: seq<Entry>, x: Entry, b: seq<Entry>)
    requires Insertable(s, d) && s.inodes[d].sectors / 2 > 0 && TailSplit(s, s', d, e)
    requires Tallied(s, d)
    ensures DirOk(s', d) && SplitInto(DirEntries(s, d), DirEntries(s', d), a, x, e, b) && x.off == TailRecord(s, d)
  {
    var k, p := TailBlock(s, d), TailRecord(s, d);
    a, x, b := InsertLive(s.blocks[k], s'.blocks[k], p, e);
    a, b := DirShape(s, s', d, NumDirect(s.inodes[d].ptr) - 1, a, x, e, b);
  }

  /** One block of a directory had a record split: so had the directory. */
  lemma DirShape(s: State, s': State, d: nat, j: nat, a: seq<Entry>, x: Entry, e: Entry, b: seq<Entry>)
    returns (a': seq<Entry>, b': seq<Entry>)
    requires DirOk(s, d) && PointersOk(s.inodes[d].ptr, |s.blocks|) && j < NumDirect(s.inodes[d].ptr)
    requires d < |s'.inodes| && s'.inodes[d].ptr == s.inodes[d].ptr
    requires var k := s.inodes[d].ptr[j];
             && k < |s.blocks| && BlockOk(s.blocks[k])
             && |s'.blocks| == |s.blocks| && s'.blocks == s.blocks[k := s'.blocks[k]]
             && BlockOk(s'.blocks[k]) && SplitInto(Live(s.blocks[k]), Live(s'.blocks[k]), a, x, e, b)
    ensures DirOk(s', d) && SplitInto(DirEntries(s, d), DirEntries(s', d), a', x, e, b')
  {
    var ps := Direct(s.inodes[d].ptr);
    var before, after := LiveOfChange(s.blocks, s'.blocks, ps, j);
    SplitContext(Live(s.blocks[ps[j]]), Live(s'.blocks[ps[j]]), a, x, e, b, before, after);
    a', b' := before + a, b + after;
  }

  lemma ConcatFive<T>(a: seq<T>, b: seq<T>, c: seq<T>, d: seq<T>, e: seq<T>)
    ensures a + (b + c + d) + e == a + b + c + (d + e)
  {
  }

  lemma GrewBlock(s: State, d: nat, child: nat, name: Name, ft: Byte) returns (a: nat, b: Block)
    requires Shaped(s) && child < |s.inodes| && |name| < 0x100 && d < |s.inodes| && s.inodes[d].sectors / 2 == 0
    requires NewDirEntry(s, d, child, name, ft).1
    ensures a + 1 < |s.blocks| && b == WriteRecord(s.blocks[a + 1], 0, child + 1, BLOCK_SIZE, name, ft)
    ensures var s' := NewDirEntry(s, d, child, name, ft).0;
            s'.blocks == s.blocks[a + 1 := b] && s'.inodes[d].ptr == s.inodes[d].ptr[0 := a + 1]
  {
    a := Least(FreeBlocks(s));
    b := WriteRecord(s.blocks[a + 1], 0, child + 1, BLOCK_SIZE, name, ft);
  }

  /** A directory without blocks: it now holds the new record alone, filling its first block. */
  lemma GrowShape(s: State, d: nat, child: nat, name: Name, ft: Byte)
    requires Shaped(s) && child < |s.inodes| && |name| < 0x100
    requires Tallied(s, d) && s.inodes[d].sectors / 2 == 0
    requires NewDirEntry(s, d, child, name, ft).1
    ensures DirOk(NewDirEntry(s, d, child, name, ft).0, d) && DirEntries(s, d) == []
    ensures DirEntries(NewDirEntry(s, d, child, name, ft).0, d) == [Entry(0, child + 1, BLOCK_SIZE, name, ft)]
  {
    var s' := NewDirEntry(s, d, child, name, ft).0;
    var a, b := GrewBlock(s, d, child, name, ft);
    FreshBlock(s.blocks[a + 1], child + 1, name, ft);
    NumDirectIs(s'.inodes[d].ptr, 0, 1);
    assert Direct(s'.inodes[d].ptr) == [a + 1];
    assert LiveOf(s'.blocks, [a + 1]) == Live(b) + LiveOf(s'.blocks, []);
  }

  lemma FreshBlock(b: Block, ino: nat, name: Name, ft: Byte)
    requires |name| < 0x100 && ino < 0x1_0000_0000
    ensures var b' := WriteRecord(b, 0, ino, BLOCK_SIZE, name, ft);
            BlockOk(b') && Live(b') == [Entry(0, ino, BLOCK_SIZE, name, ft)]
  {
    var b' := WriteRecord(b, 0, ino, BLOCK_SIZE, name, ft);
    WriteRecordAt(b, 0, ino, BLOCK_SIZE, name, ft);
    RecAt(b', 0, Entry(0, ino, BLOCK_SIZE, name, ft));
    ChainCons(b', 0, At(b', 0), BLOCK_SIZE);
  }

  // ---------- the invariant ----------

  /** The insertion does not replace a block in use: there is room, or no block yet, or none to get. */
  ghost predicate NoReplacement(s: State, d: nat, nameLen: nat)
    requires Insertable(s, d)
  {
    HasRoom(s, d, nameLen) || s.inodes[d].sectors / 2 == 0 || FreeBlocks(s) == {}
  }

  /** A directory, and an inode that can get one link more. */
  ghost predicate Linkable(s: State, d: nat, child: nat, name: Name) {
    && UsedDir(s, d) && Insertable(s, d) && |name| < 0x100
    && Used(s, child) && s.inodes[child].links < 0xFFFF && (Reserved(child) ==> IsDir(s.inodes[child].mode))
  }

  ghost predicate CanLink(s: State, d: nat, child: nat, name: Name) {
    Linkable(s, d, child, name) && NoReplacement(s, d, |name|)
  }

  lemma LinkAdds(s: State, d: nat, child: nat, name: Name, ft: Byte, exact: bool := true) returns (e: Entry)
    requires Inv(s, exact) && CanLink(s, d, child, name) && NewDirEntry(s, d, child, name, ft).1
    ensures var s' := NewDirEntry(s, d, child, name, ft).0;
            DirOk(s', d) && Adds(DirEntries(s, d), DirEntries(s', d), e)
    ensures e.ino == child + 1 && e.name == name
  {
    assert DirSound(s, d);
    if HasRoom(s, d, |name|) {
      var a, x, b;
      a, x, e, b := InsertShape(s, d, child, name, ft);
      SplitAdds(a, x, MinLen(|x.name|), e, b);
    } else {
      GrowShape(s, d, child, name, ft);
      e := Entry(0, child + 1, BLOCK_SIZE, name, ft);
      assert [e][1..] == [];
    }
  }

  lemma InsertKeepsOthers(s: State, d: nat, child: nat, name: Name, ft: Byte, exact: bool := true)
    requires Inv(s, exact) && CanLink(s, d, child, name)
    ensures var s' := NewDirEntry(s, d, child, name, ft).0;
            |s'.inodes| == |s.inodes| && forall f :: UsedDir(s, f) && f != d ==> SameDir(s, s', f)
  {
    var s' := NewDirEntry(s, d, child, name, ft).0;
    assert DirSound(s, d);
    forall f | UsedDir(s, f) && f != d ensures SameDir(s, s', f) {
      assert Owned(s, f) !! Owned(s, d);
      if HasRoom(s, d, |name|) {
        var j := NumDirect(s.inodes[d].ptr) - 1;
        assert Direct(s.inodes[d].ptr)[j] == TailBlock(s, d);
      } else if FreeBlocks(s) != {} {
        FreeNotOwned(s, Least(FreeBlocks(s)));
      }
    }
  }

  lemma InsertAlloc(s: State, d: nat, child: nat, name: Name, ft: Byte, exact: bool := true)
    requires Inv(s, exact) && CanLink(s, d, child, name)
    ensures AllocOk(NewDirEntry(s, d, child, name, ft).0)
  {
    var s' := NewDirEntry(s, d, child, name, ft).0;
    assert DirSound(s, d);
    if HasRoom(s, d, |name|) {
      AllocFrame(s, s');
    } else if FreeBlocks(s) != {} {
      var a := Least(FreeBlocks(s));
      var i := GrowDir(s, d, 0, a).inodes[d];
      AppendPointer(s, d, a, i);
      AllocFrame(SetInode(TakeBlock(s, a), d, i), s');
    }
  }

  lemma AddLinksMove(s: State, c: nat)
    requires Used(s, c) && s.inodes[c].links < 0xFFFF
    ensures LinksMove(s, AddLinks(s, c, 1), c, 1)
  {
  }

  lemma InsertLinks(s: State, s': State, d: nat, child: nat, room: bool, a: nat)
    requires Used(s, child) && s.inodes[child].links < 0xFFFF && d < |s.inodes|
    requires s'.inodeBits == s.inodeBits
    requires s'.inodes == if room then AddLinks(s, child, 1).inodes
                          else AddLinks(GrowDir(s, d, 0, a), child, 1).inodes
    ensures LinksMove(s, s', child, 1)
  {
    AddLinksMove(s, child);
    AddLinksMove(GrowDir(s, d, 0, a), child);
  }

  lemma InsertSectors(s: State, d: nat, child: nat, name: Name, ft: Byte, exact: bool := true)
    requires Inv(s, exact) && CanLink(s, d, child, name)
    requires NewDirEntry(s, d, child, name, ft).1
    ensures var s' := NewDirEntry(s, d, child, name, ft).0;
            s'.inodes[d].sectors / 2 == NumDirect(s'.inodes[d].ptr)
  {
    var s' := NewDirEntry(s, d, child, name, ft).0;
    assert DirSound(s, d);
    InsertInodes(s, d, child, name, ft);
    if !HasRoom(s, d, |name|) {
      var ptr := s'.inodes[d].ptr;
      assert ptr == s.inodes[d].ptr[0 := Least(FreeBlocks(s)) + 1];
      NumDirectIs(ptr, 0, 1);
    }
  }

  lemma LinkInv(s: State, d: nat, child: nat, name: Name, ft: Byte, exact: bool := true)
    requires Inv(s, exact) && CanLink(s, d, child, name)
    ensures Inv(NewDirEntry(s, d, child, name, ft).0, exact)
  {
    var s' := NewDirEntry(s, d, child, name, ft).0;
    if NewDirEntry(s, d, child, name, ft).1 {
      InsertAlloc(s, d, child, name, ft, exact);
      InsertKeepsOthers(s, d, child, name, ft, exact);
      InsertInodes(s, d, child, name, ft);
      InsertLinks(s, s', d, child, HasRoom(s, d, |name|), if FreeBlocks(s) == {} then 0 else Least(FreeBlocks(s)));
      InsertSectors(s, d, child, name, ft, exact);
      var e := LinkAdds(s, d, child, name, ft, exact);
      TreeMove(s, s', d, child, 1, exact);
    }
  }

  /** The sector count of a directory whose last block was replaced says one block more than it has. */
  ghost predicate Overcounted(s: State, d: nat) {
    UsedDir(s, d) && s.inodes[d].sectors / 2 == NumDirect(s.inodes[d].ptr) + 1
  }

  lemma ReplacedSectors(s: State, d: nat, child: nat, name: Name, ft: Byte)
    requires Shaped(s) && DirSound(s, d) && Linkable(s, d, child, name) && !NoReplacement(s, d, |name|)
    ensures Overcounted(NewDirEntry(s, d, child, name, ft).0, d)
  {
    var n, s' := NumDirect(s.inodes[d].ptr), NewDirEntry(s, d, child, name, ft).0;
    assert s'.inodes[d].ptr == s.inodes[d].ptr[n - 1 := Least(FreeBlocks(s)) + 1];
    NumDirectIs(s'.inodes[d].ptr, 0, n);
  }

  /**
   * new_dir_entry keeps the invariant, also when it fails for lack of blocks, if and only if it does
   * not replace a block of the directory.
   */
  lemma InsertInv(s: State, d: nat, child: nat, name: Name, ft: Byte, exact: bool := true)
    requires Inv(s, exact) && Linkable(s, d, child, name)
    ensures Inv(NewDirEntry(s, d, child, name, ft).0, exact) <==> NoReplacement(s, d, |name|)
  {
    if NoReplacement(s, d, |name|) {
      LinkInv(s, d, child, name, ft, exact);
    } else {
      assert DirSound(s, d);
      ReplacedSectors(s, d, child, name, ft);
      assert !DirSound(NewDirEntry(s, d, child, name, ft).0, d);
    }
  }
}

/** Where two routines do what their names say, and exactly when they do not. */
module Exactness {
  import opened Options
  import opened Bytes
  import opened Records
  import opened DirBlocks
  import opened DiskState
  import opened Directory
  import opened Invariant
  import opened Insertion
  import opened RemovalProofs

  /** No two records have the same name. */
  ghost predicate DistinctNames(es: seq<Entry>) {
    forall i, j :: 0 <= i < j < |es| ==> es[i].name != es[j].name
  }

  // ---------- new_dir_entry ----------

  lemma {:induction false} LiveOfLast(blocks: seq<Block>, ps: seq<nat>, k: nat)
    requires BlocksOk(blocks, ps + [k])
    ensures BlocksOk(blocks, ps) && k < |blocks| && BlockOk(blocks[k])
    ensures LiveOf(blocks, ps + [k]) == LiveOf(blocks, ps) + Live(blocks[k])
  {
    var all := ps + [k];
    assert all[|ps|] == k && forall j :: 0 <= j < |ps| ==> all[j] == ps[j];
    if ps == [] {
      assert all[1..] == [] && LiveOf(blocks, []) == [];
    } else {
      assert all[1..] == ps[1..] + [k] && all[0] == ps[0];
      LiveOfLast(blocks, ps[1..], k);
      ConcatAssoc(Live(blocks[ps[0]]), LiveOf(blocks, ps[1..]), Live(blocks[k]));
    }
  }

  /** The directory is full and a block can be had: it takes the place of the last one. */
  ghost predicate Replaces(s: State, d: nat, nameLen: nat)
    requires Insertable(s, d)
  {
    !HasRoom(s, d, nameLen) && s.inodes[d].sectors / 2 > 0 && FreeBlocks(s) != {}
  }

  lemma ReplacedIs(s: State, d: nat, child: nat, name: Name, ft: Byte)
    requires Shaped(s) && Insertable(s, d) && child < |s.inodes| && |name| < 0x100 && Replaces(s, d, |name|)
    ensures var s' := NewDirEntry(s, d, child, name, ft).0; var a := Least(FreeBlocks(s));
            && NewDirEntry(s, d, child, name, ft).1 && a + 1 < |s.blocks|
            && s'.inodes[d].ptr == s.inodes[d].ptr[s.inodes[d].sectors / 2 - 1 := a + 1]
            && s'.blocks == s.blocks[a + 1 := WriteRecord(s.blocks[a + 1], 0, child + 1, BLOCK_SIZE, name, ft)]
  {
  }

  lemma LastPointer(ptr: Pointers, v: nat)
    requires 0 < NumDirect(ptr) && v > 0
    ensures var n := NumDirect(ptr); var ptr' := ptr[n - 1 := v];
            Direct(ptr) == ptr[..n - 1] + [ptr[n - 1]] && Direct(ptr') == ptr[..n - 1] + [v]
  {
    NumDirectIs(ptr[NumDirect(ptr) - 1 := v], 0, NumDirect(ptr));
  }

  lemma PrefixKept(s: State, s': State, d: nat, ps: seq<nat>, a: nat)
    requires d < |s.inodes| && ps <= Direct(s.inodes[d].ptr) && a + 1 !in Direct(s.inodes[d].ptr)
    requires BlocksOk(s.blocks, ps) && |s.blocks| == |s'.blocks|
    requires forall p :: 0 <= p < |s.blocks| && p != a + 1 ==> s'.blocks[p] == s.blocks[p]
    ensures BlocksOk(s'.blocks, ps) && LiveOf(s'.blocks, ps) == LiveOf(s.blocks, ps)
  {
    forall j | 0 <= j < |ps| ensures s'.blocks[ps[j]] == s.blocks[ps[j]] {
      assert ps[j] == Direct(s.inodes[d].ptr)[j];
    }
    LiveOfFrame(s.blocks, s'.blocks, ps);
  }

  lemma ReplacedParts(s: State, s': State, d: nat, k: nat, e: Entry) returns (a: seq<Entry>, b: seq<Entry>)
    requires DirOk(s, d) && 0 < NumDirect(s.inodes[d].ptr) && k + 1 !in Direct(s.inodes[d].ptr)
    requires d < |s'.inodes| && s'.inodes[d].ptr == s.inodes[d].ptr[NumDirect(s.inodes[d].ptr) - 1 := k + 1]
    requires k + 1 < |s.blocks| == |s'.blocks| && BlockOk(s'.blocks[k + 1]) && Live(s'.blocks[k + 1]) == [e]
    requires forall p :: 0 <= p < |s.blocks| && p != k + 1 ==> s'.blocks[p] == s.blocks[p]
    ensures b != [] && DirOk(s', d) && DirEntries(s, d) == a + b && DirEntries(s', d) == a + [e]
  {
    var n := NumDirect(s.inodes[d].ptr);
    var ps := s.inodes[d].ptr[..n - 1];
    LastPointer(s.inodes[d].ptr, k + 1);
    LiveOfLast(s.blocks, ps, s.inodes[d].ptr[n - 1]);
    PrefixKept(s, s', d, ps, k);
    assert BlocksOk(s'.blocks, ps + [k + 1]);
    LiveOfLast(s'.blocks, ps, k + 1);
    a, b := LiveOf(s.blocks, ps), Live(s.blocks[s.inodes[d].ptr[n - 1]]);
  }

  lemma ReplacedBlock(s: State, d: nat, child: nat, name: Name, ft: Byte) returns (k: nat, e: Entry)
    requires Shaped(s) && Insertable(s, d) && child < |s.inodes| && |name| < 0x100 && Replaces(s, d, |name|)
    ensures var s' := NewDirEntry(s, d, child, name, ft).0;
            && k == Least(FreeBlocks(s)) && k + 1 < |s.blocks| == |s'.blocks|
            && d < |s'.inodes| && s'.inodes[d].ptr == s.inodes[d].ptr[s.inodes[d].sectors / 2 - 1 := k + 1]
            && BlockOk(s'.blocks[k + 1]) && Live(s'.blocks[k + 1]) == [e]
            && e.ino == child + 1 && e.name == name && e.ft == ft
            && forall p :: 0 <= p < |s.blocks| && p != k + 1 ==> s'.blocks[p] == s.blocks[p]
  {
    k := Least(FreeBlocks(s));
    e := Entry(0, child + 1, BLOCK_SIZE, name, ft);
    ReplacedIs(s, d, child, name, ft);
    FreshBlock(s.blocks[k + 1], child + 1, name, ft);
  }

  /** The records of the last block are gone from the directory; the new one is there alone. */
  lemma ReplacedEntries(s: State, d: nat, child: nat, name: Name, ft: Byte)
    returns (a: seq<Entry>, b: seq<Entry>, e: Entry)
    requires Shaped(s) && Tallied(s, d) && Insertable(s, d) && child < |s.inodes| && |name| < 0x100
    requires Replaces(s, d, |name|) && Least(FreeBlocks(s)) + 1 !in Direct(s.inodes[d].ptr)
    ensures var s' := NewDirEntry(s, d, child, name, ft).0;
            && b != [] && e.ino == child + 1 && e.name == name && e.ft == ft && DirOk(s', d)
            && DirEntries(s, d) == a + b && DirEntries(s', d) == a + [e]
  {
    var k;
    k, e := ReplacedBlock(s, d, child, name, ft);
    a, b := ReplacedParts(s, NewDirEntry(s, d, child, name, ft).0, d, k, e);
  }

  /** Every old name is still answered as before. */
  ghost predicate KeepsNames(es: seq<Entry>, es': seq<Entry>) {
    forall m :: FindIno(es, m).Some? ==> FindIno(es', m) == FindIno(es, m)
  }

  lemma ReplacedLoses(es: seq<Entry>, es': seq<Entry>, a: seq<Entry>, b: seq<Entry>, e: Entry)
    requires es == a + b && es' == a + [e] && b != [] && DistinctNames(es) && FindIno(es, e.name) == None
    ensures !KeepsNames(es, es')
  {
    var z := b[0];
    assert es[|a|] == z && z in es;
    FindNone(es, z.name);
    FindNone(es, e.name);
    forall y | y in es' ensures y.name != z.name {
      if y in a {
        var i :| 0 <= i < |a| && a[i] == y;
        assert es[i] == y;
      }
    }
    FindNone(es', z.name);
  }

  lemma NewIsForeign(s: State, d: nat)
    requires AllocOk(s) && Used(s, d) && FreeBlocks(s) != {}
    ensures Least(FreeBlocks(s)) + 1 !in Direct(s.inodes[d].ptr)
  {
    FreeNotOwned(s, Least(FreeBlocks(s)));
    assert Least(FreeBlocks(s)) + 1 !in Owned(s, d);
  }

  /**
   * A successful new_dir_entry keeps every name of the directory if and only if there was room
   * behind a record or the directory had no block; otherwise a fresh block replaces the last one.
   */
  lemma InsertKeepsNamesIff(s: State, d: nat, child: nat, name: Name, ft: Byte)
    requires AllocOk(s) && TreeOk(s) && UsedDir(s, d) && Insertable(s, d) && child < |s.inodes| && |name| < 0x100
    requires NewDirEntry(s, d, child, name, ft).1 && DirOk(s, d)
    requires DistinctNames(DirEntries(s, d)) && FindIno(DirEntries(s, d), name) == None
    ensures DirOk(NewDirEntry(s, d, child, name, ft).0, d)
    ensures KeepsNames(DirEntries(s, d), DirEntries(NewDirEntry(s, d, child, name, ft).0, d))
            <==> HasRoom(s, d, |name|) || s.inodes[d].sectors / 2 == 0
  {
    assert DirSound(s, d);
    if HasRoom(s, d, |name|) {
      var a, x, e, b := InsertShape(s, d, child, name, ft);
      SplitAdds(a, x, MinLen(|x.name|), e, b);
    } else if s.inodes[d].sectors / 2 == 0 {
      GrowShape(s, d, child, name, ft);
    } else {
      NewIsForeign(s, d);
      var a, b, e := ReplacedEntries(s, d, child, name, ft);
      ReplacedLoses(DirEntries(s, d), DirEntries(NewDirEntry(s, d, child, name, ft).0, d), a, b, e);
    }
  }

  // ---------- rm_dir_entry ----------

  /** At the head of a block the record is its own predecessor, and the one behind it goes. */
  lemma HeadMerge(b: Block, name: Name, t: nat) returns (after: seq<Entry>)
    requires BlockOk(b) && FindName(b, 0, name) == Some(0) && t == RecLen(b, 0) && t + HEADER <= BLOCK_SIZE
    ensures BlockOk(Unlink(b, 0)) && MergedInto(Live(b), Live(Unlink(b, 0)), [], At(b, 0), At(b, t), after)
    ensures NameOf(b, 0) == name
  {
    assert Chain(b, t, BLOCK_SIZE) && Entries(b, 0, 0) == [];
    FindNameSome(b, 0, name);
    UnlinkLive(b, 0, t);
    after := Entries(b, t + RecLen(b, t), BLOCK_SIZE);
  }

  lemma HeadRemoval(s: State, d: nat, name: Name) returns (j: nat, k: nat, t: nat)
    requires Removable(s, d, name) && FindRemoval(s, d, name).Some? && FirstInBlock(s, d, name)
    ensures FindRemoval(s, d, name) == Some(Removal(k, 0, t)) && t + HEADER <= BLOCK_SIZE
    ensures j < NumDirect(s.inodes[d].ptr) && s.inodes[d].ptr[j] == k < |s.blocks|
    ensures BlockOk(s.blocks[k]) && FindName(s.blocks[k], 0, name) == Some(0) && t == RecLen(s.blocks[k], 0)
    ensures BlocksOk(s.blocks, s.inodes[d].ptr[..j]) && FindIno(LiveOf(s.blocks, s.inodes[d].ptr[..j]), name) == None
  {
    var ps := Direct(s.inodes[d].ptr);
    j := SlotIndex(s.blocks, ps, name);
    assert ps[..j] == s.inodes[d].ptr[..j];
    k, t := FindRemoval(s, d, name).value.block, FindRemoval(s, d, name).value.target;
  }

  /** The records of the directory after the removal of one that heads its block. */
  lemma HeadShape(s: State, d: nat, name: Name) returns (a: seq<Entry>, x: Entry, y: Entry, b: seq<Entry>)
    requires Shaped(s) && Removable(s, d, name) && FindRemoval(s, d, name).Some? && FirstInBlock(s, d, name)
    requires PointersOk(s.inodes[d].ptr, |s.blocks|)
    ensures DirOk(Unlinked(s, d, name), d) && x.name == name
    ensures MergedInto(DirEntries(s, d), DirEntries(Unlinked(s, d, name), d), a, x, y, b)
    ensures var r := FindRemoval(s, d, name).value;
            x.name == NameOf(s.blocks[r.block], r.before) && y.name == NameOf(s.blocks[r.block], r.target)
  {
    var j, k, t := HeadRemoval(s, d, name);
    b := HeadMerge(s.blocks[k], name, t);
    x, y := At(s.blocks[k], 0), At(s.blocks[k], t);
    a, b := DirMerge(s, Unlinked(s, d, name), d, j, [], x, y, b);
  }

  lemma HeadIs(s: State, d: nat, name: Name)
    requires Shaped(s) && Removable(s, d, name) && FindRemoval(s, d, name).Some?
    requires var r := FindRemoval(s, d, name).value;
             NameOf(s.blocks[r.block], r.before) != NameOf(s.blocks[r.block], r.target)
    ensures RmDirEntry(s, d, name).0 == DropLink(Unlinked(s, d, name), RmInode(s, d, name))
  {
  }

  lemma HeadEntries(s: State, d: nat, name: Name) returns (r: State)
    requires Shaped(s) && Removable(s, d, name) && FindRemoval(s, d, name).Some? && FirstInBlock(s, d, name)
    requires PointersOk(s.inodes[d].ptr, |s.blocks|) && DistinctNames(DirEntries(s, d))
    ensures r == RmDirEntry(s, d, name).0 && DirOk(r, d) && FindIno(DirEntries(r, d), name) != None
  {
    var a, x, y, b := HeadShape(s, d, name);
    assert DirEntries(s, d)[|a|] == x && DirEntries(s, d)[|a| + 1] == y;
    HeadIs(s, d, name);
    r := RmDirEntry(s, d, name).0;
    SameEntries(Unlinked(s, d, name), r, d);
    FindNone(DirEntries(r, d), name);
    assert DirEntries(r, d)[|a|].name == name;
  }

  /**
   * With distinct names, rm_dir_entry takes the name out of the directory if and only if its
   * record does not head a block.
   */
  lemma RmForgetsIff(s: State, d: nat, name: Name) returns (r: State)
    requires Shaped(s) && Removable(s, d, name) && FindRemoval(s, d, name).Some?
    requires PointersOk(s.inodes[d].ptr, |s.blocks|) && DistinctNames(DirEntries(s, d))
    ensures r == RmDirEntry(s, d, name).0 && DirOk(r, d)
    ensures FindIno(DirEntries(r, d), name) == None <==> !FirstInBlock(s, d, name)
  {
    if FirstInBlock(s, d, name) {
      r := HeadEntries(s, d, name);
    } else {
      var a, x, y, b := RmShape(s, d, name);
      RmIs(s, d, name);
      r := RmDirEntry(s, d, name).0;
      SameEntries(Unlinked(s, d, name), r, d);
      MergeLoses(DirEntries(s, d), DirEntries(r, d), a, x, y, b);
    }
  }

  lemma MergeLoses(es: seq<Entry>, es': seq<Entry>, a: seq<Entry>, x: Entry, y: Entry, b: seq<Entry>)
    requires MergedInto(es, es', a, x, y, b) && DistinctNames(es)
    ensures FindIno(es', y.name) == None
  {
    FindNone(es', y.name);
    var at := |a| + 1;
    assert es[at] == y;
    forall i | 0 <= i < |es'| ensures es'[i].name != y.name {
      var z := es[if i <= |a| then i else i + 1];
      assert es'[i].name == z.name;
    }
  }
}

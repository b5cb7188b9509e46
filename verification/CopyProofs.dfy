/** Writing a file keeps the invariant. */
module CopyProofs {
  import opened Bytes
  import opened DiskState
  import opened Directory
  import opened Invariant
  import opened Insertion
  import opened Writing
  import opened WriteProofs

  // ---------- the invariant ----------

  /** A file's blocks changed, and nothing that was in use elsewhere. */
  lemma TreeUntouched(s: State, s': State, n: nat, exact: bool := true)
    requires AllocOk(s) && TreeOk(s, exact) && Shaped(s') && Untouched(s, s', n) && Used(s, n)
    requires !IsDir(s.inodes[n].mode)
    requires s'.inodes[n].mode == s.inodes[n].mode && s'.inodes[n].links == s.inodes[n].links
    ensures TreeOk(s', exact)
  {
    forall f: nat | UsedDir(s, f) ensures f != n && UsedDir(s', f) && DirOk(s, f) && SameDir(s, s', f) {
      assert DirSound(s, f) && MarksOwned(s, f);
      forall p | p in Owned(s, f) ensures s'.blocks[p] == s.blocks[p] { assert Marked(s, p); }
    }
    forall f: nat, ino: nat ensures DirCount(s', f, ino) == DirCount(s, f, ino) {
      if UsedDir(s, f) { SameEntries(s, s', f); }
    }
    forall d | UsedDir(s', d) ensures DirSound(s', d) { UntouchedDir(s, s', d, exact); }
    forall m: nat | m < |s.inodes| ensures InodeSound(s', m, exact) {
      assert InodeSound(s, m, exact);
      TotalShift(s, s', |s.inodes|, m + 1, 0, 0);
    }
  }

  lemma UntouchedDir(s: State, s': State, d: nat, exact: bool := true)
    requires TreeOk(s, exact) && UsedDir(s, d) && d < |s'.inodes| && SameDir(s, s', d) && s'.inodeBits == s.inodeBits
    requires |s'.inodes| == |s.inodes|
    ensures DirSound(s', d)
  {
    assert DirSound(s, d);
    SameEntries(s, s', d);
    assert forall e :: e in DirEntries(s, d) && e.ino != 0 ==> Used(s, e.ino - 1) && Used(s', e.ino - 1);
  }

  lemma DirectStepAlloc(s: State, n: nat, src: seq<Byte>, i: nat)
    requires AllocOk(s) && Used(s, n) && i < DIRECT && 1024 * i < |src| && FreeBlocks(s) != {}
    requires NumDirect(s.inodes[n].ptr) == i
    ensures var s' := DirectStep(s, n, src, i);
            AllocOk(s') && Used(s', n) && NumDirect(s'.inodes[n].ptr) == i + 1
  {
    var a := Least(FreeBlocks(s));
    NewBlockInside(s);
    var f := s.inodes[n];
    var g := f.(ptr := f.ptr[i := a + 1], sectors := f.sectors + 2);
    AppendPointer(s, n, a, g);
    AllocFrame(SetInode(TakeBlock(s, a), n, g), DirectStep(s, n, src, i));
    NumDirectIs(g.ptr, 0, i + 1);
  }

  lemma {:induction false} WriteDirectAlloc(s: State, n: nat, src: seq<Byte>, i: nat)
    requires AllocOk(s) && Used(s, n) && i <= DIRECT && NumDirect(s.inodes[n].ptr) == i
    ensures AllocOk(WriteDirect(s, n, src, i).0)
    decreases DIRECT - i
  {
    if 1024 * i < |src| && i < DIRECT && FreeBlocks(s) != {} {
      DirectStepAlloc(s, n, src, i);
      WriteDirectAlloc(DirectStep(s, n, src, i), n, src, i + 1);
    }
  }

  /** Up to twelve blocks, a write into a fresh file keeps the invariant, also when it runs out of blocks. */
  lemma WriteInv(s: State, n: nat, src: seq<Byte>, exact: bool := true)
    requires Inv(s, exact) && Used(s, n) && !IsDir(s.inodes[n].mode) && NumDirect(s.inodes[n].ptr) == 0
    requires |src| <= 1024 * DIRECT
    ensures Inv(WriteString(s, n, src).0, exact)
  {
    var s0 := SetSize(s, n, |src|);
    AllocFrame(s, s0);
    WriteDirectAlloc(s0, n, src, 0);
    FirstLoop(s0, n, src);
    WriteFrame(s, n, src);
    TreeUntouched(s, WriteString(s, n, src).0, n, exact);
  }
}

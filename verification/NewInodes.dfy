/** new_inode and its three callers keep the invariant. */
module NewInodes {
  import opened DiskState
  import opened Invariant
  import opened RemovalProofs

  lemma EmptyPointers(ptr: Pointers)
    requires ptr == seq(POINTERS, _ => 0)
    ensures NumDirect(ptr) == 0 && Direct(ptr) == [] && DirectOnly(ptr) && forall size :: PointersOk(ptr, size)
  {
  }

  lemma NewInodeAlloc(s: State, n: nat, i: Inode)
    requires AllocOk(s) && n in FreeInodes(s) && i.ptr == seq(POINTERS, _ => 0)
    ensures AllocOk(SetInode(TakeInode(s, n), n, i))
  {
    EmptyPointers(i.ptr);
    TakeInodeCounted(s, n);
    var s1 := TakeInode(s, n);
    var s' := SetInode(s1, n, i);
    assert FreeBlocks(s') == FreeBlocks(s1) && FreeInodes(s') == FreeInodes(s1);
    assert Owned(s', n) == {};
    forall m | Used(s', m) && m != n ensures Used(s, m) && Owned(s', m) == Owned(s, m) && MarksOwned(s', m) {
      assert MarksOwned(s, m);
    }
  }

  /** The new inode is the lowest free one; it is in use, with no link and no block. */
  lemma NewInodeInv(s: State, mode: nat, now: nat, exact: bool := true)
    requires Inv(s, exact)
    ensures Inv(NewInodeOf(s, mode, now).0, exact)
  {
    if FreeInodes(s) != {} {
      var n := Least(FreeInodes(s));
      var i := Inode(mode, 0, now, 0, 0, 0, seq(POINTERS, _ => 0));
      EmptyPointers(i.ptr);
      NewInodeAlloc(s, n, i);
      TreeNewInode(s, SetInode(TakeInode(s, n), n, i), n, exact);
    }
  }
}

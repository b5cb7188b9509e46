/** Copying a file in, removing it and restoring it: the removal is undone. */
module CpRmRestore {
  import opened Options
  import opened Bytes
  import opened Records
  import opened DirBlocks
  import opened DiskState
  import opened Directory
  import opened Invariant
  import opened RemovalProofs
  import opened RemovalInv
  import opened Restoration
  import opened RmRestore
  import opened Commands
  import opened CpRm

  /** The record of a copied file lies right behind a tight one. */
  lemma CopiedTight(s: State, t: State, d: nat, n: nat, name: Name, a: seq<Entry>, x: Entry, e: Entry, b: seq<Entry>)
    requires Copied(s, t, d, n, name, a, x, e, b) && FindIno(DirEntries(s, d), name) == None
    requires Shaped(t) && Removable(t, d, name) && FindRemoval(t, d, name).Some? && !FirstInBlock(t, d, name)
    requires PointersOk(t.inodes[d].ptr, |t.blocks|)
    ensures var r := FindRemoval(t, d, name).value; var blk := t.blocks[r.block];
            RecLen(blk, r.before) == MinLen(NameLen(blk, r.before)) && FileType(blk, r.target) == FT_REG_FILE
  {
    OnlyNamed(DirEntries(s, d), DirEntries(t, d), name, a, x, e, b);
    var a', x', y, b' := RmShape(t, d, name);
    SplitFound(DirEntries(s, d), DirEntries(t, d), DirEntries(Unlinked(t, d, name), d),
               name, a, x, e, b, a', x', y, b');
  }

  /** What the removal of a copied file finds. */
  lemma CopiedSite(s: State, t: State, d: nat, n: nat, name: Name, a: seq<Entry>, x: Entry, e: Entry, b: seq<Entry>)
    returns (k: nat, p: nat, f: nat)
    requires Inv(t) && Copied(s, t, d, n, name, a, x, e, b) && FindIno(DirEntries(s, d), name) == None && UsedDir(t, d)
    ensures CanRemove(t, d, name) && RmSite(t, d, name, k, p, f) && k < |t.blocks|
    ensures p + HEADER <= BLOCK_SIZE && f + HEADER <= BLOCK_SIZE && FileType(t.blocks[k], f) != FT_DIR
    ensures Ino(t.blocks[k], f) == n + 1 && Undoable(t, k, p, n)
  {
    CopiedRemovable(s, t, d, n, name, a, x, e, b);
    CopiedTight(s, t, d, n, name, a, x, e, b);
    var r := FindRemoval(t, d, name).value;
    k, p, f := r.block, r.before, r.target;
  }

  lemma RmUndone(t: State, d: nat, name: Name, n: nat, k: nat, p: nat, f: nat) returns (r: State)
    requires Inv(t) && CanRemove(t, d, name) && RmSite(t, d, name, k, p, f) && k < |t.blocks|
    requires p + HEADER <= BLOCK_SIZE && f + HEADER <= BLOCK_SIZE && FileType(t.blocks[k], f) != FT_DIR
    requires n < |t.inodes| && Ino(t.blocks[k], f) == n + 1 && Undoable(t, k, p, n)
    ensures RmDirEntry(t, d, name) == (r, true) && Shaped(r) && d < |r.inodes|
    ensures NoOtherMatch(r, d, name, k, f) ==> RestoreDirEntry(r, d, name) == Scan(t, true, false)
  {
    RmInv(t, d, name);
    r := RmDirEntry(t, d, name).0;
    if NoOtherMatch(r, d, name, k, f) { RmRestoreIff(t, r, d, name, k, p, f, n); }
  }

  /**
   * Copy a file in, remove it, restore it: the disk is the one after the copy, bit for bit, provided
   * that nothing else hidden in the directory matches the name.
   */
  lemma CpThenRmThenRestore(s: State, d: nat, name: Name, src: seq<Byte>, now: nat)
    returns (t: State, r: State, at: Removal)
    requires Inv(s) && UsedDir(s, d) && DirOk(s, d) && AddReady(s, d, name) && HasRoom(s, d, |name|)
    requires FreeInodes(s) != {} && |src| <= 1024 * DIRECT && FindIno(DirEntries(s, d), name) == None
    ensures t == AddFile(s, d, name, S_IFREG, FT_REG_FILE, src, now).0
    ensures Removable(t, d, name) && FindRemoval(t, d, name) == Some(at) && RmDirEntry(t, d, name) == (r, true)
    ensures Shaped(r) && d < |r.inodes|
    ensures NoOtherMatch(r, d, name, at.block, at.target) ==> RestoreDirEntry(r, d, name) == Scan(t, true, false)
  {
    var n, a, x, e, b, k, p, f;
    t, n, a, x, e, b := CopyIn(s, d, name, src, now);
    k, p, f := CopiedSite(s, t, d, n, name, a, x, e, b);
    at := Removal(k, p, f);
    r := RmUndone(t, d, name, n, k, p, f);
  }
}

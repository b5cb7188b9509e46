/** The counters go with the bitmaps through every insertion and every write, however large, done or not. */
module Counters {
  import opened Bytes
  import opened Records
  import opened DiskState
  import opened Directory
  import opened Invariant
  import opened Insertion
  import opened RemovalProofs
  import opened Writing
  import opened Commands

  /** The bits and the counters are the same. */
  ghost predicate SameBits(s: State, s': State) {
    && s'.blockBits == s.blockBits && s'.inodeBits == s.inodeBits
    && s'.sbFreeBlocks == s.sbFreeBlocks && s'.gdFreeBlocks == s.gdFreeBlocks
    && s'.sbFreeInodes == s.sbFreeInodes && s'.gdFreeInodes == s.gdFreeInodes
  }

  lemma SameCounted(s: State, s': State)
    requires Counted(s) && SameBits(s, s')
    ensures Counted(s')
  {
    assert FreeBlocks(s') == FreeBlocks(s) && FreeInodes(s') == FreeInodes(s);
  }

  lemma TookCounted(s: State, s': State)
    requires Shaped(s) && Counted(s) && FreeBlocks(s) != {} && SameBits(TakeBlock(s, Least(FreeBlocks(s))), s')
    ensures Counted(s')
  {
    TakeBlockCounted(s, Least(FreeBlocks(s)));
    SameCounted(TakeBlock(s, Least(FreeBlocks(s))), s');
  }

  lemma {:induction false} DirectCounted(s: State, n: nat, src: seq<Byte>, i: nat)
    requires Shaped(s) && Counted(s) && n < |s.inodes| && i <= DIRECT
    ensures Counted(WriteDirect(s, n, src, i).0)
    decreases DIRECT - i
  {
    if 1024 * i < |src| && i < DIRECT && FreeBlocks(s) != {} {
      TookCounted(s, DirectStep(s, n, src, i));
      DirectCounted(DirectStep(s, n, src, i), n, src, i + 1);
    }
  }

  lemma {:induction false} IndirectCounted(s: State, n: nat, src: seq<Byte>, tbl: nat, j: nat)
    requires Shaped(s) && Counted(s) && n < |s.inodes| && tbl < |s.blocks| && j <= TABLE
    ensures Counted(WriteIndirect(s, n, src, tbl, j).0)
    decreases TABLE - j
  {
    if 1024 * (DIRECT + j) < |src| && j < TABLE && FreeBlocks(s) != {} {
      TookCounted(s, IndirectStep(s, n, src, tbl, j));
      IndirectCounted(IndirectStep(s, n, src, tbl, j), n, src, tbl, j + 1);
    }
  }

  /** A write of any length, also one that runs out of blocks. */
  lemma WriteCounted(s: State, n: nat, src: seq<Byte>)
    requires Shaped(s) && Counted(s) && n < |s.inodes|
    ensures Counted(WriteString(s, n, src).0)
  {
    var s0 := SetSize(s, n, |src|);
    SameCounted(s, s0);
    DirectCounted(s0, n, src, 0);
    var d := WriteDirect(s0, n, src, 0);
    if GoesOn(d.0, d.1, src, d.2) {
      NewBlockInside(d.0);
      TookCounted(d.0, TableStep(d.0, n));
      IndirectCounted(TableStep(d.0, n), n, src, Least(FreeBlocks(d.0)) + 1, 0);
    }
  }

  lemma InsertCounted(s: State, d: nat, child: nat, name: Name, ft: Byte)
    requires Shaped(s) && Counted(s) && Insertable(s, d) && child < |s.inodes| && |name| < 0x100
    ensures Counted(NewDirEntry(s, d, child, name, ft).0)
  {
    var s' := NewDirEntry(s, d, child, name, ft).0;
    if HasRoom(s, d, |name|) || FreeBlocks(s) == {} {
      SameCounted(s, s');
    } else {
      TookCounted(s, s');
    }
  }

  lemma InodeCounted(s: State, mode: nat, now: nat)
    requires Shaped(s) && Counted(s) && FreeInodes(s) != {}
    ensures Counted(NewInodeOf(s, mode, now).0)
  {
    TakeInodeCounted(s, Least(FreeInodes(s)));
    SameCounted(TakeInode(s, Least(FreeInodes(s))), NewInodeOf(s, mode, now).0);
  }

  /** cp and ln -s keep the counters, whatever they write and however far they get. */
  lemma FileCounted(s: State, d: nat, name: Name, mode: nat, ft: Byte, src: seq<Byte>, now: nat)
    requires AddReady(s, d, name) && Counted(s)
    ensures Counted(AddFile(s, d, name, mode, ft, src, now).0)
  {
    if FreeInodes(s) != {} {
      NewInodeFacts(s, mode, now);
      InodeCounted(s, mode, now);
      var n, s1 := Least(FreeInodes(s)), NewInodeOf(s, mode, now).0;
      InsertCounted(s1, d, n, name, ft);
      var e := NewDirEntry(s1, d, n, name, ft);
      if e.1 { WriteCounted(e.0, n, src); }
    }
  }

  lemma DotsCounted(s: State, n: nat, d: nat)
    requires Shaped(s) && Counted(s) && n < |s.inodes| && d < |s.inodes| && s.inodes[n].sectors == 0
    ensures Counted(Dots(s, n, d).0)
  {
    if FreeBlocks(s) != {} {
      DotLeavesRoom(s, n);
      InsertCounted(s, n, n, DOT_NAME, FT_DIR);
      InsertCounted(NewDirEntry(s, n, n, DOT_NAME, FT_DIR).0, n, d, DOT_DOT_NAME, FT_DIR);
    }
  }

  /** So does mkdir. */
  lemma MkdirCounted(s: State, d: nat, name: Name, now: nat)
    requires AddReady(s, d, name) && Counted(s)
    ensures Counted(MkdirAt(s, d, name, now).0)
  {
    if FreeInodes(s) != {} {
      NewInodeFacts(s, S_IFDIR, now);
      InodeCounted(s, S_IFDIR, now);
      var n, s0 := Least(FreeInodes(s)), NewInodeOf(s, S_IFDIR, now).0;
      SameCounted(s0, CountDir(s0));
      InsertCounted(CountDir(s0), d, n, name, FT_DIR);
      var e := NewDirEntry(CountDir(s0), d, n, name, FT_DIR);
      if e.1 { DotsCounted(e.0, n, d); }
    }
  }

  /** Every command but rm and restore, successful or not. */
  lemma AddingCounted(s: State, c: Command)
    requires Runnable(s, c) && Counted(s) && !c.Rm? && !c.Restore?
    ensures Counted(Step(s, c).0)
  {
    match c
    case Mkdir(path, now) =>
      var t := MkdirTarget(s, path);
      if t.Some? { MkdirCounted(s, t.value.0, t.value.1, now); }
    case Cp(file, sourceName, dest, now) =>
      var t := CpTarget(s, sourceName, dest);
      if t.Some? && file.Some? {
        FileCounted(s, t.value.0, t.value.1, S_IFREG, FT_REG_FILE, CString(file.value), now);
      }
    case Ln(source, dest) =>
      var t := LnTarget(s, source, dest);
      if t.Some? { InsertCounted(s, t.value.1, t.value.0, t.value.2, FT_REG_FILE); }
    case LnS(source, dest, now) =>
      var t := LnTarget(s, source, dest);
      if t.Some? { FileCounted(s, t.value.1, t.value.2, S_IFLNK, FT_SYMLINK, source, now); }
    case _ =>
  }
}

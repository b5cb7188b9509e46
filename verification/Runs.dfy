/** Every run of the commands keeps the invariant. */
module Runs {
  import opened Options
  import opened Bytes
  import opened Records
  import opened DiskState
  import opened Directory
  import opened Invariant
  import opened Insertion
  import opened RemovalInv
  import opened Restoration
  import opened RestoreSafe
  import opened RestorePrefix
  import opened Writing
  import opened NewInodes
  import opened CopyProofs
  import opened Paths
  import opened Commands
  import opened PathFacts

  // ---------- one command ----------

  /** The directory has room for the name, or no block yet, or there is no block to get. */
  ghost predicate Roomy(s: State, d: nat, name: Name) { Insertable(s, d) && NoReplacement(s, d, |name|) }

  lemma AddFileInv(s: State, d: nat, name: Name, mode: nat, ft: Byte, src: seq<Byte>, now: nat, exact: bool := true)
    returns (r: State)
    requires Inv(s, exact) && UsedDir(s, d) && AddReady(s, d, name) && Roomy(s, d, name)
    requires |src| <= 1024 * DIRECT && !IsDir(mode)
    ensures Inv(r, exact) && r == AddFile(s, d, name, mode, ft, src, now).0
  {
    r := s;
    if FreeInodes(s) != {} {
      var n, s1 := Least(FreeInodes(s)), NewInodeOf(s, mode, now).0;
      NewInodeFacts(s, mode, now);
      NewInodeInv(s, mode, now, exact);
      assert FreeBlocks(s1) == FreeBlocks(s);
      assert CanLink(s1, d, n, name);
      InsertInv(s1, d, n, name, ft, exact);
      var e := NewDirEntry(s1, d, n, name, ft);
      r := e.0;
      if e.1 {
        EmptyPointers(e.0.inodes[n].ptr);
        WriteInv(e.0, n, src, exact);
        r := WriteString(e.0, n, src).0;
      }
    }
  }

  lemma CountDirInv(s: State, exact: bool := true)
    requires Inv(s, exact)
    ensures Inv(CountDir(s), exact)
  {
    var s' := CountDir(s);
    AllocFrame(s, s');
    forall d | UsedDir(s', d) ensures DirSound(s', d) { assert DirSound(s, d); SameEntries(s, s', d); }
    forall d: nat, ino: nat ensures DirCount(s', d, ino) == DirCount(s, d, ino) {
      if UsedDir(s, d) { SameEntries(s, s', d); }
    }
    forall m: nat | m < |s.inodes| ensures InodeSound(s', m, exact) {
      assert InodeSound(s, m, exact);
      TotalShift(s, s', |s.inodes|, m + 1, 0, 0);
    }
  }

  lemma DotsInv(s: State, n: nat, d: nat, exact: bool := true) returns (r: State)
    requires Inv(s, exact) && UsedDir(s, n) && UsedDir(s, d) && d != n && s.inodes[n].sectors == 0
    requires s.inodes[n].links < 0xFFFF && s.inodes[d].links < 0xFFFF
    ensures Inv(r, exact) && r == Dots(s, n, d).0
  {
    r := s;
    if FreeBlocks(s) != {} {
      DotLeavesRoom(s, n);
      InsertInv(s, n, n, DOT_NAME, FT_DIR, exact);
      var s1 := NewDirEntry(s, n, n, DOT_NAME, FT_DIR).0;
      InsertInv(s1, n, d, DOT_DOT_NAME, FT_DIR, exact);
      r := NewDirEntry(s1, n, d, DOT_DOT_NAME, FT_DIR).0;
    }
  }

  lemma CountedDir(s: State, s0: State, d: nat, n: nat, name: Name) returns (s1: State)
    requires d < |s.inodes| && |s0.inodes| == |s.inodes|
    requires s0.blocks == s.blocks && s0.blockBits == s.blockBits && s0.inodes[d] == s.inodes[d]
    requires UsedDir(s0, d) && UsedDir(s0, n)
    ensures s1 == CountDir(s0) && s1.inodes == s0.inodes
    ensures UsedDir(s1, d) && UsedDir(s1, n) && (Roomy(s, d, name) ==> Roomy(s1, d, name))
  {
    s1 := CountDir(s0);
    assert FreeBlocks(s1) == FreeBlocks(s);
  }

  lemma FreshInode(s: State, d: nat, mode: nat, now: nat, exact: bool := true) returns (n: nat, s0: State)
    requires Inv(s, exact) && UsedDir(s, d) && FreeInodes(s) != {}
    ensures NewInodeOf(s, mode, now) == (s0, Some(n)) && n == Least(FreeInodes(s))
    ensures Inv(s0, exact)
    ensures Used(s0, n) && s0.inodes[n] == Inode(mode, 0, now, 0, 0, 0, seq(POINTERS, _ => 0)) && d != n
    ensures UsedDir(s0, d) && s0.inodes[d] == s.inodes[d] && |s0.inodes| == |s.inodes|
    ensures s0.blocks == s.blocks && s0.blockBits == s.blockBits
    ensures n in FreeInodes(s) && s0.inodeBits == s.inodeBits[n := true] && s0.usedDirs == s.usedDirs
    ensures forall m :: 0 <= m < |s.inodes| && m != n ==> s0.inodes[m] == s.inodes[m]
  {
    n, s0 := Least(FreeInodes(s)), NewInodeOf(s, mode, now).0;
    NewInodeFacts(s, mode, now);
    NewInodeInv(s, mode, now, exact);
  }

  /** After new_inode_dir the parent is as it was and the new directory is empty. */
  lemma FreshDir(s: State, d: nat, name: Name, now: nat, exact: bool := true) returns (n: nat, s1: State)
    requires Inv(s, exact) && UsedDir(s, d) && Roomy(s, d, name) && FreeInodes(s) != {}
    ensures n == Least(FreeInodes(s)) && s1 == CountDir(NewInodeOf(s, S_IFDIR, now).0)
    ensures Inv(s1, exact)
    ensures UsedDir(s1, d) && UsedDir(s1, n) && d != n && Roomy(s1, d, name)
    ensures s1.inodes[n].sectors == 0 && s1.inodes[n].links == 0 && s1.inodes[d] == s.inodes[d]
  {
    var s0;
    n, s0 := FreshInode(s, d, S_IFDIR, now, exact);
    ModesAre();
    assert UsedDir(s0, n);
    s1 := CountedDir(s, s0, d, n, name);
    CountDirInv(s0, exact);
  }

  lemma NamedDir(s: State, d: nat, n: nat, name: Name) returns (r: State, ok: bool)
    requires Shaped(s) && Insertable(s, d) && |name| < 0x100 && UsedDir(s, n) && UsedDir(s, d) && d != n
    requires s.inodes[n].sectors == 0 && s.inodes[n].links == 0
    ensures (r, ok) == NewDirEntry(s, d, n, name, FT_DIR) && r == NewDirEntry(s, d, n, name, FT_DIR).0
    ensures |r.inodes| == |s.inodes| && UsedDir(r, d) && UsedDir(r, n) && r.inodes[n].sectors == 0
    ensures r.inodes[n].links <= 1 && r.inodes[d].links == s.inodes[d].links
  {
    var e := NewDirEntry(s, d, n, name, FT_DIR);
    r, ok := e.0, e.1;
  }

  lemma MkdirInv(s: State, d: nat, name: Name, now: nat, exact: bool := true) returns (r: State)
    requires Inv(s, exact) && UsedDir(s, d) && AddReady(s, d, name) && Roomy(s, d, name)
    requires s.inodes[d].links < 0xFFFF
    ensures Inv(r, exact) && r == MkdirAt(s, d, name, now).0
  {
    r := s;
    if FreeInodes(s) != {} {
      var n, s1 := FreshDir(s, d, name, now, exact);
      var e, ok := NamedDir(s1, d, n, name);
      InsertInv(s1, d, n, name, FT_DIR, exact);
      r := e;
      if ok { r := DotsInv(e, n, d, exact); }
    }
  }

  // ---------- any command ----------

  // For each command: whether it stays within what the invariant can say (files of at most twelve
  // blocks, link counts of 16 bits), and whether it keeps the invariant.

  /** new_dir_entry succeeds: there is room, or a block to get. */
  ghost predicate Inserts(s: State, d: nat, name: Name) {
    Insertable(s, d) && (HasRoom(s, d, |name|) || FreeBlocks(s) != {})
  }

  ghost predicate MkdirKeeps(s: State, path: Path)
    requires Sane(s)
  {
    var t := MkdirTarget(s, path);
    t.Some? && FreeInodes(s) != {} ==> Roomy(s, t.value.0, t.value.1)
  }

  ghost predicate MkdirLegal(s: State, path: Path) {
    && Sane(s) && MkdirReady(s, path) && MkdirKeeps(s, path)
    && var t := MkdirTarget(s, path);
       t.Some? ==> s.inodes[t.value.0].links < 0xFFFF
  }

  ghost predicate CpKeeps(s: State, file: Option<seq<Byte>>, sourceName: Name, dest: Path)
    requires Sane(s)
  {
    var t := CpTarget(s, sourceName, dest);
    t.Some? && file.Some? && FreeInodes(s) != {} ==> Roomy(s, t.value.0, t.value.1)
  }

  ghost predicate CpLegal(s: State, file: Option<seq<Byte>>, sourceName: Name, dest: Path) {
    && Sane(s) && CpReady(s, file, sourceName, dest) && CpKeeps(s, file, sourceName, dest)
    && (file.Some? ==> |CString(file.value)| <= 1024 * DIRECT)
  }

  /** If it gets to insert the record: the parent is a directory, and no block of it is replaced. */
  ghost predicate LnKeeps(s: State, source: Path, dest: Path)
    requires Sane(s)
  {
    var t := LnTarget(s, source, dest);
    t.Some? && t.value.1 < |s.inodes| && Inserts(s, t.value.1, t.value.2) ==>
      IsDir(s.inodes[t.value.1].mode) && Roomy(s, t.value.1, t.value.2)
  }

  ghost predicate LnLegal(s: State, source: Path, dest: Path) {
    && Sane(s) && LnReady(s, source, dest) && LnKeeps(s, source, dest)
    && var t := LnTarget(s, source, dest);
       t.Some? && t.value.0 < |s.inodes| ==> s.inodes[t.value.0].links < 0xFFFF
  }

  ghost predicate LnSLegal(s: State, source: Path, dest: Path) {
    && Sane(s) && LnSReady(s, source, dest) && LnKeeps(s, source, dest) && |source| <= 1024 * DIRECT
  }

  /** If it finds a record: the parent is a directory, and no directory loses its last link. */
  ghost predicate RmKeeps(s: State, path: Path)
    requires Sane(s) && RmReady(s, path)
  {
    var t := RmTarget(s, path);
    t.Some? && FindRemoval(s, t.value.0, t.value.1).Some? ==>
      IsDir(s.inodes[t.value.0].mode) && SparesDirs(s, t.value.0, t.value.1)
  }

  ghost predicate RmLegal(s: State, path: Path) { Sane(s) && RmReady(s, path) && RmKeeps(s, path) }

  /** With `exact` unset, links that no record holds do not matter. */
  ghost predicate RestoreKeeps(s: State, path: Path, exact: bool := true)
    requires Sane(s)
  {
    var t := RestoreTarget(s, path);
    exact && t.Some? && t.value.0 < |s.inodes| && IsDir(s.inodes[t.value.0].mode) ==>
      DirOk(s, t.value.0) && RevivesPrefix(s, t.value.0, t.value.1)
  }

  ghost predicate RestoreLegal(s: State, path: Path, exact: bool := true) {
    Sane(s) && RestoreReady(s, path) && RestoreKeeps(s, path, exact)
  }

  /** With `exact` unset, restores are not limited. */
  ghost predicate Legal(s: State, c: Command, exact: bool := true) {
    match c
    case Mkdir(path, _) => MkdirLegal(s, path)
    case Cp(file, sourceName, dest, _) => CpLegal(s, file, sourceName, dest)
    case Ln(source, dest) => LnLegal(s, source, dest)
    case LnS(source, dest, _) => LnSLegal(s, source, dest)
    case Rm(path) => RmLegal(s, path)
    case Restore(path) => RestoreLegal(s, path, exact)
  }

  lemma MkdirStepInv(s: State, path: Path, now: nat, exact: bool := true) returns (r: State)
    requires Inv(s, exact) && MkdirLegal(s, path)
    ensures Inv(r, exact) && r == MkdirStep(s, path, now).0
  {
    r := s;
    var t := MkdirTarget(s, path);
    if t.Some? && FreeInodes(s) != {} {
      DirUsed(s, t.value.0, exact);
      r := MkdirInv(s, t.value.0, t.value.1, now, exact);
    }
  }

  lemma CpStepInv(s: State, file: Option<seq<Byte>>, sourceName: Name, dest: Path, now: nat, exact: bool := true)
    returns (r: State)
    requires Inv(s, exact) && CpLegal(s, file, sourceName, dest)
    ensures Inv(r, exact) && r == CpStep(s, file, sourceName, dest, now).0
  {
    r := s;
    var t := CpTarget(s, sourceName, dest);
    if t.Some? && file.Some? && FreeInodes(s) != {} {
      DirUsed(s, t.value.0, exact);
      ModesAre();
      r := AddFileInv(s, t.value.0, t.value.1, S_IFREG, FT_REG_FILE, CString(file.value), now, exact);
    }
  }

  lemma LnStepInv(s: State, source: Path, dest: Path, exact: bool := true) returns (r: State)
    requires Inv(s, exact) && LnLegal(s, source, dest)
    ensures Inv(r, exact) && r == LnStep(s, source, dest).0
  {
    r := s;
    var t := LnTarget(s, source, dest);
    if t.Some? && Inserts(s, t.value.1, t.value.2) {
      r := NewDirEntry(s, t.value.1, t.value.0, t.value.2, FT_REG_FILE).0;
      DirUsed(s, t.value.1, exact);
      ByPathUsed(s, source, exact);
      InsertInv(s, t.value.1, t.value.0, t.value.2, FT_REG_FILE, exact);
    }
  }

  /** An inode was to be had, but nothing to put the record in. */
  lemma NoRecordInv(s: State, d: nat, name: Name, mode: nat, ft: Byte, src: seq<Byte>, now: nat, exact: bool := true)
    returns (r: State)
    requires Inv(s, exact) && AddReady(s, d, name) && FreeInodes(s) != {} && !Inserts(s, d, name)
    ensures Inv(r, exact) && r == AddFile(s, d, name, mode, ft, src, now).0
    ensures !AddFile(s, d, name, mode, ft, src, now).1
  {
    r := NewInodeOf(s, mode, now).0;
    NewInodeFacts(s, mode, now);
    NewInodeInv(s, mode, now, exact);
    assert FreeBlocks(r) == FreeBlocks(s);
  }

  lemma LnSStepInv(s: State, source: Path, dest: Path, now: nat, exact: bool := true) returns (r: State)
    requires Inv(s, exact) && LnSLegal(s, source, dest)
    ensures Inv(r, exact) && r == LnSStep(s, source, dest, now).0
  {
    r := s;
    var t := LnTarget(s, source, dest);
    if t.Some? {
      ModesAre();
      if Inserts(s, t.value.1, t.value.2) {
        DirUsed(s, t.value.1, exact);
        r := AddFileInv(s, t.value.1, t.value.2, S_IFLNK, FT_SYMLINK, source, now, exact);
      } else {
        r := NoRecordInv(s, t.value.1, t.value.2, S_IFLNK, FT_SYMLINK, source, now, exact);
      }
    }
  }

  lemma RmStepInv(s: State, path: Path, exact: bool := true) returns (r: State)
    requires Inv(s, exact) && RmLegal(s, path)
    ensures Inv(r, exact) && r == RmStep(s, path).0
  {
    r := s;
    var t := RmTarget(s, path);
    if t.Some? && FindRemoval(s, t.value.0, t.value.1).Some? {
      r := RmDirEntry(s, t.value.0, t.value.1).0;
      DirUsed(s, t.value.0, exact);
      RmInv(s, t.value.0, t.value.1, exact);
    }
  }

  lemma RestoreStepInv(s: State, path: Path, exact: bool := true) returns (r: State)
    requires Inv(s, exact) && RestoreLegal(s, path, exact)
    ensures Inv(r, exact) && r == RestoreStep(s, path).0
  {
    r := s;
    var t := RestoreTarget(s, path);
    if t.Some? && IsDir(s.inodes[t.value.0].mode) {
      r := RestoreDirEntry(s, t.value.0, t.value.1).s;
      DirUsed(s, t.value.0, exact);
      if exact {
        RestoreLinks(s, t.value.0, t.value.1);
      } else {
        RestoreKeepsSafe(s, t.value.0, t.value.1);
      }
    }
  }

  /** Each command, succeeding or not, keeps the invariant. */
  lemma StepInv(s: State, c: Command, exact: bool := true) returns (r: State)
    requires Inv(s, exact) && Legal(s, c, exact)
    ensures Runnable(s, c) && Inv(r, exact) && r == Step(s, c).0
  {
    match c
    case Mkdir(path, now) => r := MkdirStepInv(s, path, now, exact);
    case Cp(file, sourceName, dest, now) => r := CpStepInv(s, file, sourceName, dest, now, exact);
    case Ln(source, dest) => r := LnStepInv(s, source, dest, exact);
    case LnS(source, dest, now) => r := LnSStepInv(s, source, dest, now, exact);
    case Rm(path) => r := RmStepInv(s, path, exact);
    case Restore(path) => r := RestoreStepInv(s, path, exact);
  }

  // ---------- runs ----------

  /** Disks `ss`, each reached from the one before by a legal command, whether it succeeded or not. */
  ghost predicate Run(ss: seq<State>, cs: seq<Command>, exact: bool := true) {
    && |ss| == |cs| + 1
    && forall i :: 0 <= i < |cs| ==>
         Legal(ss[i], cs[i], exact) && Runnable(ss[i], cs[i]) && ss[i + 1] == Step(ss[i], cs[i]).0
  }

  /**
   * Over every run: counters equal the clear bits, owned blocks are marked and have one owner,
   * directories are sound and every link count is the number of live records; or, when restores are
   * not limited, at least that number.
   */
  lemma {:induction false} RunInv(ss: seq<State>, cs: seq<Command>, i: nat, exact: bool := true)
    requires Run(ss, cs, exact) && Inv(ss[0], exact) && i < |ss|
    ensures Inv(ss[i], exact)
    decreases i
  {
    if i > 0 {
      RunInv(ss, cs, i - 1, exact);
      var r := StepInv(ss[i - 1], cs[i - 1], exact);
    }
  }

  /** Whatever is restored in between, no block ever gets a second owner and no counter goes wrong. */
  lemma RunAlloc(ss: seq<State>, cs: seq<Command>, i: nat)
    requires Run(ss, cs, false) && Inv(ss[0]) && i < |ss|
    ensures AllocOk(ss[i])
  {
    forall n | 0 <= n < |ss[0].inodes| ensures InodeSound(ss[0], n, false) { assert InodeSound(ss[0], n); }
    RunInv(ss, cs, i, false);
  }

  // ---------- a disk to start from ----------

  /** Sixteen inodes and blocks, data from block 7 on; reserved inodes are in use, the root directory is empty. */
  function BlankDisk(): State {
    var none := Inode(0, 0, 0, 0, 0, 0, seq(POINTERS, _ => 0));
    State(seq(16, k => k < 6 || k == 15), seq(16, n => n <= 10), 9, 5, 9, 5, 1,
          seq(16, n => if n == ROOT then none.(mode := S_IFDIR) else none), seq(16, _ => seq(BLOCK_SIZE, _ => 0)), 7)
  }

  /** The invariant holds of a blank disk. */
  lemma BlankInv()
    ensures Inv(BlankDisk())
  {
    var s := BlankDisk();
    ModesAre();
    forall n: nat | n < 16 ensures NumDirect(s.inodes[n].ptr) == 0 && Direct(s.inodes[n].ptr) == [] {
      EmptyPointers(s.inodes[n].ptr);
    }
    BlankCounted(s);
    BlankOwned(s);
    BlankTree(s);
  }

  lemma BlankCounted(s: State)
    requires s == BlankDisk()
    ensures Shaped(s) && Counted(s)
  {
    BlankBlocks(s);
    BlankInodes(s);
  }

  lemma BlankBlocks(s: State)
    requires |s.blockBits| == 16 && forall k :: 0 <= k < 16 ==> (s.blockBits[k] <==> k < 6 || k == 15)
    ensures |FreeBlocks(s)| == 9
  {
    RangeIs(6, 15);
    assert FreeBlocks(s) == Range(6, 15);
  }

  lemma BlankInodes(s: State)
    requires |s.inodeBits| == 16 && forall n :: 0 <= n < 16 ==> (s.inodeBits[n] <==> n <= 10)
    ensures |FreeInodes(s)| == 5
  {
    RangeIs(11, 16);
    assert FreeInodes(s) == Range(11, 16);
  }

  lemma BlankOwned(s: State)
    requires Shaped(s) && Counted(s) && SystemMarked(s)
    requires forall n: nat :: n < |s.inodes| ==> s.inodes[n].ptr == seq(POINTERS, _ => 0)
    ensures AllocOk(s)
  {
    forall n: nat | n < |s.inodes| ensures PointersOk(s.inodes[n].ptr, |s.blocks|) && Owned(s, n) == {} {
      EmptyPointers(s.inodes[n].ptr);
    }
  }

  ghost function Range(a: nat, b: nat): set<nat>
  { if b <= a then {} else Range(a, b - 1) + {b - 1} }

  lemma {:induction false} RangeIs(a: nat, b: nat)
    requires a <= b
    ensures |Range(a, b)| == b - a && forall n :: n in Range(a, b) <==> a <= n < b
    decreases b - a
  {
    if a < b { RangeIs(a, b - 1); }
  }

  lemma BlankTree(s: State)
    requires s == BlankDisk()
    requires forall n: nat :: n < 16 ==> Direct(s.inodes[n].ptr) == [] && NumDirect(s.inodes[n].ptr) == 0
    requires IsDir(S_IFDIR)
    ensures TreeOk(s)
  {
    forall d: nat | UsedDir(s, d) ensures d == ROOT && DirSound(s, d) && DirEntries(s, d) == [] {}
    forall n: nat | n < 16 ensures InodeSound(s, n) {
      TotalZero(s, 16, n + 1);
    }
  }
}

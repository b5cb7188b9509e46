/** The count of used directories: over every run it is the number of inodes in use that are directories. */
module DirCounts {
  import opened Options
  import opened Bytes
  import opened Records
  import opened DiskState
  import opened Directory
  import opened Invariant
  import opened Insertion
  import opened RemovalProofs
  import opened RemovalInv
  import opened Restoration
  import opened Writing
  import opened WriteProofs
  import opened Paths
  import opened Commands
  import opened PathFacts
  import opened Runs

  ghost function DirsInUse(s: State): set<nat> { set n | 0 <= n < |s.inodes| && UsedDir(s, n) }

  ghost predicate DirsCounted(s: State) { s.usedDirs == |DirsInUse(s)| }

  /** The same directories, and the same count. */
  ghost predicate SameDirs(s: State, s': State) {
    && s'.usedDirs == s.usedDirs && |s'.inodes| == |s.inodes| && forall n: nat :: UsedDir(s', n) <==> UsedDir(s, n)
  }

  lemma SameDirsCounted(s: State, s': State)
    requires SameDirs(s, s')
    ensures DirsCounted(s) <==> DirsCounted(s')
  {
    assert DirsInUse(s') == DirsInUse(s);
  }

  lemma InsertDirs(s: State, d: nat, child: nat, name: Name, ft: Byte)
    requires Shaped(s) && Insertable(s, d) && child < |s.inodes| && |name| < 0x100
    ensures SameDirs(s, NewDirEntry(s, d, child, name, ft).0)
  {
  }

  lemma WriteDirs(s: State, n: nat, src: seq<Byte>)
    requires Shaped(s) && n < |s.inodes| && !IsDir(s.inodes[n].mode)
    ensures SameDirs(s, WriteString(s, n, src).0)
  {
    WriteFrame(s, n, src);
    WriteMode(s, n, src);
  }

  lemma WriteMode(s: State, n: nat, src: seq<Byte>)
    requires Shaped(s) && n < |s.inodes|
    ensures WriteString(s, n, src).0.inodes[n].mode == s.inodes[n].mode
  {
    var s0 := SetSize(s, n, |src|);
    WriteDirectIs(s0, n, src, 0);
    var d := WriteDirect(s0, n, src, 0);
    if GoesOn(d.0, d.1, src, d.2) { WriteTableIs(d.0, n, src); }
  }

  lemma NewInodeDirs(s: State, mode: nat, now: nat)
    requires Shaped(s) && FreeInodes(s) != {}
    ensures var s1 := NewInodeOf(s, mode, now).0; var n := Least(FreeInodes(s));
            && s1.usedDirs == s.usedDirs && |s1.inodes| == |s.inodes| && n < |s.inodes| && !Used(s, n)
            && forall m: nat :: UsedDir(s1, m) <==> if m == n then IsDir(mode) else UsedDir(s, m)
  {
    NewInodeFacts(s, mode, now);
  }

  /** A new directory, and the count one up. */
  lemma OneDirMore(s: State, s': State, n: nat)
    requires Shaped(s) && DirsCounted(s) && n < |s.inodes| == |s'.inodes| && !Used(s, n)
    requires s'.usedDirs == U16(s.usedDirs + 1)
    requires forall m: nat :: UsedDir(s', m) <==> m == n || UsedDir(s, m)
    ensures DirsCounted(s')
  {
    assert DirsInUse(s') == DirsInUse(s) + {n};
    SubsetCard(DirsInUse(s'), |s.inodes|);
  }

  lemma AddFileDirs(s: State, d: nat, name: Name, mode: nat, ft: Byte, src: seq<Byte>, now: nat)
    requires AddReady(s, d, name) && !IsDir(mode)
    ensures DirsCounted(s) ==> DirsCounted(AddFile(s, d, name, mode, ft, src, now).0)
  {
    if FreeInodes(s) != {} {
      NewInodeFacts(s, mode, now);
      NewInodeDirs(s, mode, now);
      UnusedKept(s, mode, now);
      var n, s1 := Least(FreeInodes(s)), NewInodeOf(s, mode, now).0;
      InsertDirs(s1, d, n, name, ft);
      var e := NewDirEntry(s1, d, n, name, ft);
      SameDirsCounted(s, s1);
      SameDirsCounted(s1, e.0);
      if e.1 {
        WriteDirs(e.0, n, src);
        SameDirsCounted(e.0, WriteString(e.0, n, src).0);
      }
    }
  }

  lemma UnusedKept(s: State, mode: nat, now: nat)
    requires Shaped(s) && FreeInodes(s) != {} && !IsDir(mode)
    ensures SameDirs(s, NewInodeOf(s, mode, now).0)
  {
    NewInodeDirs(s, mode, now);
  }

  lemma DotsDirs(s: State, n: nat, d: nat)
    requires Shaped(s) && n < |s.inodes| && d < |s.inodes| && s.inodes[n].sectors == 0
    ensures SameDirs(s, Dots(s, n, d).0)
  {
    if FreeBlocks(s) != {} {
      DotLeavesRoom(s, n);
      InsertDirs(s, n, n, DOT_NAME, FT_DIR);
      InsertDirs(NewDirEntry(s, n, n, DOT_NAME, FT_DIR).0, n, d, DOT_DOT_NAME, FT_DIR);
    }
  }

  /** mkdir counts the new directory, also when it stops after that. */
  lemma MkdirDirs(s: State, d: nat, name: Name, now: nat)
    requires AddReady(s, d, name) && DirsCounted(s)
    ensures DirsCounted(MkdirAt(s, d, name, now).0)
  {
    if FreeInodes(s) != {} {
      NewInodeFacts(s, S_IFDIR, now);
      NewInodeDirs(s, S_IFDIR, now);
      ModesAre();
      var n, s1 := Least(FreeInodes(s)), CountDir(NewInodeOf(s, S_IFDIR, now).0);
      OneDirMore(s, s1, n);
      InsertDirs(s1, d, n, name, FT_DIR);
      var e := NewDirEntry(s1, d, n, name, FT_DIR);
      SameDirsCounted(s1, e.0);
      if e.1 {
        DotsDirs(e.0, n, d);
        SameDirsCounted(e.0, Dots(e.0, n, d).0);
      }
    }
  }

  /** rm frees no directory. */
  lemma RmDirs(s: State, d: nat, name: Name)
    requires Shaped(s) && Removable(s, d, name) && FindRemoval(s, d, name).Some? && SparesDirs(s, d, name)
    requires s.inodes[RmInode(s, d, name)].links < 0x1_0000
    ensures SameDirs(s, RmDirEntry(s, d, name).0)
  {
    RmIsEdit(s, d, name);
  }

  // ---------- restore ----------

  /** No inode changes its kind, and the count stays. */
  ghost predicate KindsKept(s: State, s': State) {
    && s'.usedDirs == s.usedDirs && |s'.inodes| == |s.inodes| && |s'.inodeBits| == |s.inodeBits|
    && forall n :: 0 <= n < |s.inodes| ==>
         s'.inodes[n].mode == s.inodes[n].mode && (n < |s.inodeBits| && s.inodeBits[n] ==> s'.inodeBits[n])
  }

  lemma {:induction false} ScanSlackKinds(s: State, k: nat, o: nat, hs: seq<nat>, end: nat, name: Name, done: bool)
    requires k < |s.blocks| && |s.inodes| == |s.inodeBits| && Ascending(o, hs, end)
    ensures KindsKept(s, ScanSlack(s, k, o, hs, end, name, done).s)
    decreases |hs|
  {
    if hs != [] {
      if !Candidate(s, k, hs[0], name) {
        ScanSlackKinds(s, k, hs[0], hs[1..], end, name, done);
      } else if FileType(s.blocks[k], hs[0]) != FT_DIR {
        var s1 := Revive(s, k, o, hs[0], end);
        assert KindsKept(s, s1);
        ScanSlackKinds(s1, k, hs[0], hs[1..], end, name, true);
      }
    }
  }

  lemma {:induction false} ScanChainKinds(s: State, k: nat, o: nat, name: Name)
    requires k < |s.blocks| && |s.inodes| == |s.inodeBits| && Chain(s.blocks[k], o, BLOCK_SIZE)
    ensures KindsKept(s, ScanChain(s, k, o, name).s)
    decreases BLOCK_SIZE - o
  {
    if o < BLOCK_SIZE {
      ScanSlackKinds(s, k, o, Slack(s.blocks[k], o), o + RecLen(s.blocks[k], o), name, false);
      ScanChainKinds(s, k, o + At(s.blocks[k], o).len, name);
    }
  }

  lemma {:induction false} ScanBlocksKinds(s: State, ps: seq<nat>, name: Name)
    requires |s.inodes| == |s.inodeBits| && BlocksOk(s.blocks, ps)
    ensures KindsKept(s, ScanBlocks(s, ps, name).s)
  {
    if ps != [] {
      ScanChainKinds(s, ps[0], 0, name);
      ScanBlocksKinds(s, ps[1..], name);
    }
  }

  /** What a restore brings back was no directory: those stay in use. */
  lemma RestoreDirs(s: State, d: nat, name: Name, exact: bool)
    requires Inv(s, exact) && d < |s.inodes| && (IsDir(s.inodes[d].mode) ==> DirOk(s, d) && DirSlacksOk(s, d))
    ensures SameDirs(s, RestoreDirEntry(s, d, name).s)
  {
    if IsDir(s.inodes[d].mode) {
      var r := RestoreDirEntry(s, d, name).s;
      ScanBlocksKinds(s, Direct(s.inodes[d].ptr), name);
      forall n: nat ensures UsedDir(r, n) <==> UsedDir(s, n) {
        if UsedDir(r, n) { DirUsed(s, n, exact); }
      }
    }
  }

  // ---------- runs ----------

  lemma StepDirs(s: State, c: Command, exact: bool)
    requires Inv(s, exact) && Legal(s, c, exact) && Runnable(s, c) && DirsCounted(s)
    ensures DirsCounted(Step(s, c).0)
  {
    match c
    case Mkdir(path, now) =>
      var t := MkdirTarget(s, path);
      if t.Some? { MkdirDirs(s, t.value.0, t.value.1, now); }
    case Cp(file, sourceName, dest, now) =>
      var t := CpTarget(s, sourceName, dest);
      ModesAre();
      if t.Some? && file.Some? {
        AddFileDirs(s, t.value.0, t.value.1, S_IFREG, FT_REG_FILE, CString(file.value), now);
      }
    case Ln(source, dest) =>
      var t := LnTarget(s, source, dest);
      if t.Some? {
        InsertDirs(s, t.value.1, t.value.0, t.value.2, FT_REG_FILE);
        SameDirsCounted(s, LnStep(s, source, dest).0);
      }
    case LnS(source, dest, now) =>
      var t := LnTarget(s, source, dest);
      ModesAre();
      if t.Some? { AddFileDirs(s, t.value.1, t.value.2, S_IFLNK, FT_SYMLINK, source, now); }
    case Rm(path) => RmStepDirs(s, path, exact);
    case Restore(path) =>
      var t := RestoreTarget(s, path);
      if t.Some? {
        RestoreDirs(s, t.value.0, t.value.1, exact);
        SameDirsCounted(s, RestoreStep(s, path).0);
      }
  }

  lemma RmStepDirs(s: State, path: Path, exact: bool)
    requires Inv(s, exact) && RmLegal(s, path) && DirsCounted(s)
    ensures DirsCounted(RmStep(s, path).0)
  {
    var t := RmTarget(s, path);
    if t.Some? && FindRemoval(s, t.value.0, t.value.1).Some? {
      assert InodeSound(s, RmInode(s, t.value.0, t.value.1), exact);
      RmDirs(s, t.value.0, t.value.1);
      SameDirsCounted(s, RmStep(s, path).0);
    }
  }

  /** Over every run the count of used directories is right, whatever is restored in between. */
  lemma {:induction false} RunDirs(ss: seq<State>, cs: seq<Command>, i: nat, exact: bool := true)
    requires Run(ss, cs, exact) && Inv(ss[0], exact) && DirsCounted(ss[0]) && i < |ss|
    ensures DirsCounted(ss[i])
    decreases i
  {
    if i > 0 {
      RunDirs(ss, cs, i - 1, exact);
      RunInv(ss, cs, i - 1, exact);
      StepDirs(ss[i - 1], cs[i - 1], exact);
    }
  }

  /** It is on the blank disk. */
  lemma BlankDirs()
    ensures DirsCounted(BlankDisk()) && Inv(BlankDisk())
  {
    ModesAre();
    BlankInv();
    assert DirsInUse(BlankDisk()) == {ROOT};
  }
}

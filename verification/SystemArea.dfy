/** No run of the commands writes over the blocks before the data: superblock, bitmaps and inode table. */
module SystemArea {
  import opened Options
  import opened Bytes
  import opened Records
  import opened DiskState
  import opened Directory
  import opened Invariant
  import opened Insertion
  import opened Restoration
  import opened Writing
  import opened WriteProofs
  import opened Paths
  import opened Commands
  import opened PathFacts
  import opened Runs

  /** The data start where they did, and the blocks before them hold what they held. */
  ghost predicate SystemKept(s: State, s': State) {
    && s'.dataStart == s.dataStart && |s'.blocks| == |s.blocks|
    && forall p :: 0 < p < s.dataStart && p < |s.blocks| ==> s'.blocks[p] == s.blocks[p]
  }

  /** Only block `k`, beyond the system's, changed. */
  lemma OneBlockKept(s: State, s': State, k: nat)
    requires s'.dataStart == s.dataStart <= k && |s'.blocks| == |s.blocks|
    requires forall p :: 0 <= p < |s.blocks| && p != k ==> s'.blocks[p] == s.blocks[p]
    ensures SystemKept(s, s')
  {
  }

  lemma DirectBeyond(s: State, d: nat, k: nat)
    requires AllocOk(s) && Used(s, d) && k in Direct(s.inodes[d].ptr)
    ensures s.dataStart <= k < |s.blocks|
  {
    assert MarksOwned(s, d) && k in Owned(s, d);
  }

  lemma TailInside(s: State, d: nat)
    requires DirSound(s, d) && Insertable(s, d) && s.inodes[d].sectors / 2 > 0
    ensures TailBlock(s, d) in Direct(s.inodes[d].ptr)
  {
    var n := NumDirect(s.inodes[d].ptr);
    assert Direct(s.inodes[d].ptr)[n - 1] == TailBlock(s, d);
  }

  /** A record goes into the last block of its directory, or into a block that was free. */
  lemma InsertKept(s: State, d: nat, child: nat, name: Name, ft: Byte)
    requires AllocOk(s) && UsedDir(s, d) && DirSound(s, d) && Insertable(s, d) && child < |s.inodes| && |name| < 0x100
    ensures SystemKept(s, NewDirEntry(s, d, child, name, ft).0)
  {
    var s' := NewDirEntry(s, d, child, name, ft).0;
    if HasRoom(s, d, |name|) {
      TailInside(s, d);
      DirectBeyond(s, d, TailBlock(s, d));
      OneBlockKept(s, s', TailBlock(s, d));
    } else if FreeBlocks(s) != {} {
      var a := Least(FreeBlocks(s));
      FreeNotOwned(s, a);
      OneBlockKept(s, s', a + 1);
    }
  }

  lemma WriteKept(s: State, n: nat, src: seq<Byte>)
    requires AllocOk(s) && n < |s.inodes|
    ensures SystemKept(s, WriteString(s, n, src).0)
  {
    WriteFrame(s, n, src);
    assert forall p :: 0 < p < s.dataStart && p < |s.blocks| ==> Marked(s, p);
  }

  lemma AddFileKept(s: State, d: nat, name: Name, mode: nat, ft: Byte, src: seq<Byte>, now: nat, exact: bool)
    requires Inv(s, exact) && UsedDir(s, d) && AddReady(s, d, name) && Roomy(s, d, name) && !IsDir(mode)
    ensures SystemKept(s, AddFile(s, d, name, mode, ft, src, now).0)
  {
    if FreeInodes(s) != {} {
      var n, s1 := FreshInode(s, d, mode, now, exact);
      assert FreeBlocks(s1) == FreeBlocks(s);
      assert CanLink(s1, d, n, name);
      assert DirSound(s1, d);
      InsertKept(s1, d, n, name, ft);
      InsertInv(s1, d, n, name, ft, exact);
      var e := NewDirEntry(s1, d, n, name, ft);
      if e.1 { WriteKept(e.0, n, src); }
    }
  }

  lemma DotsKept(s: State, n: nat, d: nat, exact: bool)
    requires Inv(s, exact) && UsedDir(s, n) && UsedDir(s, d) && d != n && s.inodes[n].sectors == 0
    requires s.inodes[n].links < 0xFFFF && s.inodes[d].links < 0xFFFF
    ensures SystemKept(s, Dots(s, n, d).0)
  {
    if FreeBlocks(s) != {} {
      DotLeavesRoom(s, n);
      assert DirSound(s, n);
      InsertKept(s, n, n, DOT_NAME, FT_DIR);
      InsertInv(s, n, n, DOT_NAME, FT_DIR, exact);
      var s1 := NewDirEntry(s, n, n, DOT_NAME, FT_DIR).0;
      assert DirSound(s1, n);
      InsertKept(s1, n, d, DOT_DOT_NAME, FT_DIR);
    }
  }

  lemma NamedKept(s: State, d: nat, n: nat, name: Name, exact: bool) returns (e: State, ok: bool)
    requires Inv(s, exact) && CanLink(s, d, n, name) && UsedDir(s, n) && d != n && s.inodes[n].sectors == 0
    requires s.inodes[n].links == 0 && s.inodes[d].links < 0xFFFF
    ensures (e, ok) == NewDirEntry(s, d, n, name, FT_DIR) && SystemKept(s, e)
    ensures ok ==> e.inodes[n].sectors == 0 && SystemKept(s, Dots(e, n, d).0)
  {
    e, ok := NamedDir(s, d, n, name);
    assert DirSound(s, d);
    InsertKept(s, d, n, name, FT_DIR);
    InsertInv(s, d, n, name, FT_DIR, exact);
    if ok { DotsKept(e, n, d, exact); }
  }

  lemma MkdirKept(s: State, d: nat, name: Name, now: nat, exact: bool)
    requires Inv(s, exact) && UsedDir(s, d) && AddReady(s, d, name) && Roomy(s, d, name) && s.inodes[d].links < 0xFFFF
    ensures SystemKept(s, MkdirAt(s, d, name, now).0)
  {
    if FreeInodes(s) != {} {
      var n, s1 := FreshDir(s, d, name, now, exact);
      var e, ok := NamedKept(s1, d, n, name, exact);
    }
  }

  lemma RmKept(s: State, d: nat, name: Name)
    requires AllocOk(s) && Used(s, d) && Removable(s, d, name)
    ensures SystemKept(s, RmDirEntry(s, d, name).0)
  {
    var r := FindRemoval(s, d, name);
    if r.Some? {
      DirectBeyond(s, d, r.value.block);
      OneBlockKept(s, RmDirEntry(s, d, name).0, r.value.block);
    }
  }

  // ---------- restore ----------

  lemma {:induction false} ScanSlackKept(s: State, k: nat, o: nat, hs: seq<nat>, end: nat, name: Name, done: bool)
    requires k < |s.blocks| && |s.inodes| == |s.inodeBits| && Ascending(o, hs, end) && s.dataStart <= k
    ensures SystemKept(s, ScanSlack(s, k, o, hs, end, name, done).s)
    decreases |hs|
  {
    if hs != [] {
      if !Candidate(s, k, hs[0], name) {
        ScanSlackKept(s, k, hs[0], hs[1..], end, name, done);
      } else if FileType(s.blocks[k], hs[0]) != FT_DIR {
        var s1 := Revive(s, k, o, hs[0], end);
        OneBlockKept(s, s1, k);
        ScanSlackKept(s1, k, hs[0], hs[1..], end, name, true);
      }
    }
  }

  lemma {:induction false} ScanChainKept(s: State, k: nat, o: nat, name: Name)
    requires k < |s.blocks| && |s.inodes| == |s.inodeBits| && Chain(s.blocks[k], o, BLOCK_SIZE) && s.dataStart <= k
    ensures SystemKept(s, ScanChain(s, k, o, name).s)
    decreases BLOCK_SIZE - o
  {
    if o < BLOCK_SIZE {
      ScanSlackKept(s, k, o, Slack(s.blocks[k], o), o + RecLen(s.blocks[k], o), name, false);
      ScanChainKept(s, k, o + At(s.blocks[k], o).len, name);
    }
  }

  lemma {:induction false} ScanBlocksKept(s: State, ps: seq<nat>, name: Name)
    requires |s.inodes| == |s.inodeBits| && BlocksOk(s.blocks, ps) && forall p :: p in ps ==> s.dataStart <= p
    ensures SystemKept(s, ScanBlocks(s, ps, name).s)
  {
    if ps != [] {
      assert ps[0] in ps;
      ScanChainKept(s, ps[0], 0, name);
      assert forall p :: p in ps[1..] ==> p in ps;
      ScanBlocksKept(s, ps[1..], name);
    }
  }

  lemma RestoreKept(s: State, d: nat, name: Name)
    requires AllocOk(s) && Used(s, d) && (IsDir(s.inodes[d].mode) ==> DirOk(s, d) && DirSlacksOk(s, d))
    ensures SystemKept(s, RestoreDirEntry(s, d, name).s)
  {
    forall p | p in Direct(s.inodes[d].ptr) ensures s.dataStart <= p { DirectBeyond(s, d, p); }
    if IsDir(s.inodes[d].mode) { ScanBlocksKept(s, Direct(s.inodes[d].ptr), name); }
  }

  // ---------- the commands ----------

  lemma MkdirStepKept(s: State, path: Path, now: nat, exact: bool)
    requires Inv(s, exact) && MkdirLegal(s, path)
    ensures SystemKept(s, MkdirStep(s, path, now).0)
  {
    var t := MkdirTarget(s, path);
    if t.Some? && FreeInodes(s) != {} {
      DirUsed(s, t.value.0, exact);
      MkdirKept(s, t.value.0, t.value.1, now, exact);
    }
  }

  lemma CpStepKept(s: State, file: Option<seq<Byte>>, sourceName: Name, dest: Path, now: nat, exact: bool)
    requires Inv(s, exact) && CpLegal(s, file, sourceName, dest)
    ensures SystemKept(s, CpStep(s, file, sourceName, dest, now).0)
  {
    var t := CpTarget(s, sourceName, dest);
    if t.Some? && file.Some? && FreeInodes(s) != {} {
      DirUsed(s, t.value.0, exact);
      ModesAre();
      AddFileKept(s, t.value.0, t.value.1, S_IFREG, FT_REG_FILE, CString(file.value), now, exact);
    }
  }

  lemma LnStepKept(s: State, source: Path, dest: Path, exact: bool)
    requires Inv(s, exact) && LnLegal(s, source, dest)
    ensures SystemKept(s, LnStep(s, source, dest).0)
  {
    var t := LnTarget(s, source, dest);
    if t.Some? && Inserts(s, t.value.1, t.value.2) {
      DirUsed(s, t.value.1, exact);
      InsertKept(s, t.value.1, t.value.0, t.value.2, FT_REG_FILE);
    }
  }

  lemma LnSStepKept(s: State, source: Path, dest: Path, now: nat, exact: bool)
    requires Inv(s, exact) && LnSLegal(s, source, dest)
    ensures SystemKept(s, LnSStep(s, source, dest, now).0)
  {
    var t := LnTarget(s, source, dest);
    if t.Some? {
      ModesAre();
      if Inserts(s, t.value.1, t.value.2) {
        DirUsed(s, t.value.1, exact);
        AddFileKept(s, t.value.1, t.value.2, S_IFLNK, FT_SYMLINK, source, now, exact);
      } else {
        NewInodeFacts(s, S_IFLNK, now);
        assert FreeBlocks(NewInodeOf(s, S_IFLNK, now).0) == FreeBlocks(s);
      }
    }
  }

  lemma RmStepKept(s: State, path: Path, exact: bool)
    requires Inv(s, exact) && RmLegal(s, path)
    ensures SystemKept(s, RmStep(s, path).0)
  {
    var t := RmTarget(s, path);
    if t.Some? && FindRemoval(s, t.value.0, t.value.1).Some? {
      DirUsed(s, t.value.0, exact);
      RmKept(s, t.value.0, t.value.1);
    }
  }

  lemma RestoreStepKept(s: State, path: Path, exact: bool)
    requires Inv(s, exact) && RestoreLegal(s, path, exact)
    ensures SystemKept(s, RestoreStep(s, path).0)
  {
    var t := RestoreTarget(s, path);
    if t.Some? {
      ByPathUsed(s, FilePath(path), exact);
      RestoreKept(s, t.value.0, t.value.1);
    }
  }

  lemma StepKept(s: State, c: Command, exact: bool)
    requires Inv(s, exact) && Legal(s, c, exact) && Runnable(s, c)
    ensures SystemKept(s, Step(s, c).0)
  {
    match c
    case Mkdir(path, now) => MkdirStepKept(s, path, now, exact);
    case Cp(file, sourceName, dest, now) => CpStepKept(s, file, sourceName, dest, now, exact);
    case Ln(source, dest) => LnStepKept(s, source, dest, exact);
    case LnS(source, dest, now) => LnSStepKept(s, source, dest, now, exact);
    case Rm(path) => RmStepKept(s, path, exact);
    case Restore(path) => RestoreStepKept(s, path, exact);
  }

  lemma OneMoreKept(s0: State, s: State, c: Command, s': State, exact: bool)
    requires SystemKept(s0, s) && Inv(s, exact) && Legal(s, c, exact) && Runnable(s, c) && s' == Step(s, c).0
    ensures SystemKept(s0, s')
  {
    StepKept(s, c, exact);
  }

  /** Over every run the system's blocks keep their bytes, whatever is restored in between. */
  lemma {:induction false} RunKept(ss: seq<State>, cs: seq<Command>, i: nat, exact: bool := true)
    requires Run(ss, cs, exact) && Inv(ss[0], exact) && i < |ss|
    ensures SystemKept(ss[0], ss[i])
    decreases i
  {
    if i > 0 {
      var p := i - 1;
      RunKept(ss, cs, p, exact);
      RunInv(ss, cs, p, exact);
      OneMoreKept(ss[0], ss[p], cs[p], ss[i], exact);
    }
  }
}

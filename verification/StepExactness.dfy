/** Each command keeps the invariant if and only if it is used as `Runs.Legal` says. */
module StepExactness {
  import opened Options
  import opened Bytes
  import opened Records
  import opened DiskState
  import opened Directory
  import opened Invariant
  import opened Insertion
  import opened RemovalProofs
  import opened RemovalInv
  import opened RestorePrefix
  import opened Writing
  import opened WriteProofs
  import opened NewInodes
  import opened Paths
  import opened Commands
  import opened PathFacts
  import opened Runs

  // ---------- a directory whose block was replaced ----------

  lemma OvercountedBad(s: State, d: nat, exact: bool := true)
    requires Overcounted(s, d)
    ensures !TreeOk(s, exact)
  {
    assert !DirSound(s, d);
  }

  /** What comes after the record of a new directory does not put its parent right. */
  lemma DotsLeave(s: State, n: nat, d: nat)
    requires Shaped(s) && n < |s.inodes| && n != d && s.inodes[n].sectors == 0 && Overcounted(s, d)
    ensures Overcounted(Dots(s, n, d).0, d)
  {
    if FreeBlocks(s) != {} { DotLeavesRoom(s, n); }
  }

  lemma MkdirReplaces(s: State, d: nat, name: Name, now: nat)
    requires Inv(s) && UsedDir(s, d) && AddReady(s, d, name) && !Roomy(s, d, name) && FreeInodes(s) != {}
    ensures !TreeOk(MkdirAt(s, d, name, now).0)
  {
    var n, s0 := FreshInode(s, d, S_IFDIR, now);
    ModesAre();
    var s1 := CountedDir(s, s0, d, n, name);
    CountDirInv(s0);
    assert FreeBlocks(s1) == FreeBlocks(s) && DirSound(s1, d);
    ReplacedSectors(s1, d, n, name, FT_DIR);
    var e, ok := NamedDir(s1, d, n, name);
    assert ok;
    DotsLeave(e, n, d);
    OvercountedBad(Dots(e, n, d).0, d);
  }

  lemma WriteLeaves(s: State, d: nat, n: nat, src: seq<Byte>)
    requires Shaped(s) && n < |s.inodes| && n != d && Overcounted(s, d)
    ensures Overcounted(WriteString(s, n, src).0, d)
  {
    WriteFrame(s, n, src);
  }

  lemma AddFileReplaces(s: State, d: nat, name: Name, mode: nat, ft: Byte, src: seq<Byte>, now: nat)
    requires Inv(s) && UsedDir(s, d) && AddReady(s, d, name) && !Roomy(s, d, name) && FreeInodes(s) != {}
    ensures !TreeOk(AddFile(s, d, name, mode, ft, src, now).0)
  {
    var n, s1 := FreshInode(s, d, mode, now);
    assert FreeBlocks(s1) == FreeBlocks(s) && DirSound(s1, d);
    assert !NoReplacement(s1, d, |name|);
    ReplacedSectors(s1, d, n, name, ft);
    var e := NewDirEntry(s1, d, n, name, ft);
    assert e.1;
    WriteLeaves(e.0, d, n, src);
    OvercountedBad(WriteString(e.0, n, src).0, d);
  }

  // ---------- a record written into a file ----------

  /** No directory, and no record in one, changed. */
  ghost predicate DirsKept(s: State, s': State) {
    && |s'.inodes| == |s.inodes| && (forall f: nat :: UsedDir(s', f) <==> UsedDir(s, f))
    && forall f: nat :: UsedDir(s, f) ==> SameDir(s, s', f)
  }

  lemma KeptTotals(s: State, s': State)
    requires DirsKept(s, s') && forall f :: UsedDir(s, f) ==> DirOk(s, f)
    ensures forall f :: UsedDir(s, f) ==> DirOk(s', f) && DirEntries(s', f) == DirEntries(s, f)
    ensures forall ino: nat :: Total(s', ino) == Total(s, ino)
  {
    forall f | UsedDir(s, f) ensures DirOk(s', f) && DirEntries(s', f) == DirEntries(s, f) { SameEntries(s, s', f); }
    forall ino: nat ensures Total(s', ino) == Total(s, ino) { TotalShift(s, s', |s.inodes|, ino, 0, 0); }
  }

  /** The block that an insertion into a file writes belongs to no directory. */
  lemma FileTail(s: State, d: nat, f: nat)
    requires AllocOk(s) && Used(s, d) && Insertable(s, d) && UsedDir(s, f) && f != d
    requires s.inodes[d].sectors / 2 > 0
    ensures TailBlock(s, d) !in Owned(s, f)
  {
    var n := s.inodes[d].sectors / 2;
    assert PointersOk(s.inodes[d].ptr, |s.blocks|);
    assert n - 1 < NumDirect(s.inodes[d].ptr);
    assert Direct(s.inodes[d].ptr)[n - 1] == TailBlock(s, d);
    assert TailBlock(s, d) in Owned(s, d) && Owned(s, d) !! Owned(s, f);
  }

  lemma IntoFileKeeps(s: State, d: nat, child: nat, name: Name, ft: Byte)
    requires AllocOk(s) && Used(s, d) && !IsDir(s.inodes[d].mode) && Insertable(s, d)
    requires child < |s.inodes| && |name| < 0x100
    ensures DirsKept(s, NewDirEntry(s, d, child, name, ft).0)
  {
    var s' := NewDirEntry(s, d, child, name, ft).0;
    forall f: nat | UsedDir(s, f) ensures SameDir(s, s', f) {
      if HasRoom(s, d, |name|) {
        FileTail(s, d, f);
      } else if FreeBlocks(s) != {} {
        FreeNotOwned(s, Least(FreeBlocks(s)));
      }
    }
  }

  /** The inode has one link more, and no directory a record more. */
  lemma IntoFileLoses(s: State, d: nat, child: nat, name: Name, ft: Byte)
    requires Inv(s) && Used(s, d) && !IsDir(s.inodes[d].mode) && Insertable(s, d) && |name| < 0x100
    requires Used(s, child) && s.inodes[child].links < 0xFFFF && NewDirEntry(s, d, child, name, ft).1
    ensures DirsKept(s, NewDirEntry(s, d, child, name, ft).0) && Lost(NewDirEntry(s, d, child, name, ft).0, child)
  {
    IntoFileKeeps(s, d, child, name, ft);
    var s' := OneLinkMore(s, d, child, name, ft);
    LinkLost(s, s', child);
  }

  lemma OneLinkMore(s: State, d: nat, child: nat, name: Name, ft: Byte) returns (s': State)
    requires Shaped(s) && Insertable(s, d) && child < |s.inodes| && |name| < 0x100 && s.inodes[child].links < 0xFFFF
    requires NewDirEntry(s, d, child, name, ft).1
    ensures s' == NewDirEntry(s, d, child, name, ft).0 && s'.inodeBits == s.inodeBits && |s'.inodes| == |s.inodes|
    ensures s'.inodes[child].links == s.inodes[child].links + 1
  {
    s' := NewDirEntry(s, d, child, name, ft).0;
  }

  lemma LinkLost(s: State, s': State, child: nat)
    requires TreeOk(s) && DirsKept(s, s') && Used(s, child) && s'.inodeBits == s.inodeBits
    requires s'.inodes[child].links == s.inodes[child].links + 1
    ensures Lost(s', child)
  {
    assert forall f :: UsedDir(s, f) ==> DirSound(s, f);
    KeptTotals(s, s');
    assert InodeSound(s, child);
  }

  /** Filling the new file does not help. */
  lemma LostStays(s: State, s1: State, r: State, n: nat)
    requires Inv(s) && DirsKept(s, s1) && Lost(s1, n) && Untouched(s1, r, n) && !IsDir(s1.inodes[n].mode)
    requires |s1.inodeBits| == |s.inodeBits| && (forall p: nat :: Marked(s, p) ==> Marked(s1, p))
    requires r.inodes[n].links == s1.inodes[n].links && r.inodes[n].mode == s1.inodes[n].mode
    ensures DirsKept(s, r) && Lost(r, n)
  {
    forall f: nat | UsedDir(s, f) ensures SameDir(s, r, f) {
      assert MarksOwned(s, f) && SameDir(s, s1, f);
      forall p | p in Owned(s, f) && p < |s.blocks| ensures r.blocks[p] == s.blocks[p] { assert Marked(s, p); }
    }
    assert forall f :: UsedDir(s, f) ==> DirSound(s, f);
    KeptTotals(s, s1);
    KeptTotals(s, r);
  }

  lemma InsertMarks(s: State, d: nat, child: nat, name: Name, ft: Byte)
    requires Shaped(s) && Insertable(s, d) && child < |s.inodes| && |name| < 0x100
    ensures forall p: nat :: Marked(s, p) ==> Marked(NewDirEntry(s, d, child, name, ft).0, p)
  {
  }

  lemma WriteKeepsLinks(s: State, n: nat, src: seq<Byte>)
    requires Shaped(s) && n < |s.inodes|
    ensures var r := WriteString(s, n, src).0;
            Untouched(s, r, n) && r.inodes[n].links == s.inodes[n].links && r.inodes[n].mode == s.inodes[n].mode
  {
    WriteFrame(s, n, src);
    WriteLinks(s, n, src);
  }

  lemma WriteLinks(s: State, n: nat, src: seq<Byte>)
    requires Shaped(s) && n < |s.inodes|
    ensures var i, i' := s.inodes[n], WriteString(s, n, src).0.inodes[n]; i'.links == i.links && i'.mode == i.mode
  {
    var s0 := SetSize(s, n, |src|);
    WriteDirectIs(s0, n, src, 0);
    var d := WriteDirect(s0, n, src, 0);
    if GoesOn(d.0, d.1, src, d.2) { WriteTableIs(d.0, n, src); }
  }

  /** A new file, not a directory, whose record goes into a file. */
  lemma FileIntoFile(s: State, d: nat, name: Name, mode: nat, ft: Byte, src: seq<Byte>, now: nat)
    returns (n: nat, s1: State, r: State)
    requires Inv(s) && AddReady(s, d, name) && !IsDir(s.inodes[d].mode) && Inserts(s, d, name)
    requires FreeInodes(s) != {} && !IsDir(mode)
    ensures n in FreeInodes(s) && s1 == NewInodeOf(s, mode, now).0 && r == AddFile(s, d, name, mode, ft, src, now).0
    ensures DirsKept(s1, r) && Lost(r, n) && |r.inodes| == |s1.inodes|
    ensures forall m :: 0 <= m < |s1.inodes| ==> r.inodes[m].mode == s1.inodes[m].mode
  {
    NewInodeInv(s, mode, now);
    NewInodeFacts(s, mode, now);
    n, s1 := Least(FreeInodes(s)), NewInodeOf(s, mode, now).0;
    assert FreeBlocks(s1) == FreeBlocks(s);
    var e := NewDirEntry(s1, d, n, name, ft);
    IntoFileLoses(s1, d, n, name, ft);
    InsertMarks(s1, d, n, name, ft);
    WriteKeepsLinks(e.0, n, src);
    r := WriteString(e.0, n, src).0;
    LostStays(s1, e.0, r, n);
  }

  lemma AddFileIntoFile(s: State, d: nat, name: Name, mode: nat, ft: Byte, src: seq<Byte>, now: nat)
    requires Inv(s) && AddReady(s, d, name) && !IsDir(s.inodes[d].mode) && Inserts(s, d, name)
    requires FreeInodes(s) != {} && !IsDir(mode)
    ensures !TreeOk(AddFile(s, d, name, mode, ft, src, now).0)
  {
    var n, s1, r := FileIntoFile(s, d, name, mode, ft, src, now);
    LostNotExact(r, n);
  }

  // ---------- a record removed from a file ----------

  lemma OutOfFileKeeps(s: State, s1: State, d: nat, name: Name)
    requires AllocOk(s) && Used(s, d) && !IsDir(s.inodes[d].mode) && Removable(s, d, name)
    requires FindRemoval(s, d, name).Some? && s1 == AddLinks(Edited(s, d, name), RmInode(s, d, name), -1)
    ensures DirsKept(s, s1)
  {
    EditOthers(s, s1, d, name);
  }

  /** The inode has one link less, and no directory a record less. */
  lemma LinkMissing(s: State, s1: State, n: nat)
    requires TreeOk(s) && DirsKept(s, s1) && n < |s.inodes| && s1.inodeBits == s.inodeBits
    requires s1.inodes[n].links == U16(s.inodes[n].links - 1) && (s1.inodes[n].links != 0 || !Used(s, n))
    ensures !TreeOk(s1)
  {
    assert forall f :: UsedDir(s, f) ==> DirSound(s, f);
    KeptTotals(s, s1);
    assert InodeSound(s, n);
    assert !InodeSound(s1, n);
  }

  /** A record of a directory names an inode that is not in use any more. */
  lemma NamedUnused(s: State, r: State, n: nat)
    requires TreeOk(s) && Used(s, n) && s.inodes[n].links > 0 && !Used(r, n) && |r.inodes| == |s.inodes|
    requires forall f: nat :: UsedDir(s, f) ==> UsedDir(r, f) && SameDir(s, r, f)
    ensures !TreeOk(r)
  {
    assert InodeSound(s, n);
    TotalZero(s, |s.inodes|, n + 1);
    var f: nat :| f < |s.inodes| && DirCount(s, f, n + 1) != 0;
    assert DirSound(s, f);
    SameEntries(s, r, f);
    Misnamed(r, f, n);
  }

  lemma Misnamed(r: State, f: nat, n: nat)
    requires UsedDir(r, f) && DirOk(r, f) && !Used(r, n) && Count(DirEntries(r, f), n + 1) != 0
    ensures !TreeOk(r)
  {
    CountZero(DirEntries(r, f), n + 1);
    assert !EntriesOk(r, f);
  }

  lemma FreedNamed(s: State, s1: State, n: nat)
    requires TreeOk(s) && Shaped(s1) && DirsKept(s, s1) && Used(s, n) && !IsDir(s1.inodes[n].mode)
    requires s1.inodeBits == s.inodeBits && s.inodes[n].links == 1
    ensures !TreeOk(Freed(s1, n))
  {
    NamedUnused(s, Freed(s1, n), n);
  }

  lemma OutOfFileStep(s: State, d: nat, name: Name) returns (n: nat, s1: State)
    requires Inv(s) && Used(s, d) && !IsDir(s.inodes[d].mode) && Removable(s, d, name) && FindRemoval(s, d, name).Some?
    ensures n < |s.inodes| && Shaped(s1) && DirsKept(s, s1) && s1.inodeBits == s.inodeBits
    ensures s1.inodes[n].links == U16(s.inodes[n].links - 1) && s1.inodes[n].mode == s.inodes[n].mode
    ensures RmDirEntry(s, d, name).0 == if s1.inodes[n].links == 0 then Freed(s1, n) else s1
  {
    n := RmInode(s, d, name);
    s1 := AddLinks(Edited(s, d, name), n, -1);
    RmIsEdit(s, d, name);
    OutOfFileKeeps(s, s1, d, name);
  }

  lemma DropBad(s: State, s1: State, r: State, n: nat)
    requires TreeOk(s) && n < |s.inodes| && Shaped(s1) && DirsKept(s, s1) && s1.inodeBits == s.inodeBits
    requires s1.inodes[n].links == U16(s.inodes[n].links - 1) && s1.inodes[n].mode == s.inodes[n].mode
    requires r == if s1.inodes[n].links == 0 then Freed(s1, n) else s1
    ensures !TreeOk(r)
  {
    assert InodeSound(s, n);
    if s1.inodes[n].links != 0 {
      LinkMissing(s, s1, n);
    } else if IsDir(s.inodes[n].mode) {
      FreedDirBad(s1, n);
    } else {
      FreedNamed(s, s1, n);
    }
  }

  lemma OutOfFileBad(s: State, d: nat, name: Name)
    requires Inv(s) && Used(s, d) && !IsDir(s.inodes[d].mode) && Removable(s, d, name) && FindRemoval(s, d, name).Some?
    ensures !TreeOk(RmDirEntry(s, d, name).0)
  {
    var n, s1 := OutOfFileStep(s, d, name);
    DropBad(s, s1, RmDirEntry(s, d, name).0, n);
  }

  // ---------- each command ----------

  /** mkdir keeps the invariant unless it replaces the last block of the parent. */
  lemma MkdirKeepsIff(s: State, path: Path, now: nat)
    requires Inv(s) && Sane(s) && MkdirReady(s, path)
    requires MkdirTarget(s, path).Some? ==> s.inodes[MkdirTarget(s, path).value.0].links < 0xFFFF
    ensures Inv(MkdirStep(s, path, now).0) <==> MkdirKeeps(s, path)
  {
    if MkdirKeeps(s, path) {
      var r := MkdirStepInv(s, path, now);
    } else {
      var t := MkdirTarget(s, path).value;
      DirUsed(s, t.0);
      MkdirReplaces(s, t.0, t.1, now);
    }
  }

  /** So does cp. */
  lemma CpKeepsIff(s: State, file: Option<seq<Byte>>, sourceName: Name, dest: Path, now: nat)
    requires Inv(s) && Sane(s) && CpReady(s, file, sourceName, dest)
    requires file.Some? ==> |CString(file.value)| <= 1024 * DIRECT
    ensures Inv(CpStep(s, file, sourceName, dest, now).0) <==> CpKeeps(s, file, sourceName, dest)
  {
    if CpKeeps(s, file, sourceName, dest) {
      var r := CpStepInv(s, file, sourceName, dest, now);
    } else {
      var t := CpTarget(s, sourceName, dest).value;
      DirUsed(s, t.0);
      AddFileReplaces(s, t.0, t.1, S_IFREG, FT_REG_FILE, CString(file.value), now);
    }
  }

  lemma ParentUsed(s: State, source: Path, dest: Path)
    requires Inv(s) && Sane(s) && LnTarget(s, source, dest).Some?
    ensures var t := LnTarget(s, source, dest).value;
            Used(s, t.0) && Used(s, t.1) && (Reserved(t.0) ==> IsDir(s.inodes[t.0].mode))
  {
    ByPathUsed(s, source);
    ByPathUsed(s, FilePath(dest));
  }

  /** A hard link keeps it unless a record is written into a file or a block of the parent replaced. */
  lemma LnKeepsIff(s: State, source: Path, dest: Path)
    requires Inv(s) && Sane(s) && LnReady(s, source, dest)
    requires LnTarget(s, source, dest).Some? ==> s.inodes[LnTarget(s, source, dest).value.0].links < 0xFFFF
    ensures Inv(LnStep(s, source, dest).0) <==> LnKeeps(s, source, dest)
  {
    if LnKeeps(s, source, dest) {
      var r := LnStepInv(s, source, dest);
    } else {
      var (f, d, name) := LnTarget(s, source, dest).value;
      ParentUsed(s, source, dest);
      if IsDir(s.inodes[d].mode) {
        InsertInv(s, d, f, name, FT_REG_FILE);
      } else {
        IntoFileLoses(s, d, f, name, FT_REG_FILE);
        LostNotExact(NewDirEntry(s, d, f, name, FT_REG_FILE).0, f);
      }
    }
  }

  lemma LnSKeepsIff(s: State, source: Path, dest: Path, now: nat)
    requires Inv(s) && Sane(s) && LnSReady(s, source, dest) && |source| <= 1024 * DIRECT
    ensures Inv(LnSStep(s, source, dest, now).0) <==> LnKeeps(s, source, dest)
  {
    if LnKeeps(s, source, dest) {
      var r := LnSStepInv(s, source, dest, now);
    } else {
      var (f, d, name) := LnTarget(s, source, dest).value;
      ModesAre();
      if IsDir(s.inodes[d].mode) {
        DirUsed(s, d);
        AddFileReplaces(s, d, name, S_IFLNK, FT_SYMLINK, source, now);
      } else {
        AddFileIntoFile(s, d, name, S_IFLNK, FT_SYMLINK, source, now);
      }
    }
  }

  /** rm keeps it unless the record comes out of a file, or a directory loses its last link. */
  lemma RmKeepsIff(s: State, path: Path)
    requires Inv(s) && Sane(s) && RmReady(s, path)
    ensures Inv(RmStep(s, path).0) <==> RmKeeps(s, path)
  {
    if RmKeeps(s, path) {
      var r := RmStepInv(s, path);
    } else {
      var (d, name) := RmTarget(s, path).value;
      ByPathUsed(s, FilePath(path));
      if IsDir(s.inodes[d].mode) {
        RmInv(s, d, name);
      } else {
        OutOfFileBad(s, d, name);
      }
    }
  }

  /** restore keeps it if and only if the records it revives are a prefix of their slack. */
  lemma RestoreKeepsIff(s: State, path: Path)
    requires Inv(s) && Sane(s) && RestoreReady(s, path)
    ensures Inv(RestoreStep(s, path).0) <==> RestoreKeeps(s, path)
  {
    if RestoreKeeps(s, path) {
      var r := RestoreStepInv(s, path);
    } else {
      var (d, name) := RestoreTarget(s, path).value;
      DirUsed(s, d);
      RestoreLinks(s, d, name);
    }
  }

  // ---------- runs ----------

  /** Link counts stay within 16 bits, and files within twelve blocks. */
  ghost predicate Modest(s: State, c: Command)
    requires Sane(s)
  {
    match c
    case Mkdir(path, _) => MkdirTarget(s, path).Some? ==> s.inodes[MkdirTarget(s, path).value.0].links < 0xFFFF
    case Cp(file, _, _, _) => file.Some? ==> |CString(file.value)| <= 1024 * DIRECT
    case Ln(source, dest) =>
      LnTarget(s, source, dest).Some? && LnTarget(s, source, dest).value.0 < |s.inodes| ==>
        s.inodes[LnTarget(s, source, dest).value.0].links < 0xFFFF
    case LnS(source, _, _) => |source| <= 1024 * DIRECT
    case Rm(_) => true
    case Restore(_) => true
  }

  /** A command keeps the invariant if and only if it is used as `Legal` says. */
  lemma StepKeepsIff(s: State, c: Command)
    requires Inv(s) && Runnable(s, c) && Modest(s, c)
    ensures Inv(Step(s, c).0) <==> Legal(s, c)
  {
    match c
    case Mkdir(path, now) => MkdirKeepsIff(s, path, now);
    case Cp(file, sourceName, dest, now) => CpKeepsIff(s, file, sourceName, dest, now);
    case Ln(source, dest) => LnKeepsIff(s, source, dest);
    case LnS(source, dest, now) => LnSKeepsIff(s, source, dest, now);
    case Rm(path) => RmKeepsIff(s, path);
    case Restore(path) => RestoreKeepsIff(s, path);
  }

  /** Disks `ss`, each reached from the one before by a command that the code can run, legal or not. */
  ghost predicate AnyRun(ss: seq<State>, cs: seq<Command>) {
    && |ss| == |cs| + 1
    && forall i :: 0 <= i < |cs| ==>
         Runnable(ss[i], cs[i]) && Modest(ss[i], cs[i]) && ss[i + 1] == Step(ss[i], cs[i]).0
  }

  /** A run keeps the invariant all the way if and only if each of its commands is used as `Legal` says. */
  lemma {:induction false} RunKeepsIff(ss: seq<State>, cs: seq<Command>)
    requires AnyRun(ss, cs) && Inv(ss[0])
    ensures (forall i :: 0 <= i < |ss| ==> Inv(ss[i])) <==> (forall i :: 0 <= i < |cs| ==> Legal(ss[i], cs[i]))
    decreases |cs|
  {
    if cs != [] {
      StepKeepsIff(ss[0], cs[0]);
      var ss', cs' := ss[1..], cs[1..];
      assert forall i :: 0 <= i < |cs'| ==> ss'[i] == ss[i + 1] && cs'[i] == cs[i + 1];
      assert forall i :: 0 <= i < |ss'| ==> ss'[i] == ss[i + 1];
      if Legal(ss[0], cs[0]) {
        assert ss'[0] == ss[1];
        RunKeepsIff(ss', cs');
        assert forall i :: 0 < i < |ss| ==> ss[i] == ss'[i - 1];
        assert forall i :: 0 < i < |cs| ==> ss[i] == ss'[i - 1] && cs[i] == cs'[i - 1];
      } else {
        assert !Inv(ss[1]);
      }
    }
  }
}

/** Each successful command, from its path on, as a step of the abstract tree. */
module TreeRefinement {
  import opened Options
  import opened Bytes
  import opened Records
  import opened DirBlocks
  import opened DiskState
  import opened Directory
  import opened Invariant
  import opened Insertion
  import opened RemovalProofs
  import opened RemovalInv
  import opened Restoration
  import opened RestoreProofs
  import opened RestoreTree
  import opened Writing
  import opened WriteProofs
  import opened NewInodes
  import opened Paths
  import opened Lookups
  import opened Commands
  import opened PathFacts
  import opened Runs
  import opened CpRm
  import opened Tree
  import opened TreeSteps
  import opened StepExactness
  import opened PathChanges
  import opened InsertLooks
  import opened Effects
  import opened CommandEffects

  lemma MkdirLeads(s: State, path: Path, now: nat, d: nat, name: Name) returns (n: nat, r: State)
    requires Inv(s) && MkdirLegal(s, path) && MkdirTarget(s, path) == Some((d, name)) && MkdirStep(s, path, now).1
    requires DirOk(s, d) && Insertable(s, d)
    ensures r == MkdirStep(s, path, now).0 && Inv(r) && Navigable(r)
    ensures n in FreeInodes(s) && n == Least(FreeInodes(s))
    ensures TreeOf(r) == WithDir(WithName(s, d, name, n), n, d)
    ensures ByPath(r, Trim(path)) == Some(n) <==> !Shadowed(s, d, name)
    ensures forall p :: ByPath(s, p).Some? ==> ByPath(r, p) == ByPath(s, p)
  {
    var p := Trim(path);
    DirUsed(s, d);
    TrimmedName(path);
    NewName(s, p, d);
    n, r := MkdirEdges(s, d, name, now);
    var r' := MkdirStepInv(s, path, now);
    ExtendsWithDir(s, r, d, name, n);
    InvNavigable(r);
    DirUsed(r, d);
    NameLeads(s, r, p, d);
  }

  /**
   * A successful mkdir inserts the new directory into the tree, with "." and "..".  Its path leads to
   * it if and only if no record hides its name, and every path that led somewhere leads there still.
   */
  lemma MkdirRefines(s: State, path: Path, now: nat, d: nat, name: Name) returns (n: nat, r: State)
    requires Inv(s) && MkdirLegal(s, path) && MkdirTarget(s, path) == Some((d, name)) && MkdirStep(s, path, now).1
    requires DirOk(s, d) && Insertable(s, d)
    ensures r == MkdirStep(s, path, now).0 && Inv(r) && Navigable(r)
    ensures n in FreeInodes(s) && n < |r.inodes| && NewDir(r.inodes[n], now) && Gains(s, r, d, n, name, 2)
    ensures NamedAs(r, d, n, name, 2) && DirOk(r, n) && DirEntries(r, n) == DotRecords(n, d)
    ensures TreeOf(r) == WithDir(WithName(s, d, name, n), n, d)
    ensures ByPath(r, Trim(path)) == Some(n) <==> !Shadowed(s, d, name)
    ensures forall p :: ByPath(s, p).Some? ==> ByPath(r, p) == ByPath(s, p)
  {
    n, r := MkdirLeads(s, path, now, d, name);
    DirUsed(s, d);
    var n', r' := DirKind(s, d, name, now);
  }

  /** cp and ln -s, done completely, insert the new file under its name. */
  lemma FileEdge(s: State, d: nat, name: Name, mode: nat, ft: Byte, src: seq<Byte>, now: nat)
    returns (n: nat, r: State)
    requires Inv(s) && UsedDir(s, d) && AddReady(s, d, name) && Roomy(s, d, name) && FreeInodes(s) != {}
    requires |src| <= 1024 * DIRECT && !IsDir(mode) && AddFile(s, d, name, mode, ft, src, now).1 && DirOk(s, d)
    ensures r == AddFile(s, d, name, mode, ft, src, now).0 && n in FreeInodes(s) && n == Least(FreeInodes(s))
    ensures TreeOf(r) == WithName(s, d, name, n) && ModesKept(s, r) && Readable(r, n) && Content(r, n) == src
    ensures n < |r.inodes| && r.inodes[n].mode == mode
  {
    var s1;
    n, s1 := FreshEdges(s, d, mode, now);
    NewInodeInv(s, mode, now);
    RoomStays(s, s1, d, name);
    SameAhead(s, s1, d);
    assert CanLink(s1, d, n, name);
    r := NamedFile(s1, d, n, name, ft, src);
  }

  lemma NamedFile(s: State, d: nat, n: nat, name: Name, ft: Byte, src: seq<Byte>) returns (r: State)
    requires Inv(s) && CanLink(s, d, n, name) && DirOk(s, d) && d != n && |src| <= 1024 * DIRECT
    requires !IsDir(s.inodes[n].mode) && s.inodes[n].links == 0 && s.inodes[n].ptr == seq(POINTERS, _ => 0)
    requires NewDirEntry(s, d, n, name, ft).1 && WriteString(NewDirEntry(s, d, n, name, ft).0, n, src).1
    ensures r == WriteString(NewDirEntry(s, d, n, name, ft).0, n, src).0
    ensures TreeOf(r) == WithName(s, d, name, n) && Readable(r, n) && Content(r, n) == src
    ensures |r.inodes| == |s.inodes| && forall m :: 0 <= m < |s.inodes| ==> r.inodes[m].mode == s.inodes[m].mode
  {
    InsertInv(s, d, n, name, ft);
    LinkEdge(s, d, n, name, ft);
    InsertModes(s, d, n, name, ft);
    var e := NewDirEntry(s, d, n, name, ft).0;
    FilledEdges(e, n, src);
    WriteReadsBack(e, n, src);
    r := WriteString(e, n, src).0;
  }

  lemma RoomStays(s: State, s1: State, d: nat, name: Name)
    requires d < |s.inodes| == |s1.inodes| && s1.blocks == s.blocks && s1.inodes[d] == s.inodes[d]
    requires s1.blockBits == s.blockBits
    ensures Roomy(s, d, name) ==> Roomy(s1, d, name)
  {
    assert FreeBlocks(s1) == FreeBlocks(s);
  }

  lemma FilledEdges(s2: State, n: nat, src: seq<Byte>)
    requires Inv(s2) && Used(s2, n) && !IsDir(s2.inodes[n].mode) && |src| <= 1024 * DIRECT
    ensures var r := WriteString(s2, n, src).0;
            && TreeOf(r) == TreeOf(s2) && |r.inodes| == |s2.inodes|
            && forall m :: 0 <= m < |s2.inodes| ==> r.inodes[m].mode == s2.inodes[m].mode
  {
    var r := FilledFacts(s2, n, src);
    WriteFrame(s2, n, src);
    UntouchedEdges(s2, r, n);
  }

  // ---------- cp ----------

  /** Where cp puts the file: at the destination, or under its own name in it if something is there. */
  ghost function CpPath(s: State, sourceName: Name, dest: Path): Path
    requires Navigable(s)
  { if ByPath(s, Trim(dest)) == None then Trim(dest) else Join(Trim(dest), sourceName) }

  /** The source has a name, and the way to the directory does not itself go through that name. */
  ghost predicate Plain(s: State, sourceName: Name, dest: Path, d: nat, name: Name)
    requires Navigable(s)
  {
    && (ByPath(s, Trim(dest)).Some? ==> sourceName != [] && SLASH !in sourceName)
    && !Uses(s, ROOT, FilePath(CpPath(s, sourceName, dest)), d, name)
  }

  lemma CpPathIs(s: State, sourceName: Name, dest: Path, d: nat, name: Name)
    requires Inv(s) && Navigable(s) && CpTarget(s, sourceName, dest) == Some((d, name)) && IsDir(s.inodes[d].mode)
    requires ByPath(s, Trim(dest)).Some? ==> sourceName != [] && SLASH !in sourceName
    ensures var p := CpPath(s, sourceName, dest);
            IsAbsolute(p) && SLASH in p && ByPath(s, FilePath(p)) == Some(d) && FileName(p) == name != []
  {
    var p := Trim(dest);
    TrimmedName(dest);
    AbsoluteHasSlash(p);
    if ByPath(s, p) == None {
      NewName(s, p, d);
    } else {
      JoinSplit(p);
      SplitJoin(p, sourceName);
      assert Join(p, sourceName)[0] == p[0];
      AbsoluteHasSlash(Join(p, sourceName));
    }
  }

  /**
   * A successful cp inserts the new file, which reads as its source, under its name, unless a record of
   * that name hides it; cp does not look.  The destination leads to it if and only if none does.  Paths
   * that do not use the name lead where they led; if the name was new, so do all that led somewhere.
   */
  lemma CpRefines(s: State, file: Option<seq<Byte>>, sourceName: Name, dest: Path, now: nat, d: nat, name: Name)
    returns (n: nat, r: State)
    requires Inv(s) && CpLegal(s, file, sourceName, dest) && CpTarget(s, sourceName, dest) == Some((d, name))
    requires CpStep(s, file, sourceName, dest, now).1 && DirOk(s, d) && Insertable(s, d)
    ensures r == CpStep(s, file, sourceName, dest, now).0 && Inv(r) && Navigable(r)
    ensures n in FreeInodes(s) && TreeOf(r) == WithName(s, d, name, n)
    ensures file.Some? && Readable(r, n) && Content(r, n) == CString(file.value)
    ensures NewFile(r.inodes[n], 0x8000, |CString(file.value)|, now)
    ensures Gains(s, r, d, n, name, 1) && NamedAs(r, d, n, name, 1)
    ensures Plain(s, sourceName, dest, d, name) ==>
              (ByPath(r, CpPath(s, sourceName, dest)) == Some(n) <==> !Shadowed(s, d, name))
    ensures Shadowed(s, d, name) ==> forall p :: ByPath(r, p) == ByPath(s, p)
    ensures forall p :: !Uses(s, ROOT, p, d, name) ==> ByPath(r, p) == ByPath(s, p)
    ensures !Shadowed(s, d, name) ==> forall p :: Uses(s, ROOT, p, d, name) ==> ByPath(r, p) in {None, Some(n)}
    ensures Edge(s, d, name) == None ==> forall p :: ByPath(s, p).Some? ==> ByPath(r, p) == ByPath(s, p)
  {
    DirUsed(s, d);
    ModesAre();
    n, r := FileEdge(s, d, name, S_IFREG, FT_REG_FILE, CString(file.value), now);
    var n', r'' := FileKind(s, d, name, S_IFREG, FT_REG_FILE, CString(file.value), now);
    var r' := CpStepInv(s, file, sourceName, dest, now);
    InvNavigable(r);
    CpPaths(s, r, d, name, n);
    if Plain(s, sourceName, dest, d, name) {
      CpPathIs(s, sourceName, dest, d, name);
      CpLeads(s, r, CpPath(s, sourceName, dest), d, n);
    }
  }

  lemma CpPaths(s: State, r: State, d: nat, name: Name, n: nat)
    requires Inv(s) && Inv(r) && Navigable(s) && Navigable(r) && ModesKept(s, r) && UsedDir(s, d) && DirOk(s, d)
    requires Insertable(s, d) && TreeOf(r) == WithName(s, d, name, n) && !Used(s, n) && !IsDirAt(r, n)
    ensures Renames(s, r, d, name)
    ensures Shadowed(s, d, name) ==> forall p :: ByPath(r, p) == ByPath(s, p)
    ensures forall p :: !Uses(s, ROOT, p, d, name) ==> ByPath(r, p) == ByPath(s, p)
    ensures !Shadowed(s, d, name) ==> forall p :: Uses(s, ROOT, p, d, name) ==> ByPath(r, p) in {None, Some(n)}
    ensures Edge(s, d, name) == None ==> forall p :: ByPath(s, p).Some? ==> ByPath(r, p) == ByPath(s, p)
  {
    if Shadowed(s, d, name) {
      SameTreeWalks(s, r, d, name);
    } else {
      EdgeOf(r, d, name);
      RenamesPaths(s, r, d, name, Some(n));
      if Edge(s, d, name) == None { UsersLost(s, d, name); }
    }
  }

  lemma CpLeads(s: State, r: State, p: Path, d: nat, n: nat)
    requires Renames(s, r, d, FileName(p)) && UsedDir(s, d) && DirOk(s, d) && Insertable(s, d) && !Used(s, n)
    requires SLASH in p && ByPath(s, FilePath(p)) == Some(d) && FileName(p) != []
    requires TreeOf(r) == WithName(s, d, FileName(p), n)
    requires Shadowed(s, d, FileName(p)) ==> ByPath(r, p) == ByPath(s, p)
    requires forall q :: !Uses(s, ROOT, q, d, FileName(p)) ==> ByPath(r, q) == ByPath(s, q)
    ensures !Uses(s, ROOT, FilePath(p), d, FileName(p)) ==> (ByPath(r, p) == Some(n) <==> !Shadowed(s, d, FileName(p)))
  {
    if Shadowed(s, d, FileName(p)) {
      NewInodeUnnamed(s, n);
    } else if !Uses(s, ROOT, FilePath(p), d, FileName(p)) {
      SplitPath(r, p, d);
      DirUsed(r, d);
      EdgeOf(r, d, FileName(p));
    }
  }

  // ---------- ln ----------

  /**
   * A successful ln that replaces no block keeps the invariant if and only if the parent of the
   * destination is a directory, which it does not look at.  The destination leads to the file if and
   * only if it is, and no record hides the name; whatever led somewhere leads there still.
   */
  lemma LnRefines(s: State, source: Path, dest: Path, f: nat, d: nat, name: Name) returns (r: State)
    requires Inv(s) && Sane(s) && LnReady(s, source, dest) && LnTarget(s, source, dest) == Some((f, d, name))
    requires LnStep(s, source, dest).1 && Insertable(s, d) && Roomy(s, d, name) && s.inodes[f].links < 0xFFFF
    ensures r == LnStep(s, source, dest).0 && Navigable(r)
    ensures Inv(r) <==> IsDir(s.inodes[d].mode)
    ensures IsDir(s.inodes[d].mode) ==> DirOk(s, d) && TreeOf(r) == WithName(s, d, name, f)
    ensures IsDir(s.inodes[d].mode) ==> Gains(s, r, d, f, name, 1)
    ensures LinkedIn(s, r, d, f, |name|)
    ensures !IsDir(s.inodes[d].mode) ==> TreeOf(r) == TreeOf(s)
    ensures ByPath(r, source) == Some(f)
    ensures ByPath(r, dest) == Some(f) <==> IsDir(s.inodes[d].mode) && !Shadowed(s, d, name)
    ensures forall p :: ByPath(s, p).Some? ==> ByPath(r, p) == ByPath(s, p)
  {
    r := NewDirEntry(s, d, f, name, FT_REG_FILE).0;
    LnKeepsIff(s, source, dest);
    ParentUsed(s, source, dest);
    InsertModes(s, d, f, name, FT_REG_FILE);
    LinkInodes(s, d, f, name, FT_REG_FILE);
    if IsDir(s.inodes[d].mode) {
      DirUsed(s, d);
      NewName(s, dest, d);
      LinkEdge(s, d, f, name, FT_REG_FILE);
      var r' := LinkKind(s, d, f, name, FT_REG_FILE);
      InvNavigable(r);
      NewNameLeads(s, r, dest, d, f);
    } else {
      IntoFileKeeps(s, d, f, name, FT_REG_FILE);
      FilesStay(s, r);
      IntoFilePaths(s, r);
    }
  }

  lemma NewNameLeads(s: State, r: State, p: Path, d: nat, n: nat)
    requires Inv(s) && Navigable(s) && Navigable(r) && Inv(r) && ModesKept(s, r) && SLASH in p && UsedDir(s, d)
    requires DirOk(s, d) && Insertable(s, d)
    requires ByPath(s, FilePath(p)) == Some(d) && FileName(p) != [] && Edge(s, d, FileName(p)) == None
    requires TreeOf(r) == WithName(s, d, FileName(p), n)
    ensures ByPath(r, p) == Some(n) <==> !Shadowed(s, d, FileName(p))
    ensures forall q :: ByPath(s, q).Some? ==> ByPath(r, q) == ByPath(s, q)
  {
    ExtendsWith(s, r, d, FileName(p), n);
    DirUsed(r, d);
    NameLeads(s, r, p, d);
  }

  lemma SymlinkIntoFile(s: State, d: nat, name: Name, source: Path, now: nat)
    requires Inv(s) && Navigable(s) && AddReady(s, d, name) && !IsDir(s.inodes[d].mode) && Inserts(s, d, name)
    requires FreeInodes(s) != {}
    ensures var r := AddFile(s, d, name, S_IFLNK, FT_SYMLINK, source, now).0;
            Navigable(r) && TreeOf(r) == TreeOf(s) && forall p :: ByPath(r, p) == ByPath(s, p)
  {
    ModesAre();
    var n, s1, r := FileIntoFile(s, d, name, S_IFLNK, FT_SYMLINK, source, now);
    UnlinkedPaths(s, s1, S_IFLNK, now);
    SameModesPaths(s1, r);
  }

  lemma UnlinkedPaths(s: State, s1: State, mode: nat, now: nat)
    requires Inv(s) && Navigable(s) && FreeInodes(s) != {} && !IsDir(mode) && s1 == NewInodeOf(s, mode, now).0
    ensures Inv(s1) && Navigable(s1) && TreeOf(s1) == TreeOf(s) && forall p :: ByPath(s1, p) == ByPath(s, p)
  {
    NewInodeFacts(s, mode, now);
    NewInodeInv(s, mode, now);
    UnlinkedInode(s, s1, Least(FreeInodes(s)));
    IntoFilePaths(s, s1);
  }

  lemma SameModesPaths(s: State, r: State)
    requires Inv(s) && Navigable(s) && DirsKept(s, r)
    requires forall m :: 0 <= m < |s.inodes| ==> r.inodes[m].mode == s.inodes[m].mode
    ensures Navigable(r) && TreeOf(r) == TreeOf(s) && forall p :: ByPath(r, p) == ByPath(s, p)
  {
    FilesStay(s, r);
    IntoFilePaths(s, r);
  }

  /** An inode that is no directory comes into use. */
  lemma UnlinkedInode(s: State, s1: State, n: nat)
    requires Inv(s) && n < |s.inodes| == |s1.inodes| == |s.inodeBits| && !Used(s, n) && !IsDir(s1.inodes[n].mode)
    requires s1.blocks == s.blocks && s1.inodeBits == s.inodeBits[n := true]
    requires forall m :: 0 <= m < |s.inodes| && m != n ==> s1.inodes[m] == s.inodes[m]
    ensures DirsKept(s, s1) && ModesKept(s, s1)
    ensures forall m :: 0 <= m < |s1.inodes| && IsDir(s1.inodes[m].mode) ==> UsedDir(s, m)
  {
    assert InodeSound(s, n);
    forall m | 0 <= m < |s1.inodes| && IsDir(s1.inodes[m].mode) ensures UsedDir(s, m) { DirUsed(s, m); }
  }

  /** ln -s: the same for a new symbolic link, which reads as the source path. */
  lemma LnSRefines(s: State, source: Path, dest: Path, now: nat, f: nat, d: nat, name: Name)
    returns (n: nat, r: State)
    requires Inv(s) && Sane(s) && LnSReady(s, source, dest) && LnTarget(s, source, dest) == Some((f, d, name))
    requires LnSStep(s, source, dest, now).1 && Insertable(s, d) && Roomy(s, d, name) && |source| <= 1024 * DIRECT
    ensures r == LnSStep(s, source, dest, now).0 && Navigable(r) && n in FreeInodes(s)
    ensures Inv(r) <==> IsDir(s.inodes[d].mode)
    ensures IsDir(s.inodes[d].mode) ==> DirOk(s, d) && TreeOf(r) == WithName(s, d, name, n)
    ensures !IsDir(s.inodes[d].mode) ==> TreeOf(r) == TreeOf(s)
    ensures ByPath(r, dest) == Some(n) <==> IsDir(s.inodes[d].mode) && !Shadowed(s, d, name)
    ensures IsDir(s.inodes[d].mode) ==> Readable(r, n) && Content(r, n) == source
    ensures IsDir(s.inodes[d].mode) ==> NewFile(r.inodes[n], 0xA000, |source|, now)
    ensures IsDir(s.inodes[d].mode) ==> Gains(s, r, d, n, name, 7) && NamedAs(r, d, n, name, 7)
    ensures forall p :: ByPath(s, p).Some? ==> ByPath(r, p) == ByPath(s, p)
  {
    ModesAre();
    LnSKeepsIff(s, source, dest, now);
    ParentUsed(s, source, dest);
    if IsDir(s.inodes[d].mode) {
      DirUsed(s, d);
      NewName(s, dest, d);
      n, r := FileEdge(s, d, name, S_IFLNK, FT_SYMLINK, source, now);
      var n', r'' := FileKind(s, d, name, S_IFLNK, FT_SYMLINK, source, now);
      InvNavigable(r);
      NewNameLeads(s, r, dest, d, n);
    } else {
      n, r := Least(FreeInodes(s)), LnSStep(s, source, dest, now).0;
      SymlinkIntoFile(s, d, name, source, now);
      NewInodeUnnamed(s, n);
    }
  }

  // ---------- rm ----------

  /** The name that rm is given belongs to a file. */
  lemma RmTargetIs(s: State, path: Path, d: nat, name: Name) returns (f: nat)
    requires Inv(s) && Navigable(s) && RmTarget(s, path) == Some((d, name)) && UsedDir(s, d)
    ensures SLASH in path && name == FileName(path) != [] && ByPath(s, FilePath(path)) == Some(d)
    ensures ByPath(s, path) == Some(f) == Edge(s, d, name) && !IsDirAt(s, f)
  {
    f := ByPath(s, path).value;
    AbsoluteHasSlash(path);
    SplitPath(s, path, d);
  }

  lemma RmModes(s: State, d: nat, name: Name)
    requires Shaped(s) && Removable(s, d, name)
    ensures var r := RmDirEntry(s, d, name).0;
            |r.inodes| == |s.inodes| && forall m :: 0 <= m < |s.inodes| ==> r.inodes[m].mode == s.inodes[m].mode
  {
  }

  lemma RmRenames(s: State, r: State, d: nat, name: Name)
    requires Inv(s) && UsedDir(s, d) && Removable(s, d, name) && FindRemoval(s, d, name).Some? && SparesDirs(s, d, name)
    requires r == RmDirEntry(s, d, name).0 && Inv(r) && Navigable(s) && Navigable(r)
    ensures Renames(s, r, d, RmName(s, d, name))
  {
    RmEdges(s, d, name);
    RmModes(s, d, name);
    RenamesBy(s, r, d, RmName(s, d, name));
  }

  /**
   * A successful rm changes at most the edge of the record that goes, and no path that does not use its
   * name.  Away from the head of a block that is the record of file `f`, and the path leads to what the
   * next record of the name names, so nowhere if there is none; at the head of a block `f` stays.
   */
  lemma RmRefines(s: State, path: Path, d: nat, name: Name) returns (f: nat, r: State)
    requires Inv(s) && RmLegal(s, path) && RmTarget(s, path) == Some((d, name))
    requires Removable(s, d, name) && FindRemoval(s, d, name).Some?
    ensures r == RmStep(s, path).0 && Inv(r) && Navigable(r) && ByPath(s, path) == Some(f) && !IsDirAt(s, f)
    ensures Renames(s, r, d, RmName(s, d, name)) && (!FirstInBlock(s, d, name) ==> RmName(s, d, name) == name)
    ensures !FirstInBlock(s, d, name) ==> ByPath(r, path) == InodeOf(FindIno(Behind(DirEntries(s, d), name), name))
    ensures FirstInBlock(s, d, name) && !Uses(s, ROOT, FilePath(path), d, RmName(s, d, name))
            ==> ByPath(r, path) == Some(f)
    ensures forall p :: !Uses(s, ROOT, p, d, RmName(s, d, name)) ==> ByPath(r, p) == ByPath(s, p)
    ensures Edge(r, d, RmName(s, d, name)) == None ==>
              forall p :: Uses(s, ROOT, p, d, RmName(s, d, name)) ==> ByPath(r, p) == None
  {
    r := RmStepInv(s, path);
    InvNavigable(r);
    DirUsed(s, d);
    f := RmTargetIs(s, path, d, name);
    RmEdges(s, d, name);
    RmRenames(s, r, d, name);
    RmPaths(s, r, d, RmName(s, d, name));
    if !FirstInBlock(s, d, name) { FileNotUsed(s, FilePath(path), d, name, f); }
    if !Uses(s, ROOT, FilePath(path), d, RmName(s, d, name)) {
      DirUsed(r, d);
      SplitPath(r, path, d);
    }
  }

  lemma RmPaths(s: State, r: State, d: nat, z: Name)
    requires Renames(s, r, d, z)
    ensures forall p :: !Uses(s, ROOT, p, d, z) ==> ByPath(r, p) == ByPath(s, p)
    ensures Edge(r, d, z) == None ==> forall p :: Uses(s, ROOT, p, d, z) ==> ByPath(r, p) == None
  {
    RootUsed(s);
    forall p | !Uses(s, ROOT, p, d, z) ensures ByPath(r, p) == ByPath(s, p) { RenamesWalk(s, r, ROOT, p, d, z); }
    if Edge(r, d, z) == None { RenamesPaths(s, r, d, z, None); }
  }

  /** A path to a directory does not go through the name of a file. */
  lemma FileNotUsed(s: State, p: Path, d: nat, name: Name, f: nat)
    requires Inv(s) && Navigable(s) && ByPath(s, p) == Some(d) && IsDirAt(s, d)
    requires Edge(s, d, name) == Some(f) && !IsDirAt(s, f)
    ensures !Uses(s, ROOT, p, d, name)
  {
    assert Renames(s, s, d, name);
    RenamesPaths(s, s, d, name, Some(f));
  }

  // ---------- restore ----------

  /** A restore of `name` has no match, or a single one, directly behind its live predecessor. */
  ghost predicate RestoresFirst(s: State, d: nat, name: Name)
    requires DirOk(s, d)
  {
    match SiteOf(s, Direct(s.inodes[d].ptr), name)
    case None => true
    case Some((k, o)) => k < |s.blocks| && RecOk(s.blocks[k], o) && OnlyMatch(s, k, Slack(s.blocks[k], o), 0, name)
  }

  lemma OnlySite(s: State, d: nat, name: Name) returns (k: nat, o: nat)
    requires Shaped(s) && UsedDir(s, d) && DirOk(s, d) && DirSlacksOk(s, d) && RestoresFirst(s, d, name)
    requires RestoreDirEntry(s, d, name).done && !RestoreDirEntry(s, d, name).stopped
    ensures SingleSite(s, d, name, k, o, 0)
  {
    var j := SiteOfIs(s, Direct(s.inodes[d].ptr), name);
    var site := SiteOf(s, Direct(s.inodes[d].ptr), name).value;
    k, o := site.0, site.1;
    NotStopped(s, k, o, name);
  }

  lemma NotStopped(s: State, k: nat, o: nat, name: Name)
    requires Shaped(s) && k < |s.blocks| && RecOk(s.blocks[k], o) && OnlyMatch(s, k, Slack(s.blocks[k], o), 0, name)
    requires !ScanAt(s, k, o, name).stopped
    ensures FileType(s.blocks[k], Slack(s.blocks[k], o)[0]) != FT_DIR
  {
    ScanSingle(s, k, o, Slack(s.blocks[k], o), o + RecLen(s.blocks[k], o), 0, name);
  }

  /** The inode of the record that a restore brings back. */
  lemma RestoredInode(s: State, d: nat, name: Name, k: nat, o: nat) returns (n: nat)
    requires Inv(s) && SingleSite(s, d, name, k, o, 0)
    ensures Slack(s.blocks[k], o)[0] + HEADER <= BLOCK_SIZE && Ino(s.blocks[k], Slack(s.blocks[k], o)[0]) == n + 1
    ensures n < |s.inodes| && !Used(s, n)
  {
    var j := SingleScan(s, d, name, k, o, 0);
    n := Ino(s.blocks[k], Slack(s.blocks[k], o)[0]) - 1;
  }

  lemma RestoreModes(s: State, d: nat, name: Name, k: nat, o: nat)
    requires Inv(s) && SingleSite(s, d, name, k, o, 0)
    ensures ModesKept(s, RestoreDirEntry(s, d, name).s)
  {
    var j := SingleScan(s, d, name, k, o, 0);
  }

  /** A successful restore inserts the revived file under its old name, and its path leads to it. */
  lemma RestoreRefines(s: State, path: Path, d: nat, name: Name) returns (n: nat, r: State)
    requires Inv(s) && RestoreLegal(s, path, false) && RestoreTarget(s, path) == Some((d, name))
    requires RestoreStep(s, path).1
    requires DirOk(s, d) && FindIno(DirEntries(s, d), name) != Some(0) && RestoresFirst(s, d, name)
    ensures r == RestoreStep(s, path).0 && Inv(r) && Navigable(r)
    ensures n < |s.inodes| && !Used(s, n) && TreeOf(r) == TreeOf(s)[(d, name) := n] && ByPath(r, path) == Some(n)
    ensures forall p :: ByPath(s, p).Some? ==> ByPath(r, p) == ByPath(s, p)
  {
    DirUsed(s, d);
    NewName(s, path, d);
    r := RestoreDirEntry(s, d, name).s;
    n := RestoredTree(s, d, name);
    NameComes(s, r, path, d, n);
  }

  lemma RestoredTree(s: State, d: nat, name: Name) returns (n: nat)
    requires Inv(s) && UsedDir(s, d) && DirOk(s, d) && DirSlacksOk(s, d) && RestoresFirst(s, d, name)
    requires RestoreDirEntry(s, d, name).done && !RestoreDirEntry(s, d, name).stopped
    requires FindIno(DirEntries(s, d), name) == None
    ensures var r := RestoreDirEntry(s, d, name).s; Inv(r) && ModesKept(s, r) && TreeOf(r) == TreeOf(s)[(d, name) := n]
    ensures n < |s.inodes| && !Used(s, n)
  {
    var k, o := OnlySite(s, d, name);
    n := RestoredInode(s, d, name, k, o);
    var m := RestoreEdge(s, d, name, k, o);
    RestoreModes(s, d, name, k, o);
    RestoreFirst(s, d, name, k, o);
  }
}

/** The commands: what mkdir, cp, ln, ln -s, rm and restore do to a disk, from the path on. */
module Commands {
  import opened Options
  import opened Bytes
  import opened Records
  import opened DirBlocks
  import opened DiskState
  import opened Directory
  import opened Restoration
  import opened Writing
  import opened Paths
  import opened Lookups

  // ---------- the changes, once the paths are resolved ----------

  ghost predicate AddReady(s: State, d: nat, name: Name) {
    && Shaped(s) && Insertable(s, d) && s.inodeBits[d] && |name| < 0x100
  }

  lemma NewInodeFacts(s: State, mode: nat, now: nat)
    requires Shaped(s) && FreeInodes(s) != {}
    ensures var n := Least(FreeInodes(s)); var s1 := NewInodeOf(s, mode, now).0;
            && n < |s.inodes| && !s.inodeBits[n] && NewInodeOf(s, mode, now).1 == Some(n)
            && Shaped(s1) && s1.blocks == s.blocks && s1.blockBits == s.blockBits
            && s1.inodeBits == s.inodeBits[n := true] && |s1.inodes| == |s.inodes|
            && s1.inodes[n] == Inode(mode, 0, now, 0, 0, 0, seq(POINTERS, _ => 0))
            && forall m :: 0 <= m < |s.inodes| && m != n ==> s1.inodes[m] == s.inodes[m]
  {
  }

  /** A new inode, a record for it in directory `d`, and its content: the body of cp and of ln -s. */
  ghost function AddFile(s: State, d: nat, name: Name, mode: nat, ft: Byte, src: seq<Byte>, now: nat): (State, bool)
    requires AddReady(s, d, name)
  {
    if FreeInodes(s) == {} then (s, false)
    else
      NewInodeFacts(s, mode, now);
      var n := Least(FreeInodes(s));
      var e := NewDirEntry(NewInodeOf(s, mode, now).0, d, n, name, ft);
      if e.1 then WriteString(e.0, n, src) else e
  }

  ghost function CountDir(s: State): State { s.(usedDirs := U16(s.usedDirs + 1)) }

  const DOT_NAME: Name := [DOT]
  const DOT_DOT_NAME: Name := [DOT, DOT]

  /** "." opens the new directory's first block; ".." then finds room behind it. */
  lemma DotLeavesRoom(s: State, n: nat)
    requires Shaped(s) && n < |s.inodes| && s.inodes[n].sectors == 0 && FreeBlocks(s) != {}
    ensures Insertable(s, n) && NewDirEntry(s, n, n, DOT_NAME, FT_DIR).1
    ensures var s' := NewDirEntry(s, n, n, DOT_NAME, FT_DIR).0; Insertable(s', n) && HasRoom(s', n, 2)
  {
    var a := Least(FreeBlocks(s));
    var s' := NewDirEntry(s, n, n, DOT_NAME, FT_DIR).0;
    var b := s'.blocks[a + 1];
    assert b == WriteRecord(s.blocks[a + 1], 0, n + 1, BLOCK_SIZE, DOT_NAME, FT_DIR);
    WriteRecordAt(s.blocks[a + 1], 0, n + 1, BLOCK_SIZE, DOT_NAME, FT_DIR);
    DotRoom(b, n + 1);
    assert s'.inodes[n].sectors == 2 && s'.inodes[n].ptr[0] == a + 1;
  }

  lemma DotRoom(b: Block, ino: nat)
    requires At(b, 0) == Entry(0, ino, BLOCK_SIZE, DOT_NAME, FT_DIR)
    ensures BlockOk(b) && TailScan(b, 0, 0) == Some(0) && RoomAt(b, 0, 2)
  {
    RecAt(b, 0, At(b, 0));
    ChainCons(b, 0, At(b, 0), BLOCK_SIZE);
  }

  /** The records "." and ".." of a directory that has no block yet. */
  ghost function Dots(s: State, n: nat, d: nat): (State, bool)
    requires Shaped(s) && n < |s.inodes| && d < |s.inodes| && s.inodes[n].sectors == 0
  {
    if FreeBlocks(s) == {} then (s, false)
    else
      DotLeavesRoom(s, n);
      var f := NewDirEntry(s, n, n, DOT_NAME, FT_DIR);
      NewDirEntry(f.0, n, d, DOT_DOT_NAME, FT_DIR)
  }

  /** The body of mkdir: an inode, a record in the parent, then "." and "..". */
  ghost function MkdirAt(s: State, d: nat, name: Name, now: nat): (State, bool)
    requires AddReady(s, d, name)
  {
    if FreeInodes(s) == {} then (s, false)
    else
      NewInodeFacts(s, S_IFDIR, now);
      var n := Least(FreeInodes(s));
      var e := NewDirEntry(CountDir(NewInodeOf(s, S_IFDIR, now).0), d, n, name, FT_DIR);
      if e.1 then Dots(e.0, n, d) else e
  }

  // ---------- what the paths name ----------

  /** The checks of mkdir, up to the first change: the parent directory and the new name. */
  ghost function MkdirTarget(s: State, path: Path): Option<(nat, Name)>
    requires Navigable(s)
  {
    if !IsAbsolute(path) then None
    else
      match ByPath(s, FilePath(Trim(path)))
      case None => None
      case Some(d) =>
        if !IsDir(s.inodes[d].mode) || ByPath(s, Trim(path)).Some? then None
        else Some((d, FileName(Trim(path))))
  }

  /** The checks of cp.  A destination that is a directory takes the file under its own name. */
  ghost function CpTarget(s: State, sourceName: Name, dest: Path): Option<(nat, Name)>
    requires Navigable(s)
  {
    if !IsAbsolute(dest) then None
    else
      var dir, last := FilePath(Trim(dest)), FileName(Trim(dest));
      match ByPath(s, dir)
      case None => None
      case Some(d) =>
        var (at, name) := match ByPath(s, Trim(dest))
          case None => (Some(d), last)
          case Some(f) => if IsDir(s.inodes[f].mode) then (ByPath(s, Join(dir, last)), sourceName) else (None, last);
        match at
        case None => None
        case Some(e) => if |name| > 255 || !IsDir(s.inodes[e].mode) then None else Some((e, name))
  }

  /** The checks of ln: the source inode, the directory and the new name.  The directory is not checked to be one. */
  ghost function LnTarget(s: State, source: Path, dest: Path): Option<(nat, nat, Name)>
    requires Navigable(s)
  {
    if !IsAbsolute(source) || !IsAbsolute(dest) || |FileName(dest)| > 255 then None
    else
      match (ByPath(s, source), ByPath(s, FilePath(dest)))
      case (Some(f), Some(d)) =>
        if ByPath(s, dest).Some? || IsDir(s.inodes[f].mode) then None else Some((f, d, FileName(dest)))
      case _ => None
  }

  ghost function RmTarget(s: State, path: Path): Option<(nat, Name)>
    requires Navigable(s)
  {
    if !IsAbsolute(path) then None
    else
      match (ByPath(s, path), ByPath(s, FilePath(path)))
      case (Some(f), Some(d)) => if IsDir(s.inodes[f].mode) then None else Some((d, FileName(path)))
      case _ => None
  }

  ghost function RestoreTarget(s: State, path: Path): Option<(nat, Name)>
    requires Navigable(s)
  {
    if !IsAbsolute(path) || ByPath(s, path).Some? then None
    else
      match ByPath(s, FilePath(path))
      case None => None
      case Some(d) => Some((d, FileName(path)))
  }

  // ---------- the commands ----------

  /** One run of a command.  `file` is what cp reads from the host, None if it cannot. */
  datatype Command =
    | Mkdir(path: Path, now: nat)
    | Cp(file: Option<seq<Byte>>, sourceName: Name, dest: Path, now: nat)
    | Ln(source: Path, dest: Path)
    | LnS(source: Path, dest: Path, now: nat)
    | Rm(path: Path)
    | Restore(path: Path)

  ghost predicate Sane(s: State) { Shaped(s) && Navigable(s) }

  // For each command: whether what it is about to change has the form that its code relies on,
  // and the disk after it, with whether it succeeded.

  ghost predicate MkdirReady(s: State, path: Path)
    requires Sane(s)
  {
    var t := MkdirTarget(s, path);
    t.Some? ==> AddReady(s, t.value.0, t.value.1)
  }

  ghost function MkdirStep(s: State, path: Path, now: nat): (State, bool)
    requires Sane(s) && MkdirReady(s, path)
  {
    var t := MkdirTarget(s, path);
    if t == None then (s, false) else MkdirAt(s, t.value.0, t.value.1, now)
  }

  ghost predicate CpReady(s: State, file: Option<seq<Byte>>, sourceName: Name, dest: Path)
    requires Sane(s)
  {
    var t := CpTarget(s, sourceName, dest);
    t.Some? && file.Some? ==> AddReady(s, t.value.0, t.value.1)
  }

  ghost function CpStep(s: State, file: Option<seq<Byte>>, sourceName: Name, dest: Path, now: nat): (State, bool)
    requires Sane(s) && CpReady(s, file, sourceName, dest)
  {
    var t := CpTarget(s, sourceName, dest);
    if t == None || file == None then (s, false)
    else AddFile(s, t.value.0, t.value.1, S_IFREG, FT_REG_FILE, CString(file.value), now)
  }

  ghost predicate LnReady(s: State, source: Path, dest: Path)
    requires Sane(s)
  {
    var t := LnTarget(s, source, dest);
    t.Some? ==> AddReady(s, t.value.1, t.value.2)
  }

  ghost function LnStep(s: State, source: Path, dest: Path): (State, bool)
    requires Sane(s) && LnReady(s, source, dest)
  {
    var t := LnTarget(s, source, dest);
    if t == None then (s, false) else NewDirEntry(s, t.value.1, t.value.0, t.value.2, FT_REG_FILE)
  }

  /** ln -s does not look whether it got an inode. */
  ghost predicate LnSReady(s: State, source: Path, dest: Path)
    requires Sane(s)
  {
    LnReady(s, source, dest) && (LnTarget(s, source, dest).Some? ==> FreeInodes(s) != {})
  }

  ghost function LnSStep(s: State, source: Path, dest: Path, now: nat): (State, bool)
    requires Sane(s) && LnSReady(s, source, dest)
  {
    var t := LnTarget(s, source, dest);
    if t == None then (s, false) else AddFile(s, t.value.1, t.value.2, S_IFLNK, FT_SYMLINK, source, now)
  }

  ghost predicate RmReady(s: State, path: Path)
    requires Sane(s)
  {
    var t := RmTarget(s, path);
    t.Some? ==> Removable(s, t.value.0, t.value.1)
  }

  ghost function RmStep(s: State, path: Path): (State, bool)
    requires Sane(s) && RmReady(s, path)
  {
    var t := RmTarget(s, path);
    if t == None then (s, false) else RmDirEntry(s, t.value.0, t.value.1)
  }

  /** The length of the name is kept in one byte, and hidden records fit their slacks. */
  ghost predicate RestoreReady(s: State, path: Path)
    requires Sane(s)
  {
    var t := RestoreTarget(s, path);
    t.Some? ==> |t.value.1| < 0x100 && (IsDir(s.inodes[t.value.0].mode) ==> DirSlacksOk(s, t.value.0))
  }

  ghost function RestoreStep(s: State, path: Path): (State, bool)
    requires Sane(s) && RestoreReady(s, path)
  {
    var t := RestoreTarget(s, path);
    if t == None then (s, false)
    else
      var r := RestoreDirEntry(s, t.value.0, t.value.1);
      (r.s, r.done && !r.stopped)
  }

  ghost predicate Runnable(s: State, c: Command) {
    && Sane(s)
    && match c
       case Mkdir(path, _) => MkdirReady(s, path)
       case Cp(file, sourceName, dest, _) => CpReady(s, file, sourceName, dest)
       case Ln(source, dest) => LnReady(s, source, dest)
       case LnS(source, dest, _) => LnSReady(s, source, dest)
       case Rm(path) => RmReady(s, path)
       case Restore(path) => RestoreReady(s, path)
  }

  /** The disk after the command, and whether it succeeded. */
  ghost function Step(s: State, c: Command): (State, bool)
    requires Runnable(s, c)
  {
    match c
    case Mkdir(path, now) => MkdirStep(s, path, now)
    case Cp(file, sourceName, dest, now) => CpStep(s, file, sourceName, dest, now)
    case Ln(source, dest) => LnStep(s, source, dest)
    case LnS(source, dest, now) => LnSStep(s, source, dest, now)
    case Rm(path) => RmStep(s, path)
    case Restore(path) => RestoreStep(s, path)
  }
}

/**
 * When each command is refused, with the disk as it was, and when it succeeds: in terms of where its
 * paths lead, of what the directory holds, and of what is free.
 */
module CommandSuccess {
  import opened Options
  import opened Bytes
  import opened Records
  import opened DirBlocks
  import opened DiskState
  import opened Directory
  import opened RemovalProofs
  import opened Writing
  import opened WriteProofs
  import opened Paths
  import opened Lookups
  import opened Commands
  import opened Room
  import opened Effects

  ghost predicate Absolute(p: Path) { p != [] && p[0] == SLASH }

  /** The path leads to a directory. */
  ghost predicate ToDir(s: State, p: Path, d: nat)
    requires Navigable(s)
  { ByPath(s, p) == Some(d) && IsDir(s.inodes[d].mode) }

  // ---------- mkdir ----------

  /** mkdir of `path` is to put `name` into directory `d`. */
  ghost predicate MkdirTo(s: State, path: Path, d: nat, name: Name)
    requires Navigable(s)
  {
    var p := Trim(path);
    Absolute(path) && ToDir(s, FilePath(p), d) && ByPath(s, p) == None && name == FileName(p)
  }

  lemma MkdirTargetIff(s: State, path: Path, d: nat, name: Name)
    requires Navigable(s)
    ensures MkdirTarget(s, path) == Some((d, name)) <==> MkdirTo(s, path, d, name)
  {
  }

  ghost predicate MkdirSucceeds(s: State, path: Path, d: nat, name: Name)
    requires Navigable(s)
  {
    && MkdirTo(s, path, d, name) && FreeInodes(s) != {}
    && Insertable(s, d) && |FreeBlocks(s)| >= if Fits(s, d, |name|) then 1 else 2
  }

  lemma MkdirAtIff(s: State, path: Path, now: nat, d: nat, name: Name)
    requires Sane(s) && MkdirReady(s, path) && MkdirTo(s, path, d, name)
    ensures MkdirStep(s, path, now).1 <==> MkdirSucceeds(s, path, d, name)
    ensures MkdirStep(s, path, now).0 == s <==> FreeInodes(s) == {}
  {
    MkdirTargetIff(s, path, d, name);
    DirSucceedsIff(s, d, name, now);
  }

  lemma MkdirRefused(s: State, path: Path, now: nat)
    requires Sane(s) && MkdirReady(s, path) && forall d: nat, name :: !MkdirTo(s, path, d, name)
    ensures MkdirStep(s, path, now) == (s, false)
  {
    if MkdirTarget(s, path).Some? {
      var (d, name) := MkdirTarget(s, path).value;
      MkdirTargetIff(s, path, d, name);
    }
  }

  /** mkdir takes an inode, a block for "." and "..", and one more if the parent has no room. */
  lemma MkdirSucceedsIff(s: State, path: Path, now: nat)
    requires Sane(s) && MkdirReady(s, path)
    ensures MkdirStep(s, path, now).1 <==> exists d: nat, name :: MkdirSucceeds(s, path, d, name)
    ensures MkdirStep(s, path, now).0 == s
       <==> FreeInodes(s) == {} || forall d: nat, name :: !MkdirTo(s, path, d, name)
  {
    if d: nat, name :| MkdirTo(s, path, d, name) {
      MkdirAtIff(s, path, now, d, name);
      forall e: nat, m | MkdirSucceeds(s, path, e, m) ensures MkdirStep(s, path, now).1 {
        MkdirAtIff(s, path, now, e, m);
      }
    } else {
      MkdirRefused(s, path, now);
    }
  }

  // ---------- cp ----------

  /** cp to `dest` is to put `name` into directory `d`: the destination if it is one, or its parent. */
  ghost predicate CpTo(s: State, sourceName: Name, dest: Path, d: nat, name: Name)
    requires Navigable(s)
  {
    var p := Trim(dest);
    && Absolute(dest) && ByPath(s, FilePath(p)).Some? && |name| <= 255
    && if ByPath(s, p) == None then ToDir(s, FilePath(p), d) && name == FileName(p)
       else ToDir(s, p, d) && name == sourceName
  }

  lemma CpTargetIff(s: State, sourceName: Name, dest: Path, d: nat, name: Name)
    requires Navigable(s)
    ensures CpTarget(s, sourceName, dest) == Some((d, name)) <==> CpTo(s, sourceName, dest, d, name)
  {
    if IsAbsolute(dest) {
      TrimmedName(dest);
      assert Trim(dest)[0] in Trim(dest);
      JoinSplit(Trim(dest));
    }
  }

  ghost predicate CpSucceeds(s: State, file: Option<seq<Byte>>, sourceName: Name, dest: Path, d: nat, name: Name)
    requires Navigable(s)
  {
    && CpTo(s, sourceName, dest, d, name) && file.Some? && FreeInodes(s) != {}
    && Insertable(s, d) && |FreeBlocks(s)| >= Grows(s, d, |name|) + BlocksNeeded(Kept(|CString(file.value)|))
  }

  lemma CpAtIff(s: State, file: Option<seq<Byte>>, sourceName: Name, dest: Path, now: nat, d: nat, name: Name)
    requires Sane(s) && CpReady(s, file, sourceName, dest) && CpTo(s, sourceName, dest, d, name)
    ensures CpStep(s, file, sourceName, dest, now).1 <==> CpSucceeds(s, file, sourceName, dest, d, name)
    ensures CpStep(s, file, sourceName, dest, now).0 == s <==> file == None || FreeInodes(s) == {}
  {
    CpTargetIff(s, sourceName, dest, d, name);
    if file.Some? { FileSucceedsIff(s, d, name, S_IFREG, FT_REG_FILE, CString(file.value), now); }
  }

  lemma CpRefused(s: State, file: Option<seq<Byte>>, sourceName: Name, dest: Path, now: nat)
    requires Sane(s) && CpReady(s, file, sourceName, dest)
    requires forall d: nat, name :: !CpTo(s, sourceName, dest, d, name)
    ensures CpStep(s, file, sourceName, dest, now) == (s, false)
  {
    if CpTarget(s, sourceName, dest).Some? {
      var (d, name) := CpTarget(s, sourceName, dest).value;
      CpTargetIff(s, sourceName, dest, d, name);
    }
  }

  /** cp takes an inode, the blocks of the file, and one more if the directory has no room. */
  lemma CpSucceedsIff(s: State, file: Option<seq<Byte>>, sourceName: Name, dest: Path, now: nat)
    requires Sane(s) && CpReady(s, file, sourceName, dest)
    ensures CpStep(s, file, sourceName, dest, now).1
       <==> exists d: nat, name :: CpSucceeds(s, file, sourceName, dest, d, name)
    ensures CpStep(s, file, sourceName, dest, now).0 == s
       <==> file == None || FreeInodes(s) == {} || forall d: nat, name :: !CpTo(s, sourceName, dest, d, name)
  {
    if d: nat, name :| CpTo(s, sourceName, dest, d, name) {
      CpAtIff(s, file, sourceName, dest, now, d, name);
      forall e: nat, m | CpSucceeds(s, file, sourceName, dest, e, m) ensures CpStep(s, file, sourceName, dest, now).1 {
        CpAtIff(s, file, sourceName, dest, now, e, m);
      }
    } else {
      CpRefused(s, file, sourceName, dest, now);
    }
  }

  // ---------- ln ----------

  /** ln of `source` to `dest` is to put `name`, for inode `f`, into `d`, be that a directory or not. */
  ghost predicate LnTo(s: State, source: Path, dest: Path, f: nat, d: nat, name: Name)
    requires Navigable(s)
  {
    && Absolute(source) && Absolute(dest) && ByPath(s, source) == Some(f) && !IsDir(s.inodes[f].mode)
    && ByPath(s, FilePath(dest)) == Some(d) && ByPath(s, dest) == None
    && name == FileName(dest) && |name| <= 255
  }

  lemma LnTargetIff(s: State, source: Path, dest: Path, f: nat, d: nat, name: Name)
    requires Navigable(s)
    ensures LnTarget(s, source, dest) == Some((f, d, name)) <==> LnTo(s, source, dest, f, d, name)
  {
  }

  ghost predicate LnSucceeds(s: State, source: Path, dest: Path, f: nat, d: nat, name: Name)
    requires Navigable(s)
  { LnTo(s, source, dest, f, d, name) && Insertable(s, d) && |FreeBlocks(s)| >= Grows(s, d, |name|) }

  lemma LnAtIff(s: State, source: Path, dest: Path, f: nat, d: nat, name: Name)
    requires Sane(s) && LnReady(s, source, dest) && LnTo(s, source, dest, f, d, name)
    ensures LnStep(s, source, dest).1 <==> LnSucceeds(s, source, dest, f, d, name)
    ensures LnStep(s, source, dest).0 == s <==> !LnStep(s, source, dest).1
  {
    LnTargetIff(s, source, dest, f, d, name);
    InsertSucceedsIff(s, d, f, name, FT_REG_FILE);
    OneMore(s, d, f, name);
  }

  lemma OneMore(s: State, d: nat, f: nat, name: Name)
    requires Shaped(s) && Insertable(s, d) && f < |s.inodes| && |name| < 0x100
    ensures NewDirEntry(s, d, f, name, FT_REG_FILE).1 ==> NewDirEntry(s, d, f, name, FT_REG_FILE).0 != s
  {
    var r := NewDirEntry(s, d, f, name, FT_REG_FILE);
    if r.1 { assert r.0.inodes[f].links != s.inodes[f].links; }
  }

  lemma LnRefused(s: State, source: Path, dest: Path)
    requires Navigable(s) && forall f: nat, d: nat, name :: !LnTo(s, source, dest, f, d, name)
    ensures LnTarget(s, source, dest) == None
  {
    if LnTarget(s, source, dest).Some? {
      var (f, d, name) := LnTarget(s, source, dest).value;
      LnTargetIff(s, source, dest, f, d, name);
    }
  }

  /** A hard link takes a block if there is no room for its record; refused, it changes nothing. */
  lemma LnSucceedsIff(s: State, source: Path, dest: Path)
    requires Sane(s) && LnReady(s, source, dest)
    ensures LnStep(s, source, dest).1 <==> exists f: nat, d: nat, name :: LnSucceeds(s, source, dest, f, d, name)
    ensures LnStep(s, source, dest).0 == s <==> !LnStep(s, source, dest).1
  {
    if f: nat, d: nat, name :| LnTo(s, source, dest, f, d, name) {
      LnAtIff(s, source, dest, f, d, name);
      forall g: nat, e: nat, m | LnSucceeds(s, source, dest, g, e, m) ensures LnStep(s, source, dest).1 {
        LnAtIff(s, source, dest, g, e, m);
      }
    } else {
      LnRefused(s, source, dest);
    }
  }

  ghost predicate LnSSucceeds(s: State, source: Path, dest: Path, f: nat, d: nat, name: Name)
    requires Navigable(s)
  {
    && LnTo(s, source, dest, f, d, name) && Insertable(s, d)
    && |FreeBlocks(s)| >= Grows(s, d, |name|) + BlocksNeeded(Kept(|source|))
  }

  lemma LnSAtIff(s: State, source: Path, dest: Path, now: nat, f: nat, d: nat, name: Name)
    requires Sane(s) && LnSReady(s, source, dest) && LnTo(s, source, dest, f, d, name)
    ensures LnSStep(s, source, dest, now).1 <==> LnSSucceeds(s, source, dest, f, d, name)
    ensures LnSStep(s, source, dest, now).0 != s
  {
    LnTargetIff(s, source, dest, f, d, name);
    FileSucceedsIff(s, d, name, S_IFLNK, FT_SYMLINK, source, now);
  }

  /** A symbolic link takes an inode, the blocks of the path, and one more if there is no room for its record. */
  lemma LnSSucceedsIff(s: State, source: Path, dest: Path, now: nat)
    requires Sane(s) && LnSReady(s, source, dest)
    ensures LnSStep(s, source, dest, now).1
       <==> exists f: nat, d: nat, name :: LnSSucceeds(s, source, dest, f, d, name)
    ensures LnSStep(s, source, dest, now).0 == s
       <==> forall f: nat, d: nat, name :: !LnTo(s, source, dest, f, d, name)
  {
    if f: nat, d: nat, name :| LnTo(s, source, dest, f, d, name) {
      LnSAtIff(s, source, dest, now, f, d, name);
      forall g: nat, e: nat, m | LnSSucceeds(s, source, dest, g, e, m) ensures LnSStep(s, source, dest, now).1 {
        LnSAtIff(s, source, dest, now, g, e, m);
      }
    } else {
      LnRefused(s, source, dest);
    }
  }

  // ---------- rm ----------

  /** rm of `path` is to take `name` out of `d`. */
  ghost predicate RmTo(s: State, path: Path, d: nat, name: Name)
    requires Navigable(s)
  {
    && Absolute(path) && ByPath(s, path).Some? && !IsDir(s.inodes[ByPath(s, path).value].mode)
    && ByPath(s, FilePath(path)) == Some(d) && name == FileName(path)
  }

  lemma RmTargetIff(s: State, path: Path, d: nat, name: Name)
    requires Navigable(s)
    ensures RmTarget(s, path) == Some((d, name)) <==> RmTo(s, path, d, name)
  {
  }

  ghost predicate HasName(es: seq<Entry>, name: Name) { exists e :: e in es && e.name == name }

  ghost predicate RmSucceeds(s: State, path: Path, d: nat, name: Name)
    requires Navigable(s)
  { RmTo(s, path, d, name) && DirOk(s, d) && HasName(DirEntries(s, d), name) }

  lemma RmAtIff(s: State, path: Path, d: nat, name: Name)
    requires Sane(s) && RmReady(s, path) && RmTo(s, path, d, name)
    ensures RmStep(s, path).1 <==> RmSucceeds(s, path, d, name)
    ensures RmStep(s, path).0 == s <==> !RmStep(s, path).1
  {
    RmTargetIff(s, path, d, name);
    RemovesIff(s, d, name);
  }

  lemma RmRefused(s: State, path: Path)
    requires Navigable(s) && forall d: nat, name :: !RmTo(s, path, d, name)
    ensures RmTarget(s, path) == None
  {
    if RmTarget(s, path).Some? {
      var (d, name) := RmTarget(s, path).value;
      RmTargetIff(s, path, d, name);
    }
  }

  /** rm acts if and only if there is a record of the name; otherwise the disk is as it was. */
  lemma RmSucceedsIff(s: State, path: Path)
    requires Sane(s) && RmReady(s, path)
    ensures RmStep(s, path).1 <==> exists d: nat, name :: RmSucceeds(s, path, d, name)
    ensures RmStep(s, path).0 == s <==> !RmStep(s, path).1
  {
    if d: nat, name :| RmTo(s, path, d, name) {
      RmAtIff(s, path, d, name);
      forall e: nat, m | RmSucceeds(s, path, e, m) ensures RmStep(s, path).1 { RmAtIff(s, path, e, m); }
    } else {
      RmRefused(s, path);
    }
  }

  lemma RemovesIff(s: State, d: nat, name: Name)
    requires Shaped(s) && Removable(s, d, name)
    ensures RmDirEntry(s, d, name).1 <==> HasName(DirEntries(s, d), name)
    ensures RmDirEntry(s, d, name).0 == s <==> !RmDirEntry(s, d, name).1
  {
    FindSlotIs(s.blocks, Direct(s.inodes[d].ptr), name);
    FindNone(DirEntries(s, d), name);
    if FindRemoval(s, d, name).Some? { OneFewer(s, d, name, RmInode(s, d, name)); }
  }

  lemma OneFewer(s: State, d: nat, name: Name, n: nat)
    requires Shaped(s) && Removable(s, d, name) && FindRemoval(s, d, name).Some? && n == RmInode(s, d, name)
    ensures RmDirEntry(s, d, name).1 && RmDirEntry(s, d, name).0 != s
  {
    var r := RmDirEntry(s, d, name).0;
    assert n < |r.inodes| && r.inodes[n].links == U16(s.inodes[n].links - 1) != s.inodes[n].links;
  }
}

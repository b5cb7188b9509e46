/** The whole effect of each command, field by field, whatever else is on the disk. */
module CommandEffects {
  import opened Options
  import opened Bytes
  import opened Records
  import opened DiskState
  import opened Directory
  import opened Invariant
  import opened Insertion
  import opened RemovalProofs
  import opened RemovalInv
  import opened Writing
  import opened WriteFacts
  import opened WriteProofs
  import opened Paths
  import opened Commands
  import opened Room
  import opened Effects
  import opened CommandSuccess
  import opened Runs

  // ---------- the record of what is new ----------

  /** The blocks of the directory are marked, and go with its sector count. */
  ghost predicate SoundDir(s: State, d: nat) {
    Tallied(s, d) && forall p :: p in Direct(s.inodes[d].ptr) ==> Marked(s, p)
  }

  /**
   * The directory got a record of inode `n` with that name and type, and lost none, unless there was no
   * room for it in the last of its blocks.
   */
  ghost predicate Recorded(s: State, r: State, d: nat, n: nat, name: Name, ft: Byte)
    requires SoundDir(s, d) && Insertable(s, d)
  {
    && DirOk(r, d) && (n + 1, name, ft) in AllSay(DirEntries(r, d))
    && (AllSay(DirEntries(r, d)) == AllSay(DirEntries(s, d)) + multiset{(n + 1, name, ft)}
        <==> Fits(s, d, |name|) || NumDirect(s.inodes[d].ptr) == 0)
  }

  lemma MarkedIsOld(s: State, d: nat)
    requires Shaped(s) && SoundDir(s, d)
    ensures NewIsNone(s, d)
  {
    forall k | k in FreeBlocks(s) ensures k + 1 !in Direct(s.inodes[d].ptr) { assert !Marked(s, k + 1); }
  }

  lemma RecordedNow(s: State, d: nat, child: nat, name: Name, ft: Byte)
    requires Shaped(s) && SoundDir(s, d) && Insertable(s, d) && child < |s.inodes| && |name| < 0x100
    requires NewDirEntry(s, d, child, name, ft).1
    ensures Recorded(s, NewDirEntry(s, d, child, name, ft).0, d, child, name, ft)
  {
    MarkedIsOld(s, d);
    InsertSays(s, d, child, name, ft);
    FitsIff(s, d, |name|);
  }

  lemma SlotSet(ptr: Pointers, size: nat, slot: nat, v: nat)
    requires PointersOk(ptr, size) && v > 0 && slot < DIRECT
    requires slot == (if NumDirect(ptr) > 0 then NumDirect(ptr) - 1 else 0)
    ensures forall p :: p in Direct(ptr[slot := v]) ==> p in Direct(ptr) || p == v
  {
    NumDirectIs(ptr[slot := v], 0, slot + 1);
    forall p | p in Direct(ptr[slot := v]) ensures p in Direct(ptr) || p == v {
      var i :| 0 <= i <= slot && ptr[slot := v][i] == p;
      if i < slot { assert Direct(ptr)[i] == p; }
    }
  }

  /** The blocks of the directory are marked afterwards, too. */
  lemma StaysMarked(s: State, d: nat, child: nat, name: Name, ft: Byte)
    requires Shaped(s) && SoundDir(s, d) && Insertable(s, d) && child < |s.inodes| && |name| < 0x100
    requires NewDirEntry(s, d, child, name, ft).1
    ensures var s' := NewDirEntry(s, d, child, name, ft).0;
            d < |s'.inodes| && forall p :: p in Direct(s'.inodes[d].ptr) ==> Marked(s', p)
  {
    var s' := NewDirEntry(s, d, child, name, ft).0;
    if !HasRoom(s, d, |name|) {
      var n, a := s.inodes[d].sectors / 2, Least(FreeBlocks(s));
      SlotSet(s.inodes[d].ptr, |s.blocks|, if n > 0 then n - 1 else 0, a + 1);
      NewBlockInside(s);
      assert Marked(s', a + 1) && s'.blockBits == s.blockBits[a := true];
      forall p | p in Direct(s'.inodes[d].ptr) ensures Marked(s', p) { assert p == a + 1 || Marked(s, p); }
    }
  }

  /** What is written then changes no block in use. */
  lemma RecordedThen(s: State, e: State, r: State, d: nat, n: nat, name: Name, ft: Byte)
    requires SoundDir(s, d) && Insertable(s, d) && Recorded(s, e, d, n, name, ft) && d < |r.inodes|
    requires forall p :: p in Direct(e.inodes[d].ptr) ==> Marked(e, p)
    requires r.inodes[d].ptr == e.inodes[d].ptr && r.inodes[d].sectors == e.inodes[d].sectors
    requires |r.blocks| == |e.blocks| && forall p: nat :: Marked(e, p) ==> r.blocks[p] == e.blocks[p]
    ensures Recorded(s, r, d, n, name, ft)
  {
    assert SameDir(e, r, d);
    SameEntries(e, r, d);
  }

  lemma SameRoom(s: State, s1: State, r: State, d: nat, n: nat, name: Name, ft: Byte)
    requires SoundDir(s, d) && Insertable(s, d) && d < |s1.inodes| && s1.inodes[d] == s.inodes[d]
    requires s1.blocks == s.blocks && s1.blockBits == s.blockBits
    ensures SoundDir(s1, d) && Insertable(s1, d) && (Recorded(s1, r, d, n, name, ft) ==> Recorded(s, r, d, n, name, ft))
  {
    SameEntries(s, s1, d);
  }

  // ---------- cp and ln -s ----------

  lemma FileRecorded(s: State, d: nat, name: Name, mode: nat, ft: Byte, src: seq<Byte>, now: nat, n: nat)
    requires AddReady(s, d, name) && SoundDir(s, d) && AddFile(s, d, name, mode, ft, src, now).1
    requires IsLeast(n, FreeInodes(s))
    ensures Recorded(s, AddFile(s, d, name, mode, ft, src, now).0, d, n, name, ft)
  {
    var m, s1 := FreshFile(s, d, name, mode, now);
    assert m == n;
    var e, r := NewDirEntry(s1, d, n, name, ft).0, AddFile(s, d, name, mode, ft, src, now).0;
    SameRoom(s, s1, r, d, n, name, ft);
    RecordedNow(s1, d, n, name, ft);
    StaysMarked(s1, d, n, name, ft);
    WriteFrame(e, n, src);
    RecordedThen(s1, e, r, d, n, name, ft);
  }

  /** No block of file `m` is the one that the record goes to. */
  ghost predicate ApartFrom(s: State, m: nat, d: nat, nameLen: nat)
    requires Insertable(s, d) && Readable(s, m)
  {
    Fits(s, d, nameLen) ==> forall i :: 0 <= i < BlocksFor(s.inodes[m].size) ==>
                              BlockOf(s, m, i) != TailBlock(s, d)
                              && (i >= DIRECT ==> s.inodes[m].ptr[DIRECT] != TailBlock(s, d))
  }

  lemma {:induction false} StaysReadable(s: State, r: State, d: nat, nameLen: nat, m: nat, i: nat)
    requires Insertable(s, d) && BlocksStay(s, r, d, nameLen) && Readable(s, m) && ApartFrom(s, m, d, nameLen)
    requires m < |r.inodes| && r.inodes[m].ptr == s.inodes[m].ptr && r.inodes[m].size == s.inodes[m].size
    ensures Readable(r, m) && ReadFrom(r, m, i) == ReadFrom(s, m, i)
    decreases BlocksFor(s.inodes[m].size) - i
  {
    forall t | 0 <= t < BlocksFor(s.inodes[m].size)
      ensures HasBlock(r, m, t) && BlockOf(r, m, t) == BlockOf(s, m, t)
              && r.blocks[BlockOf(r, m, t)] == s.blocks[BlockOf(s, m, t)]
    {
      assert HasBlock(s, m, t);
    }
    if i < BlocksFor(s.inodes[m].size) { StaysReadable(s, r, d, nameLen, m, i + 1); }
  }

  /** Every other file that does not share the block of the record reads as before. */
  ghost predicate ContentsStay(s: State, r: State, d: nat, nameLen: nat, n: nat)
    requires Insertable(s, d)
  {
    forall m :: m != d && m != n && Readable(s, m) && ApartFrom(s, m, d, nameLen) ==>
      Readable(r, m) && Content(r, m) == Content(s, m)
  }

  lemma OthersStay(s: State, r: State, d: nat, nameLen: nat, n: nat)
    requires Insertable(s, d) && BlocksStay(s, r, d, nameLen) && |r.inodes| == |s.inodes|
    requires forall m :: 0 <= m < |s.inodes| && m != d && m != n ==> r.inodes[m] == s.inodes[m]
    ensures ContentsStay(s, r, d, nameLen, n)
  {
    forall m | m != d && m != n && Readable(s, m) && ApartFrom(s, m, d, nameLen)
      ensures Readable(r, m) && Content(r, m) == Content(s, m)
    {
      StaysReadable(s, r, d, nameLen, m, 0);
    }
  }

  /** What the bits, the inode `d` and the other inodes are after a record for the new inode `n`. */
  ghost predicate Joined(s: State, r: State, d: nat, n: nat, nameLen: nat, links: nat)
    requires Insertable(s, d)
  {
    && IsLeast(n, FreeInodes(s)) && n != d && n < |r.inodes| == |s.inodes| && r.inodeBits == s.inodeBits[n := true]
    && (forall m :: 0 <= m < |s.inodes| && m != d && m != n ==> r.inodes[m] == s.inodes[m])
    && (var i, i' := s.inodes[d], r.inodes[d];
        if Fits(s, d, nameLen) then i' == i.(links := links)
        else i' == i.(links := links, ptr := i'.ptr, sectors := i.sectors + 2, size := i.size + 1024))
    && BlocksStay(s, r, d, nameLen) && TakesLowest(s, r)
  }

  /** The file that cp, or ln -s, makes: `n` has the content, and the lowest of the free blocks for it. */
  ghost predicate MadeFile(s: State, r: State, d: nat, n: nat, name: Name, mode: nat, src: seq<Byte>, now: nat)
    requires Insertable(s, d)
  {
    && Joined(s, r, d, n, |name|, s.inodes[d].links) && r.usedDirs == s.usedDirs && r.dataStart == s.dataStart
    && NewFile(r.inodes[n], mode, |src|, now)
    && (if |src| <= 1024 * 268 then Readable(r, n) && Content(r, n) == src else !Readable(r, n))
    && |FreeBlocks(r)| == |FreeBlocks(s)| - Grows(s, d, |name|) - BlocksNeeded(Kept(|src|))
    && ContentsStay(s, r, d, |name|, n)
  }

  lemma CutUnreadable(r: State, n: nat, size: nat)
    requires n < |r.inodes| && r.inodes[n].size == size > 1024 * MAX_BLOCKS
    ensures !Readable(r, n)
  {
    BlocksForIs(1024 * MAX_BLOCKS, MAX_BLOCKS);
  }

  lemma FileJoined(s: State, d: nat, name: Name, mode: nat, ft: Byte, src: seq<Byte>, now: nat)
    returns (n: nat, r: State)
    requires AddReady(s, d, name) && AddFile(s, d, name, mode, ft, src, now).1
    ensures r == AddFile(s, d, name, mode, ft, src, now).0
    ensures Joined(s, r, d, n, |name|, s.inodes[d].links) && r.usedDirs == s.usedDirs && r.dataStart == s.dataStart
    ensures NewFile(r.inodes[n], mode, |src|, now) && (|src| <= 1024 * MAX_BLOCKS ==> ReadsBack(r, n, src))
    ensures |FreeBlocks(r)| == |FreeBlocks(s)| - Grows(s, d, |name|) - BlocksNeeded(Kept(|src|))
  {
    n, r := FileEffect(s, d, name, mode, ft, src, now);
  }

  lemma FileMade(s: State, d: nat, name: Name, mode: nat, ft: Byte, src: seq<Byte>, now: nat) returns (n: nat, r: State)
    requires AddReady(s, d, name) && AddFile(s, d, name, mode, ft, src, now).1
    ensures r == AddFile(s, d, name, mode, ft, src, now).0 && MadeFile(s, r, d, n, name, mode, src, now)
    ensures SoundDir(s, d) ==> Recorded(s, r, d, n, name, ft)
  {
    n, r := FileJoined(s, d, name, mode, ft, src, now);
    OthersStay(s, r, d, |name|, n);
    if |src| > 1024 * MAX_BLOCKS { CutUnreadable(r, n, |src|); }
    if SoundDir(s, d) { FileRecorded(s, d, name, mode, ft, src, now, n); }
  }

  /**
   * A successful cp makes a regular file of the lowest free inode and blocks, which reads as its source if
   * that has at most 268 blocks; a longer one is cut, and the file is not readable, though cp succeeds.
   */
  lemma CpMakes(s: State, file: Option<seq<Byte>>, sourceName: Name, dest: Path, now: nat, d: nat, name: Name)
    returns (n: nat, r: State)
    requires Sane(s) && CpReady(s, file, sourceName, dest) && CpTo(s, sourceName, dest, d, name)
    requires CpStep(s, file, sourceName, dest, now).1
    ensures r == CpStep(s, file, sourceName, dest, now).0 && file.Some? && Insertable(s, d)
    ensures MadeFile(s, r, d, n, name, 0x8000, CString(file.value), now)
    ensures SoundDir(s, d) ==> Recorded(s, r, d, n, name, 1)
  {
    CpTargetIff(s, sourceName, dest, d, name);
    n, r := FileMade(s, d, name, S_IFREG, FT_REG_FILE, CString(file.value), now);
  }

  /** ln -s makes a symbolic link, which reads as the source path. */
  lemma LnSMakes(s: State, source: Path, dest: Path, now: nat, f: nat, d: nat, name: Name) returns (n: nat, r: State)
    requires Sane(s) && LnSReady(s, source, dest) && LnTo(s, source, dest, f, d, name)
    requires LnSStep(s, source, dest, now).1
    ensures r == LnSStep(s, source, dest, now).0 && Insertable(s, d) && MadeFile(s, r, d, n, name, 0xA000, source, now)
    ensures SoundDir(s, d) ==> Recorded(s, r, d, n, name, 7)
  {
    LnTargetIff(s, source, dest, f, d, name);
    n, r := FileMade(s, d, name, S_IFLNK, FT_SYMLINK, source, now);
  }

  // ---------- mkdir ----------

  lemma MadeRecorded(s: State, d: nat, n: nat, name: Name)
    requires AddReady(s, d, name) && SoundDir(s, d) && n < |s.inodes| && n != d && s.inodes[n].sectors == 0
    requires s.inodes[n].ptr == seq(POINTERS, _ => 0) && MkdirFrom(s, d, n, name).1
    ensures Recorded(s, MkdirFrom(s, d, n, name).0, d, n, name, FT_DIR)
  {
    var e, r := MadeFrom(s, d, n, name);
    RecordedNow(s, d, n, name, FT_DIR);
    StaysMarked(s, d, n, name, FT_DIR);
    RecordedThen(s, e, r, d, n, name, FT_DIR);
  }

  lemma DirRecorded(s: State, d: nat, name: Name, now: nat, n: nat)
    requires AddReady(s, d, name) && SoundDir(s, d) && MkdirAt(s, d, name, now).1 && IsLeast(n, FreeInodes(s))
    ensures Recorded(s, MkdirAt(s, d, name, now).0, d, n, name, FT_DIR)
  {
    var m, s1 := FreshDirectory(s, d, name, now);
    assert m == n;
    SameRoom(s, s1, MkdirAt(s, d, name, now).0, d, n, name, FT_DIR);
    MadeRecorded(s1, d, n, name);
  }

  /** A successful mkdir makes a directory of the lowest free inode, with "." and ".." and nothing else. */
  lemma MkdirMakes(s: State, path: Path, now: nat, d: nat, name: Name) returns (n: nat, r: State)
    requires Sane(s) && MkdirReady(s, path) && MkdirTo(s, path, d, name) && MkdirStep(s, path, now).1
    ensures r == MkdirStep(s, path, now).0 && Insertable(s, d)
    ensures Joined(s, r, d, n, |name|, U16(s.inodes[d].links + 1)) && r.dataStart == s.dataStart
    ensures r.usedDirs == U16(s.usedDirs + 1) && ContentsStay(s, r, d, |name|, n)
    ensures |FreeBlocks(r)| == |FreeBlocks(s)| - Grows(s, d, |name|) - 1
    ensures NewDir(r.inodes[n], now) && DirOk(r, n)
            && DirEntries(r, n) == [Entry(0, n + 1, 12, [46], 2), Entry(12, d + 1, 1012, [46, 46], 2)]
    ensures SoundDir(s, d) ==> Recorded(s, r, d, n, name, 2)
  {
    MkdirTargetIff(s, path, d, name);
    n, r := DirEffect(s, d, name, now);
    OthersStay(s, r, d, |name|, n);
    if SoundDir(s, d) { DirRecorded(s, d, name, now, n); }
  }

  // ---------- ln ----------

  /** Inode `f` has a link more, and inode `d` a block more if there was no room in its last one. */
  ghost predicate LinkedIn(s: State, r: State, d: nat, f: nat, nameLen: nat)
    requires Insertable(s, d) && f < |s.inodes|
  {
    && |r.inodes| == |s.inodes| && r.inodeBits == s.inodeBits && r.usedDirs == s.usedDirs && r.dataStart == s.dataStart
    && (forall m :: 0 <= m < |s.inodes| ==>
          && r.inodes[m].links == (if m == f then U16(s.inodes[m].links + 1) else s.inodes[m].links)
          && (if m == d && !Fits(s, d, nameLen)
              then r.inodes[m] == s.inodes[m].(links := r.inodes[m].links, ptr := r.inodes[m].ptr,
                                               sectors := s.inodes[m].sectors + 2, size := s.inodes[m].size + 1024)
              else r.inodes[m] == s.inodes[m].(links := r.inodes[m].links)))
  }

  lemma LinkInodes(s: State, d: nat, f: nat, name: Name, ft: Byte)
    requires Shaped(s) && Insertable(s, d) && f < |s.inodes| && |name| < 0x100 && NewDirEntry(s, d, f, name, ft).1
    ensures LinkedIn(s, NewDirEntry(s, d, f, name, ft).0, d, f, |name|)
  {
    FitsIff(s, d, |name|);
  }

  lemma LinkBlocks(s: State, d: nat, f: nat, name: Name, ft: Byte)
    requires Shaped(s) && Insertable(s, d) && f < |s.inodes| && |name| < 0x100 && NewDirEntry(s, d, f, name, ft).1
    ensures var r := NewDirEntry(s, d, f, name, ft).0;
            BlocksStay(s, r, d, |name|) && TakesLowest(s, r) && |FreeBlocks(r)| == |FreeBlocks(s)| - Grows(s, d, |name|)
  {
    FitsIff(s, d, |name|);
    var r := NewDirEntry(s, d, f, name, ft).0;
    if HasRoom(s, d, |name|) {
      assert FreeBlocks(r) == FreeBlocks(s);
    } else {
      assert FreeBlocks(r) == FreeBlocks(s) - {Least(FreeBlocks(s))};
    }
  }

  /** A successful ln takes no inode; the record has the type of a regular file, whatever the source is. */
  lemma LnMakes(s: State, source: Path, dest: Path, f: nat, d: nat, name: Name) returns (r: State)
    requires Sane(s) && LnReady(s, source, dest) && LnTo(s, source, dest, f, d, name) && LnStep(s, source, dest).1
    ensures r == LnStep(s, source, dest).0 && Insertable(s, d) && LinkedIn(s, r, d, f, |name|)
    ensures BlocksStay(s, r, d, |name|) && TakesLowest(s, r)
    ensures |FreeBlocks(r)| == |FreeBlocks(s)| - Grows(s, d, |name|)
    ensures SoundDir(s, d) ==> Recorded(s, r, d, f, name, 1)
  {
    LnTargetIff(s, source, dest, f, d, name);
    r := NewDirEntry(s, d, f, name, FT_REG_FILE).0;
    LinkInodes(s, d, f, name, FT_REG_FILE);
    LinkBlocks(s, d, f, name, FT_REG_FILE);
    if SoundDir(s, d) { RecordedNow(s, d, f, name, FT_REG_FILE); }
  }

  // ---------- rm ----------

  /** Inode `n` has a link less; with the last one its bit goes, and those of its blocks, and nothing else of it. */
  ghost predicate Dropped(s: State, r: State, n: nat)
    requires n < |s.inodes| == |s.inodeBits|
  {
    var last := U16(s.inodes[n].links - 1) == 0;
    && r.inodes == s.inodes[n := s.inodes[n].(links := U16(s.inodes[n].links - 1))]
    && r.inodeBits == (if last then s.inodeBits[n := false] else s.inodeBits)
    && |r.blockBits| == |s.blockBits| && |r.blocks| == |s.blocks|
    && (forall k :: 0 <= k < |s.blockBits| ==>
          (r.blockBits[k] <==> s.blockBits[k] && !(last && k + 1 in Direct(s.inodes[n].ptr))))
    && r.sbFreeInodes == (if last then U32(s.sbFreeInodes + 1) else s.sbFreeInodes)
    && r.gdFreeInodes == (if last then U16(s.gdFreeInodes + 1) else s.gdFreeInodes)
    && r.sbFreeBlocks == (if last then U32(s.sbFreeBlocks + NumDirect(s.inodes[n].ptr)) else s.sbFreeBlocks)
    && r.gdFreeBlocks == (if last then U16(s.gdFreeBlocks + NumDirect(s.inodes[n].ptr)) else s.gdFreeBlocks)
    && r.usedDirs == s.usedDirs && r.dataStart == s.dataStart
  }

  lemma DropLinkDrops(s: State, n: nat)
    requires Shaped(s) && n < |s.inodes|
    ensures Dropped(s, DropLink(s, n), n) && DropLink(s, n).blocks == s.blocks
  {
  }

  lemma EditedOne(s: State, d: nat, name: Name) returns (k: nat, u: State)
    requires Shaped(s) && Removable(s, d, name) && FindRemoval(s, d, name).Some?
    ensures u == Edited(s, d, name) && k in Direct(s.inodes[d].ptr) && k < |s.blocks| == |u.blocks|
    ensures u == s.(blocks := s.blocks[k := u.blocks[k]])
  {
    u, k := Edited(s, d, name), FindRemoval(s, d, name).value.block;
  }

  lemma DroppedFrom(s: State, u: State, r: State, n: nat)
    requires n < |s.inodes| == |s.inodeBits| && |u.blocks| == |s.blocks| && u == s.(blocks := u.blocks)
    requires Dropped(u, r, n)
    ensures Dropped(s, r, n)
  {
  }

  lemma RmDrops(s: State, d: nat, name: Name) returns (r: State, n: nat, k: nat)
    requires Shaped(s) && Removable(s, d, name) && FindRemoval(s, d, name).Some?
    ensures r == RmDirEntry(s, d, name).0 && n == RmInode(s, d, name) && n < |s.inodes| && Dropped(s, r, n)
    ensures k in Direct(s.inodes[d].ptr) && k < |r.blocks| && r.blocks == s.blocks[k := r.blocks[k]]
    ensures r.blocks == Edited(s, d, name).blocks
  {
    RmIsEdit(s, d, name);
    var u;
    k, u := EditedOne(s, d, name);
    n := RmInode(s, d, name);
    r := DropLink(u, n);
    DropLinkDrops(u, n);
    DroppedFrom(s, u, r, n);
  }

  /** A successful rm: what goes is one record of the directory, and the link that it was. */
  lemma RmRemoves(s: State, path: Path, d: nat, name: Name)
    returns (r: State, n: nat, k: nat, a: seq<Entry>, x: Entry, y: Entry, b: seq<Entry>)
    requires Sane(s) && RmReady(s, path) && RmTo(s, path, d, name) && RmStep(s, path).1
    requires d < |s.inodes| && PointersOk(s.inodes[d].ptr, |s.blocks|)
    ensures r == RmStep(s, path).0 && n < |s.inodes| == |s.inodeBits| && Dropped(s, r, n)
    ensures DirOk(s, d) && DirOk(r, d) && Edits(DirEntries(s, d), DirEntries(r, d), a, x, y, b) && y.ino == n + 1
    ensures EditsName(a, x, y, name, FirstInBlock(s, d, name))
    ensures k in Direct(s.inodes[d].ptr) && k < |r.blocks| && r.blocks == s.blocks[k := r.blocks[k]]
  {
    RmTargetIff(s, path, d, name);
    r, n, k := RmDrops(s, d, name);
    a, x, y, b := EditShape(s, d, name);
    SameEntries(Edited(s, d, name), r, d);
  }

  // ---------- on a sound disk ----------

  lemma SoundDirs(s: State, d: nat)
    requires Inv(s) && UsedDir(s, d)
    ensures SoundDir(s, d)
  {
    assert DirSound(s, d) && MarksOwned(s, d);
    forall p | p in Direct(s.inodes[d].ptr) ensures Marked(s, p) { assert p in Owned(s, d); }
  }

  /** The directory got a record, and lost none. */
  ghost predicate Gains(s: State, r: State, d: nat, n: nat, name: Name, ft: Byte) {
    && DirOk(s, d) && DirOk(r, d)
    && AllSay(DirEntries(r, d)) == AllSay(DirEntries(s, d)) + multiset{(n + 1, name, ft)}
  }

  lemma RoomyGains(s: State, r: State, d: nat, n: nat, name: Name, ft: Byte)
    requires SoundDir(s, d) && Roomy(s, d, name) && Recorded(s, r, d, n, name, ft)
    requires |FreeBlocks(s)| >= Grows(s, d, |name|)
    ensures Gains(s, r, d, n, name, ft)
  {
    FitsIff(s, d, |name|);
  }

  lemma {:induction false} InSay(es: seq<Entry>, ino: nat, name: Name, ft: Byte)
    ensures (ino, name, ft) in AllSay(es) <==> exists e :: e in es && e.ino == ino && e.name == name && e.ft == ft
  {
    if es != [] {
      InSay(es[1..], ino, name, ft);
      assert es == [es[0]] + es[1..];
      forall e | e in es[1..] ensures e in es {}
    }
  }

  /** The directory has one record of inode `n`, and that one has the name and the type. */
  ghost predicate NamedAs(r: State, d: nat, n: nat, name: Name, ft: Byte) {
    && DirOk(r, d) && (exists e :: e in DirEntries(r, d) && e.ino == n + 1)
    && forall e :: e in DirEntries(r, d) && e.ino == n + 1 ==> e.name == name && e.ft == ft
  }

  lemma SaysOnly(es: seq<Entry>, es': seq<Entry>, n: nat, name: Name, ft: Byte)
    requires AllSay(es') == AllSay(es) + multiset{(n + 1, name, ft)} && forall e :: e in es ==> e.ino != n + 1
    ensures exists e :: e in es' && e.ino == n + 1
    ensures forall e :: e in es' && e.ino == n + 1 ==> e.name == name && e.ft == ft
  {
    InSay(es', n + 1, name, ft);
    forall e | e in es' && e.ino == n + 1 ensures e.name == name && e.ft == ft {
      InSay(es', e.ino, e.name, e.ft);
      InSay(es, e.ino, e.name, e.ft);
    }
  }

  /** So it is for an inode that was free. */
  lemma GainsOnly(s: State, r: State, d: nat, n: nat, name: Name, ft: Byte)
    requires Inv(s) && UsedDir(s, d) && !Used(s, n) && Gains(s, r, d, n, name, ft)
    ensures NamedAs(r, d, n, name, ft)
  {
    assert DirSound(s, d);
    SaysOnly(DirEntries(s, d), DirEntries(r, d), n, name, ft);
  }

  lemma FileKind(s: State, d: nat, name: Name, mode: nat, ft: Byte, src: seq<Byte>, now: nat) returns (n: nat, r: State)
    requires Inv(s) && UsedDir(s, d) && AddReady(s, d, name) && Roomy(s, d, name)
    requires AddFile(s, d, name, mode, ft, src, now).1
    ensures FreeInodes(s) != {} && n == Least(FreeInodes(s)) && r == AddFile(s, d, name, mode, ft, src, now).0
    ensures n < |r.inodes| && NewFile(r.inodes[n], mode, |src|, now)
    ensures Gains(s, r, d, n, name, ft) && NamedAs(r, d, n, name, ft)
  {
    FileSucceedsIff(s, d, name, mode, ft, src, now);
    SoundDirs(s, d);
    n, r := FileMade(s, d, name, mode, ft, src, now);
    RoomyGains(s, r, d, n, name, ft);
    GainsOnly(s, r, d, n, name, ft);
  }

  lemma DirKind(s: State, d: nat, name: Name, now: nat) returns (n: nat, r: State)
    requires Inv(s) && UsedDir(s, d) && AddReady(s, d, name) && Roomy(s, d, name) && MkdirAt(s, d, name, now).1
    ensures FreeInodes(s) != {} && n == Least(FreeInodes(s)) && r == MkdirAt(s, d, name, now).0
    ensures n < |r.inodes| && NewDir(r.inodes[n], now) && DirOk(r, n) && DirEntries(r, n) == DotRecords(n, d)
    ensures Gains(s, r, d, n, name, FT_DIR) && NamedAs(r, d, n, name, FT_DIR)
  {
    DirSucceedsIff(s, d, name, now);
    SoundDirs(s, d);
    n, r := DirEffect(s, d, name, now);
    DirRecorded(s, d, name, now, n);
    RoomyGains(s, r, d, n, name, FT_DIR);
    GainsOnly(s, r, d, n, name, FT_DIR);
  }

  lemma LinkKind(s: State, d: nat, f: nat, name: Name, ft: Byte) returns (r: State)
    requires Inv(s) && UsedDir(s, d) && AddReady(s, d, name) && Roomy(s, d, name) && f < |s.inodes|
    requires NewDirEntry(s, d, f, name, ft).1
    ensures r == NewDirEntry(s, d, f, name, ft).0 && Gains(s, r, d, f, name, ft)
  {
    InsertSucceedsIff(s, d, f, name, ft);
    SoundDirs(s, d);
    RecordedNow(s, d, f, name, ft);
    r := NewDirEntry(s, d, f, name, ft).0;
    RoomyGains(s, r, d, f, name, ft);
  }
}

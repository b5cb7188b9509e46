/** Sound disks on which a command reports success and fails its purpose. */
module CommandFailures {
  import opened Options
  import opened Bytes
  import opened Records
  import opened DirBlocks
  import opened DiskState
  import opened Directory
  import opened Invariant
  import opened InsertLooks
  import opened Exactness
  import opened Writing
  import opened Paths
  import opened Lookups
  import opened Commands
  import opened PathFacts
  import opened Runs
  import opened StepExactness
  import opened PathChanges
  import opened TreeRefinement
  import opened Counterexamples
  import opened Room
  import opened CommandSuccess
  import opened CommandEffects

  // ---------- paths ----------

  lemma ShiftName(c: Name, t: Path)
    requires c != [] && SLASH !in c && (t == [] || t[0] == SLASH)
    ensures Shift(c + t) == Some((c, if t == [] then [] else t[1..]))
    ensures Shift([SLASH] + (c + t)) == Shift(c + t)
  {
    var p := c + t;
    assert p[..|c|] == c && p[0] == c[0] && (t != [] ==> p[|c|] == SLASH && p[|c| + 1..] == t[1..]);
    FirstSlashIs(p, |c|);
    assert SkipSlashes(p) == p;
    assert ([SLASH] + p)[1..] == p;
    assert SkipSlashes([SLASH] + p) == SkipSlashes(p);
  }

  lemma RootPaths(s: State, name: Name)
    requires Navigable(s) && IsDir(s.inodes[ROOT].mode)
    ensures ByPath(s, []) == Some(ROOT) == ByPath(s, [SLASH]) && Trim([SLASH]) == [SLASH]
    ensures CpTarget(s, name, [SLASH]) == if |name| > 255 then None else Some((ROOT, name))
  {
    assert Shift([]) == None && SkipSlashes([SLASH]) == [] && Shift([SLASH]) == None;
    assert LastSlash([SLASH]) == 0 && FilePath([SLASH]) == [] && FileName([SLASH]) == [];
    assert Join([], []) == [SLASH];
  }

  lemma NamePath(s: State, c: Name, n: nat)
    requires Navigable(s) && IsDir(s.inodes[ROOT].mode) && DirOk(s, ROOT) && Lookup(s, ROOT, c) == Some(n)
    requires n < |s.inodes|
    requires c != [] && SLASH !in c
    ensures ByPath(s, [SLASH] + c) == Some(n)
  {
    ShiftName(c, []);
    assert c + [] == c;
    assert WalkPath(s, n, []) == Some(n);
  }

  // ---------- a file copied twice ----------

  function OneFile(): State { RootDisk(WriteRecord(ZeroBlock(), 0, 12, BLOCK_SIZE, A, FT_REG_FILE), 1) }

  lemma OneFileIs() returns (s: State, b: Block)
    ensures s == OneFile() && b == WriteRecord(ZeroBlock(), 0, 12, BLOCK_SIZE, A, FT_REG_FILE)
    ensures Inv(s) && Navigable(s) && UsedDir(s, ROOT) && DirOk(s, ROOT)
    ensures s.inodes[ROOT].ptr == OnePointer(DATA) && s.inodes[ROOT].sectors == 2 && NumDirect(s.inodes[ROOT].ptr) == 1
    ensures |s.blocks| == 16 && s.blocks[DATA] == b && |s.inodes| == 16 && 12 in FreeInodes(s) && 7 in FreeBlocks(s)
    ensures RecOk(b, 0) && RecLen(b, 0) == BLOCK_SIZE && NameLen(b, 0) == 1
    ensures BlockOk(b) && DirEntries(s, ROOT) == Live(b) == [At(b, 0)]
    ensures At(b, 0) == Entry(0, 12, BLOCK_SIZE, A, FT_REG_FILE)
  {
    b := OneRecord(12, A);
    s := OneFile();
    RootDiskIs(b, 1);
    var e := Entry(0, 12, BLOCK_SIZE, A, FT_REG_FILE);
    forall ino: nat ensures Count([e], ino) == if ino == 12 then 1 else 0 { assert [e][1..] == []; }
    RootInv(b, 1);
    InvNavigable(s);
    ChainCons(b, 0, At(b, 0), BLOCK_SIZE);
  }

  /** The tail of a root directory with one record. */
  lemma OneTail(s: State, b: Block)
    requires DirOk(s, ROOT) && s.inodes[ROOT].ptr == OnePointer(DATA) && s.inodes[ROOT].sectors == 2
    requires NumDirect(s.inodes[ROOT].ptr) == 1 && |s.blocks| == 16 && s.blocks[DATA] == b && BlockOk(b)
    requires RecOk(b, 0) && RecLen(b, 0) == BLOCK_SIZE && NameLen(b, 0) == 1
    ensures Insertable(s, ROOT) && HasRoom(s, ROOT, 1) && Ahead(s, ROOT) == [At(b, 0)]
  {
    assert TailScan(b, 0, 0) == Some(0);
    assert s.inodes[ROOT].ptr[..0] == [] && Entries(b, 0, 0) == [];
    assert LiveOf(s.blocks, []) == [];
  }

  /** cp of "a" to "/", where there is one: "/a" still leads to the old file, and nothing to the new one. */
  lemma CopyHidden() returns (n: nat, r: State)
    ensures var s := OneFile();
            && Inv(s) && CpLegal(s, Some([]), A, [SLASH]) && CpStep(s, Some([]), A, [SLASH], 0) == (r, true)
            && Inv(r) && Navigable(r) && n in FreeInodes(s)
            && ByPath(r, [SLASH] + A) == Some(11) && NothingLeadsTo(r, n)
  {
    var s, b := OneFileIs();
    OneTail(s, b);
    OneHides(s, At(b, 0));
    NamePath(s, A, 11);
    n, r := HiddenCopy(s, A, [SLASH] + A);
  }

  lemma OneHides(s: State, e: Entry)
    requires DirOk(s, ROOT) && DirEntries(s, ROOT) == [e] && e.ino == 12 && e.name == A
    requires Insertable(s, ROOT) && Ahead(s, ROOT) == [e]
    ensures Shadowed(s, ROOT, A) && Lookup(s, ROOT, A) == Some(11)
  {
    assert FindIno([e], A) == Some(12);
  }

  ghost predicate NothingLeadsTo(s: State, n: nat)
    requires Navigable(s)
  { forall p :: ByPath(s, p) != Some(n) }

  lemma HiddenCopy(s: State, name: Name, p: Path) returns (n: nat, r: State)
    requires Inv(s) && Navigable(s) && UsedDir(s, ROOT) && DirOk(s, ROOT) && |name| < 0x100
    requires Insertable(s, ROOT) && HasRoom(s, ROOT, |name|) && FreeInodes(s) != {} && Shadowed(s, ROOT, name)
    ensures CpLegal(s, Some([]), name, [SLASH]) && CpStep(s, Some([]), name, [SLASH], 0) == (r, true)
    ensures Inv(r) && Navigable(r) && n in FreeInodes(s)
    ensures ByPath(r, p) == ByPath(s, p) && NothingLeadsTo(r, n)
  {
    RootPaths(s, name);
    EmptyCopy(s, ROOT, name);
    n, r := CpRefines(s, Some([]), name, [SLASH], 0, ROOT, name);
    NewInodeUnnamed(s, n);
  }

  /** An empty file takes no block. */
  lemma EmptyCopy(s: State, d: nat, name: Name)
    requires AddReady(s, d, name) && FreeInodes(s) != {} && Inserts(s, d, name)
    ensures AddFile(s, d, name, S_IFREG, FT_REG_FILE, [], 0).1 && CString([]) == []
    ensures var e := NewDirEntry(NewInodeOf(s, S_IFREG, 0).0, d, Least(FreeInodes(s)), name, FT_REG_FILE);
            && e.1 && |e.0.inodes| == |s.inodes| && Least(FreeInodes(s)) < |s.inodes|
            && AddFile(s, d, name, S_IFREG, FT_REG_FILE, [], 0).0 == SetSize(e.0, Least(FreeInodes(s)), 0)
  {
    NewInodeFacts(s, S_IFREG, 0);
    assert FreeBlocks(NewInodeOf(s, S_IFREG, 0).0) == FreeBlocks(s);
  }

  // ---------- a link put into a file ----------

  const X: Name := [120]

  /** "/b/y" and "/b/y/x", where "/b" is a file. */
  function ThroughB(): Path { [SLASH] + B + [SLASH, 121] }
  function IntoB(): Path { ThroughB() + [SLASH] + X }

  lemma IntoBParts()
    ensures IsAbsolute(IntoB()) && FilePath(IntoB()) == ThroughB() && FileName(IntoB()) == X
    ensures Shift(ThroughB()) == Some((B, [121])) && Shift(IntoB()) == Some((B, [121, SLASH] + X))
    ensures Shift([121]) == Some(([121], [])) && Shift([121, SLASH] + X) == Some(([121], X))
  {
    assert IntoB() == Join(ThroughB(), X);
    SplitJoin(ThroughB(), X);
    HeadOfIntoB();
    ShiftName([121], []);
    assert [121] + [] == [121];
    ShiftName([121], [SLASH] + X);
    assert [121] + ([SLASH] + X) == [121, SLASH] + X && ([SLASH] + X)[1..] == X;
  }

  lemma HeadOfIntoB()
    ensures Shift(ThroughB()) == Some((B, [121])) && Shift(IntoB()) == Some((B, [121, SLASH] + X))
  {
    ShiftName(B, [SLASH, 121]);
    assert ThroughB() == [SLASH] + (B + [SLASH, 121]) && [SLASH, 121][1..] == [121];
    ShiftName(B, [SLASH, 121] + [SLASH] + X);
    assert IntoB() == [SLASH] + (B + ([SLASH, 121] + [SLASH] + X));
    assert ([SLASH, 121] + [SLASH] + X)[1..] == [121, SLASH] + X;
  }

  lemma IntoBLeads(s: State)
    requires Navigable(s) && IsDir(s.inodes[ROOT].mode) && DirOk(s, ROOT) && Lookup(s, ROOT, B) == Some(12)
    requires |s.inodes| == 16 && !IsDir(s.inodes[12].mode)
    ensures ByPath(s, ThroughB()) == Some(12) && ByPath(s, IntoB()) == None
  {
    IntoBParts();
    assert WalkPath(s, 12, []) == Some(12);
    assert WalkPath(s, 12, [121]) == Some(12);
  }

  lemma TwoFiles() returns (s: State)
    ensures var b := WriteRecord(ZeroBlock(), 0, 12, BLOCK_SIZE, A, FT_REG_FILE);
            s == RootDisk(InsertAt(b, 0, 13, B, FT_REG_FILE), 2)
    ensures Inv(s) && Navigable(s) && UsedDir(s, ROOT) && DirOk(s, ROOT)
    ensures Lookup(s, ROOT, A) == Some(11) && Lookup(s, ROOT, B) == Some(12)
    ensures |s.inodes| == |s.inodeBits| == 16 && s.inodeBits[12] && s.inodes[11] == s.inodes[12] == RootInode(12, 2)
    ensures 7 in FreeBlocks(s)
  {
    var b, x, e := TwoRecords();
    s := RootDisk(b, 2);
    RootDiskIs(b, 2);
    forall ino: nat ensures Count([x, e], ino) == (if x.ino == ino then 1 else 0) + (if e.ino == ino then 1 else 0) {
      CountPair(x, e, ino);
    }
    RootInv(b, 2);
    InvNavigable(s);
    FindPair(x, e, A);
    FindPair(x, e, B);
  }

  /** ln "/a" "/b/y/x" reports success; the link count of "/a" is one too high, and nothing leads to it that way. */
  lemma LinkIntoFile() returns (s: State, r: State)
    ensures Inv(s) && Sane(s) && LnReady(s, [SLASH] + A, IntoB())
    ensures LnTarget(s, [SLASH] + A, IntoB()) == Some((11, 12, X)) && LnStep(s, [SLASH] + A, IntoB()) == (r, true)
    ensures !Inv(r) && Navigable(r) && ByPath(r, IntoB()) != Some(11)
  {
    s := TwoFiles();
    ModesAre();
    IntoBParts();
    IntoBLeads(s);
    NamePath(s, A, 11);
    assert AddReady(s, 12, X);
    r := LnRefines(s, [SLASH] + A, IntoB(), 11, 12, X);
  }

  // ---------- a full directory block ----------

  /** Two files with names of 255 bytes, and a third put behind them. */
  function LongPair(): Block {
    WriteRecord(Put16(WriteRecord(ZeroBlock(), 0, 12, BLOCK_SIZE, Long(1), FT_REG_FILE), 4, 264), 264, 13, 760, Long(2),
                FT_REG_FILE)
  }

  function FullBlock(): Block { WriteRecord(Put16(LongPair(), 268, 264), 528, 14, 496, Long(3), FT_REG_FILE) }

  lemma LongPairIs() returns (b: Block)
    ensures b == LongPair()
    ensures RecOk(b, 0) && RecLen(b, 0) == 264 && NameOf(b, 0) == Long(1) && Ino(b, 0) == 12 && NameLen(b, 0) == 255
    ensures RecOk(b, 264) && RecLen(b, 264) == 760 && NameOf(b, 264) == Long(2) && Ino(b, 264) == 13
    ensures NameLen(b, 264) == 255
  {
    var b1 := OneRecord(12, Long(1));
    LongPairBytes(b1);
    b := LongPair();
    LongPairFrom(b1, b);
  }

  lemma LongPairFrom(b1: Block, b: Block)
    requires RecOk(b1, 0) && RecLen(b1, 0) == BLOCK_SIZE && NameLen(b1, 0) == 255 && Ino(b1, 0) == 12
    requires NameOf(b1, 0) == Long(1) && b == InsertAt(b1, 0, 13, Long(2), FT_REG_FILE)
    ensures RecOk(b, 0) && RecLen(b, 0) == 264 && NameOf(b, 0) == Long(1) && Ino(b, 0) == 12 && NameLen(b, 0) == 255
    ensures RecOk(b, 264) && RecLen(b, 264) == 760 && NameOf(b, 264) == Long(2) && Ino(b, 264) == 13
    ensures NameLen(b, 264) == 255
  {
    PutBehind(b1, b, 0, 264, 13, Long(2), FT_REG_FILE);
  }

  lemma LongPairBytes(b: Block)
    requires RecOk(b, 0) && RecLen(b, 0) == BLOCK_SIZE && NameLen(b, 0) == 255
    ensures InsertAt(b, 0, 13, Long(2), FT_REG_FILE)
         == WriteRecord(Put16(b, 4, 264), 264, 13, 760, Long(2), FT_REG_FILE)
  {
  }

  lemma FullBytes(b: Block)
    requires RecOk(b, 264) && RecLen(b, 264) == 760 && NameLen(b, 264) == 255
    ensures InsertAt(b, 264, 14, Long(3), FT_REG_FILE)
         == WriteRecord(Put16(b, 268, 264), 528, 14, 496, Long(3), FT_REG_FILE)
  {
  }

  lemma FullBlockIs() returns (b: Block)
    ensures b == FullBlock()
    ensures RecOk(b, 0) && RecLen(b, 0) == 264 && NameOf(b, 0) == Long(1) && Ino(b, 0) == 12
    ensures RecOk(b, 264) && RecLen(b, 264) == 264 && NameOf(b, 264) == Long(2) && Ino(b, 264) == 13
    ensures RecOk(b, 528) && RecLen(b, 528) == 496 && NameOf(b, 528) == Long(3) && Ino(b, 528) == 14
    ensures NameLen(b, 528) == 255
  {
    var b2 := LongPairIs();
    FullBytes(b2);
    b := InsertAt(b2, 264, 14, Long(3), FT_REG_FILE);
    PutBehind(b2, b, 264, 264, 14, Long(3), FT_REG_FILE);
    FrontStays(b2, b);
  }

  lemma FrontStays(b: Block, b': Block)
    requires RecOk(b, 0) && RecLen(b, 0) == 264 && NameLen(b, 0) == 255 && Agree(b, b', 0, 268)
    ensures RecOk(b', 0) && RecLen(b', 0) == 264 && NameOf(b', 0) == NameOf(b, 0) && Ino(b', 0) == Ino(b, 0)
    ensures Ino(b', 264) == Ino(b, 264)
  {
    AtFrame(b, b', 0);
  }

  /** Lengths 264, 264 and 496: the scan for the tail stops at the third. */
  lemma TailOfThree(b: Block)
    requires RecOk(b, 0) && RecLen(b, 0) == 264 && RecOk(b, 264) && RecLen(b, 264) == 264
    requires RecOk(b, 528) && RecLen(b, 528) == 496
    ensures BlockOk(b) && Live(b) == [At(b, 0), At(b, 264), At(b, 528)] && TailScan(b, 0, 0) == Some(528)
  {
    ChainCons(b, 528, At(b, 528), BLOCK_SIZE);
    ChainCons(b, 264, At(b, 264), BLOCK_SIZE);
    ChainCons(b, 0, At(b, 0), BLOCK_SIZE);
    assert TailScan(b, 528, 760) == Some(528);
    assert TailScan(b, 264, 264) == Some(528);
  }

  lemma LongNames(es: seq<Entry>)
    requires |es| == 3 && es[0].name == Long(1) && es[1].name == Long(2) && es[2].name == Long(3)
    ensures DistinctNames(es) && FindIno(es, Long(4)) == None && SLASH !in Long(4)
  {
    assert Long(1)[0] == 1 && Long(2)[0] == 2 && Long(3)[0] == 3 && Long(4)[0] == 4;
    FindNone(es, Long(4));
    assert forall e :: e in es ==> e == es[0] || e == es[1] || e == es[2];
  }

  lemma CountThreeEach(x: Entry, y: Entry, z: Entry, ino: nat)
    ensures Count([x, y, z], ino)
         == (if x.ino == ino then 1 else 0) + (if y.ino == ino then 1 else 0) + (if z.ino == ino then 1 else 0)
  {
    assert [x, y, z] == [x] + [y, z];
    CountConcat([x], [y, z], ino);
    CountPair(y, z, ino);
  }

  lemma ThreeFiles() returns (s: State)
    ensures s == RootDisk(FullBlock(), 3) && Inv(s) && Navigable(s) && UsedDir(s, ROOT) && DirOk(s, ROOT)
    ensures Insertable(s, ROOT) && !HasRoom(s, ROOT, 255) && s.inodes[ROOT].sectors == 2
    ensures FreeBlocks(s) != {} && FreeInodes(s) != {} && s.inodeBits[ROOT]
    ensures var es := DirEntries(s, ROOT);
            |es| == 3 && es[0].name == Long(1) && es[1].name == Long(2) && es[2].name == Long(3)
  {
    var b := FullBlockIs();
    TailOfThree(b);
    s := RootDisk(b, 3);
    RootDiskIs(b, 3);
    forall ino: nat ensures Count(Live(b), ino) == if 11 < ino <= 14 then 1 else 0 {
      CountThreeEach(At(b, 0), At(b, 264), At(b, 528), ino);
    }
    RootInv(b, 3);
    InvNavigable(s);
    assert 7 in FreeBlocks(s) && 14 in FreeInodes(s);
  }

  /** A fourth one: cp reports success, the disk is not sound any more, and the three names are gone. */
  lemma FullBlockReplaced() returns (s: State, r: State)
    ensures s == RootDisk(FullBlock(), 3) && Inv(s)
    ensures Sane(s) && CpReady(s, Some([]), Long(4), [SLASH]) && CpStep(s, Some([]), Long(4), [SLASH], 0) == (r, true)
    ensures !Inv(r) && DirOk(s, ROOT) && DirOk(r, ROOT) && !KeepsNames(DirEntries(s, ROOT), DirEntries(r, ROOT))
  {
    s := ThreeFiles();
    LongNames(DirEntries(s, ROOT));
    RootPaths(s, Long(4));
    EmptyCopy(s, ROOT, Long(4));
    r := CpStep(s, Some([]), Long(4), [SLASH], 0).0;
    CpKeepsIff(s, Some([]), Long(4), [SLASH], 0);
    LostNames(s, r);
  }

  lemma LostNames(s: State, r: State)
    requires Inv(s) && UsedDir(s, ROOT) && DirOk(s, ROOT) && Insertable(s, ROOT) && !HasRoom(s, ROOT, 255)
    requires s.inodes[ROOT].sectors == 2 && FreeBlocks(s) != {} && FreeInodes(s) != {}
    requires DistinctNames(DirEntries(s, ROOT)) && FindIno(DirEntries(s, ROOT), Long(4)) == None
    requires var n := Least(FreeInodes(s));
             var e := NewDirEntry(NewInodeOf(s, S_IFREG, 0).0, ROOT, n, Long(4), FT_REG_FILE);
             n < |s.inodes| && e.1 && |e.0.inodes| == |s.inodes| && r == SetSize(e.0, n, 0)
    ensures DirOk(r, ROOT) && !KeepsNames(DirEntries(s, ROOT), DirEntries(r, ROOT))
  {
    var n, s1 := FreshInode(s, ROOT, S_IFREG, 0);
    assert FreeBlocks(s1) == FreeBlocks(s);
    SameEntries(s, s1, ROOT);
    InsertKeepsNamesIff(s1, ROOT, n, Long(4), FT_REG_FILE);
    SameEntries(NewDirEntry(s1, ROOT, n, Long(4), FT_REG_FILE).0, r, ROOT);
  }

  /** The third record has 496 bytes and needs 264; 232 are left for a header and a name. */
  lemma RoomBehindThird(b: Block, nameLen: nat)
    requires RecOk(b, 0) && RecLen(b, 0) == 264 && RecOk(b, 264) && RecLen(b, 264) == 264
    requires RecOk(b, 528) && RecLen(b, 528) == 496 && NameLen(b, 528) == 255
    ensures RoomAt(b, 528, nameLen) <==> nameLen <= 223
  {
    TailOfThree(b);
    assert At(b, 0).len == 264 && At(b, 264).len == 264 && |At(b, 528).name| == 255;
    assert TailIs(Live(b), 2);
    RoomAtIff(b, 2, nameLen);
  }

  lemma RoomForThree(s: State, name: Name)
    requires s == RootDisk(FullBlock(), 3) && Insertable(s, ROOT) && |name| <= 255
    ensures Fits(s, ROOT, |name|) <==> |name| <= 223
  {
    var b := FullBlockIs();
    TailOfThree(b);
    RootDiskIs(b, 3);
    RoomBehindThird(b, |name|);
    FitsIff(s, ROOT, |name|);
  }

  /** A name of 220 to 223 bytes fills the block exactly, and all is kept; one byte more, and all is lost. */
  lemma ExactFit(name: Name) returns (s: State, n: nat, r: State)
    requires 0 < |name| <= 255
    ensures s == RootDisk(FullBlock(), 3) && Inv(s)
    ensures Sane(s) && CpReady(s, Some([]), name, [SLASH]) && CpStep(s, Some([]), name, [SLASH], 0) == (r, true)
    ensures DirOk(s, ROOT) && DirOk(r, ROOT) && n in FreeInodes(s)
    ensures AllSay(DirEntries(r, ROOT)) == AllSay(DirEntries(s, ROOT)) + multiset{(n + 1, name, 1)} <==> |name| <= 223
  {
    s := ThreeFiles();
    RootPaths(s, name);
    EmptyCopy(s, ROOT, name);
    CpTargetIff(s, name, [SLASH], ROOT, name);
    SoundDirs(s, ROOT);
    n, r := CpMakes(s, Some([]), name, [SLASH], 0, ROOT, name);
    RoomForThree(s, name);
  }
}

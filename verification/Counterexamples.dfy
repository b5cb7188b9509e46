/** Small disks on which the code does not do what its descriptions say. */
module Counterexamples {
  import opened Options
  import opened Bytes
  import opened Records
  import opened DirBlocks
  import opened DiskState
  import opened Directory
  import opened Invariant
  import opened Insertion
  import opened NewInodes
  import opened Paths
  import opened Lookups
  import opened PathFacts
  import opened Runs
  import opened Checker
  import opened CheckerProofs
  import opened CheckerRuns
  import opened Exactness
  import opened Restoration
  import opened RestoreProofs
  import opened RestoreTree
  import opened RmRestore

  const A: Name := [97]
  const B: Name := [98]

  function ZeroBlock(): Block { seq(BLOCK_SIZE, _ => 0) }

  function OnePointer(p: nat): Pointers { seq(POINTERS, i => if i == 0 then p else 0) }

  /** The first data block, and the first inode that is not reserved. */
  const DATA := 7
  const FILES := 11

  /** The blank disk, but for a root directory with the one block `b` and `files` empty files. */
  function RootDisk(b: Block, files: nat): State
    requires files <= 5
  {
    var s := BlankDisk();
    s.(blockBits := s.blockBits[DATA - 1 := true], sbFreeBlocks := 8, gdFreeBlocks := 8,
       inodeBits := seq(16, n => n < FILES + files), sbFreeInodes := 5 - files, gdFreeInodes := 5 - files,
       inodes := seq(16, n requires 0 <= n => RootInode(n, files)), blocks := s.blocks[DATA := b])
  }

  function RootInode(n: nat, files: nat): Inode {
    if n == ROOT then Inode(S_IFDIR, BLOCK_SIZE, 0, 0, 0, 2, OnePointer(DATA))
    else if FILES <= n < FILES + files then Inode(S_IFREG, 0, 0, 0, 1, 0, seq(POINTERS, _ => 0))
    else Inode(0, 0, 0, 0, 0, 0, seq(POINTERS, _ => 0))
  }

  lemma RootDiskIs(b: Block, files: nat)
    requires BlockOk(b) && files <= 5
    ensures var s := RootDisk(b, files);
            && Shaped(s) && SystemMarked(s) && |s.inodes| == 16 && |s.blocks| == 16 && s.blocks[DATA] == b
            && UsedDir(s, ROOT) && PointersOk(s.inodes[ROOT].ptr, 16) && Direct(s.inodes[ROOT].ptr) == [DATA]
            && NumDirect(s.inodes[ROOT].ptr) == 1 && DirOk(s, ROOT) && DirEntries(s, ROOT) == Live(b)
            && forall n :: 0 <= n < 16 && n != ROOT ==>
                 !IsDir(s.inodes[n].mode) && PointersOk(s.inodes[n].ptr, 16) && Direct(s.inodes[n].ptr) == []
                 && DirectOnly(s.inodes[n].ptr)
  {
    var s := RootDisk(b, files);
    ModesAre();
    NumDirectIs(s.inodes[ROOT].ptr, 0, 1);
    assert Direct(s.inodes[ROOT].ptr) == [DATA];
    assert LiveOf(s.blocks, [DATA]) == Live(b) + LiveOf(s.blocks, []);
    forall n: nat | n < 16 && n != ROOT
      ensures PointersOk(s.inodes[n].ptr, 16) && Direct(s.inodes[n].ptr) == [] && DirectOnly(s.inodes[n].ptr)
    {
      EmptyPointers(s.inodes[n].ptr);
    }
  }

  /** Every file has one record, and nothing else has any. */
  ghost predicate OneEach(es: seq<Entry>, files: nat) {
    forall ino: nat :: ino > 0 ==> Count(es, ino) == if FILES < ino <= FILES + files then 1 else 0
  }

  /** A disk as the code leaves it behind. */
  lemma RootInv(b: Block, files: nat)
    requires BlockOk(b) && files <= 5 && OneEach(Live(b), files)
    ensures Inv(RootDisk(b, files))
  {
    var s := RootDisk(b, files);
    RootDiskIs(b, files);
    RootCounted(s, b, files);
    RootOwned(s, b, files);
    RootTree(s, b, files);
  }

  lemma RootCounted(s: State, b: Block, files: nat)
    requires BlockOk(b) && files <= 5 && s == RootDisk(b, files)
    ensures Counted(s)
  {
    RootFreeBlocks(s);
    RootFreeInodes(s, files);
  }

  lemma RootFreeBlocks(s: State)
    requires |s.blockBits| == 16 && forall k :: 0 <= k < 16 ==> (s.blockBits[k] <==> k < DATA || k == 15)
    ensures |FreeBlocks(s)| == 8
  {
    RangeIs(DATA, 15);
    assert FreeBlocks(s) == Range(DATA, 15);
  }

  lemma RootFreeInodes(s: State, files: nat)
    requires files <= 5 && |s.inodeBits| == 16
    requires forall n :: 0 <= n < 16 ==> (s.inodeBits[n] <==> n < FILES + files)
    ensures |FreeInodes(s)| == 5 - files
  {
    RangeIs(FILES + files, 16);
    assert FreeInodes(s) == Range(FILES + files, 16);
  }

  lemma RootOwned(s: State, b: Block, files: nat)
    requires BlockOk(b) && files <= 5 && s == RootDisk(b, files) && Shaped(s) && Counted(s) && SystemMarked(s)
    ensures AllocOk(s)
  {
    RootDiskIs(b, files);
    assert forall n: nat :: n < 16 && n != ROOT ==> Owned(s, n) == {};
    assert forall p :: p in Owned(s, ROOT) ==> p == DATA;
  }

  lemma {:induction false} RootTotal(s: State, k: nat, ino: nat)
    requires forall d: nat :: d != ROOT ==> DirCount(s, d, ino) == 0
    ensures TotalTo(s, k, ino) == if k > ROOT then DirCount(s, ROOT, ino) else 0
  {
    if k > 0 { RootTotal(s, k - 1, ino); }
  }

  lemma RootTree(s: State, b: Block, files: nat)
    requires BlockOk(b) && files <= 5 && s == RootDisk(b, files) && Shaped(s) && OneEach(Live(b), files)
    ensures TreeOk(s)
  {
    RootDiskIs(b, files);
    forall e | e in DirEntries(s, ROOT) && e.ino > 0
      ensures Used(s, e.ino - 1)
    {
      CountZero(DirEntries(s, ROOT), e.ino);
    }
    forall d | UsedDir(s, d) ensures DirSound(s, d) { assert d == ROOT; }
    forall n: nat | n < 16 ensures InodeSound(s, n) { RootTotal(s, 16, n + 1); }
  }

  // ---------- a path through a file ----------

  /** "/a/b" leads to the file "/a", although that has no "b". */
  lemma PathThroughFile()
    ensures var s, p := RootDisk(WriteRecord(ZeroBlock(), 0, 12, BLOCK_SIZE, A, FT_REG_FILE), 1),
                        [SLASH] + A + [SLASH] + B;
            Inv(s) && Navigable(s) && ByPath(s, p) == Some(11) && Resolve(s, ROOT, Components(p)) == None
  {
    var b := WriteRecord(ZeroBlock(), 0, 12, BLOCK_SIZE, A, FT_REG_FILE);
    var s := RootDisk(b, 1);
    FreshBlock(ZeroBlock(), 12, A, FT_REG_FILE);
    RootDiskIs(b, 1);
    var e := Entry(0, 12, BLOCK_SIZE, A, FT_REG_FILE);
    forall ino: nat ensures Count([e], ino) == if ino == 12 then 1 else 0 { assert [e][1..] == []; }
    RootInv(b, 1);
    InvNavigable(s);
    WalkFile(s);
  }

  lemma WalkFile(s: State)
    requires Navigable(s) && |s.inodes| == 16 && IsDir(s.inodes[ROOT].mode) && !IsDir(s.inodes[11].mode)
    requires DirOk(s, ROOT) && DirEntries(s, ROOT) == [Entry(0, 12, BLOCK_SIZE, A, FT_REG_FILE)]
    ensures var p := [SLASH] + A + [SLASH] + B;
            ByPath(s, p) == Some(11) && Resolve(s, ROOT, Components(p)) == None
  {
    var p: Path := [SLASH] + A + [SLASH] + B;
    var q: Path := A + [SLASH] + B;
    assert p[0] == SLASH && p[1..] == q && SkipSlashes(p) == SkipSlashes(q);
    assert q[..1] == A && q[2..] == B;
    FirstSlashIs(q, 1);
    ShiftAt(q, 1);
    assert Shift(p) == Some((A, B));
    assert B[..1] == B;
    FirstSlashIs(B, 1);
    assert SkipSlashes(B) == B && Shift(B) == Some((B, []));
    assert Shift([]) == None && Components([]) == [];
    assert Components(B) == [B] + Components([]);
    assert Components(p) == [A] + Components(B);
    assert Components(p)[0] == A && Components(p)[1..] == Components(B) && Components(B)[0] == B;
    assert Lookup(s, ROOT, A) == Some(11);
    assert WalkPath(s, 11, []) == Some(11);
    assert WalkPath(s, 11, B) == Some(11);
    assert WalkPath(s, ROOT, p) == WalkPath(s, 11, B);
    assert Resolve(s, 11, Components(B)) == None;
  }

  // ---------- the checker ----------

  /** A root record of a reserved inode whose bit is clear: the second run still has two counters to fix. */
  lemma SecondRunNotIdle()
    ensures var b := WriteRecord(ZeroBlock(), 0, 11, BLOCK_SIZE, A, FT_REG_FILE);
            var s := RootDisk(b, 0).(inodeBits := RootDisk(b, 0).inodeBits[10 := false]);
            Checkable(s) && Checkable(RunChecker(s).0) && RunChecker(RunChecker(s).0).1 == 2
  {
    var b := WriteRecord(ZeroBlock(), 0, 11, BLOCK_SIZE, A, FT_REG_FILE);
    var s := RootDisk(b, 0).(inodeBits := RootDisk(b, 0).inodeBits[10 := false]);
    FreshBlock(ZeroBlock(), 11, A, FT_REG_FILE);
    RootDiskIs(b, 0);
    SameEntries(RootDisk(b, 0), s, ROOT);
    var e := Entry(0, 11, BLOCK_SIZE, A, FT_REG_FILE);
    assert DirEntries(s, ROOT) == [e];
    var k := InChecksOf(s, Direct(s.inodes[ROOT].ptr), e);
    assert EntryChecks(s, k, e)[1] == InodeBit(10);
    assert InodeBit(10) in Checks(s) && Offends(s, InodeBit(10));
    SecondRunIdle(s);
  }

  // ---------- rm at the head of a block ----------

  /** What a block says after a record was put behind the one at `p`. */
  lemma PutBehind(b: Block, b': Block, p: nat, m: nat, ino: nat, name: Name, ft: Byte)
    requires RecOk(b, p) && RoomAt(b, p, |name|) && |name| < 0x100 && ino < 0x1_0000_0000
    requires b' == InsertAt(b, p, ino, name, ft) && m == MinLen(NameLen(b, p))
    ensures RecOk(b', p) && RecLen(b', p) == m && NameOf(b', p) == NameOf(b, p) && NameLen(b', p) == NameLen(b, p)
    ensures RecOk(b', p + m) && Ino(b', p + m) == ino && NameOf(b', p + m) == name && NameLen(b', p + m) == |name|
    ensures RecLen(b', p + m) == RecLen(b, p) - m && Agree(b, b', 0, p + 4)
  {
    InsertSplits(b, p, ino, name, ft);
    AtResized(b, b', p);
    assert At(b', p + m).name == name && At(b', p + m).ino == ino;
    NameFits(b', p + m);
  }

  lemma OneRecord(ino: nat, name: Name) returns (b: Block)
    requires |name| < 0x100 && ino < 0x1_0000_0000
    ensures b == WriteRecord(ZeroBlock(), 0, ino, BLOCK_SIZE, name, FT_REG_FILE)
    ensures RecOk(b, 0) && RecLen(b, 0) == BLOCK_SIZE && NameOf(b, 0) == name && NameLen(b, 0) == |name|
    ensures BlockOk(b) && Live(b) == [Entry(0, ino, BLOCK_SIZE, name, FT_REG_FILE)]
  {
    b := WriteRecord(ZeroBlock(), 0, ino, BLOCK_SIZE, name, FT_REG_FILE);
    FreshBlock(ZeroBlock(), ino, name, FT_REG_FILE);
    WriteRecordAt(ZeroBlock(), 0, ino, BLOCK_SIZE, name, FT_REG_FILE);
    assert At(b, 0) == Entry(0, ino, BLOCK_SIZE, name, FT_REG_FILE);
    RecAt(b, 0, At(b, 0));
    NameFits(b, 0);
  }

  lemma TwoChain(b: Block, m: nat)
    requires RecOk(b, 0) && RecLen(b, 0) == m && RecOk(b, m) && m + RecLen(b, m) == BLOCK_SIZE
    ensures BlockOk(b) && Live(b) == [At(b, 0), At(b, m)]
  {
    ChainCons(b, m, At(b, m), BLOCK_SIZE);
    ChainCons(b, 0, At(b, 0), BLOCK_SIZE);
  }

  /** A record "a" that fills the block, and "b" put into its slack. */
  lemma TwoRecords() returns (b: Block, x: Entry, e: Entry)
    ensures b == InsertAt(WriteRecord(ZeroBlock(), 0, 12, BLOCK_SIZE, A, FT_REG_FILE), 0, 13, B, FT_REG_FILE)
    ensures BlockOk(b) && Live(b) == [x, e] && x.name == A && e.name == B && x.ino == 12 && e.ino == 13
    ensures NameOf(b, 0) == A && RecLen(b, 0) == 12 && Ino(b, 12) == 13 && NameOf(b, 12) == B
  {
    var b1 := OneRecord(12, A);
    b := InsertAt(b1, 0, 13, B, FT_REG_FILE);
    PutBehind(b1, b, 0, 12, 13, B, FT_REG_FILE);
    TwoChain(b, 12);
    x, e := At(b, 0), At(b, 12);
  }

  lemma HeadFound(s: State, b: Block)
    requires DirOk(s, ROOT) && Direct(s.inodes[ROOT].ptr) == [DATA] && DATA < |s.blocks| && s.blocks[DATA] == b
    requires BlockOk(b) && NameOf(b, 0) == A && RecLen(b, 0) == 12
    ensures FindRemoval(s, ROOT, A) == Some(Removal(DATA, 0, 12)) && FindSlot(s.blocks, [DATA], A) == Some((DATA, 0))
  {
    assert FindName(b, 0, A) == Some(0);
  }

  /** rm "a" reports success, and "a" is still there: it is "b" that went. */
  lemma HeadNotRemoved()
    ensures var b := InsertAt(WriteRecord(ZeroBlock(), 0, 12, BLOCK_SIZE, A, FT_REG_FILE), 0, 13, B, FT_REG_FILE);
            var s := RootDisk(b, 2);
            && Inv(s) && Removable(s, ROOT, A) && RmDirEntry(s, ROOT, A).1
            && DirOk(RmDirEntry(s, ROOT, A).0, ROOT) && FindIno(DirEntries(RmDirEntry(s, ROOT, A).0, ROOT), A) != None
  {
    var b, x, e := TwoRecords();
    var s := RootDisk(b, 2);
    RootDiskIs(b, 2);
    forall ino: nat ensures Count([x, e], ino) == (if x.ino == ino then 1 else 0) + (if e.ino == ino then 1 else 0) {
      CountPair(x, e, ino);
    }
    RootInv(b, 2);
    HeadFound(s, b);
    var r := RmForgetsIff(s, ROOT, A);
  }

  // ---------- restore deep in a slack ----------

  function Long(c: Byte): Name { seq(255, _ => c) }

  /** Behind the long name, the records of "a", whose inode is in use, and then "b", whose inode is free. */
  function Haunted(b: Block): Block {
    WriteRecord(WriteRecord(b, 264, 12, 12, A, FT_REG_FILE), 276, 13, 12, B, FT_REG_FILE)
  }

  lemma HauntedBytes(b: Block, h: Block)
    requires h == Haunted(b) && Agree(ZeroBlock(), b, 264, BLOCK_SIZE)
    ensures Agree(b, h, 0, 264) && NameLen(h, 264) == 1 && Ino(h, 264) == 12 && NameOf(h, 264) == A
    ensures NameLen(h, 276) == 1 && Ino(h, 276) == 13 && NameOf(h, 276) == B && FileType(h, 276) == FT_REG_FILE
    ensures Ino(h, 288) == 0
  {
    var b1 := WriteRecord(b, 264, 12, 12, A, FT_REG_FILE);
    WriteRecordAt(b, 264, 12, 12, A, FT_REG_FILE);
    WriteRecordAt(b1, 276, 13, 12, B, FT_REG_FILE);
    NameOfOne(b1, 264, A);
    NameOfOne(h, 276, B);
    assert NameOf(h, 264) == NameOf(b1, 264);
  }

  lemma HauntedIs(b: Block, h: Block)
    requires RecOk(b, 0) && NameLen(b, 0) == 255 && RecLen(b, 0) == BLOCK_SIZE && Agree(ZeroBlock(), b, 264, BLOCK_SIZE)
    requires h == Haunted(b)
    ensures RecOk(h, 0) && BlockOk(h) && BlockOk(b) && Live(h) == Live(b) && RecLen(h, 0) == BLOCK_SIZE
    ensures NameLen(h, 0) == 255 && Slack(h, 0) == [264, 276]
  {
    HauntedBytes(b, h);
    AtFrame(b, h, 0);
    ChainCons(b, 0, At(b, 0), BLOCK_SIZE);
    ChainCons(h, 0, At(h, 0), BLOCK_SIZE);
    assert Entries(h, BLOCK_SIZE, BLOCK_SIZE) == [] == Entries(b, BLOCK_SIZE, BLOCK_SIZE);
    HauntedSlack(h);
  }

  lemma HauntedSlack(h: Block)
    requires RecOk(h, 0) && NameLen(h, 0) == 255 && RecLen(h, 0) == BLOCK_SIZE && NameLen(h, 264) == 1
    requires Ino(h, 264) != 0
    requires NameLen(h, 276) == 1 && Ino(h, 276) != 0 && Ino(h, 288) == 0
    ensures Slack(h, 0) == [264, 276]
  {
    assert Hidden(h, 288, BLOCK_SIZE) == [] && Hidden(h, 276, BLOCK_SIZE) == [276];
  }

  lemma HauntedReads(s: State, h: Block)
    requires Shaped(s) && |s.inodes| == 16 && |s.blocks| == 16 && s.blocks[DATA] == h
    requires RecOk(h, 0) && NameLen(h, 0) == 255
    requires RecLen(h, 0) == BLOCK_SIZE && DirectOnly(s.inodes[11].ptr) && DirectOnly(s.inodes[12].ptr)
    requires NameLen(h, 264) == 1 && Ino(h, 264) == 12 && NameLen(h, 276) == 1 && Ino(h, 276) == 13 && Ino(h, 288) == 0
    requires Direct(s.inodes[ROOT].ptr) == [DATA]
    ensures DirSlacksOk(s, ROOT)
  {
    assert HiddenOk(s, h, 288, BLOCK_SIZE);
    assert HiddenOk(s, h, 276, BLOCK_SIZE);
    assert RestOk(s, DATA, 0, BLOCK_SIZE);
    forall o: nat | Chain(h, 0, o) && RecOk(h, o) ensures o == 0 { if o > 0 { ChainStart(h, 0, o); } }
  }

  lemma NameOfOne(b: Block, o: nat, name: Name)
    requires |name| == 1 && o + 264 <= BLOCK_SIZE && NameOf(b, o) == name
    ensures NameLen(b, o) == 1
  {
  }

  /** The block of a root directory that has one file with a long name. */
  lemma HauntedBlock() returns (h: Block)
    ensures h == Haunted(WriteRecord(ZeroBlock(), 0, 12, BLOCK_SIZE, Long(1), FT_REG_FILE))
    ensures RecOk(h, 0) && RecLen(h, 0) == BLOCK_SIZE && NameLen(h, 0) == 255
    ensures BlockOk(h) && Live(h) == [Entry(0, 12, BLOCK_SIZE, Long(1), FT_REG_FILE)] && Slack(h, 0) == [264, 276]
    ensures NameLen(h, 264) == 1 && Ino(h, 264) == 12 && NameOf(h, 264) == A
    ensures NameLen(h, 276) == 1 && Ino(h, 276) == 13 && NameOf(h, 276) == B && FileType(h, 276) == FT_REG_FILE
    ensures Ino(h, 288) == 0
  {
    var b := OneRecord(12, Long(1));
    h := Haunted(b);
    WriteRecordAt(ZeroBlock(), 0, 12, BLOCK_SIZE, Long(1), FT_REG_FILE);
    HauntedBytes(b, h);
    HauntedIs(b, h);
  }

  /** Restoring "b" succeeds and leaves a link that no record holds: its record is still not live. */
  lemma DeeperRestoreLost() returns (s: State)
    ensures Inv(s)
    ensures DirOk(s, ROOT) && DirSlacksOk(s, ROOT) && RestoreDirEntry(s, ROOT, B).done
    ensures !TreeOk(RestoreDirEntry(s, ROOT, B).s)
  {
    var h := HauntedBlock();
    s := RootDisk(h, 1);
    var e := Entry(0, 12, BLOCK_SIZE, Long(1), FT_REG_FILE);
    forall ino: nat ensures Count([e], ino) == if ino == 12 then 1 else 0 { assert [e][1..] == []; }
    RootInv(h, 1);
    RootDiskIs(h, 1);
    HauntedReads(s, h);
    HauntedSite(s, h);
    RestoreDeeper(s, ROOT, B, DATA, 0, 1);
    var j := SingleScan(s, ROOT, B, DATA, 0, 1);
  }

  lemma HauntedSite(s: State, h: Block)
    requires Shaped(s) && UsedDir(s, ROOT) && DirOk(s, ROOT) && DirSlacksOk(s, ROOT)
    requires Direct(s.inodes[ROOT].ptr) == [DATA] && |s.inodes| == 16 && |s.blocks| == 16 && s.blocks[DATA] == h
    requires RecOk(h, 0) && BlockOk(h) && Slack(h, 0) == [264, 276] && Ino(h, 276) == 13 && NameOf(h, 264) == A
    requires NameOf(h, 276) == B && FileType(h, 276) == FT_REG_FILE && !s.inodeBits[12]
    requires Direct(s.inodes[12].ptr) == []
    ensures SingleSite(s, ROOT, B, DATA, 0, 1)
  {
    assert Slack(h, 0)[1] == 276 && Matches(s, DATA, 276, B) && !Matches(s, DATA, 264, B);
    assert SiteIn(s, DATA, 0, B) == Some(0);
  }
}

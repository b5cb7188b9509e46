/**
 * A sound disk on which a hidden record does not fit its slack.  The pass of a restore runs on into the
 * record behind it, writes over that record's name and relinks a record that stays hidden.
 */
module MisfitRestore {
  import opened Options
  import opened Bytes
  import opened Records
  import opened DirBlocks
  import opened DiskState
  import opened Directory
  import opened Invariant
  import opened Restoration
  import opened RawPass
  import opened Counterexamples

  const Y: Name := [121]
  const Z: Name := [122]

  /** The byte at 38 is read as the length of a name. */
  function LongName(): Name { seq(100, i => if i == 38 then 60 else 119) }

  function Blanks(): Name { seq(40, _ => 0) }

  /** What the length stored in the record at 136 leads to: the 112 bytes too many, cut to 16 bits. */
  const FAR := 136 + 0x1_0000 - 112

  /** "y", then the long name.  Behind "y" lies the head of a long removed record, behind the long name that of "z". */
  function MisfitBlock(): Block {
    var b1 := WriteRecord(ZeroBlock(), 0, 12, 24, Y, FT_REG_FILE);
    var b2 := WriteRecord(b1, 12, 12, 52, Blanks(), FT_REG_FILE);
    var b3 := WriteRecord(b2, 24, 13, 1000, LongName(), FT_REG_FILE);
    WriteRecord(b3, 136, 14, 888, Z, FT_REG_FILE)
  }

  /** What the pass finds. */
  ghost predicate Misfits(b: Block) {
    && At(b, 0) == Entry(0, 12, 24, Y, FT_REG_FILE) && NameLen(b, 0) == 1
    && Ino(b, 12) == 12 && NameLen(b, 12) == 40
    && At(b, 24) == Entry(24, 13, 1000, LongName(), FT_REG_FILE) && NameLen(b, 24) == 100
    && Ino(b, 64) != 0 && NameLen(b, 64) == 60
    && At(b, 136) == Entry(136, 14, 888, Z, FT_REG_FILE) && NameLen(b, 136) == 1
    && Ino(b, 148) == 0
  }

  lemma NameOfLen(b: Block, o: nat, name: Name)
    requires o + 264 <= BLOCK_SIZE && NameOf(b, o) == name
    ensures NameLen(b, o) == |name|
  {
  }

  lemma Unchanged(b: Block, b': Block, o: nat, end: nat)
    requires o + HEADER <= end <= BLOCK_SIZE && Agree(b, b', o, end)
    ensures Ino(b', o) == Ino(b, o) && RecLen(b', o) == RecLen(b, o) && NameLen(b', o) == NameLen(b, o)
    ensures o + HEADER + NameLen(b, o) <= end ==> At(b', o) == At(b, o)
  {
    if o + HEADER + NameLen(b, o) <= end { assert NameOf(b', o) == NameOf(b, o); }
  }

  lemma FirstTwo() returns (b: Block)
    ensures b == WriteRecord(WriteRecord(ZeroBlock(), 0, 12, 24, Y, FT_REG_FILE), 12, 12, 52, Blanks(), FT_REG_FILE)
    ensures At(b, 0) == Entry(0, 12, 24, Y, FT_REG_FILE) && NameLen(b, 0) == 1
    ensures Ino(b, 12) == 12 && NameLen(b, 12) == 40 && Agree(ZeroBlock(), b, 60, BLOCK_SIZE)
  {
    var b1 := WriteRecord(ZeroBlock(), 0, 12, 24, Y, FT_REG_FILE);
    WriteRecordAt(ZeroBlock(), 0, 12, 24, Y, FT_REG_FILE);
    NameOfLen(b1, 0, Y);
    b := WriteRecord(b1, 12, 12, 52, Blanks(), FT_REG_FILE);
    WriteRecordAt(b1, 12, 12, 52, Blanks(), FT_REG_FILE);
    NameOfLen(b, 12, Blanks());
    Unchanged(b1, b, 0, 12);
  }

  /** Inside the long name. */
  lemma InsideName(b: Block)
    requires NameOf(b, 24) == LongName()
    ensures Ino(b, 64) != 0 && NameLen(b, 64) == 60
  {
    assert NameOf(b, 24)[32] == LongName()[32] && NameOf(b, 24)[38] == LongName()[38];
    assert b[64] == 119 && b[70] == 60;
  }

  lemma MisfitBlockIs()
    ensures Misfits(MisfitBlock())
  {
    var b2 := FirstTwo();
    var b3 := WriteRecord(b2, 24, 13, 1000, LongName(), FT_REG_FILE);
    WriteRecordAt(b2, 24, 13, 1000, LongName(), FT_REG_FILE);
    Unchanged(b2, b3, 0, 12);
    Unchanged(b2, b3, 12, 24);
    NameOfLen(b3, 24, LongName());
    var b := WriteRecord(b3, 136, 14, 888, Z, FT_REG_FILE);
    WriteRecordAt(b3, 136, 14, 888, Z, FT_REG_FILE);
    Unchanged(b3, b, 0, 12);
    Unchanged(b3, b, 12, 24);
    Unchanged(b3, b, 24, 132);
    NameOfLen(b, 136, Z);
    InsideName(b);
    Unchanged(ZeroBlock(), b, 148, 156);
  }

  lemma TwoLive(b: Block)
    requires NameLen(b, 0) == 1 && RecLen(b, 0) == 24 && NameLen(b, 24) == 100 && RecLen(b, 24) == 1000
    ensures BlockOk(b) && Live(b) == [At(b, 0), At(b, 24)]
  {
    TwoChain(b, 24);
  }

  /** The bytes the pass reads, one after the other, until it comes to "z". */
  lemma PassToZ(s: State)
    requires |s.blocks| == |s.inodes| == |s.inodeBits| == 16 && Misfits(s.blocks[DATA])
    ensures Pass(s, DATA, 0, 12, 12, Z, false) == Pass(s, DATA, 64, 72, 0x1_0000_0000 - 112, Z, false)
  {
    assert |NameOf(s.blocks[DATA], 12)| == 40 && |NameOf(s.blocks[DATA], 64)| == 60;
    TurnOther(s, DATA, 0, 12, 12, 64, 0x1_0000_0000 - 40, Z, false);
    TurnOther(s, DATA, 12, 64, 0x1_0000_0000 - 40, 136, 0x1_0000_0000 - 112, Z, false);
  }

  lemma MatchesZ(s: State)
    requires |s.blocks| == |s.inodes| == |s.inodeBits| == 16 && Misfits(s.blocks[DATA])
    requires !s.inodeBits[13] && Direct(s.inodes[13].ptr) == [] && DirectOnly(s.inodes[13].ptr)
    ensures Candidate(s, DATA, 136, Z) && FileType(s.blocks[DATA], 136) != FT_DIR
    ensures Readable(s, DATA, 64, 136, 0x1_0000_0000 - 112, 148)
  {
    assert NameOf(s.blocks[DATA], 136) == Z;
  }

  lemma EndsBehindZ(s: State, s': State, left: nat)
    requires |s.blocks| == |s.inodes| == |s.inodeBits| == 16 && Misfits(s.blocks[DATA])
    requires s' == Revive(s, DATA, 64, 136, FAR)
    ensures |s'.blocks| == |s'.inodes| == |s'.inodeBits| == 16
    ensures Pass(s', DATA, 136, 12, left, Z, true) == Some(Scan(s', true, false))
  {
    ReviveIs(s, DATA, 64, 136, FAR);
    WideRelink(s.blocks[DATA], 64, 136, FAR);
    Unchanged(s.blocks[DATA], s'.blocks[DATA], 148, 156);
    TurnEnds(s', DATA, 136, 148, left, Z, true);
  }

  /** There it cuts off what it takes for the record before, and ends. */
  lemma PassAtZ(s: State) returns (s': State)
    requires |s.blocks| == |s.inodes| == |s.inodeBits| == 16 && Misfits(s.blocks[DATA])
    requires !s.inodeBits[13] && Direct(s.inodes[13].ptr) == [] && DirectOnly(s.inodes[13].ptr)
    ensures s' == Revive(s, DATA, 64, 136, FAR)
    ensures Pass(s, DATA, 64, 72, 0x1_0000_0000 - 112, Z, false) == Some(Scan(s', true, false))
  {
    var left := 0x1_0000_0000 - 112;
    MatchesZ(s);
    s' := Revive(s, DATA, 64, 136, FAR);
    TurnReads(s, DATA, 64, 136, left, 148, left - 12, Z, false);
    EndsBehindZ(s, s', left - 12);
  }

  lemma ReviveIs(s: State, k: nat, c: nat, q: nat, end: nat)
    requires k < |s.blocks| && c + HEADER <= q <= BLOCK_SIZE - HEADER && q <= end < q + 0x1_0000
    requires 0 < Ino(s.blocks[k], q) <= |s.inodes| == |s.inodeBits|
    ensures var s' := Revive(s, k, c, q, end); var n := Ino(s.blocks[k], q) - 1;
            && s'.blocks == s.blocks[k := Relink(s.blocks[k], c, q, end)]
            && |s'.inodes| == |s.inodes| && s'.inodeBits == s.inodeBits[n := true]
            && s'.inodes == s.inodes[n := s.inodes[n].(dtime := 0, links := U16(s.inodes[n].links + 1))]
  {
  }

  lemma WideRelink(b: Block, c: nat, q: nat, end: nat)
    requires c + HEADER <= q <= BLOCK_SIZE - HEADER && q <= end < q + 0x1_0000
    ensures var b' := Relink(b, c, q, end);
            && Agree(b, b', 0, c + 4) && Agree(b, b', c + 6, q + 4) && Agree(b, b', q + 6, BLOCK_SIZE)
            && RecLen(b', c) == q - c
  {
    Put16Is(b, c + 4, q - c);
    Put16Is(Put16(b, c + 4, q - c), q + 4, end - q);
  }

  /** The two records are still the live ones, and the second one's name is another. */
  lemma AfterPass(b: Block, b': Block)
    requires Misfits(b) && b' == Relink(b, 64, 136, FAR)
    ensures BlockOk(b') && Live(b') == [At(b', 0), At(b', 24)] && At(b', 0) == At(b, 0) && Ino(b', 24) == 13
    ensures NameOf(b', 24) != LongName() && |NameOf(b', 24)| == 100
  {
    WideRelink(b, 64, 136, FAR);
    Unchanged(b, b', 0, 12);
    Unchanged(b, b', 24, 32);
    TwoLive(b');
    assert RecLen(b', 64) == 72;
    assert b'[68] != 119;
    assert NameOf(b', 24)[36] == b'[68] && LongName()[36] == 119;
  }

  lemma MisfitInv(b: Block, s: State)
    requires Misfits(b) && s == RootDisk(b, 2)
    ensures BlockOk(b) && Inv(s) && Live(b) == [At(b, 0), At(b, 24)]
  {
    TwoLive(b);
    var x, e := At(b, 0), At(b, 24);
    forall ino: nat ensures Count([x, e], ino) == (if x.ino == ino then 1 else 0) + (if e.ino == ino then 1 else 0) {
      CountPair(x, e, ino);
    }
    RootInv(b, 2);
  }

  /** Inode 14 has one link that no record holds. */
  lemma LostLink(s: State, x: Entry, e: Entry)
    requires |s.inodes| == |s.inodeBits| == 16 && Used(s, 13) && s.inodes[13].links == 1
    requires DirOk(s, ROOT) && DirEntries(s, ROOT) == [x, e] && x.ino != 14 && e.ino != 14
    requires forall d: nat :: d != ROOT ==> DirCount(s, d, 14) == 0
    ensures !TreeOk(s)
  {
    CountPair(x, e, 14);
    RootTotal(s, 16, 14);
    assert !InodeSound(s, 13);
  }

  lemma OnlyRoot(s: State, s': State, b: Block)
    requires Misfits(b) && |s.inodes| == |s.inodeBits| == |s.blocks| == 16 && s.blocks[DATA] == b
    requires s.inodes[13].links == 0
    requires (forall d :: 0 <= d < 16 && d != ROOT ==> !IsDir(s.inodes[d].mode)) && s' == Revive(s, DATA, 64, 136, FAR)
    ensures forall d: nat :: d != ROOT ==> DirCount(s', d, 14) == 0
    ensures |s'.inodes| == |s'.inodeBits| == 16 && Used(s', 13) && s'.inodes[13].links == 1
    ensures s'.blocks == s.blocks[DATA := Relink(b, 64, 136, FAR)] && s'.inodes[ROOT] == s.inodes[ROOT]
  {
    ReviveIs(s, DATA, 64, 136, FAR);
    forall d: nat | d != ROOT ensures !UsedDir(s', d) { if d < 16 { assert s'.inodes[d].mode == s.inodes[d].mode; } }
  }

  lemma RevivedLost(s: State, s': State, b: Block, b': Block)
    requires Misfits(b) && s == RootDisk(b, 2) && BlockOk(b) && b' == Relink(b, 64, 136, FAR)
    requires s.blocks[DATA] == b && s' == Revive(s, DATA, 64, 136, FAR)
    ensures DirOk(s', ROOT) && DirEntries(s', ROOT) == [At(b', 0), At(b', 24)] && !TreeOk(s')
  {
    AfterPass(b, b');
    RootDiskIs(b, 2);
    OnlyRoot(s, s', b);
    LiveOfChangeOne(s', b');
    LostLink(s', At(b', 0), At(b', 24));
  }

  lemma LiveOfChangeOne(s: State, b: Block)
    requires ROOT < |s.inodes| && DATA < |s.blocks| && s.blocks[DATA] == b && BlockOk(b)
    requires Direct(s.inodes[ROOT].ptr) == [DATA] && s.inodes[ROOT].ptr[DIRECT] == 0
    ensures DirOk(s, ROOT) && DirEntries(s, ROOT) == Live(b)
  {
    assert LiveOf(s.blocks, [DATA]) == Live(b) + LiveOf(s.blocks, []);
  }

  /**
   * Restoring "z", whose record lies directly behind a live one, reports success.  Its record is still
   * not live, and the file with the long name is gone.
   */
  lemma RestoreLeavesSlack() returns (s: State, s': State)
    ensures Inv(s) && s == RootDisk(MisfitBlock(), 2) && !RestOk(s, DATA, 0, 24)
    ensures Pass(s, DATA, 0, 12, 12, Z, false) == Some(Scan(s', true, false))
    ensures DirOk(s, ROOT) && FindIno(DirEntries(s, ROOT), LongName()) == Some(13)
    ensures DirOk(s', ROOT) && FindIno(DirEntries(s', ROOT), LongName()) == None == FindIno(DirEntries(s', ROOT), Z)
    ensures !TreeOk(s')
  {
    var b := MisfitBlock();
    s := RootDisk(b, 2);
    MisfitBlockIs();
    MisfitInv(b, s);
    RootDiskIs(b, 2);
    PassToZ(s);
    s' := PassAtZ(s);
    var b' := Relink(b, 64, 136, FAR);
    AfterPass(b, b');
    RevivedLost(s, s', b, b');
    TwoNames(At(b, 0), At(b, 24), At(b', 24));
    assert !HiddenOk(s, b, 12, 24);
  }

  lemma TwoNames(x: Entry, e: Entry, e': Entry)
    requires x.name == Y && e.name == LongName() && e.ino == 13 && e'.name != LongName() && |e'.name| == 100
    ensures FindIno([x, e], LongName()) == Some(13)
    ensures FindIno([x, e'], LongName()) == None == FindIno([x, e'], Z)
  {
    FindPair(x, e, LongName());
    FindPair(x, e', LongName());
    FindPair(x, e', Z);
  }
}

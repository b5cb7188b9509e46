/** The whole effect of new_dir_entry, of a new file and of a new directory, whatever else is on the disk. */
module Effects {
  import opened Bytes
  import opened Records
  import opened DiskState
  import opened Directory
  import opened Invariant
  import opened Insertion
  import opened Writing
  import opened WriteFacts
  import opened WriteProofs
  import opened Commands
  import opened NewInodes
  import opened Room

  // ---------- new_dir_entry ----------

  /** The blocks that an insertion takes. */
  ghost function Grows(s: State, d: nat, nameLen: nat): nat
    requires Insertable(s, d)
  { if Fits(s, d, nameLen) then 0 else 1 }

  /** No inode but `d` and `child` changed, and those only in their links, and `d` in its blocks and size. */
  ghost predicate LinkedTo(s: State, s': State, d: nat, child: nat, grew: bool)
    requires d < |s.inodes| && child < |s.inodes|
  {
    && |s'.inodes| == |s.inodes| && s'.inodeBits == s.inodeBits
    && s'.usedDirs == s.usedDirs && s'.dataStart == s.dataStart
    && (forall m :: 0 <= m < |s.inodes| && m != d && m != child ==> s'.inodes[m] == s.inodes[m])
    && s'.inodes[child] == s.inodes[child].(links := U16(s.inodes[child].links + 1))
    && (if grew then s'.inodes[d] == s.inodes[d].(ptr := s'.inodes[d].ptr, sectors := s.inodes[d].sectors + 2,
                                                   size := s.inodes[d].size + 1024)
        else s'.inodes[d] == s.inodes[d])
  }

  /** Blocks in use stay, with their bytes, but for the one at the tail of `d` if the record goes there. */
  ghost predicate BlocksStay(s: State, s': State, d: nat, nameLen: nat)
    requires Insertable(s, d)
  {
    && |s'.blocks| == |s.blocks| && |s'.blockBits| == |s.blockBits|
    && forall p: nat :: Marked(s, p) && !(Fits(s, d, nameLen) && p == TailBlock(s, d)) ==>
         Marked(s', p) && s'.blocks[p] == s.blocks[p]
  }

  lemma InsertSucceedsIff(s: State, d: nat, child: nat, name: Name, ft: Byte)
    requires Shaped(s) && Insertable(s, d) && child < |s.inodes| && |name| < 0x100
    ensures NewDirEntry(s, d, child, name, ft).1 <==> |FreeBlocks(s)| >= Grows(s, d, |name|)
    ensures !NewDirEntry(s, d, child, name, ft).1 ==> NewDirEntry(s, d, child, name, ft).0 == s
  {
    FitsIff(s, d, |name|);
    NoCards(FreeBlocks(s));
  }

  lemma InsertEffect(s: State, d: nat, child: nat, name: Name, ft: Byte)
    requires Shaped(s) && Insertable(s, d) && child < |s.inodes| && |name| < 0x100 && child != d
    requires NewDirEntry(s, d, child, name, ft).1
    ensures var s' := NewDirEntry(s, d, child, name, ft).0;
            && Shaped(s') && LinkedTo(s, s', d, child, !Fits(s, d, |name|)) && BlocksStay(s, s', d, |name|)
            && FreeBlocks(s') <= FreeBlocks(s) && TakesLowest(s, s')
            && |FreeBlocks(s')| == |FreeBlocks(s)| - Grows(s, d, |name|)
  {
    FitsIff(s, d, |name|);
    var s' := NewDirEntry(s, d, child, name, ft).0;
    if HasRoom(s, d, |name|) {
      assert FreeBlocks(s') == FreeBlocks(s);
    } else {
      assert FreeBlocks(s') == FreeBlocks(s) - {Least(FreeBlocks(s))};
    }
  }

  // ---------- a new file ----------

  /** A file just made: one link, the blocks that its size calls for, and nothing else set. */
  ghost predicate NewFile(i: Inode, mode: nat, size: nat, now: nat) {
    && i.mode == mode && i.size == size && i.ctime == now && i.dtime == 0 && i.links == 1
    && i.sectors == 2 * BlocksNeeded(Kept(size))
  }

  lemma FileSucceedsIff(s: State, d: nat, name: Name, mode: nat, ft: Byte, src: seq<Byte>, now: nat)
    requires AddReady(s, d, name)
    ensures AddFile(s, d, name, mode, ft, src, now).1
       <==> FreeInodes(s) != {} && |FreeBlocks(s)| >= Grows(s, d, |name|) + BlocksNeeded(Kept(|src|))
    ensures AddFile(s, d, name, mode, ft, src, now).0 == s <==> FreeInodes(s) == {}
  {
    if FreeInodes(s) != {} {
      var n, s1 := FreshFile(s, d, name, mode, now);
      InsertSucceedsIff(s1, d, n, name, ft);
      var e := NewDirEntry(s1, d, n, name, ft);
      if e.1 {
        InsertEffect(s1, d, n, name, ft);
        WriteOutcome(e.0, n, src);
        WriteFrame(e.0, n, src);
      }
      assert AddFile(s, d, name, mode, ft, src, now).0.inodeBits[n] && !s.inodeBits[n];
    }
  }

  lemma FreshFile(s: State, d: nat, name: Name, mode: nat, now: nat) returns (n: nat, s1: State)
    requires AddReady(s, d, name) && FreeInodes(s) != {}
    ensures IsLeast(n, FreeInodes(s)) && n == Least(FreeInodes(s)) && n != d && n < |s.inodes|
    ensures s1 == NewInodeOf(s, mode, now).0 && AddReady(s1, d, name) && s1.inodeBits == s.inodeBits[n := true]
    ensures s1.inodes == s.inodes[n := Inode(mode, 0, now, 0, 0, 0, seq(POINTERS, _ => 0))]
    ensures s1.blocks == s.blocks && s1.blockBits == s.blockBits && FreeBlocks(s1) == FreeBlocks(s)
    ensures s1.usedDirs == s.usedDirs && s1.dataStart == s.dataStart
    ensures Grows(s1, d, |name|) == Grows(s, d, |name|)
  {
    NewInodeFacts(s, mode, now);
    n, s1 := Least(FreeInodes(s)), NewInodeOf(s, mode, now).0;
    assert FreeBlocks(s1) == FreeBlocks(s);
  }

  /** What a new file is, and what making it leaves as it was. */
  lemma FileEffect(s: State, d: nat, name: Name, mode: nat, ft: Byte, src: seq<Byte>, now: nat)
    returns (n: nat, r: State)
    requires AddReady(s, d, name) && AddFile(s, d, name, mode, ft, src, now).1
    ensures r == AddFile(s, d, name, mode, ft, src, now).0 && IsLeast(n, FreeInodes(s)) && n != d
    ensures |r.inodes| == |s.inodes| && r.inodeBits == s.inodeBits[n := true]
    ensures NewFile(r.inodes[n], mode, |src|, now)
    ensures |src| <= 1024 * MAX_BLOCKS ==> ReadsBack(r, n, src)
    ensures forall m :: 0 <= m < |s.inodes| && m != d && m != n ==> r.inodes[m] == s.inodes[m]
    ensures var i, i' := s.inodes[d], r.inodes[d];
            if Fits(s, d, |name|) then i' == i
            else i' == i.(ptr := i'.ptr, sectors := i.sectors + 2, size := i.size + 1024)
    ensures BlocksStay(s, r, d, |name|) && r.usedDirs == s.usedDirs && r.dataStart == s.dataStart
    ensures TakesLowest(s, r) && |FreeBlocks(r)| == |FreeBlocks(s)| - Grows(s, d, |name|) - BlocksNeeded(Kept(|src|))
  {
    var s1;
    n, s1 := FreshFile(s, d, name, mode, now);
    var e := NewDirEntry(s1, d, n, name, ft).0;
    InsertEffect(s1, d, n, name, ft);
    WriteOutcome(e, n, src);
    WriteFrame(e, n, src);
    WriteFile(e, n, src);
    if |src| <= 1024 * MAX_BLOCKS { WriteReadsBack(e, n, src); }
    r := WriteString(e, n, src).0;
    GrewLowest(s1, e, r);
    Filled(s, s1, e, r, d, n, |name|, Inode(mode, 0, now, 0, 0, 0, seq(POINTERS, _ => 0)), |src|);
  }

  /** A record for the new inode `i`, then its content. */
  lemma Filled(s: State, s1: State, e: State, r: State, d: nat, n: nat, nameLen: nat, i: Inode, size: nat)
    requires Insertable(s, d) && Insertable(s1, d) && n != d && n < |s.inodes| && s1.inodes == s.inodes[n := i]
    requires i.links == i.sectors == i.dtime == 0
    requires s1.blocks == s.blocks && s1.blockBits == s.blockBits
    requires LinkedTo(s1, e, d, n, !Fits(s1, d, nameLen)) && BlocksStay(s1, e, d, nameLen) && Untouched(e, r, n)
    requires SameFile(e.inodes[n].(size := size), r.inodes[n])
    requires r.inodes[n].sectors == e.inodes[n].sectors + 2 * BlocksNeeded(Kept(size))
    ensures BlocksStay(s, r, d, nameLen) && NewFile(r.inodes[n], i.mode, size, i.ctime)
    ensures forall m :: 0 <= m < |s.inodes| && m != d && m != n ==> r.inodes[m] == s.inodes[m]
    ensures var i, i' := s.inodes[d], r.inodes[d];
            if Fits(s, d, nameLen) then i' == i
            else i' == i.(ptr := i'.ptr, sectors := i.sectors + 2, size := i.size + 1024)
  {
  }

  // ---------- a new directory ----------

  /** mkdir once it has its inode `n`. */
  ghost function MkdirFrom(s: State, d: nat, n: nat, name: Name): (State, bool)
    requires AddReady(s, d, name) && n < |s.inodes| && n != d && s.inodes[n].sectors == 0
  {
    var e := NewDirEntry(s, d, n, name, FT_DIR);
    if e.1 then Dots(e.0, n, d) else e
  }

  lemma FreshDirectory(s: State, d: nat, name: Name, now: nat) returns (n: nat, s1: State)
    requires AddReady(s, d, name) && FreeInodes(s) != {}
    ensures IsLeast(n, FreeInodes(s)) && n != d && n < |s.inodes| && AddReady(s1, d, name)
    ensures s1.inodeBits == s.inodeBits[n := true] && s1.usedDirs == U16(s.usedDirs + 1) && s1.dataStart == s.dataStart
    ensures s1.inodes == s.inodes[n := Inode(S_IFDIR, 0, now, 0, 0, 0, seq(POINTERS, _ => 0))]
    ensures s1.blocks == s.blocks && s1.blockBits == s.blockBits && FreeBlocks(s1) == FreeBlocks(s)
    ensures Fits(s1, d, |name|) == Fits(s, d, |name|)
    ensures MkdirAt(s, d, name, now) == MkdirFrom(s1, d, n, name)
  {
    var m, s0 := FreshFile(s, d, name, S_IFDIR, now);
    n, s1 := m, CountDir(s0);
    assert FreeBlocks(s1) == FreeBlocks(s0);
  }

  /** The records of a directory just made. */
  function DotRecords(n: nat, d: nat): seq<Entry> {
    [Entry(0, n + 1, 12, [46], 2), Entry(12, d + 1, 1012, [46, 46], 2)]
  }

  /** Directory `n` was given its first block, with "." and "..", which are a link to `n` and one to `d`. */
  ghost predicate Dotted(s: State, s': State, n: nat, d: nat)
    requires d < |s.inodes| && n < |s.inodes|
  {
    && |s'.inodes| == |s.inodes| && s'.inodeBits == s.inodeBits
    && s'.usedDirs == s.usedDirs && s'.dataStart == s.dataStart
    && (forall m :: 0 <= m < |s.inodes| && m != d && m != n ==> s'.inodes[m] == s.inodes[m])
    && s'.inodes[d] == s.inodes[d].(links := U16(s.inodes[d].links + 1))
    && s'.inodes[n] == s.inodes[n].(links := U16(s.inodes[n].links + 1), ptr := s'.inodes[n].ptr,
                                     sectors := s.inodes[n].sectors + 2, size := s.inodes[n].size + 1024)
    && |s'.blocks| == |s.blocks| && |s'.blockBits| == |s.blockBits|
    && (forall p: nat :: Marked(s, p) ==> Marked(s', p) && s'.blocks[p] == s.blocks[p])
    && DirOk(s', n) && DirEntries(s', n) == DotRecords(n, d)
  }

  lemma DotsSucceedIff(s: State, n: nat, d: nat)
    requires Shaped(s) && n < |s.inodes| && d < |s.inodes| && s.inodes[n].sectors == 0
    ensures Dots(s, n, d).1 <==> FreeBlocks(s) != {}
    ensures Dots(s, n, d).0.inodeBits == s.inodeBits
  {
    if FreeBlocks(s) != {} { DotLeavesRoom(s, n); }
  }

  /** Directory `n` was given its first block, with the record "." in it. */
  ghost predicate FirstDot(s: State, s': State, n: nat)
    requires n < |s.inodes|
  {
    && Shaped(s') && |s'.inodes| == |s.inodes| && s'.inodeBits == s.inodeBits
    && s'.usedDirs == s.usedDirs && s'.dataStart == s.dataStart
    && Insertable(s', n) && Fits(s', n, 2) && HasRoom(s', n, 2) && Tallied(s', n)
    && (forall m :: 0 <= m < |s.inodes| && m != n ==> s'.inodes[m] == s.inodes[m])
    && s'.inodes[n] == s.inodes[n].(links := U16(s.inodes[n].links + 1), ptr := s'.inodes[n].ptr, sectors := 2,
                                     size := s.inodes[n].size + 1024)
    && |s'.blocks| == |s.blocks| && |s'.blockBits| == |s.blockBits|
    && DirEntries(s', n) == [Entry(0, n + 1, 1024, [46], 2)]
    && FreeBlocks(s') <= FreeBlocks(s) && TakesLowest(s, s') && |FreeBlocks(s')| == |FreeBlocks(s)| - 1
    && (forall p: nat :: Marked(s, p) ==> Marked(s', p) && s'.blocks[p] == s.blocks[p] && p != TailBlock(s', n))
  }

  lemma DotEntry(s: State, n: nat) returns (s': State)
    requires Shaped(s) && n < |s.inodes| && s.inodes[n].sectors == 0 && FreeBlocks(s) != {}
    requires s.inodes[n].ptr == seq(POINTERS, _ => 0)
    ensures s' == NewDirEntry(s, n, n, DOT_NAME, FT_DIR).0 && NewDirEntry(s, n, n, DOT_NAME, FT_DIR).1
    ensures Tallied(s', n) && Insertable(s', n) && HasRoom(s', n, 2)
    ensures DirEntries(s', n) == [Entry(0, n + 1, 1024, [46], 2)]
  {
    s' := NewDirEntry(s, n, n, DOT_NAME, FT_DIR).0;
    DotLeavesRoom(s, n);
    EmptyPointers(s.inodes[n].ptr);
    assert Tallied(s, n);
    GrowShape(s, n, n, DOT_NAME, FT_DIR);
    NumDirectIs(s'.inodes[n].ptr, 0, 1);
  }

  lemma DotFirst(s: State, n: nat) returns (s': State)
    requires Shaped(s) && n < |s.inodes| && s.inodes[n].sectors == 0 && FreeBlocks(s) != {}
    requires s.inodes[n].ptr == seq(POINTERS, _ => 0)
    ensures s' == NewDirEntry(s, n, n, DOT_NAME, FT_DIR).0 && NewDirEntry(s, n, n, DOT_NAME, FT_DIR).1
    ensures FirstDot(s, s', n)
  {
    s' := DotEntry(s, n);
    FitsIff(s', n, 2);
    var a := Least(FreeBlocks(s));
    assert FreeBlocks(s') == FreeBlocks(s) - {a} && TailBlock(s', n) == a + 1;
  }

  lemma DotSplit(es: seq<Entry>, es': seq<Entry>, a: seq<Entry>, x: Entry, e: Entry, b: seq<Entry>, n: nat, d: nat)
    requires SplitInto(es, es', a, x, e, b) && es == [Entry(0, n + 1, 1024, [46], 2)]
    requires e.ino == d + 1 && e.name == [46, 46] && e.ft == 2
    ensures es' == DotRecords(n, d)
  {
    assert a == [] && b == [] && x == es[0];
  }

  lemma DotSecond(s: State, s1: State, n: nat, d: nat) returns (r: State)
    requires n < |s.inodes| && d < |s.inodes| && n != d && FirstDot(s, s1, n) && s.inodes[n].sectors == 0
    ensures NewDirEntry(s1, n, d, DOT_DOT_NAME, FT_DIR) == (r, true) && Dotted(s, r, n, d)
    ensures FreeBlocks(r) <= FreeBlocks(s1) && TakesLowest(s1, r) && |FreeBlocks(r)| == |FreeBlocks(s1)|
  {
    r := NewDirEntry(s1, n, d, DOT_DOT_NAME, FT_DIR).0;
    InsertEffect(s1, n, d, DOT_DOT_NAME, FT_DIR);
    DotDotEntry(s1, n, d);
    BothDots(s, s1, r, n, d);
  }

  lemma DotDotEntry(s: State, n: nat, d: nat)
    requires Shaped(s) && Insertable(s, n) && HasRoom(s, n, 2) && Tallied(s, n) && d < |s.inodes|
    requires DirEntries(s, n) == [Entry(0, n + 1, 1024, [46], 2)]
    ensures var r := NewDirEntry(s, n, d, DOT_DOT_NAME, FT_DIR).0; DirOk(r, n) && DirEntries(r, n) == DotRecords(n, d)
  {
    var r := NewDirEntry(s, n, d, DOT_DOT_NAME, FT_DIR).0;
    var a, x, e, b := InsertShape(s, n, d, DOT_DOT_NAME, FT_DIR);
    DotSplit(DirEntries(s, n), DirEntries(r, n), a, x, e, b, n, d);
  }

  lemma BothDots(s: State, s1: State, r: State, n: nat, d: nat)
    requires n < |s.inodes| && d < |s.inodes| && n != d && FirstDot(s, s1, n) && s.inodes[n].sectors == 0
    requires LinkedTo(s1, r, n, d, false) && BlocksStay(s1, r, n, 2)
    requires DirOk(r, n) && DirEntries(r, n) == DotRecords(n, d)
    ensures Dotted(s, r, n, d)
  {
  }

  lemma DotsEffect(s: State, n: nat, d: nat) returns (r: State)
    requires Shaped(s) && n < |s.inodes| && d < |s.inodes| && n != d && s.inodes[n].sectors == 0 && FreeBlocks(s) != {}
    requires s.inodes[n].ptr == seq(POINTERS, _ => 0)
    ensures Dots(s, n, d) == (r, true) && Dotted(s, r, n, d)
    ensures FreeBlocks(r) <= FreeBlocks(s) && TakesLowest(s, r) && |FreeBlocks(r)| == |FreeBlocks(s)| - 1
  {
    var s1 := DotFirst(s, n);
    r := DotSecond(s, s1, n, d);
    GrewLowest(s, s1, r);
  }

  lemma DirSucceedsIff(s: State, d: nat, name: Name, now: nat)
    requires AddReady(s, d, name)
    ensures MkdirAt(s, d, name, now).1 <==> FreeInodes(s) != {} && |FreeBlocks(s)| >= Grows(s, d, |name|) + 1
    ensures MkdirAt(s, d, name, now).0 == s <==> FreeInodes(s) == {}
  {
    if FreeInodes(s) != {} {
      var n, s1 := FreshDirectory(s, d, name, now);
      InsertSucceedsIff(s1, d, n, name, FT_DIR);
      var e := NewDirEntry(s1, d, n, name, FT_DIR);
      if e.1 {
        InsertEffect(s1, d, n, name, FT_DIR);
        DotsSucceedIff(e.0, n, d);
        NoCards(FreeBlocks(e.0));
      }
      assert MkdirAt(s, d, name, now).0.inodeBits[n] && !s.inodeBits[n];
    }
  }

  /** A directory just made: one block, and a link each from its name and from ".". */
  ghost predicate NewDir(i: Inode, now: nat) {
    i.mode == 0x4000 && i.size == 1024 && i.ctime == now && i.dtime == 0 && i.links == 2 && i.sectors == 2
  }

  /** What a new directory is, and what making it leaves as it was. */
  lemma DirEffect(s: State, d: nat, name: Name, now: nat) returns (n: nat, r: State)
    requires AddReady(s, d, name) && MkdirAt(s, d, name, now).1
    ensures r == MkdirAt(s, d, name, now).0 && IsLeast(n, FreeInodes(s)) && n != d
    ensures |r.inodes| == |s.inodes| && r.inodeBits == s.inodeBits[n := true]
    ensures NewDir(r.inodes[n], now) && DirOk(r, n) && DirEntries(r, n) == DotRecords(n, d)
    ensures forall m :: 0 <= m < |s.inodes| && m != d && m != n ==> r.inodes[m] == s.inodes[m]
    ensures var i, i' := s.inodes[d], r.inodes[d];
            if Fits(s, d, |name|) then i' == i.(links := U16(i.links + 1))
            else i' == i.(links := U16(i.links + 1), ptr := i'.ptr, sectors := i.sectors + 2, size := i.size + 1024)
    ensures BlocksStay(s, r, d, |name|) && r.usedDirs == U16(s.usedDirs + 1) && r.dataStart == s.dataStart
    ensures TakesLowest(s, r) && |FreeBlocks(r)| == |FreeBlocks(s)| - Grows(s, d, |name|) - 1
  {
    var s1, e;
    n, s1 := FreshDirectory(s, d, name, now);
    e, r := MadeFrom(s1, d, n, name);
    FilledDir(s, s1, e, r, d, n, |name|, now);
  }

  lemma MadeFrom(s: State, d: nat, n: nat, name: Name) returns (e: State, r: State)
    requires AddReady(s, d, name) && n < |s.inodes| && n != d && s.inodes[n].sectors == 0
    requires s.inodes[n].ptr == seq(POINTERS, _ => 0) && MkdirFrom(s, d, n, name).1
    ensures e == NewDirEntry(s, d, n, name, FT_DIR).0
    ensures r == MkdirFrom(s, d, n, name).0 && LinkedTo(s, e, d, n, !Fits(s, d, |name|))
    ensures BlocksStay(s, e, d, |name|) && Dotted(e, r, n, d)
    ensures TakesLowest(s, r) && |FreeBlocks(r)| == |FreeBlocks(s)| - Grows(s, d, |name|) - 1
  {
    e := NewDirEntry(s, d, n, name, FT_DIR).0;
    InsertEffect(s, d, n, name, FT_DIR);
    DotsSucceedIff(e, n, d);
    r := DotsEffect(e, n, d);
    GrewLowest(s, e, r);
  }

  lemma FilledDir(s: State, s1: State, e: State, r: State, d: nat, n: nat, nameLen: nat, now: nat)
    requires Insertable(s, d) && Insertable(s1, d) && n != d && n < |s.inodes|
    requires s1.inodes == s.inodes[n := Inode(S_IFDIR, 0, now, 0, 0, 0, seq(POINTERS, _ => 0))]
    requires s1.blocks == s.blocks && s1.blockBits == s.blockBits && Fits(s1, d, nameLen) == Fits(s, d, nameLen)
    requires LinkedTo(s1, e, d, n, !Fits(s1, d, nameLen)) && BlocksStay(s1, e, d, nameLen) && Dotted(e, r, n, d)
    ensures BlocksStay(s, r, d, nameLen) && NewDir(r.inodes[n], now)
    ensures forall m :: 0 <= m < |s.inodes| && m != d && m != n ==> r.inodes[m] == s.inodes[m]
    ensures var i, i' := s.inodes[d], r.inodes[d];
            if Fits(s, d, nameLen) then i' == i.(links := U16(i.links + 1))
            else i' == i.(links := U16(i.links + 1), ptr := i'.ptr, sectors := i.sectors + 2, size := i.size + 1024)
  {
  }
}

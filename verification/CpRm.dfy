/** Copying a file in and removing it again puts the allocation and the directory back. */
module CpRm {
  import opened Options
  import opened Bytes
  import opened Records
  import opened DirBlocks
  import opened DiskState
  import opened Directory
  import opened Invariant
  import opened Insertion
  import opened RemovalProofs
  import opened RemovalInv
  import opened Writing
  import opened WriteProofs
  import opened NewInodes
  import opened CopyProofs
  import opened Commands
  import opened PathFacts
  import opened Runs

  // ---------- the bits a write sets ----------

  /** Between `s0` and `s` exactly the bits of the blocks of inode `n` were set. */
  ghost predicate TookOwn(s0: State, s: State, n: nat) {
    && n < |s.inodes| && |s.blockBits| == |s0.blockBits|
    && (forall k :: 0 <= k < |s.blockBits| ==>
          (s.blockBits[k] <==> s0.blockBits[k] || k + 1 in Direct(s.inodes[n].ptr)))
    && (forall k :: 0 <= k < |s.blockBits| && k + 1 in Direct(s.inodes[n].ptr) ==> !s0.blockBits[k])
  }

  lemma TookOneMore(s0: State, s: State, s': State, n: nat, a: nat)
    requires TookOwn(s0, s, n) && n < |s'.inodes| && a in FreeBlocks(s) && s'.blockBits == s.blockBits[a := true]
    requires Direct(s'.inodes[n].ptr) == Direct(s.inodes[n].ptr) + [a + 1]
    ensures TookOwn(s0, s', n)
  {
    assert forall p :: p in Direct(s'.inodes[n].ptr) <==> p in Direct(s.inodes[n].ptr) || p == a + 1;
  }

  lemma DirectStepOwn(s0: State, s: State, n: nat, src: seq<Byte>, i: nat)
    requires AllocOk(s) && Used(s, n) && i < DIRECT && 1024 * i < |src| && FreeBlocks(s) != {}
    requires NumDirect(s.inodes[n].ptr) == i && TookOwn(s0, s, n)
    ensures TookOwn(s0, DirectStep(s, n, src, i), n)
  {
    var a := Least(FreeBlocks(s));
    NewBlockInside(s);
    var f := s.inodes[n];
    AppendPointer(s, n, a, f.(ptr := f.ptr[i := a + 1], sectors := f.sectors + 2));
    TookOneMore(s0, s, DirectStep(s, n, src, i), n, a);
  }

  lemma {:induction false} WriteDirectOwn(s0: State, s: State, n: nat, src: seq<Byte>, i: nat)
    requires AllocOk(s) && Used(s, n) && i <= DIRECT && NumDirect(s.inodes[n].ptr) == i && TookOwn(s0, s, n)
    ensures TookOwn(s0, WriteDirect(s, n, src, i).0, n)
    decreases DIRECT - i
  {
    if 1024 * i < |src| && i < DIRECT && FreeBlocks(s) != {} {
      DirectStepAlloc(s, n, src, i);
      DirectStepOwn(s0, s, n, src, i);
      WriteDirectOwn(s0, DirectStep(s, n, src, i), n, src, i + 1);
    }
  }

  lemma WriteOwn(s: State, n: nat, src: seq<Byte>)
    requires AllocOk(s) && Used(s, n) && NumDirect(s.inodes[n].ptr) == 0 && |src| <= 1024 * DIRECT
    ensures TookOwn(s, WriteString(s, n, src).0, n)
  {
    var s0 := SetSize(s, n, |src|);
    AllocFrame(s, s0);
    WriteDirectOwn(s, s0, n, src, 0);
    WriteDirectIs(s0, n, src, 0);
  }

  // ---------- the three steps of cp ----------

  /** A record for the file came to the directory; its blocks, distinct and free before, are its own. */
  ghost predicate Copied(s: State, s': State, d: nat, n: nat, name: Name, a: seq<Entry>, x: Entry, e: Entry,
                         b: seq<Entry>) {
    && n in FreeInodes(s) && s'.inodeBits == s.inodeBits[n := true] && |s'.inodes| == |s.inodes| && TookOwn(s, s', n)
    && s'.inodes[n].links == 1 && s'.inodes[n].dtime == 0 && !IsDir(s'.inodes[n].mode) && d != n
    && (forall m :: 0 <= m < |s.inodes| && m != n ==> s'.inodes[m] == s.inodes[m])
    && s'.usedDirs == s.usedDirs
    && DirOk(s, d) && DirOk(s', d) && SplitInto(DirEntries(s, d), DirEntries(s', d), a, x, e, b)
    && e.name == name && e.ino == n + 1 && e.ft == FT_REG_FILE
  }

  lemma NamedFacts(s: State, d: nat, n: nat, name: Name) returns (s': State)
    requires Shaped(s) && Insertable(s, d) && HasRoom(s, d, |name|) && n < |s.inodes| && |name| < 0x100
    requires s.inodes[n].links == 0
    ensures NewDirEntry(s, d, n, name, FT_REG_FILE) == (s', true) && NewDirEntry(s, d, n, name, FT_REG_FILE).0 == s'
    ensures s'.inodeBits == s.inodeBits && s'.blockBits == s.blockBits && s'.usedDirs == s.usedDirs
    ensures s'.inodes == s.inodes[n := s.inodes[n].(links := 1)]
  {
    s' := NewDirEntry(s, d, n, name, FT_REG_FILE).0;
  }

  lemma NamedEntries(s: State, s1: State, s2: State, d: nat, n: nat, name: Name)
    returns (a: seq<Entry>, x: Entry, e: Entry, b: seq<Entry>)
    requires DirSound(s, d) && DirSound(s1, d) && Shaped(s1) && PointersOk(s1.inodes[d].ptr, |s1.blocks|)
    requires Insertable(s1, d) && HasRoom(s1, d, |name|) && n < |s1.inodes| && |name| < 0x100
    requires s1.blocks == s.blocks && s1.inodes[d] == s.inodes[d]
    requires s2 == NewDirEntry(s1, d, n, name, FT_REG_FILE).0
    ensures DirOk(s2, d) && SplitInto(DirEntries(s, d), DirEntries(s2, d), a, x, e, b)
    ensures e.name == name && e.ino == n + 1 && e.ft == FT_REG_FILE
  {
    a, x, e, b := InsertShape(s1, d, n, name, FT_REG_FILE);
    SameEntries(s, s1, d);
  }

  lemma FilledFacts(s: State, n: nat, src: seq<Byte>) returns (s': State)
    requires Shaped(s) && n < |s.inodes| && |src| <= 1024 * DIRECT
    ensures s' == WriteString(s, n, src).0
    ensures s'.usedDirs == s.usedDirs && s'.inodeBits == s.inodeBits && |s'.inodes| == |s.inodes|
    ensures s'.inodes[n].links == s.inodes[n].links && s'.inodes[n].mode == s.inodes[n].mode
    ensures s'.inodes[n].dtime == s.inodes[n].dtime
    ensures forall m :: 0 <= m < |s.inodes| && m != n ==> s'.inodes[m] == s.inodes[m]
  {
    s' := WriteString(s, n, src).0;
    WriteDirectIs(SetSize(s, n, |src|), n, src, 0);
    WriteDirectDirs(SetSize(s, n, |src|), n, src, 0);
  }

  lemma FilledFile(s: State, d: nat, n: nat, src: seq<Byte>)
    requires Inv(s) && UsedDir(s, d) && Used(s, n) && d != n && !IsDir(s.inodes[n].mode)
    requires NumDirect(s.inodes[n].ptr) == 0 && |src| <= 1024 * DIRECT
    ensures var s' := WriteString(s, n, src).0;
            Inv(s') && TookOwn(s, s', n) && DirOk(s, d) && DirOk(s', d) && DirEntries(s', d) == DirEntries(s, d)
  {
    WriteInv(s, n, src);
    WriteOwn(s, n, src);
    WriteFrame(s, n, src);
    UntouchedEntries(s, WriteString(s, n, src).0, d, n);
  }

  lemma {:induction false} WriteDirectDirs(s: State, n: nat, src: seq<Byte>, i: nat)
    requires Shaped(s) && n < |s.inodes| && i <= DIRECT
    ensures WriteDirect(s, n, src, i).0.usedDirs == s.usedDirs
    decreases DIRECT - i
  {
    if 1024 * i < |src| && i < DIRECT && FreeBlocks(s) != {} {
      WriteDirectDirs(DirectStep(s, n, src, i), n, src, i + 1);
    }
  }

  lemma UntouchedEntries(s: State, s': State, d: nat, n: nat)
    requires Inv(s) && UsedDir(s, d) && d != n && Untouched(s, s', n)
    ensures DirOk(s, d) && DirOk(s', d) && DirEntries(s', d) == DirEntries(s, d)
  {
    assert DirSound(s, d) && MarksOwned(s, d);
    forall p | p in Owned(s, d) ensures s'.blocks[p] == s.blocks[p] { assert Marked(s, p); }
    SameEntries(s, s', d);
  }

  /** The body of cp with room in the directory, whether or not the blocks suffice. */
  lemma CopyIn(s: State, d: nat, name: Name, src: seq<Byte>, now: nat)
    returns (s': State, n: nat, a: seq<Entry>, x: Entry, e: Entry, b: seq<Entry>)
    requires Inv(s) && UsedDir(s, d) && AddReady(s, d, name) && HasRoom(s, d, |name|) && FreeInodes(s) != {}
    requires |src| <= 1024 * DIRECT
    ensures s' == AddFile(s, d, name, S_IFREG, FT_REG_FILE, src, now).0
    ensures Inv(s') && Copied(s, s', d, n, name, a, x, e, b)
  {
    var s1;
    n, s1 := FreshInode(s, d, S_IFREG, now);
    ModesAre();
    EmptyPointers(s1.inodes[n].ptr);
    RoomAfter(s, s1, d, |name|);
    assert CanLink(s1, d, n, name);
    var s2 := NamedFacts(s1, d, n, name);
    InsertInv(s1, d, n, name, FT_REG_FILE);
    assert DirSound(s, d) && DirSound(s1, d);
    a, x, e, b := NamedEntries(s, s1, s2, d, n, name);
    s' := FilledFacts(s2, n, src);
    FilledFile(s2, d, n, src);
    Collect(s, s1, s2, s', d, n, name, a, x, e, b);
  }

  lemma Collect(s: State, s1: State, s2: State, s': State, d: nat, n: nat, name: Name,
                a: seq<Entry>, x: Entry, e: Entry, b: seq<Entry>)
    requires Shaped(s) && n in FreeInodes(s) && s1.inodeBits == s.inodeBits[n := true]
    requires |s1.inodes| == |s.inodes| && d != n
    requires s1.blockBits == s.blockBits && s1.usedDirs == s.usedDirs && !IsDir(s1.inodes[n].mode)
    requires s1.inodes[n].dtime == 0
    requires forall m :: 0 <= m < |s.inodes| && m != n ==> s1.inodes[m] == s.inodes[m]
    requires s2.inodeBits == s1.inodeBits && s2.blockBits == s1.blockBits && s2.usedDirs == s1.usedDirs
    requires s2.inodes == s1.inodes[n := s1.inodes[n].(links := 1)]
    requires s'.usedDirs == s2.usedDirs && s'.inodeBits == s2.inodeBits && |s'.inodes| == |s2.inodes|
    requires s'.inodes[n].links == s2.inodes[n].links && s'.inodes[n].mode == s2.inodes[n].mode
    requires s'.inodes[n].dtime == s2.inodes[n].dtime
    requires forall m :: 0 <= m < |s2.inodes| && m != n ==> s'.inodes[m] == s2.inodes[m]
    requires TookOwn(s2, s', n) && DirOk(s, d) && DirOk(s', d)
    requires SplitInto(DirEntries(s, d), DirEntries(s', d), a, x, e, b)
    requires e.name == name && e.ino == n + 1 && e.ft == FT_REG_FILE
    ensures Copied(s, s', d, n, name, a, x, e, b)
  {
  }

  lemma RoomAfter(s: State, s1: State, d: nat, nameLen: nat)
    requires d < |s.inodes| == |s1.inodes| && s1.blocks == s.blocks && s1.inodes[d] == s.inodes[d]
    requires Insertable(s, d) && HasRoom(s, d, nameLen)
    ensures Insertable(s1, d) && HasRoom(s1, d, nameLen)
  {
  }

  // ---------- the removal ----------

  lemma {:induction false} SlotEntry(blocks: seq<Block>, ps: seq<nat>, name: Name)
    requires BlocksOk(blocks, ps) && FindSlot(blocks, ps, name).Some?
    ensures var (k, f) := FindSlot(blocks, ps, name).value;
            f + HEADER <= BLOCK_SIZE && NameOf(blocks[k], f) == name && At(blocks[k], f) in LiveOf(blocks, ps)
  {
    if FindName(blocks[ps[0]], 0, name).Some? {
      var f := FindName(blocks[ps[0]], 0, name).value;
      FindNameSome(blocks[ps[0]], 0, name);
      var x, live := At(blocks[ps[0]], f), Live(blocks[ps[0]]);
      BlockAt(blocks[ps[0]], f, x);
      assert live[|Entries(blocks[ps[0]], 0, f)|] == x;
      assert x in live;
    } else {
      SlotEntry(blocks, ps[1..], name);
    }
  }

  /** The new record is the only one of its name. */
  lemma OnlyNamed(es: seq<Entry>, es': seq<Entry>, name: Name, a: seq<Entry>, x: Entry, e: Entry, b: seq<Entry>)
    requires SplitInto(es, es', a, x, e, b) && FindIno(es, name) == None && e.name == name
    ensures FindIno(es', name) != None && e.off > 0
    ensures forall i :: 0 <= i < |es'| && es'[i].name == name ==> i == |a| + 1
  {
    FindNone(es, name);
    FindNone(es', name);
    assert es'[|a| + 1] == e;
    forall i | 0 <= i < |es'| && i != |a| + 1 ensures es'[i].name != name {
      var z := es[if i <= |a| then i else i - 1];
      assert es'[i].name == z.name && z in es;
    }
  }

  lemma FoundEntry(s: State, d: nat, name: Name, e: Entry)
    requires DirOk(s, d) && FindIno(DirEntries(s, d), name) != None && e.name == name && e.off > 0
    requires forall y :: y in DirEntries(s, d) && y.name == name ==> y == e
    requires 0 < e.ino <= |s.inodes| && DirectOnly(s.inodes[e.ino - 1].ptr)
    ensures Removable(s, d, name) && FindRemoval(s, d, name).Some? && !FirstInBlock(s, d, name)
    ensures RmInode(s, d, name) == e.ino - 1
  {
    var ps := Direct(s.inodes[d].ptr);
    FindSlotIs(s.blocks, ps, name);
    SlotEntry(s.blocks, ps, name);
    var slot := FindSlot(s.blocks, ps, name).value;
    assert At(s.blocks[slot.0], slot.1) == e;
    RemovalTarget(s, d, name, slot.0, slot.1);
  }

  /** Merging what was split gives the old records back. */
  lemma SplitThenMerged(es: seq<Entry>, es': seq<Entry>, es'': seq<Entry>, name: Name, a: seq<Entry>, x: Entry,
                        e: Entry,
                        b: seq<Entry>, a': seq<Entry>, x': Entry, y: Entry, b': seq<Entry>)
    requires SplitInto(es, es', a, x, e, b) && MergedInto(es', es'', a', x', y, b') && y.name == name
    requires forall i :: 0 <= i < |es'| && es'[i].name == name ==> i == |a| + 1
    ensures es'' == es
  {
    assert es'[|a'| + 1] == y;
    assert |a'| == |a|;
    assert a' == es'[..|a|] == a;
    assert x' == es'[|a|] == x.(len := MinLen(|x.name|)) && y == es'[|a| + 1] == e;
    assert b' == es'[|a| + 2..] == b;
    assert x'.(len := x'.len + y.len) == x;
  }

  /** The record found is the new one, and the one before it was cut down to its own size. */
  lemma SplitFound(es: seq<Entry>, es': seq<Entry>, es'': seq<Entry>, name: Name, a: seq<Entry>, x: Entry, e: Entry,
                   b: seq<Entry>, a': seq<Entry>, x': Entry, y: Entry, b': seq<Entry>)
    requires SplitInto(es, es', a, x, e, b) && MergedInto(es', es'', a', x', y, b') && y.name == name
    requires forall i :: 0 <= i < |es'| && es'[i].name == name ==> i == |a| + 1
    ensures y == e && x' == x.(len := MinLen(|x.name|))
  {
    assert es'[|a'| + 1] == y;
    assert x' == es'[|a|] && y == es'[|a| + 1];
  }

  /** What cp and then rm leave as it was; the bytes may differ in the slack of one record. */
  ghost predicate SameDisk(s: State, s': State, d: nat) {
    && s'.blockBits == s.blockBits && s'.inodeBits == s.inodeBits
    && s'.sbFreeBlocks == s.sbFreeBlocks && s'.gdFreeBlocks == s.gdFreeBlocks
    && s'.sbFreeInodes == s.sbFreeInodes && s'.gdFreeInodes == s.gdFreeInodes && s'.usedDirs == s.usedDirs
    && |s'.inodes| == |s.inodes| && (forall m :: 0 <= m < |s.inodes| && Used(s, m) ==> s'.inodes[m] == s.inodes[m])
    && DirOk(s, d) && DirOk(s', d) && DirEntries(s', d) == DirEntries(s, d)
  }

  lemma CountersFollow(s: State, s': State)
    requires Inv(s) && Inv(s') && s'.blockBits == s.blockBits && s'.inodeBits == s.inodeBits
    ensures s'.sbFreeBlocks == s.sbFreeBlocks && s'.gdFreeBlocks == s.gdFreeBlocks
    ensures s'.sbFreeInodes == s.sbFreeInodes && s'.gdFreeInodes == s.gdFreeInodes
  {
    assert FreeBlocks(s') == FreeBlocks(s) && FreeInodes(s') == FreeInodes(s);
  }

  /** The last link gone, the bits are those of before the copy. */
  lemma BitsBack(s: State, t: State, u: State, d: nat, n: nat)
    requires Shaped(s) && Shaped(t) && n in FreeInodes(s) && t.inodeBits == s.inodeBits[n := true]
    requires |t.inodes| == |s.inodes|
    requires TookOwn(s, t, n) && t.inodes[n].links == 1 && t.usedDirs == s.usedDirs && Shaped(u)
    requires forall m :: 0 <= m < |s.inodes| && m != n ==> t.inodes[m] == s.inodes[m]
    requires u.blockBits == t.blockBits && u.inodeBits == t.inodeBits && u.inodes == t.inodes
    requires u.usedDirs == t.usedDirs
    ensures var r := DropLink(u, n);
            && r.blockBits == s.blockBits && r.inodeBits == s.inodeBits && r.usedDirs == s.usedDirs
            && r.blocks == u.blocks && |r.inodes| == |s.inodes|
            && forall m :: 0 <= m < |s.inodes| && m != n ==> r.inodes[m] == s.inodes[m]
  {
    var r := DropLink(u, n);
    assert r.inodeBits == s.inodeBits;
    assert forall k :: 0 <= k < |s.blockBits| ==> r.blockBits[k] == s.blockBits[k];
  }

  lemma CopiedRemovable(s: State, t: State, d: nat, n: nat, name: Name, a: seq<Entry>, x: Entry, e: Entry,
                        b: seq<Entry>)
    requires Inv(t) && Copied(s, t, d, n, name, a, x, e, b) && FindIno(DirEntries(s, d), name) == None
    ensures Removable(t, d, name) && FindRemoval(t, d, name).Some? && !FirstInBlock(t, d, name)
    ensures RmInode(t, d, name) == n
  {
    OnlyNamed(DirEntries(s, d), DirEntries(t, d), name, a, x, e, b);
    assert PointersOk(t.inodes[n].ptr, |t.blocks|);
    assert DirEntries(t, d)[|a| + 1] == e;
    FoundEntry(t, d, name, e);
  }

  lemma EntriesBack(s: State, t: State, d: nat, n: nat, name: Name, a: seq<Entry>, x: Entry, e: Entry, b: seq<Entry>)
    requires Copied(s, t, d, n, name, a, x, e, b) && FindIno(DirEntries(s, d), name) == None
    requires Shaped(t) && Removable(t, d, name) && FindRemoval(t, d, name).Some? && !FirstInBlock(t, d, name)
    requires PointersOk(t.inodes[d].ptr, |t.blocks|)
    ensures DirOk(Unlinked(t, d, name), d) && DirEntries(Unlinked(t, d, name), d) == DirEntries(s, d)
  {
    OnlyNamed(DirEntries(s, d), DirEntries(t, d), name, a, x, e, b);
    var a', x', y, b' := RmShape(t, d, name);
    SplitThenMerged(DirEntries(s, d), DirEntries(t, d), DirEntries(Unlinked(t, d, name), d),
                    name, a, x, e, b, a', x', y, b');
  }

  lemma CopiedOut(s: State, t: State, d: nat, n: nat, name: Name, a: seq<Entry>, x: Entry, e: Entry, b: seq<Entry>)
    returns (r: State)
    requires Inv(s) && Inv(t) && UsedDir(s, d) && Copied(s, t, d, n, name, a, x, e, b)
    requires FindIno(DirEntries(s, d), name) == None
    ensures Removable(t, d, name) && RmDirEntry(t, d, name) == (r, true) && SameDisk(s, r, d)
  {
    CopiedRemovable(s, t, d, n, name, a, x, e, b);
    EntriesBack(s, t, d, n, name, a, x, e, b);
    r := RemovedAgain(t, d, name, n);
    DiskBack(s, t, Unlinked(t, d, name), r, d, n);
  }

  lemma RemovedAgain(t: State, d: nat, name: Name, n: nat) returns (r: State)
    requires Inv(t) && CanRemove(t, d, name) && FindRemoval(t, d, name).Some? && RmInode(t, d, name) == n
    ensures RmDirEntry(t, d, name) == (r, true) && Inv(r) && Shaped(Unlinked(t, d, name))
    ensures n < |Unlinked(t, d, name).inodes| && r == DropLink(Unlinked(t, d, name), n)
    ensures var u := Unlinked(t, d, name);
            && u.blockBits == t.blockBits && u.inodeBits == t.inodeBits && u.inodes == t.inodes
            && u.usedDirs == t.usedDirs
  {
    RmIs(t, d, name);
    RmInv(t, d, name);
    r := RmDirEntry(t, d, name).0;
  }

  lemma DiskBack(s: State, t: State, u: State, r: State, d: nat, n: nat)
    requires Inv(s) && Shaped(t) && n in FreeInodes(s) && t.inodeBits == s.inodeBits[n := true]
    requires |t.inodes| == |s.inodes| && UsedDir(s, d) && d != n
    requires TookOwn(s, t, n) && t.inodes[n].links == 1 && t.usedDirs == s.usedDirs && Shaped(u)
    requires forall m :: 0 <= m < |s.inodes| && m != n ==> t.inodes[m] == s.inodes[m]
    requires u.blockBits == t.blockBits && u.inodeBits == t.inodeBits && u.inodes == t.inodes
    requires u.usedDirs == t.usedDirs && r == DropLink(u, n) && Inv(r)
    requires DirOk(s, d) && DirOk(u, d) && DirEntries(u, d) == DirEntries(s, d)
    ensures SameDisk(s, r, d)
  {
    BitsBack(s, t, u, d, n);
    CountersFollow(s, r);
    SameEntries(u, r, d);
  }

  /**
   * Copy a file of at most twelve blocks into a directory with room for a name it does not have,
   * then remove it: bitmaps, counters, the other inodes and the live records, with their lengths,
   * are those of before, whether or not the copy found blocks enough.
   */
  lemma CpThenRm(s: State, d: nat, name: Name, src: seq<Byte>, now: nat) returns (t: State, r: State)
    requires Inv(s) && UsedDir(s, d) && DirOk(s, d) && AddReady(s, d, name) && HasRoom(s, d, |name|)
    requires FreeInodes(s) != {} && |src| <= 1024 * DIRECT && FindIno(DirEntries(s, d), name) == None
    ensures t == AddFile(s, d, name, S_IFREG, FT_REG_FILE, src, now).0
    ensures Removable(t, d, name) && RmDirEntry(t, d, name) == (r, true)
    ensures SameDisk(s, r, d)
  {
    var n, a, x, e, b;
    t, n, a, x, e, b := CopyIn(s, d, name, src, now);
    r := CopiedOut(s, t, d, n, name, a, x, e, b);
  }
}

/** rm_dir_entry keeps the invariant, also at the head of a block, unless a directory loses its last link. */
module RemovalInv {
  import opened Options
  import opened Bytes
  import opened Records
  import opened DirBlocks
  import opened DiskState
  import opened Directory
  import opened Invariant
  import opened Insertion
  import opened RemovalProofs
  import opened Exactness

  /** The inode that loses a link is no directory, or keeps one. */
  ghost predicate SparesDirs(s: State, d: nat, name: Name)
    requires Removable(s, d, name) && FindRemoval(s, d, name).Some?
  {
    var n := RmInode(s, d, name);
    !IsDir(s.inodes[n].mode) || s.inodes[n].links > 1
  }

  /** The block that the removal edits: the record unlinked or, if it has the name of the one before, blanked. */
  ghost function EditedBlock(s: State, r: Removal): Block
    requires r.block < |s.blocks| && r.before + HEADER <= BLOCK_SIZE && r.target + HEADER <= BLOCK_SIZE
    requires r.target == r.before + RecLen(s.blocks[r.block], r.before)
  {
    var b := s.blocks[r.block];
    if NameOf(b, r.target) == NameOf(b, r.before) then Put32(b, r.target, 0) else Unlink(b, r.before)
  }

  ghost function Edited(s: State, d: nat, name: Name): State
    requires Removable(s, d, name) && FindRemoval(s, d, name).Some?
  {
    var r := FindRemoval(s, d, name).value;
    SetBlock(s, r.block, EditedBlock(s, r))
  }

  lemma RmIsEdit(s: State, d: nat, name: Name)
    requires Shaped(s) && Removable(s, d, name) && FindRemoval(s, d, name).Some?
    ensures RmDirEntry(s, d, name) == (DropLink(Edited(s, d, name), RmInode(s, d, name)), true)
  {
  }

  // ---------- what the edit does to the records ----------

  /** Record `y` lost its inode number. */
  ghost predicate Blanked(es: seq<Entry>, es': seq<Entry>, a: seq<Entry>, y: Entry, b: seq<Entry>) {
    es == a + [y] + b && es' == a + [y.(ino := 0)] + b
  }

  lemma BlankedAt(b: Block, t: nat)
    requires RecOk(b, t)
    ensures var b' := Put32(b, t, 0);
            RecOk(b', t) && At(b', t) == At(b, t).(ino := 0) && Agree(b, b', 0, t) && Agree(b, b', t + 4, BLOCK_SIZE)
  {
    var b' := Put32(b, t, 0);
    Put32Is(b, t, 0);
    assert NameOf(b', t) == NameOf(b, t);
  }

  lemma BlankedLive(b: Block, t: nat) returns (a: seq<Entry>, after: seq<Entry>)
    requires Chain(b, 0, t) && RecOk(b, t) && Chain(b, t + RecLen(b, t), BLOCK_SIZE)
    ensures BlockOk(b) && BlockOk(Put32(b, t, 0)) && Blanked(Live(b), Live(Put32(b, t, 0)), a, At(b, t), after)
    ensures a == Entries(b, 0, t)
  {
    var b' := Put32(b, t, 0);
    BlankedAt(b, t);
    BlockAt(b, t, At(b, t));
    ChainFrame(b, b', 0, t);
    ChainFrame(b, b', t + RecLen(b, t), BLOCK_SIZE);
    BlockAt(b', t, At(b', t));
    a, after := Entries(b, 0, t), Entries(b, t + RecLen(b, t), BLOCK_SIZE);
  }

  lemma BlankedDir(s: State, s': State, d: nat, j: nat, a: seq<Entry>, y: Entry, b: seq<Entry>)
    returns (a': seq<Entry>, b': seq<Entry>)
    requires DirOk(s, d) && PointersOk(s.inodes[d].ptr, |s.blocks|) && j < NumDirect(s.inodes[d].ptr)
    requires d < |s'.inodes| && s'.inodes[d].ptr == s.inodes[d].ptr
    requires var k := s.inodes[d].ptr[j];
             && k < |s.blocks| && BlockOk(s.blocks[k])
             && |s'.blocks| == |s.blocks| && s'.blocks == s.blocks[k := s'.blocks[k]]
             && BlockOk(s'.blocks[k]) && Blanked(Live(s.blocks[k]), Live(s'.blocks[k]), a, y, b)
    ensures DirOk(s', d) && Blanked(DirEntries(s, d), DirEntries(s', d), a', y, b')
    ensures BlocksOk(s.blocks, s.inodes[d].ptr[..j]) && a' == LiveOf(s.blocks, s.inodes[d].ptr[..j]) + a
  {
    var ps := Direct(s.inodes[d].ptr);
    var before, after := LiveOfChange(s.blocks, s'.blocks, ps, j);
    assert ps[..j] == s.inodes[d].ptr[..j];
    ConcatFive(before, a, [y], b, after);
    ConcatFive(before, a, [y.(ino := 0)], b, after);
    a', b' := before + a, b + after;
  }

  lemma BlankedCounts(es: seq<Entry>, es': seq<Entry>, a: seq<Entry>, y: Entry, b: seq<Entry>)
    requires Blanked(es, es', a, y, b) && y.ino > 0
    ensures CountsMove(es, es', y.ino, -1)
  {
    forall i | i > 0 ensures Count(es', i) == Count(es, i) + (if i == y.ino then -1 else 0) {
      CountThree(a, [y], b, i);
      CountThree(a, [y.(ino := 0)], b, i);
    }
  }

  /** Slot `j` of the directory has block `k`; in it the records at `p` and `t` are the ones in question. */
  ghost predicate SiteIn(s: State, d: nat, name: Name, j: nat, k: nat, p: nat, t: nat)
    requires d < |s.inodes|
  {
    && j < NumDirect(s.inodes[d].ptr) && s.inodes[d].ptr[j] == k < |s.blocks| && BlockOk(s.blocks[k])
    && Chain(s.blocks[k], 0, p) && RecOk(s.blocks[k], p) && t == p + RecLen(s.blocks[k], p)
    && RecOk(s.blocks[k], t) && Chain(s.blocks[k], t + RecLen(s.blocks[k], t), BLOCK_SIZE)
    && BlocksOk(s.blocks, s.inodes[d].ptr[..j]) && FindIno(LiveOf(s.blocks, s.inodes[d].ptr[..j]), name) == None
  }

  /** Where the removal takes place, head of the block or not. */
  lemma EditSite(s: State, d: nat, name: Name) returns (j: nat, k: nat, p: nat, t: nat)
    requires Shaped(s) && Removable(s, d, name) && FindRemoval(s, d, name).Some?
    ensures FindRemoval(s, d, name) == Some(Removal(k, p, t)) && SiteIn(s, d, name, j, k, p, t)
    ensures FirstInBlock(s, d, name) ==> p == 0 && NameOf(s.blocks[k], 0) == name
    ensures !FirstInBlock(s, d, name) ==> NameOf(s.blocks[k], t) == name != NameOf(s.blocks[k], p)
    ensures !FirstInBlock(s, d, name) ==> FindIno(Entries(s.blocks[k], 0, p), name) == None
  {
    if FirstInBlock(s, d, name) {
      j, k, t := EditAtHead(s, d, name);
      p := 0;
    } else {
      j, k, p, t := EditBehind(s, d, name);
    }
  }

  lemma EditAtHead(s: State, d: nat, name: Name) returns (j: nat, k: nat, t: nat)
    requires Shaped(s) && Removable(s, d, name) && FindRemoval(s, d, name).Some? && FirstInBlock(s, d, name)
    ensures FindRemoval(s, d, name) == Some(Removal(k, 0, t)) && SiteIn(s, d, name, j, k, 0, t)
    ensures NameOf(s.blocks[k], 0) == name
  {
    j, k, t := HeadRemoval(s, d, name);
    HeadSite(s.blocks[k], name, t);
  }

  lemma EditBehind(s: State, d: nat, name: Name) returns (j: nat, k: nat, p: nat, t: nat)
    requires Shaped(s) && Removable(s, d, name) && FindRemoval(s, d, name).Some? && !FirstInBlock(s, d, name)
    ensures FindRemoval(s, d, name) == Some(Removal(k, p, t)) && SiteIn(s, d, name, j, k, p, t)
    ensures NameOf(s.blocks[k], t) == name != NameOf(s.blocks[k], p)
    ensures FindIno(Entries(s.blocks[k], 0, p), name) == None
  {
    j, k, p, t := RemovalSite(s, d, name);
    BeforeIs(s.blocks[k], t, name);
  }

  lemma HeadSite(b: Block, name: Name, t: nat)
    requires BlockOk(b) && FindName(b, 0, name) == Some(0) && t == RecLen(b, 0) && t + HEADER <= BLOCK_SIZE
    ensures RecOk(b, 0) && RecOk(b, t) && Chain(b, t + RecLen(b, t), BLOCK_SIZE) && NameOf(b, 0) == name
  {
    FindNameSome(b, 0, name);
    assert Chain(b, t, BLOCK_SIZE);
  }

  /**
   * The records of the directory: `y`, behind `x`, goes, or loses its inode number.  It has the name, or,
   * where that heads a block, `x` has.
   */
  ghost predicate Edits(es: seq<Entry>, es': seq<Entry>, a: seq<Entry>, x: Entry, y: Entry, b: seq<Entry>) {
    && es == a + [x, y] + b
    && es' == a + (if x.name == y.name then [x, y.(ino := 0)] else [x.(len := x.len + y.len)]) + b
  }

  ghost predicate EditsName(a: seq<Entry>, x: Entry, y: Entry, name: Name, first: bool) {
    FindIno(a, name) == None && if first then x.name == name else x.name != name && y.name == name
  }

  lemma EditBlank(s: State, d: nat, j: nat, k: nat, p: nat, t: nat) returns (a: seq<Entry>, b: seq<Entry>)
    requires DirOk(s, d) && PointersOk(s.inodes[d].ptr, |s.blocks|) && j < NumDirect(s.inodes[d].ptr)
    requires s.inodes[d].ptr[j] == k < |s.blocks| && BlockOk(s.blocks[k])
    requires Chain(s.blocks[k], 0, p) && RecOk(s.blocks[k], p) && t == p + RecLen(s.blocks[k], p)
    requires RecOk(s.blocks[k], t) && Chain(s.blocks[k], t + RecLen(s.blocks[k], t), BLOCK_SIZE)
    requires NameOf(s.blocks[k], t) == NameOf(s.blocks[k], p)
    ensures var u := SetBlock(s, k, Put32(s.blocks[k], t, 0));
            && DirOk(u, d) && Edits(DirEntries(s, d), DirEntries(u, d), a, At(s.blocks[k], p), At(s.blocks[k], t), b)
            && BlocksOk(s.blocks, s.inodes[d].ptr[..j])
            && a == LiveOf(s.blocks, s.inodes[d].ptr[..j]) + Entries(s.blocks[k], 0, p)
  {
    var blk := s.blocks[k];
    var x := At(blk, p);
    EntriesBefore(blk, p, t);
    var c, e := BlankedLive(blk, t);
    var u := SetBlock(s, k, Put32(blk, t, 0));
    c, e := BlankedDir(s, u, d, j, c, At(blk, t), e);
    a, b := LiveOf(s.blocks, s.inodes[d].ptr[..j]) + Entries(blk, 0, p), e;
    ConcatAssoc(LiveOf(s.blocks, s.inodes[d].ptr[..j]), Entries(blk, 0, p), [x]);
    assert c == a + [x];
    PairBehind(a, x, At(blk, t), b);
    PairBehind(a, x, At(blk, t).(ino := 0), b);
  }

  lemma EntriesBefore(b: Block, p: nat, t: nat)
    requires Chain(b, 0, p) && RecOk(b, p) && t == p + RecLen(b, p)
    ensures Chain(b, 0, t) && Entries(b, 0, t) == Entries(b, 0, p) + [At(b, p)]
  {
    ChainCons(b, p, At(b, p), t);
    ChainAppend(b, 0, p, t);
  }

  lemma PairBehind(a: seq<Entry>, x: Entry, y: Entry, b: seq<Entry>)
    ensures a + [x] + [y] + b == a + [x, y] + b
  {
  }

  lemma EditMerge(s: State, d: nat, j: nat, k: nat, p: nat, t: nat) returns (a: seq<Entry>, b: seq<Entry>)
    requires DirOk(s, d) && PointersOk(s.inodes[d].ptr, |s.blocks|) && j < NumDirect(s.inodes[d].ptr)
    requires s.inodes[d].ptr[j] == k < |s.blocks| && BlockOk(s.blocks[k])
    requires Chain(s.blocks[k], 0, p) && RecOk(s.blocks[k], p) && t == p + RecLen(s.blocks[k], p)
    requires RecOk(s.blocks[k], t) && Chain(s.blocks[k], t + RecLen(s.blocks[k], t), BLOCK_SIZE)
    requires NameOf(s.blocks[k], t) != NameOf(s.blocks[k], p)
    ensures var u := SetBlock(s, k, Unlink(s.blocks[k], p));
            && DirOk(u, d) && Edits(DirEntries(s, d), DirEntries(u, d), a, At(s.blocks[k], p), At(s.blocks[k], t), b)
            && BlocksOk(s.blocks, s.inodes[d].ptr[..j])
            && a == LiveOf(s.blocks, s.inodes[d].ptr[..j]) + Entries(s.blocks[k], 0, p)
  {
    var blk := s.blocks[k];
    UnlinkLive(blk, p, t);
    a, b := DirMerge(s, SetBlock(s, k, Unlink(blk, p)), d, j, Entries(blk, 0, p), At(blk, p), At(blk, t),
                     Entries(blk, t + RecLen(blk, t), BLOCK_SIZE));
  }

  lemma EditShape(s: State, d: nat, name: Name) returns (a: seq<Entry>, x: Entry, y: Entry, b: seq<Entry>)
    requires Shaped(s) && Removable(s, d, name) && FindRemoval(s, d, name).Some?
    requires PointersOk(s.inodes[d].ptr, |s.blocks|)
    ensures DirOk(Edited(s, d, name), d) && Edits(DirEntries(s, d), DirEntries(Edited(s, d, name), d), a, x, y, b)
    ensures EditsName(a, x, y, name, FirstInBlock(s, d, name)) && y.ino == RmInode(s, d, name) + 1
    ensures y.name == RmName(s, d, name)
  {
    var j, k, p, t := EditSite(s, d, name);
    var blk := s.blocks[k];
    x, y := At(blk, p), At(blk, t);
    if NameOf(blk, t) == NameOf(blk, p) {
      a, b := EditBlank(s, d, j, k, p, t);
    } else {
      a, b := EditMerge(s, d, j, k, p, t);
    }
    FindConcat(LiveOf(s.blocks, s.inodes[d].ptr[..j]), Entries(blk, 0, p), name);
  }

  lemma EditsCount(es: seq<Entry>, es': seq<Entry>, a: seq<Entry>, x: Entry, y: Entry, b: seq<Entry>)
    requires Edits(es, es', a, x, y, b) && y.ino > 0
    ensures y in es && CountsMove(es, es', y.ino, -1)
  {
    assert es[|a| + 1] == y;
    if x.name == y.name {
      PairBehind(a, x, y, b);
      PairBehind(a, x, y.(ino := 0), b);
      BlankedCounts(es, es', a + [x], y, b);
    } else {
      MergeCounts(a, x, y, b);
    }
  }

  /** The directory has one record less that names an inode: that of the inode that loses a link. */
  lemma EditCounts(s: State, d: nat, name: Name) returns (y: Entry)
    requires Shaped(s) && Removable(s, d, name) && FindRemoval(s, d, name).Some?
    requires PointersOk(s.inodes[d].ptr, |s.blocks|)
    ensures y in DirEntries(s, d) && y.ino == RmInode(s, d, name) + 1
    ensures var u := Edited(s, d, name);
            DirOk(u, d) && CountsMove(DirEntries(s, d), DirEntries(u, d), y.ino, -1)
  {
    var a, x, b;
    a, x, y, b := EditShape(s, d, name);
    EditsCount(DirEntries(s, d), DirEntries(Edited(s, d, name), d), a, x, y, b);
  }

  // ---------- what look-ups answer ----------

  /** The records behind the first one of that name. */
  ghost function Behind(es: seq<Entry>, name: Name): seq<Entry> {
    if es == [] then [] else if es[0].name == name then es[1..] else Behind(es[1..], name)
  }

  lemma {:induction false} BehindFirst(a: seq<Entry>, y: Entry, b: seq<Entry>)
    requires FindIno(a, y.name) == None
    ensures Behind(a + [y] + b, y.name) == b
  {
    if a == [] {
      assert [] + [y] + b == [y] + b && ([y] + b)[1..] == b;
    } else {
      assert (a + [y] + b)[1..] == a[1..] + [y] + b;
      BehindFirst(a[1..], y, b);
    }
  }

  /** The name of the record that goes: the given one, unless that heads a block. */
  ghost function RmName(s: State, d: nat, name: Name): Name
    requires Removable(s, d, name) && FindRemoval(s, d, name).Some?
  {
    var r := FindRemoval(s, d, name).value;
    NameOf(s.blocks[r.block], r.target)
  }

  lemma EditsFind(es: seq<Entry>, es': seq<Entry>, a: seq<Entry>, x: Entry, y: Entry, b: seq<Entry>, m: Name)
    requires Edits(es, es', a, x, y, b)
    ensures FindIno(es', m) == if m == y.name && FindIno(a + [x], m) == None then FindIno(b, m) else FindIno(es, m)
  {
    var mid := if x.name == y.name then [x, y.(ino := 0)] else [x.(len := x.len + y.len)];
    EditsPair(x, y, mid, m);
    FindThree(a, [x, y], b, m);
    FindThree(a, mid, b, m);
    FindConcat(a, [x], m);
  }

  lemma EditsPair(x: Entry, y: Entry, mid: seq<Entry>, m: Name)
    requires mid == if x.name == y.name then [x, y.(ino := 0)] else [x.(len := x.len + y.len)]
    ensures FindIno(mid, m) == FindIno([x], m) == if x.name == m then Some(x.ino) else None
    ensures FindIno([x, y], m) == if x.name == m then Some(x.ino) else if y.name == m then Some(y.ino) else None
  {
    FindPair(x, y, m);
    FindPair(x, y.(ino := 0), m);
  }

  /**
   * After a removal the name is answered with the next record of that name, or as before where its
   * record heads a block; then it is the name of the record behind that may be answered differently.
   */
  lemma EditLooks(s: State, d: nat, name: Name)
    requires Shaped(s) && Removable(s, d, name) && FindRemoval(s, d, name).Some?
    requires PointersOk(s.inodes[d].ptr, |s.blocks|)
    ensures var u := Edited(s, d, name);
            && DirOk(u, d)
            && (forall m :: m != RmName(s, d, name) ==> FindIno(DirEntries(u, d), m) == FindIno(DirEntries(s, d), m))
            && (!FirstInBlock(s, d, name) ==> RmName(s, d, name) == name)
            && FindIno(DirEntries(u, d), name)
               == (if FirstInBlock(s, d, name) then FindIno(DirEntries(s, d), name)
                   else FindIno(Behind(DirEntries(s, d), name), name))
  {
    var a, x, y, b := EditShape(s, d, name);
    var es, es' := DirEntries(s, d), DirEntries(Edited(s, d, name), d);
    forall m ensures FindIno(es', m) == if m == y.name && FindIno(a + [x], m) == None then FindIno(b, m)
                                        else FindIno(es, m)
    {
      EditsFind(es, es', a, x, y, b, m);
    }
    FindConcat(a, [x], name);
    if !FirstInBlock(s, d, name) {
      PairBehind(a, x, y, b);
      BehindFirst(a + [x], y, b);
    }
  }

  // ---------- the invariant ----------

  lemma EditOthers(s: State, s': State, d: nat, name: Name)
    requires AllocOk(s) && Used(s, d) && Removable(s, d, name) && FindRemoval(s, d, name).Some?
    requires |s'.inodes| == |s.inodes| && s'.blocks == Edited(s, d, name).blocks
    requires forall m :: 0 <= m < |s.inodes| ==>
               s'.inodes[m].ptr == s.inodes[m].ptr && s'.inodes[m].sectors == s.inodes[m].sectors
    ensures forall f :: UsedDir(s, f) && f != d ==> SameDir(s, s', f)
  {
    var j := SlotIndex(s.blocks, Direct(s.inodes[d].ptr), name);
    assert FindRemoval(s, d, name).value.block in Owned(s, d);
    forall f | UsedDir(s, f) && f != d ensures Owned(s, f) !! Owned(s, d) {}
  }

  /** One link fewer, in a tree where that is the number of records naming the inode. */
  lemma UnlinkTree(s: State, d: nat, name: Name, exact: bool := true)
    requires Inv(s, exact) && UsedDir(s, d) && Removable(s, d, name) && FindRemoval(s, d, name).Some?
    ensures var n := RmInode(s, d, name); var s1 := AddLinks(Edited(s, d, name), n, -1);
            && Used(s, n) && (Reserved(n) ==> IsDir(s.inodes[n].mode)) && AllocOk(s1) && TreeOk(s1, exact)
            && s1.inodes[n].links == s.inodes[n].links - 1 && s1.inodes[n].mode == s.inodes[n].mode
            && s1.inodeBits == s.inodeBits
  {
    var n := RmInode(s, d, name);
    assert DirSound(s, d);
    var y := EditCounts(s, d, name);
    LinksPositive(s, d, y, exact);
    assert InodeSound(s, n, exact);
    var u := Edited(s, d, name);
    var s1 := AddLinks(u, n, -1);
    DropLinksMove(s, u, n);
    AllocFrame(s, s1);
    SameEntries(u, s1, d);
    EditOthers(s, s1, d, name);
    TreeMove(s, s1, d, n, -1, exact);
  }

  /** A directory that is not in use any more but still is one. */
  lemma FreedDirBad(s: State, n: nat, exact: bool := true)
    requires Shaped(s) && n < |s.inodes| && IsDir(s.inodes[n].mode)
    ensures !TreeOk(Freed(s, n), exact)
  {
    assert !InodeSound(Freed(s, n), n, exact);
  }

  /**
   * rm_dir_entry keeps the invariant, freeing an inode and its blocks exactly when no record is left,
   * if and only if the inode that loses a link is no directory or keeps one.
   */
  lemma RmInv(s: State, d: nat, name: Name, exact: bool := true)
    requires Inv(s, exact) && UsedDir(s, d) && Removable(s, d, name) && FindRemoval(s, d, name).Some?
    ensures Inv(RmDirEntry(s, d, name).0, exact) <==> SparesDirs(s, d, name)
  {
    var n := RmInode(s, d, name);
    RmIsEdit(s, d, name);
    UnlinkTree(s, d, name, exact);
    var s1 := AddLinks(Edited(s, d, name), n, -1);
    if s1.inodes[n].links == 0 {
      if IsDir(s.inodes[n].mode) {
        FreedDirBad(s1, n, exact);
      } else {
        FreedAlloc(s1, n);
        FreedTree(s1, n, exact);
      }
    }
  }
}

/** Facts about single steps that the routines of the disk image are proved with. */
module DiskFacts {
  import opened Options
  import opened Bytes
  import opened Records
  import opened DirBlocks
  import opened DiskState
  import opened Directory
  import opened Restoration
  import opened Writing
  import opened CheckerProofs
  import opened Insertion
  import opened Paths
  import opened Commands
  import opened RestoreWalk
  import opened Checker
  import opened CheckerWalk

  // ---------- bits, one block after the other ----------

  lemma WrapUp(x: int, n: nat)
    ensures U16(U16(x + n) + 1) == U16(x + (n + 1)) && U32(U32(x + n) + 1) == U32(x + (n + 1))
  {
    Up16(x + n);
    Up32(x + n);
  }

  lemma Up16(x: int)
    ensures U16(U16(x) + 1) == U16(x + 1)
  {
    var q, r := x / 0x1_0000, U16(x);
    assert x + 1 == if r < 0xFFFF then 0x1_0000 * q + (r + 1) else 0x1_0000 * (q + 1);
  }

  lemma Up32(x: int)
    ensures U32(U32(x) + 1) == U32(x + 1)
  {
    var q, r := x / 0x1_0000_0000, U32(x);
    assert x + 1 == if r < 0xFFFF_FFFF then 0x1_0000_0000 * q + (r + 1) else 0x1_0000_0000 * (q + 1);
  }

  lemma DropAllMore(s: State, ps: seq<nat>, p: nat)
    requires 0 < p <= |s.blockBits|
    ensures DropAll(s, ps + [p]) == DropBlock(DropAll(s, ps), p - 1)
  {
    var t, u := DropAll(s, ps + [p]), DropBlock(DropAll(s, ps), p - 1);
    WrapUp(s.sbFreeBlocks, |ps|);
    WrapUp(s.gdFreeBlocks, |ps|);
    assert t.blockBits == u.blockBits;
  }

  lemma DropNothing(s: State)
    requires s.sbFreeBlocks < 0x1_0000_0000 && s.gdFreeBlocks < 0x1_0000
    ensures DropAll(s, []) == s
  {
    assert DropAll(s, []).blockBits == s.blockBits;
  }

  /** The blocks of inode `n` lie inside the bitmap. */
  ghost predicate PointersInside(s: State, n: nat)
    requires n < |s.inodes|
  { forall i :: 0 <= i < NumDirect(s.inodes[n].ptr) ==> s.inodes[n].ptr[i] < |s.blocks| }

  lemma NumMore(ptr: Pointers, i: nat)
    requires i <= NumDirect(ptr)
    ensures i < NumDirect(ptr) <==> i < DIRECT && ptr[i] != 0
  {
  }

  lemma DirectMore(ptr: Pointers, i: nat)
    requires i <= NumDirect(ptr)
    ensures Direct(ptr)[..i] == ptr[..i]
    ensures i < NumDirect(ptr) <==> i < DIRECT && ptr[i] != 0
    ensures i < NumDirect(ptr) ==> ptr[..i + 1] == ptr[..i] + [ptr[i]] && Direct(ptr)[i..][0] == ptr[i]
                                   && Direct(ptr)[i..][1..] == Direct(ptr)[i + 1..]
  {
  }

  lemma NewBlockFits(s: State)
    requires Shaped(s)
    ensures var r := NewBlock(s);
            && (r.1 == None <==> FreeBlocks(s) == {})
            && (r.1.Some? ==> r.1.value == Least(FreeBlocks(s)) && r.1.value + 1 < |s.blocks| < 0x1_0000
                              && r.0 == TakeBlock(s, r.1.value))
  {
  }

  /** The two ways in which a record goes into a directory. */
  lemma InsertsInRoom(s: State, d: nat, child: nat, name: Name, ft: Byte)
    requires Shaped(s) && Insertable(s, d) && child < |s.inodes| && |name| < 0x100 && HasRoom(s, d, |name|)
    ensures var k := TailBlock(s, d);
            && k < |s.blocks| && RoomAt(s.blocks[k], TailRecord(s, d), |name|)
            && NewDirEntry(s, d, child, name, ft)
            == (AddLinks(SetBlock(s, k, InsertAt(s.blocks[k], TailRecord(s, d), child + 1, name, ft)), child, 1), true)
  {
  }

  /** The directory with the new record in a new block. */
  ghost function GrownWith(s: State, d: nat, child: nat, name: Name, ft: Byte): State
    requires Shaped(s) && d < |s.inodes| && s.inodes[d].sectors / 2 <= DIRECT && child < |s.inodes| && |name| < 0x100
    requires NewBlock(s).1.Some?
  {
    NewBlockFits(s);
    var a, n := NewBlock(s).1.value, s.inodes[d].sectors / 2;
    var t := GrowDir(NewBlock(s).0, d, if n > 0 then n - 1 else 0, a);
    AddLinks(SetBlock(t, a + 1, WriteRecord(t.blocks[a + 1], 0, child + 1, BLOCK_SIZE, name, ft)), child, 1)
  }

  lemma InsertsInNew(s: State, d: nat, child: nat, name: Name, ft: Byte)
    requires Shaped(s) && Insertable(s, d) && child < |s.inodes| && |name| < 0x100 && !HasRoom(s, d, |name|)
    ensures NewDirEntry(s, d, child, name, ft)
         == if NewBlock(s).1 == None then (s, false) else (GrownWith(s, d, child, name, ft), true)
  {
  }

  lemma DirectStepIs(s: State, t: State, n: nat, src: seq<Byte>, i: nat, a: nat, x: Inode)
    requires Shaped(s) && n < |s.inodes| && i < DIRECT && 1024 * i < |src| && NewBlock(s) == (t, Some(a))
    requires n < |t.inodes| && x == t.inodes[n].(ptr := t.inodes[n].ptr[i := a + 1])
    ensures FreeBlocks(s) != {} && a + 1 < |t.blocks|
    ensures DirectStep(s, n, src, i) == StoreBlock(t, n, a, x, Chunk(src, i))
  {
    NewBlockFits(s);
  }

  // ---------- restore ----------

  ghost predicate AllInside(s: State) { forall n :: 0 <= n < |s.inodes| ==> PointersInside(s, n) }

  /** The bits of the first `i` blocks are clear. */
  ghost predicate AllClear(bits: seq<bool>, ptr: Pointers, i: nat)
    requires i <= NumDirect(ptr)
  {
    forall j :: 0 <= j < i ==> ptr[j] <= |bits| ==> !bits[ptr[j] - 1]
  }

  lemma AllClearMore(bits: seq<bool>, ptr: Pointers, i: nat)
    requires i < NumDirect(ptr) && ptr[i] <= |bits|
    ensures AllClear(bits, ptr, i + 1) <==> AllClear(bits, ptr, i) && !bits[ptr[i] - 1]
  {
  }

  lemma FreeByIndex(s: State, n: nat)
    requires Shaped(s) && n < |s.inodes| && PointersInside(s, n)
    ensures BlocksFree(s, n) <==> AllClear(s.blockBits, s.inodes[n].ptr, NumDirect(s.inodes[n].ptr))
  {
    var ptr := s.inodes[n].ptr;
    assert forall j :: 0 <= j < NumDirect(ptr) ==> Direct(ptr)[j] == ptr[j] && ptr[j] in Direct(ptr);
  }

  lemma WrapDown(x: int, n: nat)
    ensures U16(U16(x - n) - 1) == U16(x - (n + 1)) && U32(U32(x - n) - 1) == U32(x - (n + 1))
  {
    Wrap16(x - n);
    Wrap32(x - n);
  }

  lemma TakeAllMore(s: State, ps: seq<nat>, p: nat)
    requires 0 < p <= |s.blockBits|
    ensures TakeAll(s, ps + [p]) == TakeBlock(TakeAll(s, ps), p - 1)
  {
    var t, u := TakeAll(s, ps + [p]), TakeBlock(TakeAll(s, ps), p - 1);
    WrapDown(s.sbFreeBlocks, |ps|);
    WrapDown(s.gdFreeBlocks, |ps|);
    assert t.blockBits == u.blockBits;
  }

  lemma TakeNothing(s: State)
    requires s.sbFreeBlocks < 0x1_0000_0000 && s.gdFreeBlocks < 0x1_0000
    ensures TakeAll(s, []) == s
  {
    assert TakeAll(s, []).blockBits == s.blockBits;
  }

  lemma InsideKept(s: State, s': State, k: nat)
    requires AllInside(s) && WalksAlike(s, s', k)
    ensures AllInside(s')
  {
    forall n | 0 <= n < |s'.inodes| ensures PointersInside(s', n) { assert PointersInside(s, n); }
  }

  // ---------- the checker ----------

  /** Of the bits of the blocks `ps`, those from `i` on are left to check. */
  ghost predicate BitsLeft(s: State, t: State, ps: seq<nat>, i: nat, f: nat) {
    && i <= |ps| && (forall j :: 0 <= j < |ps| ==> ps[j] > 0)
    && Left(s, BlockBits(ps), t, f, BlockBits(ps[i..]))
  }

  lemma BitsStart(s: State, ps: seq<nat>)
    requires (forall j :: 0 <= j < |ps| ==> ps[j] > 0) && AllFit(s, BlockBits(ps))
    ensures BitsLeft(s, s, ps, 0, 0)
  {
    assert ps[0..] == ps;
  }

  lemma BitsStep(s: State, t: State, t': State, ps: seq<nat>, i: nat, f: nat, g: nat)
    requires BitsLeft(s, t, ps, i, f) && i < |ps| && Fits(t, BlockBit(ps[i] - 1))
    requires t' == Do(t, BlockBit(ps[i] - 1)).0 && g == Do(t, BlockBit(ps[i] - 1)).1
    ensures BitsLeft(s, t', ps, i + 1, f + g)
  {
    assert ps[i..][0] == ps[i] && ps[i..][1..] == ps[i + 1..];
    DoOne(t, BlockBit(ps[i] - 1));
    LeftStep(s, BlockBits(ps), t, f, [BlockBit(ps[i] - 1)], BlockBits(ps[i + 1..]), t', g);
  }

  lemma BitsHere(s: State, t: State, ps: seq<nat>, i: nat, f: nat)
    requires BitsLeft(s, t, ps, i, f) && i < |ps|
    ensures Fits(t, BlockBit(ps[i] - 1))
  {
    assert ps[i..][0] == ps[i];
    assert BlockBits(ps[i..])[0] in BlockBits(ps[i..]);
  }

  lemma BitsEnd(s: State, t: State, ps: seq<nat>, f: nat)
    requires BitsLeft(s, t, ps, |ps|, f)
    ensures Done(s, BlockBits(ps), t, f)
  {
    LeftEnd(s, BlockBits(ps), t, f);
  }

  lemma FewFree(s: State)
    requires Shaped(s)
    ensures |FreeInodes(s)| < 0x1_0000 && |FreeBlocks(s)| < 0x1_0000
  {
    SubsetCard(FreeInodes(s), |s.inodeBits|);
    SubsetCard(FreeBlocks(s), |s.blockBits|);
  }

  // ---------- the commands ----------

  lemma NewInodeFits(s: State, mode: nat, now: nat)
    requires Shaped(s)
    ensures NewInodeOf(s, mode, now).1 == None <==> FreeInodes(s) == {}
    ensures NewInodeOf(s, mode, now).1 == None ==> NewInodeOf(s, mode, now).0 == s
    ensures FreeInodes(s) != {} ==>
              var n := Least(FreeInodes(s)); var s1 := NewInodeOf(s, mode, now).0;
              && NewInodeOf(s, mode, now).1 == Some(n) && n < |s.inodes| && !s.inodeBits[n]
              && Shaped(s1) && s1.blocks == s.blocks && |s1.inodes| == |s.inodes|
              && forall m :: 0 <= m < |s.inodes| && m != n ==> s1.inodes[m] == s.inodes[m]
  {
  }

  lemma DotsFit(s: State, n: nat)
    requires Shaped(s) && n < |s.inodes| && s.inodes[n].sectors == 0
    ensures Insertable(s, n) && (NewDirEntry(s, n, n, DOT_NAME, FT_DIR).1 <==> FreeBlocks(s) != {})
    ensures FreeBlocks(s) == {} ==> NewDirEntry(s, n, n, DOT_NAME, FT_DIR).0 == s
    ensures FreeBlocks(s) != {} ==> Insertable(NewDirEntry(s, n, n, DOT_NAME, FT_DIR).0, n)
  {
    if FreeBlocks(s) != {} { DotLeavesRoom(s, n); }
  }

  lemma PartsOfText(p: Path)
    requires 0 !in p
    ensures 0 !in FilePath(p) && 0 !in FileName(p) && 0 !in Trim(p)
  {
    assert forall j :: 0 <= j < |Trim(p)| ==> Trim(p)[j] == p[j];
  }

  lemma TrimmedParts(p: Path)
    requires 0 !in p
    ensures 0 !in Trim(p) && 0 !in FilePath(Trim(p)) && 0 !in FileName(Trim(p))
    ensures 0 !in Join(FilePath(Trim(p)), FileName(Trim(p)))
  {
    PartsOfText(p);
    PartsOfText(Trim(p));
  }
}

/** Which block bits a run of ext2_checker sets: those of the inodes one index beyond the named ones. */
module CheckerBlocks {
  import opened Bytes
  import opened Records
  import opened DirBlocks
  import opened DiskState
  import opened Directory
  import opened Invariant
  import opened Insertion
  import opened Checker
  import opened CheckerRuns
  import opened Counterexamples

  /** A block bit is set afterwards if it was before or is among the checks. */
  lemma {:induction false} BitsAfter(s: State, cs: seq<Check>, k: nat)
    requires AllFit(s, cs) && k < |s.blockBits|
    ensures DoAll(s, cs).0.blockBits[k] <==> s.blockBits[k] || BlockBit(k) in cs
    decreases |cs|
  {
    if cs != [] {
      var s1 := Do(s, cs[0]).0;
      assert s1.blockBits[k] <==> s.blockBits[k] || cs[0] == BlockBit(k);
      assert forall c :: c in cs[1..] ==> c in cs && Fits(s, c);
      BitsAfter(s1, cs[1..], k);
      assert cs == [cs[0]] + cs[1..];
    }
  }

  lemma {:induction false} OnlyBlockBits(ps: seq<nat>, k: nat)
    requires forall i :: 0 <= i < |ps| ==> ps[i] > 0
    ensures BlockBit(k) in BlockBits(ps) <==> k + 1 in ps
  {
    if ps != [] {
      OnlyBlockBits(ps[1..], k);
      assert ps == [ps[0]] + ps[1..];
    }
  }

  lemma {:induction false} NoBlockBits(s: State, ps: seq<nat>, k: nat)
    requires BlocksOk(s.blocks, ps) && Named(s, LiveOf(s.blocks, ps))
    ensures BlockBit(k) !in TypesOf(s, ps)
  {
    if ps != [] {
      NoBlockBitsIn(ps[0], Live(s.blocks[ps[0]]), k);
      NoBlockBits(s, ps[1..], k);
    }
  }

  lemma {:induction false} NoBlockBitsIn(p: nat, es: seq<Entry>, k: nat)
    requires forall e :: e in es ==> e.ino > 0
    ensures BlockBit(k) !in TypesIn(p, es)
  {
    if es != [] { NoBlockBitsIn(p, es[1..], k); }
  }

  lemma BlockBitOf(s: State, p: nat, e: Entry, k: nat)
    requires EntryChecked(s, e)
    ensures BlockBit(k) in EntryChecks(s, p, e) <==> k + 1 in Direct(s.inodes[e.ino].ptr)
  {
    OnlyBlockBits(Direct(s.inodes[e.ino].ptr), k);
    if LooksInto(s, e) { NoBlockBits(s, Direct(s.inodes[e.ino - 1].ptr), k); }
    assert BlockBit(k) !in OuterChecks(p, e);
  }

  /** Block k + 1 belongs to the inode whose index is the inode number of some record of `es`. */
  ghost predicate NextOwns(s: State, es: seq<Entry>, k: nat) {
    exists e :: e in es && e.ino < |s.inodes| && k + 1 in Direct(s.inodes[e.ino].ptr)
  }

  lemma {:induction false} BlockBitIn(s: State, p: nat, es: seq<Entry>, k: nat)
    requires forall e :: e in es ==> EntryChecked(s, e)
    ensures BlockBit(k) in ChecksIn(s, p, es) <==> NextOwns(s, es, k)
  {
    if es != [] {
      BlockBitOf(s, p, es[0], k);
      BlockBitIn(s, p, es[1..], k);
      assert es == [es[0]] + es[1..];
    }
  }

  lemma {:induction false} BlockBitOfAll(s: State, ps: seq<nat>, k: nat)
    requires BlocksOk(s.blocks, ps) && forall e :: e in LiveOf(s.blocks, ps) ==> EntryChecked(s, e)
    ensures BlockBit(k) in ChecksOf(s, ps) <==> NextOwns(s, LiveOf(s.blocks, ps), k)
  {
    if ps != [] {
      BlockBitIn(s, ps[0], Live(s.blocks[ps[0]]), k);
      BlockBitOfAll(s, ps[1..], k);
    }
  }

  /**
   * After a run a block is marked if and only if it was before, or belongs to the inode whose index is
   * the inode number of some root record.
   */
  lemma BlockMarkedIff(s: State, k: nat)
    requires Checkable(s) && IsDir(s.inodes[ROOT].mode) && k < |s.blockBits|
    ensures RunChecker(s).0.blockBits[k] <==> s.blockBits[k] || NextOwns(s, DirEntries(s, ROOT), k)
  {
    RecountSited(s);
    BitsAfter(Recount(s), Checks(s), k);
    BlockBitOfAll(s, Direct(s.inodes[ROOT].ptr), k);
  }

  /** All the blocks of inode `n` are marked. */
  ghost predicate BlocksMarked(s: State, n: nat)
    requires n < |s.inodes|
  { forall p :: p in Direct(s.inodes[n].ptr) && 0 < p <= |s.blockBits| ==> s.blockBits[p - 1] }

  /** They are, or belong to such inodes as well. */
  ghost predicate BlocksReached(s: State, es: seq<Entry>, n: nat)
    requires n < |s.inodes|
  { forall p :: p in Direct(s.inodes[n].ptr) && 0 < p <= |s.blockBits| ==>
      s.blockBits[p - 1] || NextOwns(s, es, p - 1) }

  /**
   * The blocks of an inode that a root record may name are all marked after a run if and only if each
   * one was before, or belongs to an inode one index beyond one that a root record names.
   */
  lemma OwnBlocksMarkedIff(s: State, n: nat)
    requires Checkable(s) && IsDir(s.inodes[ROOT].mode) && n < |s.inodes|
    ensures |RunChecker(s).0.inodes| == |s.inodes|
    ensures BlocksMarked(RunChecker(s).0, n) <==> BlocksReached(s, DirEntries(s, ROOT), n)
  {
    var s1 := RunChecker(s).0;
    var off := RunRepairs(s);
    assert s1.inodes[n].ptr == s.inodes[n].ptr;
    forall p | p in Direct(s.inodes[n].ptr) && 0 < p <= |s.blockBits|
      ensures s1.blockBits[p - 1] <==> s.blockBits[p - 1] || NextOwns(s, DirEntries(s, ROOT), p - 1)
    {
      BlockMarkedIff(s, p - 1);
    }
  }

  /** A root file, inode number 12, whose one block has a clear bit. */
  function UnmarkedDisk(): State {
    var s := RootDisk(WriteRecord(ZeroBlock(), 0, 12, BLOCK_SIZE, A, FT_REG_FILE), 1);
    s.(inodes := s.inodes[11 := s.inodes[11].(ptr := OnePointer(8), sectors := 2, size := BLOCK_SIZE)])
  }

  lemma OneRootRecord(s: State, e: Entry)
    requires Shaped(s) && |s.inodes| == 16 && DirOk(s, ROOT) && DirEntries(s, ROOT) == [e] && e.ino == 12
    requires !IsDir(s.inodes[11].mode) && DirectOnly(s.inodes[12].ptr) && Direct(s.inodes[12].ptr) == []
    requires 8 in Direct(s.inodes[11].ptr) && |s.blockBits| == 16 && !s.blockBits[7] && IsDir(s.inodes[ROOT].mode)
    ensures Checkable(s) && !BlocksMarked(RunChecker(s).0, 11)
  {
    assert EntryChecked(s, e);
    assert !NextOwns(s, [e], 7);
    OwnBlocksMarkedIff(s, 11);
  }

  /** After a run the bit of that block is still clear. */
  lemma OwnBlockLeftClear()
    ensures var s := UnmarkedDisk();
            && Checkable(s) && IsDir(s.inodes[ROOT].mode) && (exists e :: e in DirEntries(s, ROOT) && e.ino == 12)
            && !BlocksMarked(RunChecker(s).0, 11)
  {
    var b := WriteRecord(ZeroBlock(), 0, 12, BLOCK_SIZE, A, FT_REG_FILE);
    var s0, s := RootDisk(b, 1), UnmarkedDisk();
    FreshBlock(ZeroBlock(), 12, A, FT_REG_FILE);
    RootDiskIs(b, 1);
    SameEntries(s0, s, ROOT);
    var e := Entry(0, 12, BLOCK_SIZE, A, FT_REG_FILE);
    assert DirEntries(s, ROOT) == [e] && e in [e];
    NumDirectIs(s.inodes[11].ptr, 0, 1);
    assert Direct(s.inodes[11].ptr)[0] == 8;
    OneRootRecord(s, e);
  }
}

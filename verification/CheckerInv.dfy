/** ext2_checker on a sound disk: it stays sound, when it makes no fix, and what it does to removed files. */
module CheckerInv {
  import opened Options
  import opened Bytes
  import opened Records
  import opened DiskState
  import opened Directory
  import opened Invariant
  import opened Insertion
  import opened RemovalProofs
  import opened RemovalInv
  import opened Restoration
  import opened Checker
  import opened CheckerProofs
  import opened CheckerRuns
  import opened CheckerBlocks

  // ---------- the bits and counters ----------

  /** On a sound disk no inode bit has to be set. */
  ghost predicate BitsHold(s: State, cs: seq<Check>) {
    AllFit(s, cs) && forall c :: c in cs && c.InodeBit? ==> Holds(s, c)
  }

  lemma {:induction false} NoInodeBits(s: State, ps: seq<nat>)
    requires BlocksOk(s.blocks, ps) && Named(s, LiveOf(s.blocks, ps))
    ensures forall c :: c in TypesOf(s, ps) ==> c.TypeAt?
  {
    if ps != [] {
      NoInodeBitsIn(ps[0], Live(s.blocks[ps[0]]));
      NoInodeBits(s, ps[1..]);
    }
  }

  lemma {:induction false} NoInodeBitsIn(k: nat, es: seq<Entry>)
    requires forall e :: e in es ==> e.ino > 0
    ensures forall c :: c in TypesIn(k, es) ==> c.TypeAt?
  {
    if es != [] { NoInodeBitsIn(k, es[1..]); }
  }

  lemma {:induction false} NoInodeBitsOf(ps: seq<nat>)
    requires forall i :: 0 <= i < |ps| ==> ps[i] > 0
    ensures forall c :: c in BlockBits(ps) ==> c.BlockBit?
  {
    if ps != [] { NoInodeBitsOf(ps[1..]); }
  }

  lemma EntryBits(s: State, k: nat, e: Entry)
    requires EntryChecked(s, e) && |s.inodes| == |s.inodeBits| && s.inodeBits[e.ino - 1]
    ensures forall c :: c in EntryChecks(s, k, e) && c.InodeBit? ==> c.n < |s.inodeBits| && s.inodeBits[c.n]
  {
    NoInodeBitsOf(Direct(s.inodes[e.ino].ptr));
    if LooksInto(s, e) { NoInodeBits(s, Direct(s.inodes[e.ino - 1].ptr)); }
    forall c | c in EntryChecks(s, k, e) && c.InodeBit? ensures c.n < |s.inodeBits| && s.inodeBits[c.n] {
      assert c in OuterChecks(k, e);
    }
  }

  lemma {:induction false} InodeBitsIn(s: State, k: nat, es: seq<Entry>)
    requires |s.inodes| == |s.inodeBits|
    requires forall e :: e in es ==> EntryChecked(s, e) && s.inodeBits[e.ino - 1]
    ensures forall c :: c in ChecksIn(s, k, es) && c.InodeBit? ==> c.n < |s.inodeBits| && s.inodeBits[c.n]
  {
    if es != [] {
      EntryBits(s, k, es[0]);
      InodeBitsIn(s, k, es[1..]);
    }
  }

  lemma {:induction false} InodeBitsOf(s: State, ps: seq<nat>)
    requires |s.inodes| == |s.inodeBits| && BlocksOk(s.blocks, ps)
    requires forall e :: e in LiveOf(s.blocks, ps) ==> EntryChecked(s, e) && s.inodeBits[e.ino - 1]
    ensures forall c :: c in ChecksOf(s, ps) && c.InodeBit? ==> c.n < |s.inodeBits| && s.inodeBits[c.n]
  {
    if ps != [] {
      InodeBitsIn(s, ps[0], Live(s.blocks[ps[0]]));
      InodeBitsOf(s, ps[1..]);
    }
  }

  lemma SoundBits(s: State)
    requires Inv(s) && Checkable(s)
    ensures forall c :: c in Checks(s) && c.InodeBit? ==> c.n < |s.inodeBits| && s.inodeBits[c.n]
  {
    assert DirSound(s, ROOT);
    InodeBitsOf(s, Direct(s.inodes[ROOT].ptr));
  }

  /** What repairs leave of a sound disk: bits of inodes, everything of an inode but its deletion time. */
  ghost predicate Patched(s: State, s': State) {
    && s'.inodeBits == s.inodeBits && |s'.inodes| == |s.inodes| && |s'.blocks| == |s.blocks|
    && forall n :: 0 <= n < |s.inodes| ==> s'.inodes[n] == s.inodes[n].(dtime := s'.inodes[n].dtime)
  }

  lemma DoPatched(s: State, c: Check)
    requires AllocOk(s) && Fits(s, c) && (c.InodeBit? ==> Holds(s, c))
    ensures AllocOk(Do(s, c).0) && Patched(s, Do(s, c).0)
  {
    var s' := Do(s, c).0;
    if !Holds(s, c) {
      match c
      case BlockBit(k) => MarkedAlloc(s, s', k);
      case _ => AllocFrame(s, s');
    }
  }

  /** A free block marked that nobody owns. */
  lemma MarkedAlloc(s: State, s': State, k: nat)
    requires AllocOk(s) && k in FreeBlocks(s) && s' == TakeBlock(s, k)
    ensures AllocOk(s')
  {
    TakeBlockCounted(s, k);
    forall n | Used(s', n) ensures Used(s, n) && Owned(s', n) == Owned(s, n) && MarksOwned(s', n) {
      assert MarksOwned(s, n);
    }
  }

  lemma {:induction false} DoAllPatched(s: State, cs: seq<Check>)
    requires AllocOk(s) && BitsHold(s, cs)
    ensures AllocOk(DoAll(s, cs).0) && Patched(s, DoAll(s, cs).0)
    decreases |cs|
  {
    if cs != [] {
      var s1 := Do(s, cs[0]).0;
      assert cs[0] in cs;
      DoPatched(s, cs[0]);
      assert forall c :: c in cs[1..] ==> c in cs && Fits(s, c);
      DoAllPatched(s1, cs[1..]);
    }
  }

  // ---------- the records ----------

  lemma {:induction false} SameCounts(es: seq<Entry>, es': seq<Entry>, ino: nat)
    requires SameRecords(es, es')
    ensures Count(es', ino) == Count(es, ino)
  {
    if es != [] {
      assert Untyped(es'[0]) == Untyped(es[0]) && SameRecords(es[1..], es'[1..]);
      SameCounts(es[1..], es'[1..], ino);
    }
  }

  lemma ShapeDir(s: State, s': State, d: nat)
    requires SameShape(s, s') && Patched(s, s') && UsedDir(s, d) && DirSound(s, d)
    ensures DirSound(s', d) && forall ino: nat :: DirCount(s', d, ino) == DirCount(s, d, ino)
  {
    ShapeLive(s, s', Direct(s.inodes[d].ptr));
    forall ino: nat ensures DirCount(s', d, ino) == DirCount(s, d, ino) {
      SameCounts(DirEntries(s, d), DirEntries(s', d), ino);
    }
    forall e | e in DirEntries(s', d) && e.ino != 0 ensures Used(s', e.ino - 1) {
      CountZero(DirEntries(s', d), e.ino);
      CountZero(DirEntries(s, d), e.ino);
      assert DirCount(s', d, e.ino) == DirCount(s, d, e.ino);
    }
  }

  lemma ShapeTree(s: State, s': State)
    requires TreeOk(s) && Shaped(s') && SameShape(s, s') && Patched(s, s')
    ensures TreeOk(s')
  {
    forall d | UsedDir(s', d) ensures DirSound(s', d) {
      assert UsedDir(s, d) && DirSound(s, d);
      ShapeDir(s, s', d);
    }
    forall d: nat, ino: nat ensures DirCount(s', d, ino) == DirCount(s, d, ino) {
      if UsedDir(s, d) {
        assert DirSound(s, d);
        ShapeDir(s, s', d);
      }
    }
    forall m: nat | m < |s.inodes| ensures InodeSound(s', m) {
      assert InodeSound(s, m);
      TotalShift(s, s', |s.inodes|, m + 1, 0, 0);
    }
  }

  // ---------- whole runs ----------

  lemma SoundCounters(s: State)
    requires Inv(s)
    ensures Recount(s) == s && WrongCounters(s) == 0
  {
  }

  /** The checker keeps the invariant. */
  lemma CheckerKeepsInv(s: State)
    requires Inv(s) && Checkable(s)
    ensures Inv(RunChecker(s).0)
  {
    RecountSited(s);
    SoundCounters(s);
    SoundBits(s);
    DoAllPatched(s, Checks(s));
    AllHold(s, Checks(s));
    ShapeTree(s, RunChecker(s).0);
  }

  lemma {:induction false} NoFixHolds(s: State, cs: seq<Check>)
    requires AllFit(s, cs) && DoAll(s, cs).1 == 0
    ensures forall c :: c in cs ==> Holds(s, c)
    decreases |cs|
  {
    if cs != [] {
      assert forall c :: c in cs[1..] ==> c in cs && Fits(s, c);
      NoFixHolds(Do(s, cs[0]).0, cs[1..]);
      assert cs == [cs[0]] + cs[1..];
    }
  }

  /** On a sound disk it makes no fix if and only if all that it checks is in order, and then changes nothing. */
  lemma NoFixIff(s: State)
    requires Inv(s) && Checkable(s)
    ensures forall c :: c in Checks(s) ==> Fits(s, c)
    ensures RunChecker(s).1 == 0 <==> forall c :: c in Checks(s) ==> Holds(s, c)
    ensures RunChecker(s).1 == 0 ==> RunChecker(s).0 == s
  {
    RecountSited(s);
    SoundCounters(s);
    if RunChecker(s).1 == 0 { NoFixHolds(s, Checks(s)); }
    if forall c :: c in Checks(s) ==> Holds(s, c) { NothingToFix(s, Checks(s)); }
  }

  // ---------- removed files ----------

  /** No block of the inode belongs to an inode one index beyond one that a root record names. */
  ghost predicate OutOfReach(s: State, n: nat)
    requires Checkable(s) && IsDir(s.inodes[ROOT].mode) && n < |s.inodes|
  {
    forall p :: p in Direct(s.inodes[n].ptr) && 0 < p <= |s.blockBits| ==> !NextOwns(s, DirEntries(s, ROOT), p - 1)
  }

  /**
   * After a run of the checker the blocks of a removed file are still free, so that it can be restored, if and
   * only if none was marked before and none belongs to an inode whose index a root record has for its number.
   */
  lemma BlocksStayFreeIff(s: State, n: nat)
    requires Checkable(s) && IsDir(s.inodes[ROOT].mode) && n < |s.inodes|
    ensures n < |RunChecker(s).0.inodes|
    ensures BlocksFree(RunChecker(s).0, n) <==> BlocksFree(s, n) && OutOfReach(s, n)
  {
    var s1 := RunChecker(s).0;
    var off := RunRepairs(s);
    assert s1.inodes[n].ptr == s.inodes[n].ptr;
    forall p | p in Direct(s.inodes[n].ptr) && 0 < p <= |s.blockBits|
      ensures s1.blockBits[p - 1] <==> s.blockBits[p - 1] || NextOwns(s, DirEntries(s, ROOT), p - 1)
    {
      BlockMarkedIff(s, p - 1);
    }
    StayFree(s, s1, n);
  }

  lemma StayFree(s: State, s1: State, n: nat)
    requires Checkable(s) && IsDir(s.inodes[ROOT].mode) && n < |s.inodes|
    requires n < |s1.inodes| && s1.inodes[n].ptr == s.inodes[n].ptr && |s1.blockBits| == |s.blockBits|
    requires forall p :: p in Direct(s.inodes[n].ptr) && 0 < p <= |s.blockBits| ==>
               (s1.blockBits[p - 1] <==> s.blockBits[p - 1] || NextOwns(s, DirEntries(s, ROOT), p - 1))
    ensures BlocksFree(s1, n) <==> BlocksFree(s, n) && OutOfReach(s, n)
  {
  }

  /** So for a file just removed, whose blocks are free. */
  lemma RmThenChecker(s: State, d: nat, name: Name, n: nat)
    requires Inv(s) && UsedDir(s, d) && Removable(s, d, name) && FindRemoval(s, d, name).Some?
    requires n == RmInode(s, d, name) && s.inodes[n].links == 1 && !IsDir(s.inodes[n].mode)
    requires var s1 := RmDirEntry(s, d, name).0; Checkable(s1) && IsDir(s1.inodes[ROOT].mode)
    ensures var s1 := RmDirEntry(s, d, name).0;
            n < |s1.inodes| == |RunChecker(s1).0.inodes| && (BlocksFree(RunChecker(s1).0, n) <==> OutOfReach(s1, n))
  {
    var s1 := RmFrees(s, d, name, n);
    BlocksStayFreeIff(s1, n);
    var off := RunRepairs(s1);
  }

  lemma RmFrees(s: State, d: nat, name: Name, n: nat) returns (s1: State)
    requires Shaped(s) && Removable(s, d, name) && FindRemoval(s, d, name).Some?
    requires n == RmInode(s, d, name) && s.inodes[n].links == 1
    ensures s1 == RmDirEntry(s, d, name).0 && n < |s1.inodes| && BlocksFree(s1, n)
  {
    s1 := RmDirEntry(s, d, name).0;
    RmIsEdit(s, d, name);
    FreedBlocks(AddLinks(Edited(s, d, name), n, -1), n, s1);
  }

  lemma FreedBlocks(s: State, n: nat, s1: State)
    requires Shaped(s) && n < |s.inodes| && s1 == Freed(s, n)
    ensures BlocksFree(s1, n)
  {
  }

  /** Then restore refuses whatever record names it. */
  lemma CheckerHidesFile(s: State, n: nat, k: nat, q: nat, name: Name)
    requires Inv(s) && Checkable(s) && n < |s.inodes| && !OutOfReach(s, n)
    requires k < |RunChecker(s).0.blocks| && q + HEADER <= BLOCK_SIZE && Ino(RunChecker(s).0.blocks[k], q) == n + 1
    ensures !Candidate(RunChecker(s).0, k, q, name)
  {
    BlocksStayFreeIff(s, n);
  }
}

/** Whole runs of ext2_checker. */
module CheckerRuns {
  import opened Options
  import opened Bytes
  import opened Records
  import opened DiskState
  import opened Directory
  import opened Insertion
  import opened Checker
  import opened CheckerProofs

  lemma RecountSited(s: State)
    requires Checkable(s)
    ensures Shaped(Recount(s)) && SameShape(s, Recount(s)) && Checkable(Recount(s)) && Checks(Recount(s)) == Checks(s)
    ensures AllSited(Recount(s), Checks(s)) && AllFit(Recount(s), Checks(s))
    ensures BlocksCounted(Recount(s)) && InodesCounted(Recount(s), 0)
  {
    var s0 := Recount(s);
    ShapeChecks(s, s0);
    ChecksSited(s0);
    assert FreeBlocks(s0) == FreeBlocks(s) && FreeInodes(s0) == FreeInodes(s);
    SubsetCard(FreeInodes(s), |s.inodeBits|);
  }

  /** The disk after a run, and the number of fixes it reports. */
  ghost function RunChecker(s: State): (State, nat)
    requires Checkable(s)
  {
    RecountSited(s);
    var r := DoAll(Recount(s), Checks(s));
    (r.0, WrongCounters(s) + r.1)
  }

  function Off(counter: nat, count: nat): nat { if counter != count then 1 else 0 }

  /** The number reported: the wrong counters, and every bit, deletion time and byte that changed. */
  lemma FixesReported(s: State)
    requires Checkable(s)
    ensures SameSizes(s, RunChecker(s).0)
    ensures RunChecker(s).1 == Off(s.sbFreeInodes, |FreeInodes(s)|) + Off(s.sbFreeBlocks, |FreeBlocks(s)|)
                               + Off(s.gdFreeInodes, |FreeInodes(s)|) + Off(s.gdFreeBlocks, |FreeBlocks(s)|)
                               + Differences(s, RunChecker(s).0)
  {
    RecountSited(s);
    FixesAreDifferences(Recount(s), Checks(s));
  }

  /** A root record names a reserved inode whose bit is clear. */
  ghost predicate NamesReservedFree(s: State)
    requires Checkable(s)
  {
    exists c :: c in Checks(s) && Offends(s, c)
  }

  /** The disk after a run, and what is known of it. */
  ghost predicate Repaired(s: State, s1: State, off: nat)
    requires Checkable(s)
  {
    && Shaped(s1) && SameShape(s, s1) && AllFit(s1, Checks(s)) && (forall c :: c in Checks(s) ==> Holds(s1, c))
    && BlocksCounted(s1) && InodesCounted(s1, off) && off <= 11 && (off == 0 <==> !NamesReservedFree(s))
  }

  lemma RunRepairs(s: State) returns (off: nat)
    requires Checkable(s)
    ensures Repaired(s, RunChecker(s).0, off)
  {
    RecountSited(s);
    var s0, cs := Recount(s), Checks(s);
    var s1 := DoAll(s0, cs).0;
    AllHold(s0, cs);
    ShapeTrans(s, s0, s1);
    DoAllCounters(s0, cs, 0);
    ReservedFixed(s0, cs);
    off := |ReservedClear(s0)| - |ReservedClear(s1)|;
    assert forall c :: Offends(s0, c) <==> Offends(s, c);
  }

  lemma OffCounters(x: nat, off: nat)
    requires x < 0x1_0000 && 0 < off <= 11
    ensures U32(x - off) != x && U16(x - off) != x
  {
  }

  lemma CountersRight(s: State, off: nat)
    requires Shaped(s) && InodesCounted(s, off) && off <= 11
    ensures (s.sbFreeInodes == s.gdFreeInodes == |FreeInodes(s)|) <==> off == 0
  {
    SubsetCard(FreeInodes(s), |s.inodeBits|);
    if off > 0 { OffCounters(|FreeInodes(s)|, off); }
  }

  /**
   * After a run all four counters equal the clear bits if and only if no root record named a
   * reserved inode whose bit was clear; the block counters always do.
   */
  lemma CountersAfterRun(s: State)
    requires Checkable(s)
    ensures var s1 := RunChecker(s).0;
            && s1.sbFreeBlocks == s1.gdFreeBlocks == |FreeBlocks(s1)|
            && ((s1.sbFreeInodes == s1.gdFreeInodes == |FreeInodes(s1)|) <==> !NamesReservedFree(s))
  {
    var off := RunRepairs(s);
    CountersRight(RunChecker(s).0, off);
  }

  lemma HoldsRecounted(s: State, cs: seq<Check>)
    requires AllFit(s, cs) && (forall c :: c in cs ==> Holds(s, c))
    ensures AllFit(Recount(s), cs) && forall c :: c in cs ==> Holds(Recount(s), c)
  {
    forall c | c in cs ensures Fits(Recount(s), c) && Holds(Recount(s), c) { assert Fits(s, c) && Holds(s, c); }
  }

  lemma SecondRun(s: State, s1: State, off: nat)
    requires Checkable(s) && Repaired(s, s1, off)
    ensures Checkable(s1) && RunChecker(s1) == (Recount(s1), WrongCounters(s1))
    ensures WrongCounters(s1) == (if off == 0 then 0 else 2) && (off == 0 ==> Recount(s1) == s1)
  {
    ShapeChecks(s, s1);
    RecountSited(s1);
    HoldsRecounted(s1, Checks(s));
    NothingToFix(Recount(s1), Checks(s1));
    CountersOff(s1, off);
  }

  lemma CountersOff(s1: State, off: nat)
    requires Shaped(s1) && BlocksCounted(s1) && InodesCounted(s1, off) && off <= 11
    ensures WrongCounters(s1) == (if off == 0 then 0 else 2) && (off == 0 ==> Recount(s1) == s1)
  {
    SubsetCard(FreeInodes(s1), |s1.inodeBits|);
    if off > 0 { OffCounters(|FreeInodes(s1)|, off); }
  }

  /**
   * A second run finds nothing and changes nothing, if and only if no root record named a reserved
   * inode whose bit was clear: each such repair takes one from counters that do not count it, and
   * the second run then puts both inode counters right.
   */
  lemma SecondRunIdle(s: State)
    requires Checkable(s)
    ensures var s1 := RunChecker(s).0;
            && Checkable(s1)
            && (RunChecker(s1) == (s1, 0) <==> !NamesReservedFree(s))
            && (NamesReservedFree(s) ==> RunChecker(s1) == (Recount(s1), 2))
  {
    var off := RunRepairs(s);
    SecondRun(s, RunChecker(s).0, off);
  }

  // ---------- what a run leaves in order ----------

  lemma {:induction false} InChecksIn(s: State, k: nat, es: seq<Entry>, e: Entry)
    requires (forall x :: x in es ==> EntryChecked(s, x)) && e in es
    ensures forall c :: c in EntryChecks(s, k, e) ==> c in ChecksIn(s, k, es)
  {
    if e != es[0] { InChecksIn(s, k, es[1..], e); }
  }

  lemma {:induction false} InChecksOf(s: State, ps: seq<nat>, e: Entry) returns (k: nat)
    requires BlocksOk(s.blocks, ps) && (forall x :: x in LiveOf(s.blocks, ps) ==> EntryChecked(s, x))
    requires e in LiveOf(s.blocks, ps)
    ensures k < |s.blocks| && BlockOk(s.blocks[k]) && e in Live(s.blocks[k])
    ensures forall c :: c in EntryChecks(s, k, e) ==> c in ChecksOf(s, ps)
  {
    if e in Live(s.blocks[ps[0]]) {
      k := ps[0];
      InChecksIn(s, k, Live(s.blocks[k]), e);
    } else {
      k := InChecksOf(s, ps[1..], e);
    }
  }

  lemma {:induction false} InBlockBits(ps: seq<nat>, p: nat)
    requires (forall i :: 0 <= i < |ps| ==> ps[i] > 0) && p in ps
    ensures p > 0 && BlockBit(p - 1) in BlockBits(ps)
  {
    if p != ps[0] { InBlockBits(ps[1..], p); }
  }

  /** The named inode is marked and not deleted, the record has its type, and the blocks are marked. */
  ghost predicate InOrder(s: State, e: Entry) {
    && 0 < e.ino < |s.inodes| == |s.inodeBits| && s.inodeBits[e.ino - 1] && s.inodes[e.ino - 1].dtime == 0
    && TypeOf(s.inodes[e.ino - 1].mode) in {None, Some(e.ft)}
    && forall p :: p in Direct(s.inodes[e.ino].ptr) ==> 0 < p <= |s.blockBits| && s.blockBits[p - 1]
  }

  lemma HoldsOutside(s: State, k: nat, e: Entry)
    requires Shaped(s) && k < |s.blocks| && BlockOk(s.blocks[k]) && e in Live(s.blocks[k]) && 0 < e.ino <= |s.inodes|
    requires forall c :: c in OuterChecks(k, e) ==> Fits(s, c) && Holds(s, c)
    ensures s.inodeBits[e.ino - 1] && s.inodes[e.ino - 1].dtime == 0
    ensures TypeOf(s.inodes[e.ino - 1].mode) in {None, Some(e.ft)}
  {
    LiveOnChain(s.blocks[k], e);
    var c1, c2, c3 := TypeAt(k, e.off, e.ino - 1), InodeBit(e.ino - 1), Dtime(e.ino - 1);
    assert OuterChecks(k, e)[0] == c1 && OuterChecks(k, e)[1] == c2 && OuterChecks(k, e)[2] == c3;
    assert c1 in OuterChecks(k, e) && c2 in OuterChecks(k, e) && c3 in OuterChecks(k, e);
  }

  lemma HoldsInOrder(s: State, k: nat, e: Entry)
    requires Shaped(s) && k < |s.blocks| && BlockOk(s.blocks[k]) && e in Live(s.blocks[k]) && EntryChecked(s, e)
    requires forall c :: c in EntryChecks(s, k, e) ==> Fits(s, c) && Holds(s, c)
    ensures InOrder(s, e)
  {
    assert forall c :: c in OuterChecks(k, e) ==> c in EntryChecks(s, k, e);
    HoldsOutside(s, k, e);
    var bs := BlockBits(Direct(s.inodes[e.ino].ptr));
    assert forall c :: c in bs ==> c in EntryChecks(s, k, e);
    forall p | p in Direct(s.inodes[e.ino].ptr) ensures s.blockBits[p - 1] {
      InBlockBits(Direct(s.inodes[e.ino].ptr), p);
    }
  }

  /**
   * After a run every record of the root directory is in order.  The blocks are those of the inode
   * whose index is the record's inode number, which is the one after the inode it names.
   */
  lemma RunPutsInOrder(s: State, e: Entry)
    requires Checkable(s) && IsDir(s.inodes[ROOT].mode)
    ensures var s1 := RunChecker(s).0;
            Checkable(s1) && IsDir(s1.inodes[ROOT].mode) && (e in DirEntries(s1, ROOT) ==> InOrder(s1, e))
  {
    var off := RunRepairs(s);
    var s1 := RunChecker(s).0;
    ShapeChecks(s, s1);
    if e in DirEntries(s1, ROOT) {
      var k := InChecksOf(s1, Direct(s1.inodes[ROOT].ptr), e);
      HoldsInOrder(s1, k, e);
    }
  }
}

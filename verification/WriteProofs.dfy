/** The facts that the loops of write_string_to_blocks keep. */
module WriteFacts {
  import opened Bytes
  import opened DiskState
  import opened Writing

  /** The inode changed at most in its blocks. */
  ghost predicate SameFile(i: Inode, i': Inode) {
    && i'.mode == i.mode && i'.size == i.size && i'.links == i.links
    && i'.ctime == i.ctime && i'.dtime == i.dtime
  }

  /** The blocks taken are the lowest of the free ones. */
  ghost predicate TakesLowest(s: State, s': State) {
    forall k, j :: k in FreeBlocks(s) && k !in FreeBlocks(s') && j in FreeBlocks(s') ==> k < j
  }

  /** `c` free blocks, the lowest ones, went to inode `n`; apart from it and block `x` nothing in use changed. */
  ghost predicate Grew(s: State, s': State, n: nat, c: nat, x: nat) {
    && |s'.blocks| == |s.blocks| && |s'.inodes| == |s.inodes| && |s'.blockBits| == |s.blockBits|
    && s'.inodeBits == s.inodeBits && n < |s.inodes|
    && FreeBlocks(s') <= FreeBlocks(s) && |FreeBlocks(s')| + c == |FreeBlocks(s)| && TakesLowest(s, s')
    && (forall m :: 0 <= m < |s.inodes| && m != n ==> s'.inodes[m] == s.inodes[m])
    && SameFile(s.inodes[n], s'.inodes[n]) && s'.inodes[n].sectors == s.inodes[n].sectors + 2 * c
    && (forall p: nat :: Marked(s, p) && p != x ==> s'.blocks[p] == s.blocks[p])
  }

  /** The direct blocks below `i` hold their part of `src`. */
  ghost predicate DirectHolds(s: State, n: nat, src: seq<Byte>, i: nat)
    requires n < |s.inodes| && i <= DIRECT
  {
    forall t :: 0 <= t < i ==>
      Marked(s, s.inodes[n].ptr[t]) && 1024 * t <= |src| && Chunk(src, t) <= s.blocks[s.inodes[n].ptr[t]]
  }

  /** The first `i` pointers ascend, and every free block lies beyond them. */
  ghost predicate Ascend(s: State, ptr: Pointers, i: nat)
    requires i <= POINTERS
  {
    && (forall t, u :: 0 <= t < u < i ==> ptr[t] < ptr[u])
    && (forall t, k :: 0 <= t < i && k in FreeBlocks(s) ==> ptr[t] <= k)
  }

  ghost predicate PointerSet(ptr: Pointers, ptr': Pointers, i: nat, p: nat)
    requires i < POINTERS
  {
    ptr'[i] == p && forall t :: 0 <= t < POINTERS && t != i ==> ptr'[t] == ptr[t]
  }

  /** One block `a`, free before and lowest of the free ones, was taken for inode `n`. */
  ghost predicate TookLowest(s: State, s': State, n: nat, a: nat, x: nat) {
    && |s'.blocks| == |s.blocks| && |s'.inodes| == |s.inodes| && s'.inodeBits == s.inodeBits
    && |s.blockBits| == |s.blocks| && IsLeast(a, FreeBlocks(s)) && s'.blockBits == s.blockBits[a := true]
    && a + 1 < |s.blocks| && n < |s.inodes|
    && (forall m :: 0 <= m < |s.inodes| && m != n ==> s'.inodes[m] == s.inodes[m])
    && SameFile(s.inodes[n], s'.inodes[n]) && s'.inodes[n].sectors == s.inodes[n].sectors + 2
    && (forall p :: 0 <= p < |s.blocks| && p != a + 1 && p != x ==> s'.blocks[p] == s.blocks[p])
  }

  /** The first loop went from block `i` to block `i'`: out of data, out of slots, or out of blocks. */
  ghost predicate WroteDirect(s: State, s': State, ok: bool, n: nat, src: seq<Byte>, i: nat, i': nat) {
    && i <= i' <= DIRECT && Grew(s, s', n, i' - i, 0) && 1024 * i' < |src| + BLOCK_SIZE
    && (ok ==> 1024 * i' >= |src| || i' == DIRECT)
    && (!ok ==> FreeBlocks(s') == {} && 1024 * i' < |src| && i' < DIRECT)
    && forall t :: i' <= t < POINTERS ==> s'.inodes[n].ptr[t] == s.inodes[n].ptr[t]
  }
}

/** What write_string_to_blocks stores, when it succeeds, and what it leaves alone. */
module WriteProofs {
  import opened Bytes
  import opened DiskState
  import opened Writing
  import opened WriteFacts

  // ---------- one block more ----------

  lemma MarkedStays(s: State, s': State, p: nat)
    requires |s'.blocks| == |s.blocks| && |s'.blockBits| == |s.blockBits|
    requires FreeBlocks(s') <= FreeBlocks(s) && Marked(s, p)
    ensures Marked(s', p)
  {
    assert p - 1 !in FreeBlocks(s);
  }

  lemma GrewTrans(s: State, s1: State, s2: State, n: nat, c: nat, d: nat, x: nat)
    requires Grew(s, s1, n, c, x) && Grew(s1, s2, n, d, x)
    ensures Grew(s, s2, n, c + d, x)
  {
    forall p: nat | Marked(s, p) && p != x ensures s2.blocks[p] == s.blocks[p] {
      MarkedStays(s, s1, p);
    }
  }

  lemma TookFree(s: State, s': State, n: nat, a: nat, x: nat)
    requires TookLowest(s, s', n, a, x)
    ensures FreeBlocks(s') == FreeBlocks(s) - {a} && Marked(s', a + 1)
  {
  }

  lemma TookGrew(s: State, s': State, n: nat, a: nat, x: nat)
    requires TookLowest(s, s', n, a, x)
    ensures Grew(s, s', n, 1, x)
  {
    TookFree(s, s', n, a, x);
    assert forall p: nat :: Marked(s, p) ==> p - 1 !in FreeBlocks(s) && p != a + 1;
  }

  lemma DirectStepTook(s: State, n: nat, src: seq<Byte>, i: nat)
    requires Shaped(s) && n < |s.inodes| && i < DIRECT && 1024 * i < |src| && FreeBlocks(s) != {}
    ensures var s' := DirectStep(s, n, src, i); var a := Least(FreeBlocks(s));
            && TookLowest(s, s', n, a, 0)
            && PointerSet(s.inodes[n].ptr, s'.inodes[n].ptr, i, a + 1) && Chunk(src, i) <= s'.blocks[a + 1]
  {
    NewBlockInside(s);
    var a := Least(FreeBlocks(s));
    var data := PutBytes(s.blocks[a + 1], 0, Chunk(src, i));
    assert DirectStep(s, n, src, i).blocks == s.blocks[a + 1 := data] && Chunk(src, i) <= data;
  }

  lemma HoldsMore(s: State, s': State, n: nat, src: seq<Byte>, i: nat, a: nat)
    requires TookLowest(s, s', n, a, 0) && i < DIRECT && 1024 * i < |src| && DirectHolds(s, n, src, i)
    requires PointerSet(s.inodes[n].ptr, s'.inodes[n].ptr, i, a + 1) && Chunk(src, i) <= s'.blocks[a + 1]
    ensures DirectHolds(s', n, src, i + 1)
  {
    TookFree(s, s', n, a, 0);
    TookGrew(s, s', n, a, 0);
    forall t | 0 <= t < i ensures Marked(s', s'.inodes[n].ptr[t]) {
      MarkedStays(s, s', s.inodes[n].ptr[t]);
    }
  }

  lemma AscendMore(s: State, s': State, n: nat, i: nat, a: nat, x: nat)
    requires TookLowest(s, s', n, a, x) && i < POINTERS && Ascend(s, s.inodes[n].ptr, i)
    requires PointerSet(s.inodes[n].ptr, s'.inodes[n].ptr, i, a + 1)
    ensures Ascend(s', s'.inodes[n].ptr, i + 1)
  {
    TookFree(s, s', n, a, x);
  }

  lemma DirectTookIs(s: State, s': State, n: nat, src: seq<Byte>, i: nat, a: nat)
    requires TookLowest(s, s', n, a, 0) && i < DIRECT && 1024 * i < |src|
    requires DirectHolds(s, n, src, i) && Ascend(s, s.inodes[n].ptr, i)
    requires PointerSet(s.inodes[n].ptr, s'.inodes[n].ptr, i, a + 1) && Chunk(src, i) <= s'.blocks[a + 1]
    ensures Grew(s, s', n, 1, 0) && DirectHolds(s', n, src, i + 1) && Ascend(s', s'.inodes[n].ptr, i + 1)
  {
    TookGrew(s, s', n, a, 0);
    HoldsMore(s, s', n, src, i, a);
    AscendMore(s, s', n, i, a, 0);
  }

  lemma WroteTrans(s: State, s1: State, s': State, ok: bool, n: nat, src: seq<Byte>, i: nat, i': nat, a: nat)
    requires TookLowest(s, s1, n, a, 0) && WroteDirect(s1, s', ok, n, src, i + 1, i')
    requires PointerSet(s.inodes[n].ptr, s1.inodes[n].ptr, i, a + 1)
    ensures WroteDirect(s, s', ok, n, src, i, i')
  {
    TookGrew(s, s1, n, a, 0);
    GrewTrans(s, s1, s', n, 1, i' - i - 1, 0);
  }

  lemma DirectTaken(s: State, n: nat, src: seq<Byte>, i: nat) returns (s1: State)
    requires Shaped(s) && n < |s.inodes| && i < DIRECT && 1024 * i < |src| && FreeBlocks(s) != {}
    ensures Shaped(s1) && |s1.inodes| == |s.inodes| && WriteDirect(s, n, src, i) == WriteDirect(s1, n, src, i + 1)
    ensures var a := Least(FreeBlocks(s));
            && TookLowest(s, s1, n, a, 0) && PointerSet(s.inodes[n].ptr, s1.inodes[n].ptr, i, a + 1)
            && Chunk(src, i) <= s1.blocks[a + 1]
  {
    s1 := DirectStep(s, n, src, i);
    DirectStepTook(s, n, src, i);
  }

  lemma DirectEnds(s: State, n: nat, src: seq<Byte>, i: nat)
    requires Shaped(s) && n < |s.inodes| && i <= DIRECT && 1024 * i < |src| + BLOCK_SIZE
    requires 1024 * i >= |src| || i == DIRECT || FreeBlocks(s) == {}
    ensures var r := WriteDirect(s, n, src, i); WroteDirect(s, r.0, r.1, n, src, i, r.2)
  {
  }

  lemma {:induction false} WriteDirectIs(s: State, n: nat, src: seq<Byte>, i: nat)
    requires Shaped(s) && n < |s.inodes| && i <= DIRECT && 1024 * i < |src| + BLOCK_SIZE
    ensures var r := WriteDirect(s, n, src, i); WroteDirect(s, r.0, r.1, n, src, i, r.2)
    decreases DIRECT - i
  {
    if 1024 * i < |src| && i < DIRECT && FreeBlocks(s) != {} {
      var s1 := DirectTaken(s, n, src, i);
      var r := WriteDirect(s, n, src, i);
      WriteDirectIs(s1, n, src, i + 1);
      WroteTrans(s, s1, r.0, r.1, n, src, i, r.2, Least(FreeBlocks(s)));
    } else {
      DirectEnds(s, n, src, i);
    }
  }

  lemma DirectHeld(s: State, n: nat, src: seq<Byte>, i: nat) returns (s1: State)
    requires Shaped(s) && n < |s.inodes| && i < DIRECT && 1024 * i < |src| && FreeBlocks(s) != {}
    requires DirectHolds(s, n, src, i) && Ascend(s, s.inodes[n].ptr, i)
    ensures Shaped(s1) && |s1.inodes| == |s.inodes| && WriteDirect(s, n, src, i) == WriteDirect(s1, n, src, i + 1)
    ensures DirectHolds(s1, n, src, i + 1) && Ascend(s1, s1.inodes[n].ptr, i + 1)
  {
    s1 := DirectTaken(s, n, src, i);
    DirectTookIs(s, s1, n, src, i, Least(FreeBlocks(s)));
  }

  lemma {:induction false} WriteDirectHolds(s: State, n: nat, src: seq<Byte>, i: nat)
    requires Shaped(s) && n < |s.inodes| && i <= DIRECT
    requires DirectHolds(s, n, src, i) && Ascend(s, s.inodes[n].ptr, i)
    ensures var r := WriteDirect(s, n, src, i);
            DirectHolds(r.0, n, src, r.2) && Ascend(r.0, r.0.inodes[n].ptr, r.2)
    decreases DIRECT - i
  {
    var r := WriteDirect(s, n, src, i);
    if 1024 * i < |src| && i < DIRECT && FreeBlocks(s) != {} {
      var s1 := DirectHeld(s, n, src, i);
      WriteDirectHolds(s1, n, src, i + 1);
    } else {
      assert r.0 == s && r.2 == i;
    }
  }

  // ---------- the indirect part ----------

  function TableEntry(b: Block, t: nat): nat
    requires t < TABLE
  { Get32(b, 4 * t) }

  /** The first `j` entries of the table name marked blocks that hold their part of `src`. */
  ghost predicate TableHolds(s: State, tbl: nat, src: seq<Byte>, j: nat)
    requires tbl < |s.blocks| && j <= TABLE
  {
    forall t :: 0 <= t < j ==>
      var p := TableEntry(s.blocks[tbl], t);
      Marked(s, p) && 1024 * (DIRECT + t) <= |src| && Chunk(src, DIRECT + t) <= s.blocks[p]
  }

  ghost predicate TableAscends(s: State, tbl: nat, j: nat)
    requires tbl < |s.blocks| && j <= TABLE
  {
    && (forall t :: 0 <= t < j ==> tbl < TableEntry(s.blocks[tbl], t))
    && (forall t, u :: 0 <= t < u < j ==> TableEntry(s.blocks[tbl], t) < TableEntry(s.blocks[tbl], u))
    && (forall t, k :: 0 <= t < j && k in FreeBlocks(s) ==> TableEntry(s.blocks[tbl], t) <= k)
    && (forall k :: k in FreeBlocks(s) ==> tbl <= k)
  }

  lemma IndirectStepTook(s: State, n: nat, src: seq<Byte>, tbl: nat, j: nat)
    requires Shaped(s) && n < |s.inodes| && j < TABLE && Marked(s, tbl)
    requires 1024 * (DIRECT + j) < |src| && FreeBlocks(s) != {}
    ensures var s' := IndirectStep(s, n, src, tbl, j); var a := Least(FreeBlocks(s));
            && TookLowest(s, s', n, a, tbl) && a + 1 != tbl
            && (forall t :: 0 <= t < POINTERS ==> s'.inodes[n].ptr[t] == s.inodes[n].ptr[t])
            && Chunk(src, DIRECT + j) <= s'.blocks[a + 1] && s'.blocks[tbl] == Put32(s.blocks[tbl], 4 * j, a + 1)
  {
    NewBlockInside(s);
    var a := Least(FreeBlocks(s));
    assert tbl - 1 !in FreeBlocks(s);
    var data := PutBytes(s.blocks[a + 1], 0, Chunk(src, DIRECT + j));
    assert IndirectStep(s, n, src, tbl, j).blocks == s.blocks[tbl := Put32(s.blocks[tbl], 4 * j, a + 1)][a + 1 := data];
  }

  lemma EntryPut(b: Block, j: nat, v: nat)
    requires j < TABLE && v < 0x1_0000_0000
    ensures var b': Block := Put32(b, 4 * j, v);
            TableEntry(b', j) == v && forall t :: 0 <= t < TABLE && t != j ==> TableEntry(b', t) == TableEntry(b, t)
  {
    Put32Is(b, 4 * j, v);
  }

  lemma TableHoldsMore(s: State, s': State, n: nat, src: seq<Byte>, tbl: nat, j: nat, a: nat)
    requires TookLowest(s, s', n, a, tbl) && a + 1 != tbl && Marked(s, tbl) && j < TABLE && a + 1 < 0x1_0000_0000
    requires 1024 * (DIRECT + j) < |src| && TableHolds(s, tbl, src, j) && TableAscends(s, tbl, j)
    requires Chunk(src, DIRECT + j) <= s'.blocks[a + 1] && s'.blocks[tbl] == Put32(s.blocks[tbl], 4 * j, a + 1)
    ensures TableHolds(s', tbl, src, j + 1)
  {
    EntryPut(s.blocks[tbl], j, a + 1);
    TookFree(s, s', n, a, tbl);
    TookGrew(s, s', n, a, tbl);
    forall t | 0 <= t < j
      ensures Marked(s', TableEntry(s'.blocks[tbl], t))
      ensures Chunk(src, DIRECT + t) <= s'.blocks[TableEntry(s'.blocks[tbl], t)]
    {
      MarkedStays(s, s', TableEntry(s.blocks[tbl], t));
    }
  }

  lemma TableAscendsMore(s: State, s': State, n: nat, tbl: nat, j: nat, a: nat)
    requires TookLowest(s, s', n, a, tbl) && j < TABLE && a + 1 < 0x1_0000_0000
    requires tbl < |s.blocks| && s'.blocks[tbl] == Put32(s.blocks[tbl], 4 * j, a + 1) && TableAscends(s, tbl, j)
    ensures TableAscends(s', tbl, j + 1)
  {
    EntryPut(s.blocks[tbl], j, a + 1);
    TookFree(s, s', n, a, tbl);
  }

  lemma IndirectStepIs(s: State, n: nat, src: seq<Byte>, tbl: nat, j: nat)
    requires Shaped(s) && n < |s.inodes| && j < TABLE && Marked(s, tbl)
    requires 1024 * (DIRECT + j) < |src| && FreeBlocks(s) != {}
    requires TableHolds(s, tbl, src, j) && TableAscends(s, tbl, j)
    ensures var s' := IndirectStep(s, n, src, tbl, j);
            && Grew(s, s', n, 1, tbl) && Marked(s', tbl)
            && (forall t :: 0 <= t < POINTERS ==> s'.inodes[n].ptr[t] == s.inodes[n].ptr[t])
            && TableHolds(s', tbl, src, j + 1) && TableAscends(s', tbl, j + 1)
  {
    var s', a := IndirectStep(s, n, src, tbl, j), Least(FreeBlocks(s));
    IndirectStepTook(s, n, src, tbl, j);
    TookGrew(s, s', n, a, tbl);
    MarkedStays(s, s', tbl);
    TableHoldsMore(s, s', n, src, tbl, j, a);
    TableAscendsMore(s, s', n, tbl, j, a);
  }

  /** The second loop went from entry `j` to entry `j'`. */
  ghost predicate WroteIndirect(s: State, s': State, ok: bool, n: nat, src: seq<Byte>, tbl: nat, j: nat, j': nat) {
    && j <= j' <= TABLE && Grew(s, s', n, j' - j, tbl) && 1024 * (DIRECT + j') < |src| + BLOCK_SIZE
    && (ok ==> 1024 * (DIRECT + j') >= |src| || j' == TABLE)
    && (!ok ==> FreeBlocks(s') == {} && 1024 * (DIRECT + j') < |src| && j' < TABLE)
    && forall t :: 0 <= t < POINTERS ==> s'.inodes[n].ptr[t] == s.inodes[n].ptr[t]
  }

  lemma IndirectTrans(s: State, s1: State, s': State, ok: bool, n: nat, src: seq<Byte>, tbl: nat, j: nat, j': nat)
    requires Grew(s, s1, n, 1, tbl) && WroteIndirect(s1, s', ok, n, src, tbl, j + 1, j')
    requires forall t :: 0 <= t < POINTERS ==> s1.inodes[n].ptr[t] == s.inodes[n].ptr[t]
    ensures WroteIndirect(s, s', ok, n, src, tbl, j, j')
  {
    GrewTrans(s, s1, s', n, 1, j' - j - 1, tbl);
  }

  lemma WroteNothing(s: State, ok: bool, n: nat, src: seq<Byte>, tbl: nat, j: nat)
    requires Shaped(s) && n < |s.inodes| && j <= TABLE && Marked(s, tbl) && 1024 * (DIRECT + j) < |src| + BLOCK_SIZE
    requires if ok then 1024 * (DIRECT + j) >= |src| || j == TABLE
             else FreeBlocks(s) == {} && 1024 * (DIRECT + j) < |src| && j < TABLE
    ensures WroteIndirect(s, s, ok, n, src, tbl, j, j)
  {
  }

  lemma {:induction false} WriteIndirectIs(s: State, n: nat, src: seq<Byte>, tbl: nat, j: nat)
    requires Shaped(s) && n < |s.inodes| && j <= TABLE && Marked(s, tbl) && 1024 * (DIRECT + j) < |src| + BLOCK_SIZE
    ensures var r := WriteIndirect(s, n, src, tbl, j); WroteIndirect(s, r.0, r.1, n, src, tbl, j, r.2)
    decreases TABLE - j
  {
    if 1024 * (DIRECT + j) < |src| && j < TABLE && FreeBlocks(s) != {} {
      var s1 := IndirectStep(s, n, src, tbl, j);
      IndirectStepTook(s, n, src, tbl, j);
      TookGrew(s, s1, n, Least(FreeBlocks(s)), tbl);
      MarkedStays(s, s1, tbl);
      WriteIndirectIs(s1, n, src, tbl, j + 1);
      var r := WriteIndirect(s1, n, src, tbl, j + 1);
      IndirectTrans(s, s1, r.0, r.1, n, src, tbl, j, r.2);
    } else {
      WroteNothing(s, WriteIndirect(s, n, src, tbl, j).1, n, src, tbl, j);
    }
  }

  lemma {:induction false} WriteIndirectHolds(s: State, n: nat, src: seq<Byte>, tbl: nat, j: nat)
    requires Shaped(s) && n < |s.inodes| && j <= TABLE && Marked(s, tbl)
    requires TableHolds(s, tbl, src, j) && TableAscends(s, tbl, j)
    ensures var r := WriteIndirect(s, n, src, tbl, j);
            Marked(r.0, tbl) && TableHolds(r.0, tbl, src, r.2) && TableAscends(r.0, tbl, r.2)
    decreases TABLE - j
  {
    if 1024 * (DIRECT + j) < |src| && j < TABLE && FreeBlocks(s) != {} {
      IndirectStepIs(s, n, src, tbl, j);
      WriteIndirectHolds(IndirectStep(s, n, src, tbl, j), n, src, tbl, j + 1);
    }
  }

  // ---------- when a write succeeds ----------

  lemma BlocksForIs(size: nat, i: nat)
    requires 1024 * i >= size && 1024 * i < size + BLOCK_SIZE
    ensures BlocksFor(size) == i
  {
  }

  lemma SetSizeFree(s: State, n: nat, size: nat)
    requires n < |s.inodes|
    ensures FreeBlocks(SetSize(s, n, size)) == FreeBlocks(s)
  {
  }

  lemma NoCards(S: set<nat>)
    ensures S == {} <==> |S| == 0
  {
  }

  /** The bytes of a source that get written: what is beyond the direct blocks and one table is dropped. */
  function Kept(size: nat): nat { if size > 1024 * MAX_BLOCKS then 1024 * MAX_BLOCKS else size }

  /** What the write of `src` needs, succeeds with, and leaves when it fails. */
  ghost predicate Outcome(s: State, s': State, ok: bool, n: nat, src: seq<Byte>)
    requires n < |s.inodes|
  {
    && n < |s'.inodes|
    && (ok <==> |FreeBlocks(s)| >= BlocksNeeded(Kept(|src|)))
    && (ok ==> |FreeBlocks(s')| == |FreeBlocks(s)| - BlocksNeeded(Kept(|src|))
               && s'.inodes[n].sectors == s.inodes[n].sectors + 2 * BlocksNeeded(Kept(|src|)))
    && (!ok ==> FreeBlocks(s') == {})
  }

  lemma OutcomeDirect(s: State, s0: State, s': State, ok: bool, n: nat, src: seq<Byte>, i: nat)
    requires n < |s.inodes| && |src| <= 1024 * DIRECT && WroteDirect(s0, s', ok, n, src, 0, i)
    requires FreeBlocks(s0) == FreeBlocks(s) && s0.inodes[n].sectors == s.inodes[n].sectors
    ensures Outcome(s, s', ok, n, src)
  {
    if ok { BlocksForIs(|src|, i); } else { NoCards(FreeBlocks(s')); }
  }

  lemma OutcomeTable(s: State, s0: State, s1: State, s': State, ok: bool, n: nat, src: seq<Byte>, j: nat)
    requires n < |s.inodes| && 1024 * DIRECT < |src|
    requires WroteDirect(s0, s1, true, n, src, 0, DIRECT)
    requires FreeBlocks(s0) == FreeBlocks(s) && s0.inodes[n].sectors == s.inodes[n].sectors
    requires WroteTable(s1, s', ok, n, src, j)
    ensures Outcome(s, s', ok, n, src)
  {
    if ok { BlocksForIs(Kept(|src|), DIRECT + j); } else { NoCards(FreeBlocks(s')); }
  }

  lemma OutcomeShort(s: State, s0: State, s1: State, n: nat, src: seq<Byte>, ok: bool, i: nat)
    requires n < |s.inodes| && 1024 * DIRECT < |src| && WroteDirect(s0, s1, ok, n, src, 0, i)
    requires FreeBlocks(s0) == FreeBlocks(s) && FreeBlocks(s1) == {}
    ensures Outcome(s, s1, false, n, src)
  {
    NoCards(FreeBlocks(s1));
  }

  lemma TableStepTook(s: State, n: nat)
    requires Shaped(s) && n < |s.inodes| && FreeBlocks(s) != {}
    ensures var s' := TableStep(s, n); var a := Least(FreeBlocks(s));
            TookLowest(s, s', n, a, 0) && PointerSet(s.inodes[n].ptr, s'.inodes[n].ptr, DIRECT, a + 1)
  {
    NewBlockInside(s);
  }

  /** A table, now the indirect pointer, and `j` of its entries were written. */
  ghost predicate WroteTable(s: State, s': State, ok: bool, n: nat, src: seq<Byte>, j: nat) {
    && j <= TABLE && n < |s'.inodes| && Grew(s, s', n, 1 + j, s'.inodes[n].ptr[DIRECT])
    && !Marked(s, s'.inodes[n].ptr[DIRECT]) && 1024 * (DIRECT + j) < |src| + BLOCK_SIZE
    && (ok ==> 1024 * (DIRECT + j) >= |src| || j == TABLE)
    && (!ok ==> FreeBlocks(s') == {} && 1024 * (DIRECT + j) < |src| && j < TABLE)
  }

  lemma TableThenEntries(s: State, s2: State, s': State, ok: bool, n: nat, src: seq<Byte>, tbl: nat, j: nat)
    requires tbl > 0 && TookLowest(s, s2, n, tbl - 1, 0) && PointerSet(s.inodes[n].ptr, s2.inodes[n].ptr, DIRECT, tbl)
    requires WroteIndirect(s2, s', ok, n, src, tbl, 0, j)
    ensures WroteTable(s, s', ok, n, src, j)
  {
    TookGrew(s, s2, n, tbl - 1, 0);
    GrewTrans(s, s2, s', n, 1, j, tbl);
  }

  lemma WriteTableIs(s: State, n: nat, src: seq<Byte>)
    requires Shaped(s) && n < |s.inodes| && FreeBlocks(s) != {} && 1024 * DIRECT < |src|
    ensures var t := WriteTable(s, n, src); WroteTable(s, t.0, t.1, n, src, t.2)
  {
    var s2, tbl := TableStep(s, n), Least(FreeBlocks(s)) + 1;
    NewBlockInside(s);
    TableStepTook(s, n);
    TookFree(s, s2, n, tbl - 1, 0);
    WriteIndirectIs(s2, n, src, tbl, 0);
    var t := WriteIndirect(s2, n, src, tbl, 0);
    TableThenEntries(s, s2, t.0, t.1, n, src, tbl, t.2);
  }

  /** A write succeeds exactly when there are enough free blocks; failing, it has used them all up. */
  lemma WriteOutcome(s: State, n: nat, src: seq<Byte>)
    requires Shaped(s) && n < |s.inodes|
    ensures var r := WriteString(s, n, src); Outcome(s, r.0, r.1, n, src)
  {
    var s0 := SetSize(s, n, |src|);
    SetSizeFree(s, n, |src|);
    WriteDirectIs(s0, n, src, 0);
    var d := WriteDirect(s0, n, src, 0);
    if GoesOn(d.0, d.1, src, d.2) {
      WriteTableIs(d.0, n, src);
      var t := WriteTable(d.0, n, src);
      OutcomeTable(s, s0, d.0, t.0, t.1, n, src, t.2);
    } else if |src| <= 1024 * DIRECT {
      OutcomeDirect(s, s0, d.0, d.1, n, src, d.2);
    } else {
      OutcomeShort(s, s0, d.0, n, src, d.1, d.2);
    }
  }

  // ---------- what a write leaves alone ----------

  /** Everything in use, other than inode `n` itself, is as it was. */
  ghost predicate Untouched(s: State, s': State, n: nat) {
    && |s'.inodes| == |s.inodes| && |s'.blocks| == |s.blocks| && s'.inodeBits == s.inodeBits
    && |s'.blockBits| == |s.blockBits|
    && (forall m :: 0 <= m < |s.inodes| && m != n ==> s'.inodes[m] == s.inodes[m])
    && (forall p: nat :: Marked(s, p) ==> Marked(s', p) && s'.blocks[p] == s.blocks[p])
  }

  lemma GrewUntouched(s: State, s': State, n: nat, c: nat)
    requires Grew(s, s', n, c, 0)
    ensures Untouched(s, s', n)
  {
    forall p: nat | Marked(s, p) ensures Marked(s', p) { MarkedStays(s, s', p); }
  }

  lemma TableUntouched(s: State, s1: State, s': State, n: nat, c: nat, tbl: nat)
    requires Untouched(s, s1, n) && Grew(s1, s', n, c, tbl) && !Marked(s1, tbl)
    ensures Untouched(s, s', n)
  {
    forall p: nat | Marked(s, p) ensures Marked(s', p) && s'.blocks[p] == s.blocks[p] { MarkedStays(s1, s', p); }
  }

  /** Successful or not, a write changes no other inode and no block that was in use. */
  lemma WriteFrame(s: State, n: nat, src: seq<Byte>)
    requires Shaped(s) && n < |s.inodes|
    ensures Untouched(s, WriteString(s, n, src).0, n)
  {
    var s0 := SetSize(s, n, |src|);
    WriteDirectIs(s0, n, src, 0);
    var d := WriteDirect(s0, n, src, 0);
    GrewUntouched(s0, d.0, n, d.2);
    SetSizeUntouched(s, d.0, n, |src|);
    if GoesOn(d.0, d.1, src, d.2) {
      WriteTableIs(d.0, n, src);
      var t := WriteTable(d.0, n, src);
      TableUntouched(s, d.0, t.0, n, 1 + t.2, t.0.inodes[n].ptr[DIRECT]);
    }
  }

  /** Of the inode itself the size, the sectors and the pointers change; the blocks are the lowest free ones. */
  lemma WriteFile(s: State, n: nat, src: seq<Byte>)
    requires Shaped(s) && n < |s.inodes|
    ensures var s' := WriteString(s, n, src).0;
            && SameFile(s.inodes[n].(size := |src|), s'.inodes[n]) && TakesLowest(s, s')
            && FreeBlocks(s') <= FreeBlocks(s)
  {
    var s0 := SetSize(s, n, |src|);
    SetSizeFree(s, n, |src|);
    WriteDirectIs(s0, n, src, 0);
    var d := WriteDirect(s0, n, src, 0);
    if GoesOn(d.0, d.1, src, d.2) {
      WriteTableIs(d.0, n, src);
      GrewLowest(s0, d.0, WriteTable(d.0, n, src).0);
    }
  }

  lemma GrewLowest(s: State, s1: State, s2: State)
    requires TakesLowest(s, s1) && TakesLowest(s1, s2) && FreeBlocks(s1) <= FreeBlocks(s)
    requires FreeBlocks(s2) <= FreeBlocks(s1)
    ensures TakesLowest(s, s2)
  {
  }

  lemma SetSizeUntouched(s: State, s1: State, n: nat, size: nat)
    requires n < |s.inodes| && Untouched(SetSize(s, n, size), s1, n)
    ensures Untouched(s, s1, n)
  {
    assert forall p: nat :: Marked(s, p) ==> Marked(SetSize(s, n, size), p);
  }

  lemma {:induction false} ReadFrame(s: State, s': State, n: nat, m: nat, i: nat)
    requires Untouched(s, s', n) && m != n && Readable(s, m)
    ensures Readable(s', m) && ReadFrom(s', m, i) == ReadFrom(s, m, i)
    decreases BlocksFor(s.inodes[m].size) - i
  {
    forall t | 0 <= t < BlocksFor(s.inodes[m].size)
      ensures HasBlock(s', m, t) && BlockOf(s', m, t) == BlockOf(s, m, t)
              && s'.blocks[BlockOf(s', m, t)] == s.blocks[BlockOf(s, m, t)]
    {
      assert HasBlock(s, m, t);
    }
    if i < BlocksFor(s.inodes[m].size) { ReadFrame(s, s', n, m, i + 1); }
  }

  /** Every other file reads as before. */
  lemma WriteSparesFiles(s: State, n: nat, src: seq<Byte>, m: nat)
    requires Shaped(s) && n < |s.inodes| && m != n && Readable(s, m)
    ensures var s' := WriteString(s, n, src).0; Readable(s', m) && Content(s', m) == Content(s, m)
  {
    WriteFrame(s, n, src);
    ReadFrame(s, WriteString(s, n, src).0, n, m, 0);
  }

  // ---------- what a write stores ----------

  ghost predicate Stored(s: State, n: nat, src: seq<Byte>) {
    && n < |s.inodes| && s.inodes[n].size == |src| && BlocksFor(|src|) <= MAX_BLOCKS
    && forall i :: 0 <= i < BlocksFor(|src|) ==>
         HasBlock(s, n, i) && 1024 * i <= |src| && Chunk(src, i) <= s.blocks[BlockOf(s, n, i)]
  }

  lemma ChunkIs(src: seq<Byte>, i: nat, b: Block)
    requires i < BlocksFor(|src|) && 1024 * i <= |src| && Chunk(src, i) <= b
    ensures var left := |src| - 1024 * i; var k := if left < BLOCK_SIZE then left else BLOCK_SIZE;
            b[..k] == Chunk(src, i) && k == |Chunk(src, i)| && (k < BLOCK_SIZE ==> i + 1 >= BlocksFor(|src|))
  {
  }

  lemma ChunkThen(src: seq<Byte>, i: nat)
    requires 1024 * i < |src|
    ensures 1024 * (i + 1) <= |src| ==> Chunk(src, i) + src[1024 * (i + 1)..] == src[1024 * i..]
    ensures 1024 * (i + 1) >= |src| ==> Chunk(src, i) == src[1024 * i..]
  {
  }

  lemma {:induction false} StoredReads(s: State, n: nat, src: seq<Byte>, i: nat)
    requires Stored(s, n, src) && i <= BlocksFor(|src|)
    ensures Readable(s, n) && 1024 * i < |src| + BLOCK_SIZE
    ensures ReadFrom(s, n, i) == if 1024 * i >= |src| then [] else src[1024 * i..]
    decreases BlocksFor(|src|) - i
  {
    if i < BlocksFor(|src|) {
      ChunkIs(src, i, s.blocks[BlockOf(s, n, i)]);
      StoredReads(s, n, src, i + 1);
      ChunkThen(src, i);
    }
  }

  lemma DirectSurvives(s: State, s': State, n: nat, src: seq<Byte>, i: nat, c: nat, x: nat)
    requires Grew(s, s', n, c, x) && i <= DIRECT && DirectHolds(s, n, src, i)
    requires forall t :: 0 <= t < i ==> s'.inodes[n].ptr[t] == s.inodes[n].ptr[t] && s.inodes[n].ptr[t] != x
    ensures DirectHolds(s', n, src, i)
  {
    forall t | 0 <= t < i ensures Marked(s', s'.inodes[n].ptr[t]) { MarkedStays(s, s', s.inodes[n].ptr[t]); }
  }

  /** A file without a table. */
  lemma StoredDirect(s: State, n: nat, src: seq<Byte>, i: nat)
    requires n < |s.inodes| && s.inodes[n].size == |src| && i <= DIRECT && BlocksFor(|src|) <= i
    requires DirectHolds(s, n, src, i)
    ensures Stored(s, n, src)
  {
  }

  /** A file with a table. */
  lemma StoredTable(s: State, n: nat, src: seq<Byte>, j: nat)
    requires n < |s.inodes| && s.inodes[n].size == |src| && j <= TABLE && BlocksFor(|src|) <= DIRECT + j
    requires DirectHolds(s, n, src, DIRECT) && Marked(s, s.inodes[n].ptr[DIRECT])
    requires TableHolds(s, s.inodes[n].ptr[DIRECT], src, j)
    ensures Stored(s, n, src)
  {
    forall i | 0 <= i < BlocksFor(|src|)
      ensures HasBlock(s, n, i) && 1024 * i <= |src| && Chunk(src, i) <= s.blocks[BlockOf(s, n, i)]
    {
      if i >= DIRECT {
        var t := i - DIRECT;
        assert Marked(s, TableEntry(s.blocks[s.inodes[n].ptr[DIRECT]], t));
      }
    }
  }

  /** The direct blocks and the entries hold the source; the pointers ascend. */
  ghost predicate TableStored(s: State, n: nat, src: seq<Byte>, j: nat) {
    && n < |s.inodes| && j <= TABLE && DirectHolds(s, n, src, DIRECT) && Marked(s, s.inodes[n].ptr[DIRECT])
    && TableHolds(s, s.inodes[n].ptr[DIRECT], src, j) && TableAscends(s, s.inodes[n].ptr[DIRECT], j)
    && (forall t, u :: 0 <= t < u <= DIRECT ==> s.inodes[n].ptr[t] < s.inodes[n].ptr[u])
  }

  lemma TableStoredAfter(s: State, s2: State, s': State, ok: bool, n: nat, src: seq<Byte>, tbl: nat, j: nat)
    requires tbl > 0 && TookLowest(s, s2, n, tbl - 1, 0) && PointerSet(s.inodes[n].ptr, s2.inodes[n].ptr, DIRECT, tbl)
    requires DirectHolds(s, n, src, DIRECT) && Ascend(s, s.inodes[n].ptr, DIRECT)
    requires WroteIndirect(s2, s', ok, n, src, tbl, 0, j)
    requires Marked(s', tbl) && TableHolds(s', tbl, src, j) && TableAscends(s', tbl, j)
    ensures TableStored(s', n, src, j)
  {
    TookGrew(s, s2, n, tbl - 1, 0);
    DirectSurvives(s, s2, n, src, DIRECT, 1, 0);
    DirectSurvives(s2, s', n, src, DIRECT, j, tbl);
  }

  lemma WriteTableHolds(s: State, n: nat, src: seq<Byte>)
    requires Shaped(s) && n < |s.inodes| && FreeBlocks(s) != {} && 1024 * DIRECT < |src|
    requires DirectHolds(s, n, src, DIRECT) && Ascend(s, s.inodes[n].ptr, DIRECT)
    ensures var t := WriteTable(s, n, src); TableStored(t.0, n, src, t.2)
  {
    var s2, tbl := TableStep(s, n), Least(FreeBlocks(s)) + 1;
    NewBlockInside(s);
    TableStepTook(s, n);
    EntriesStored(s, s2, n, src, tbl);
  }

  lemma EntriesStored(s: State, s2: State, n: nat, src: seq<Byte>, tbl: nat)
    requires Shaped(s2) && n < |s.inodes| == |s2.inodes| && 1024 * DIRECT < |src| && 0 < tbl < |s2.blocks|
    requires TookLowest(s, s2, n, tbl - 1, 0) && PointerSet(s.inodes[n].ptr, s2.inodes[n].ptr, DIRECT, tbl)
    requires DirectHolds(s, n, src, DIRECT) && Ascend(s, s.inodes[n].ptr, DIRECT)
    ensures var t := WriteIndirect(s2, n, src, tbl, 0); TableStored(t.0, n, src, t.2)
  {
    TookFree(s, s2, n, tbl - 1, 0);
    WriteIndirectIs(s2, n, src, tbl, 0);
    WriteIndirectHolds(s2, n, src, tbl, 0);
    var t := WriteIndirect(s2, n, src, tbl, 0);
    TableStoredAfter(s, s2, t.0, t.1, n, src, tbl, t.2);
  }

  /** The pointers of a file of `size` bytes, in the order they are used, ascend. */
  ghost predicate PointersAscend(s: State, n: nat, size: nat)
    requires n < |s.inodes|
  {
    var ptr, count := s.inodes[n].ptr, BlocksFor(size);
    if count <= DIRECT then forall t, u :: 0 <= t < u < count ==> ptr[t] < ptr[u]
    else
      && (forall t, u :: 0 <= t < u <= DIRECT ==> ptr[t] < ptr[u])
      && ptr[DIRECT] < |s.blocks| && count - DIRECT <= TABLE && TableAscends(s, ptr[DIRECT], count - DIRECT)
  }

  ghost predicate ReadsBack(s: State, n: nat, src: seq<Byte>) {
    Readable(s, n) && Content(s, n) == src && PointersAscend(s, n, |src|)
  }

  /** The outcome of the first loop, with what it stored. */
  ghost predicate DirectDone(s0: State, s: State, ok: bool, n: nat, src: seq<Byte>, i: nat) {
    WroteDirect(s0, s, ok, n, src, 0, i) && DirectHolds(s, n, src, i) && Ascend(s, s.inodes[n].ptr, i)
  }

  lemma FirstLoop(s0: State, n: nat, src: seq<Byte>)
    requires Shaped(s0) && n < |s0.inodes|
    ensures var d := WriteDirect(s0, n, src, 0); DirectDone(s0, d.0, d.1, n, src, d.2)
  {
    WriteDirectIs(s0, n, src, 0);
    WriteDirectHolds(s0, n, src, 0);
  }

  lemma ReadsBackDirect(s0: State, s: State, n: nat, src: seq<Byte>, i: nat)
    requires n < |s0.inodes| && s0.inodes[n].size == |src| && DirectDone(s0, s, true, n, src, i) && 1024 * i >= |src|
    ensures ReadsBack(s, n, src)
  {
    BlocksForIs(|src|, i);
    StoredDirect(s, n, src, i);
    StoredReads(s, n, src, 0);
  }

  lemma ReadsBackTable(s1: State, s: State, n: nat, src: seq<Byte>, j: nat)
    requires n < |s1.inodes| && s1.inodes[n].size == |src| && WroteTable(s1, s, true, n, src, j)
    requires |src| <= 1024 * MAX_BLOCKS && TableStored(s, n, src, j)
    ensures ReadsBack(s, n, src)
  {
    BlocksForIs(|src|, DIRECT + j);
    StoredTable(s, n, src, j);
    StoredReads(s, n, src, 0);
  }

  lemma SecondLoop(s0: State, s: State, n: nat, src: seq<Byte>, i: nat)
    requires Shaped(s) && n < |s0.inodes| && s0.inodes[n].size == |src| && DirectDone(s0, s, true, n, src, i)
    requires GoesOn(s, true, src, i) && |src| <= 1024 * MAX_BLOCKS && n < |s.inodes| && WriteTable(s, n, src).1
    ensures ReadsBack(WriteTable(s, n, src).0, n, src)
  {
    WriteTableIs(s, n, src);
    WriteTableHolds(s, n, src);
    var t := WriteTable(s, n, src);
    ReadsBackTable(s, t.0, n, src, t.2);
  }

  /**
   * What a successful write stored reads back as the source, for every length that the direct and
   * the singly indirect blocks can hold; the blocks were handed out in ascending order.
   */
  lemma WriteReadsBack(s: State, n: nat, src: seq<Byte>)
    requires Shaped(s) && n < |s.inodes| && |src| <= 1024 * MAX_BLOCKS && WriteString(s, n, src).1
    ensures ReadsBack(WriteString(s, n, src).0, n, src)
  {
    var s0 := SetSize(s, n, |src|);
    FirstLoop(s0, n, src);
    var d := WriteDirect(s0, n, src, 0);
    if GoesOn(d.0, d.1, src, d.2) {
      SecondLoop(s0, d.0, n, src, d.2);
    } else {
      ReadsBackDirect(s0, d.0, n, src, d.2);
    }
  }
}

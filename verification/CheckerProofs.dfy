/** What a run of the checker achieves, how its fixes are counted, and what a second run does. */
module CheckerProofs {
  import opened Bytes
  import opened Records
  import opened DiskState
  import opened Directory
  import opened Insertion
  import opened Checker

  // ---------- the records stay, but for their types ----------

  function Untyped(e: Entry): Entry { e.(ft := 0) }

  /** The same records at the same places; only types may differ. */
  ghost predicate SameRecords(es: seq<Entry>, es': seq<Entry>) {
    |es'| == |es| && forall i :: 0 <= i < |es| ==> Untyped(es'[i]) == Untyped(es[i])
  }

  ghost predicate OnChain(b: Block, o: nat) { Chain(b, 0, o) && RecOk(b, o) && Chain(b, o + RecLen(b, o), BLOCK_SIZE) }

  lemma RetypedAt(b: Block, o: nat, ft: Byte)
    requires RecOk(b, o)
    ensures var b' := Retype(b, o, ft);
            && RecOk(b', o) && At(b', o) == At(b, o).(ft := ft)
            && Agree(b, b', 0, o) && Agree(b, b', o + HEADER, BLOCK_SIZE)
  {
    var b' := Retype(b, o, ft);
    assert NameOf(b', o) == NameOf(b, o);
  }

  lemma RetypedRest(b: Block, b': Block, o: nat, x: Entry)
    requires OnChain(b, o) && RecOk(b', o) && At(b', o) == x && x.len == RecLen(b, o)
    requires Agree(b, b', o + HEADER, BLOCK_SIZE)
    ensures Chain(b', o, BLOCK_SIZE) && Entries(b', o, BLOCK_SIZE) == [x] + Entries(b, o + RecLen(b, o), BLOCK_SIZE)
  {
    ChainFrame(b, b', o + RecLen(b, o), BLOCK_SIZE);
    ChainCons(b', o, x, BLOCK_SIZE);
  }

  lemma RetypedLive(b: Block, o: nat, ft: Byte)
    requires OnChain(b, o)
    ensures BlockOk(b) && BlockOk(Retype(b, o, ft)) && SameRecords(Live(b), Live(Retype(b, o, ft)))
  {
    var b', x := Retype(b, o, ft), At(b, o);
    RetypedAt(b, o, ft);
    BlockAt(b, o, x);
    ChainFrame(b, b', 0, o);
    RetypedRest(b, b', o, At(b', o));
    ChainAppend(b', 0, o, BLOCK_SIZE);
    RetypedSame(Entries(b, 0, o), x, At(b', o), Entries(b, o + x.len, BLOCK_SIZE));
  }

  lemma RetypedSame(a: seq<Entry>, x: Entry, x': Entry, b: seq<Entry>)
    requires Untyped(x') == Untyped(x)
    ensures SameRecords(a + [x] + b, a + ([x'] + b))
  {
  }

  lemma NextOnChain(b: Block, o: nat, next: nat)
    requires Chain(b, 0, o) && RecOk(b, o) && next == o + RecLen(b, o)
    ensures Chain(b, 0, next)
  {
    ChainCons(b, o, At(b, o), next);
    ChainAppend(b, 0, o, next);
  }

  lemma {:induction false} OnChainIn(b: Block, o: nat, e: Entry)
    requires Chain(b, 0, o) && Chain(b, o, BLOCK_SIZE) && e in Entries(b, o, BLOCK_SIZE)
    ensures OnChain(b, e.off) && e == At(b, e.off)
    decreases BLOCK_SIZE - o
  {
    if e != At(b, o) {
      NextOnChain(b, o, o + RecLen(b, o));
      OnChainIn(b, o + RecLen(b, o), e);
    }
  }

  lemma LiveOnChain(b: Block, e: Entry)
    requires BlockOk(b) && e in Live(b)
    ensures OnChain(b, e.off) && e == At(b, e.off)
  {
    assert Chain(b, 0, 0);
    OnChainIn(b, 0, e);
  }

  lemma ChainInLive(b: Block, o: nat) returns (e: Entry)
    requires OnChain(b, o)
    ensures BlockOk(b) && e in Live(b) && e == At(b, o)
  {
    e := At(b, o);
    BlockAt(b, o, e);
    assert Live(b)[|Entries(b, 0, o)|] == e;
  }

  // ---------- the checks stay ----------

  /** What the list of checks is made from. */
  ghost predicate SameShape(s: State, s': State) {
    && SameSizes(s, s')
    && (forall n :: 0 <= n < |s.inodes| ==>
          s'.inodes[n].mode == s.inodes[n].mode && s'.inodes[n].ptr == s.inodes[n].ptr)
    && (forall k :: 0 <= k < |s.blocks| && BlockOk(s.blocks[k]) ==>
          BlockOk(s'.blocks[k]) && SameRecords(Live(s.blocks[k]), Live(s'.blocks[k])))
  }

  lemma ShapeTrans(s: State, s1: State, s2: State)
    requires SameShape(s, s1) && SameShape(s1, s2)
    ensures SameShape(s, s2)
  {
    forall k | 0 <= k < |s.blocks| && BlockOk(s.blocks[k])
      ensures BlockOk(s2.blocks[k]) && SameRecords(Live(s.blocks[k]), Live(s2.blocks[k])) {}
  }

  lemma {:induction false} ShapeLive(s: State, s': State, ps: seq<nat>)
    requires SameShape(s, s') && BlocksOk(s.blocks, ps)
    ensures BlocksOk(s'.blocks, ps) && SameRecords(LiveOf(s.blocks, ps), LiveOf(s'.blocks, ps))
  {
    if ps != [] { ShapeLive(s, s', ps[1..]); }
  }

  lemma {:induction false} ShapeTypesIn(k: nat, es: seq<Entry>, es': seq<Entry>)
    requires SameRecords(es, es') && forall e :: e in es ==> e.ino > 0
    ensures (forall e :: e in es' ==> e.ino > 0) && TypesIn(k, es') == TypesIn(k, es)
  {
    forall e | e in es' ensures e.ino > 0 {
      var i :| 0 <= i < |es'| && es'[i] == e;
      assert Untyped(es'[i]) == Untyped(es[i]) && es[i] in es;
    }
    if es != [] {
      assert Untyped(es'[0]) == Untyped(es[0]);
      assert SameRecords(es[1..], es'[1..]);
      ShapeTypesIn(k, es[1..], es'[1..]);
    }
  }

  lemma NamedKept(s: State, s': State, es: seq<Entry>, es': seq<Entry>)
    requires |s'.inodes| == |s.inodes| && SameRecords(es, es') && Named(s, es)
    ensures Named(s', es')
  {
    forall e | e in es' ensures 0 < e.ino <= |s.inodes| {
      var i :| 0 <= i < |es'| && es'[i] == e;
      assert Untyped(es'[i]) == Untyped(es[i]) && es[i] in es;
    }
  }

  lemma {:induction false} ShapeTypesOf(s: State, s': State, ps: seq<nat>)
    requires SameShape(s, s') && BlocksOk(s.blocks, ps) && Named(s, LiveOf(s.blocks, ps))
    ensures BlocksOk(s'.blocks, ps) && Named(s', LiveOf(s'.blocks, ps)) && TypesOf(s', ps) == TypesOf(s, ps)
  {
    ShapeLive(s, s', ps);
    NamedKept(s, s', LiveOf(s.blocks, ps), LiveOf(s'.blocks, ps));
    if ps != [] {
      ShapeTypesIn(ps[0], Live(s.blocks[ps[0]]), Live(s'.blocks[ps[0]]));
      ShapeTypesOf(s, s', ps[1..]);
    }
  }

  lemma ShapeEntry(s: State, s': State, k: nat, e: Entry, e': Entry)
    requires SameShape(s, s') && Untyped(e') == Untyped(e) && EntryChecked(s, e)
    ensures EntryChecked(s', e') && EntryChecks(s', k, e') == EntryChecks(s, k, e)
  {
    assert e'.off == e.off && e'.ino == e.ino && e'.name == e.name;
    ShapeInner(s, s', e, e');
    assert OuterChecks(k, e') == OuterChecks(k, e);
  }

  lemma ShapeInner(s: State, s': State, e: Entry, e': Entry)
    requires SameShape(s, s') && e'.ino == e.ino && e'.name == e.name && EntryChecked(s, e)
    ensures EntryChecked(s', e') && InnerChecks(s', e') == InnerChecks(s, e)
    ensures Direct(s'.inodes[e.ino].ptr) == Direct(s.inodes[e.ino].ptr)
  {
    if LooksInto(s, e) {
      ShapeTypesOf(s, s', Direct(s.inodes[e.ino - 1].ptr));
    }
  }

  lemma {:induction false} ShapeChecksIn(s: State, s': State, k: nat, es: seq<Entry>, es': seq<Entry>)
    requires SameShape(s, s') && SameRecords(es, es') && forall e :: e in es ==> EntryChecked(s, e)
    ensures (forall e :: e in es' ==> EntryChecked(s', e)) && ChecksIn(s', k, es') == ChecksIn(s, k, es)
  {
    forall e | e in es' ensures EntryChecked(s', e) {
      var i :| 0 <= i < |es'| && es'[i] == e;
      assert Untyped(es'[i]) == Untyped(es[i]) && es[i] in es;
      ShapeEntry(s, s', k, es[i], e);
    }
    if es != [] {
      assert Untyped(es'[0]) == Untyped(es[0]) && es[0] in es;
      ShapeEntry(s, s', k, es[0], es'[0]);
      assert SameRecords(es[1..], es'[1..]);
      ShapeChecksIn(s, s', k, es[1..], es'[1..]);
    }
  }

  lemma {:induction false} ShapeChecksOf(s: State, s': State, ps: seq<nat>)
    requires SameShape(s, s') && BlocksOk(s.blocks, ps) && forall e :: e in LiveOf(s.blocks, ps) ==> EntryChecked(s, e)
    ensures BlocksOk(s'.blocks, ps) && (forall e :: e in LiveOf(s'.blocks, ps) ==> EntryChecked(s', e))
    ensures ChecksOf(s', ps) == ChecksOf(s, ps)
  {
    if ps != [] {
      ShapeChecksIn(s, s', ps[0], Live(s.blocks[ps[0]]), Live(s'.blocks[ps[0]]));
      ShapeChecksOf(s, s', ps[1..]);
    }
  }

  /** Repairs do not change what there is to check. */
  lemma ShapeChecks(s: State, s': State)
    requires Checkable(s) && SameShape(s, s') && Shaped(s')
    ensures Checkable(s') && Checks(s') == Checks(s)
  {
    if IsDir(s.inodes[ROOT].mode) { ShapeChecksOf(s, s', Direct(s.inodes[ROOT].ptr)); }
  }

  // ---------- where the checks apply ----------

  /** A check of a record's type is about a record of the chain, and the inode it names. */
  ghost predicate Sited(s: State, c: Check) {
    && Fits(s, c)
    && (c.TypeAt? ==> OnChain(s.blocks[c.block], c.off) && Ino(s.blocks[c.block], c.off) == c.n + 1)
  }

  ghost predicate AllSited(s: State, cs: seq<Check>) { forall c :: c in cs ==> Sited(s, c) }

  lemma {:induction false} TypesInSited(s: State, k: nat, es: seq<Entry>)
    requires k < |s.blocks| && BlockOk(s.blocks[k]) && Named(s, es) && forall e :: e in es ==> e in Live(s.blocks[k])
    ensures AllSited(s, TypesIn(k, es))
  {
    if es != [] {
      LiveOnChain(s.blocks[k], es[0]);
      TypesInSited(s, k, es[1..]);
    }
  }

  lemma {:induction false} TypesOfSited(s: State, ps: seq<nat>)
    requires BlocksOk(s.blocks, ps) && Named(s, LiveOf(s.blocks, ps))
    ensures AllSited(s, TypesOf(s, ps))
  {
    if ps != [] {
      TypesInSited(s, ps[0], Live(s.blocks[ps[0]]));
      TypesOfSited(s, ps[1..]);
    }
  }

  lemma {:induction false} BlockBitsSited(s: State, ps: seq<nat>)
    requires forall i :: 0 <= i < |ps| ==> 0 < ps[i] <= |s.blockBits|
    ensures AllSited(s, BlockBits(ps))
  {
    if ps != [] { BlockBitsSited(s, ps[1..]); }
  }

  lemma EntrySited(s: State, k: nat, e: Entry)
    requires Shaped(s) && k < |s.blocks| && BlockOk(s.blocks[k]) && e in Live(s.blocks[k]) && EntryChecked(s, e)
    ensures AllSited(s, EntryChecks(s, k, e))
  {
    LiveOnChain(s.blocks[k], e);
    var ps := Direct(s.inodes[e.ino].ptr);
    forall i | 0 <= i < |ps| ensures 0 < ps[i] <= |s.blockBits| { assert ps[i] in ps; }
    BlockBitsSited(s, ps);
    if LooksInto(s, e) { TypesOfSited(s, Direct(s.inodes[e.ino - 1].ptr)); }
  }

  lemma {:induction false} ChecksInSited(s: State, k: nat, es: seq<Entry>)
    requires Shaped(s) && k < |s.blocks| && BlockOk(s.blocks[k]) && forall e :: e in es ==> e in Live(s.blocks[k])
    requires forall e :: e in es ==> EntryChecked(s, e)
    ensures AllSited(s, ChecksIn(s, k, es))
  {
    if es != [] {
      EntrySited(s, k, es[0]);
      ChecksInSited(s, k, es[1..]);
    }
  }

  lemma {:induction false} ChecksOfSited(s: State, ps: seq<nat>)
    requires Shaped(s) && BlocksOk(s.blocks, ps) && forall e :: e in LiveOf(s.blocks, ps) ==> EntryChecked(s, e)
    ensures AllSited(s, ChecksOf(s, ps))
  {
    if ps != [] {
      ChecksInSited(s, ps[0], Live(s.blocks[ps[0]]));
      ChecksOfSited(s, ps[1..]);
    }
  }

  lemma ChecksSited(s: State)
    requires Checkable(s)
    ensures AllSited(s, Checks(s))
  {
    if IsDir(s.inodes[ROOT].mode) { ChecksOfSited(s, Direct(s.inodes[ROOT].ptr)); }
  }

  lemma SitedKept(s: State, s': State, c: Check)
    requires SameShape(s, s') && Sited(s, c)
    ensures Sited(s', c)
  {
    if c.TypeAt? {
      var e := ChainInLive(s.blocks[c.block], c.off);
      var es, es' := Live(s.blocks[c.block]), Live(s'.blocks[c.block]);
      var i :| 0 <= i < |es| && es[i] == e;
      assert Untyped(es'[i]) == Untyped(es[i]);
      assert es'[i] in es';
      LiveOnChain(s'.blocks[c.block], es'[i]);
    }
  }

  lemma DoShape(s: State, c: Check)
    requires Sited(s, c)
    ensures SameShape(s, Do(s, c).0)
  {
    if c.TypeAt? && !Holds(s, c) { RetypedLive(s.blocks[c.block], c.off, TypeOf(s.inodes[c.n].mode).value); }
  }

  // ---------- a list of checks ----------

  /** Two checks of the same record expect the same inode. */
  ghost predicate Agreed(c: Check,
                         x: Check) { c.TypeAt? && x.TypeAt? && c.block == x.block && c.off == x.off ==> c.n == x.n }

  lemma HoldsAfter(s: State, c: Check)
    requires Fits(s, c)
    ensures Holds(Do(s, c).0, c)
  {
  }

  /** A check that holds still does after any other. */
  lemma HoldsStill(s: State, c: Check, x: Check)
    requires Fits(s, c) && Fits(s, x) && Agreed(c, x) && Holds(s, c)
    ensures Holds(Do(s, x).0, c)
  {
    if c.TypeAt? && x.TypeAt? && c.block == x.block && !Holds(s, x) {
      assert c.off != x.off;
    }
  }

  ghost predicate AllAgreed(c: Check, cs: seq<Check>) { forall x :: x in cs ==> Agreed(c, x) }

  lemma {:induction false} HoldsThroughout(s: State, c: Check, cs: seq<Check>)
    requires Fits(s, c) && AllFit(s, cs) && AllAgreed(c, cs) && Holds(s, c)
    ensures Holds(DoAll(s, cs).0, c)
    decreases |cs|
  {
    if cs != [] {
      HoldsStill(s, c, cs[0]);
      assert forall x :: x in cs[1..] ==> x in cs && Fits(s, x);
      HoldsThroughout(Do(s, cs[0]).0, c, cs[1..]);
    }
  }

  lemma SitedAgreed(s: State, c: Check, cs: seq<Check>)
    requires Sited(s, c) && AllSited(s, cs)
    ensures AllAgreed(c, cs)
  {
  }

  lemma SitedTail(s: State, cs: seq<Check>)
    requires cs != [] && AllSited(s, cs)
    ensures Sited(s, cs[0]) && AllFit(s, cs) && AllSited(s, cs[1..])
    ensures AllSited(Do(s, cs[0]).0, cs[1..]) && AllFit(Do(s, cs[0]).0, cs[1..])
  {
    DoShape(s, cs[0]);
    forall x | x in cs[1..] ensures Sited(s, x) && Sited(Do(s, cs[0]).0, x) {
      assert x in cs;
      SitedKept(s, Do(s, cs[0]).0, x);
    }
  }

  /** All checks done, everything holds that was checked. */
  lemma {:induction false} AllHold(s: State, cs: seq<Check>)
    requires AllSited(s, cs) && AllFit(s, cs)
    ensures forall c :: c in cs ==> Holds(DoAll(s, cs).0, c)
    ensures SameShape(s, DoAll(s, cs).0)
    decreases |cs|
  {
    if cs != [] {
      var s1 := Do(s, cs[0]).0;
      SitedTail(s, cs);
      DoShape(s, cs[0]);
      AllHold(s1, cs[1..]);
      ShapeTrans(s, s1, DoAll(s1, cs[1..]).0);
      HoldsAfter(s, cs[0]);
      SitedAgreed(s, cs[0], cs[1..]);
      HoldsThroughout(s1, cs[0], cs[1..]);
    }
  }

  /** Where everything holds, checking changes nothing. */
  lemma {:induction false} NothingToFix(s: State, cs: seq<Check>)
    requires forall c :: c in cs ==> Fits(s, c) && Holds(s, c)
    ensures DoAll(s, cs) == (s, 0)
  {
    if cs != [] {
      assert forall c :: c in cs[1..] ==> c in cs && Fits(s, c);
      NothingToFix(s, cs[1..]);
    }
  }

  // ---------- counting the fixes ----------

  ghost function NewBits(bits: seq<bool>, bits': seq<bool>): set<nat>
    requires |bits'| == |bits|
  { set k | 0 <= k < |bits| && bits'[k] && !bits[k] }

  ghost function Undeleted(a: seq<Inode>, a': seq<Inode>): set<nat>
    requires |a'| == |a|
  { set n | 0 <= n < |a| && a'[n].dtime != a[n].dtime }

  /** The bytes that differ. */
  ghost function Rewritten(bs: seq<Block>, bs': seq<Block>): set<(nat, nat)>
    requires |bs'| == |bs|
  { set k, i | 0 <= k < |bs| && 0 <= i < BLOCK_SIZE && bs'[k][i] != bs[k][i] :: (k, i) }

  ghost function Differences(s: State, s': State): nat
    requires SameSizes(s, s')
  {
    |NewBits(s.inodeBits, s'.inodeBits)| + |NewBits(s.blockBits, s'.blockBits)|
    + |Undeleted(s.inodes, s'.inodes)| + |Rewritten(s.blocks, s'.blocks)|
  }

  lemma NewBitsStep(bits: seq<bool>, bits': seq<bool>, n: nat)
    requires n < |bits| == |bits'| && !bits[n] && bits'[n]
    ensures |NewBits(bits, bits')| == |NewBits(bits[n := true], bits')| + 1
  {
    assert NewBits(bits, bits') == NewBits(bits[n := true], bits') + {n};
  }

  lemma UndeletedStep(a: seq<Inode>, a': seq<Inode>, n: nat)
    requires n < |a| == |a'| && a[n].dtime != 0 && a'[n].dtime == 0
    ensures |Undeleted(a, a')| == |Undeleted(a[n := a[n].(dtime := 0)], a')| + 1
  {
    assert Undeleted(a, a') == Undeleted(a[n := a[n].(dtime := 0)], a') + {n};
  }

  lemma RewrittenStep(bs: seq<Block>, bs': seq<Block>, k: nat, o: nat, ft: Byte)
    requires k < |bs| == |bs'| && o + HEADER <= BLOCK_SIZE && bs[k][o + 7] != ft == bs'[k][o + 7]
    ensures |Rewritten(bs, bs')| == |Rewritten(bs[k := Retype(bs[k], o, ft)], bs')| + 1
  {
    var mid := bs[k := Retype(bs[k], o, ft)];
    assert Rewritten(bs, bs') == Rewritten(mid, bs') + {(k, o + 7)};
  }

  lemma DifferencesStep(s: State, s': State, c: Check)
    requires Fits(s, c) && SameSizes(s, s') && Holds(s', c)
    requires forall n :: 0 <= n < |s.inodes| ==> s'.inodes[n].mode == s.inodes[n].mode
    ensures Differences(s, s') == Do(s, c).1 + Differences(Do(s, c).0, s')
  {
    if !Holds(s, c) {
      match c
      case TypeAt(k, o, n) => RewrittenStep(s.blocks, s'.blocks, k, o, TypeOf(s.inodes[n].mode).value);
      case InodeBit(n) => NewBitsStep(s.inodeBits, s'.inodeBits, n);
      case Dtime(n) => UndeletedStep(s.inodes, s'.inodes, n);
      case BlockBit(k) => NewBitsStep(s.blockBits, s'.blockBits, k);
    }
  }

  /** The number of fixes is the number of bits, deletion times and bytes that are different now. */
  lemma {:induction false} FixesAreDifferences(s: State, cs: seq<Check>)
    requires AllSited(s, cs) && AllFit(s, cs)
    ensures DoAll(s, cs).1 == Differences(s, DoAll(s, cs).0)
    decreases |cs|
  {
    if cs == [] {
      NoDifferences(s);
    } else {
      var s1 := Do(s, cs[0]).0;
      SitedTail(s, cs);
      FixesAreDifferences(s1, cs[1..]);
      AllHold(s, cs);
      DifferencesStep(s, DoAll(s, cs).0, cs[0]);
    }
  }

  lemma NoDifferences(s: State)
    ensures Differences(s, s) == 0
  {
    assert NewBits(s.inodeBits, s.inodeBits) == {} && NewBits(s.blockBits, s.blockBits) == {};
    assert Undeleted(s.inodes, s.inodes) == {} && Rewritten(s.blocks, s.blocks) == {};
  }

  // ---------- the counters ----------

  ghost predicate BlocksCounted(s: State) { s.sbFreeBlocks == s.gdFreeBlocks == |FreeBlocks(s)| }

  /** The inode counters are `off` too low. */
  ghost predicate InodesCounted(s: State, off: int) {
    s.sbFreeInodes == U32(|FreeInodes(s)| - off) && s.gdFreeInodes == U16(|FreeInodes(s)| - off)
  }

  ghost function ReservedClear(s: State): set<nat> {
    set n | 0 <= n < |s.inodeBits| && Reserved(n) && !s.inodeBits[n]
  }

  lemma InodeBitSets(s: State, n: nat)
    requires n < |s.inodeBits| && !s.inodeBits[n]
    ensures var s' := TakeInode(s, n);
            && FreeBlocks(s') == FreeBlocks(s)
            && |ReservedClear(s')| == |ReservedClear(s)| - (if Reserved(n) then 1 else 0)
            && |FreeInodes(s')| == |FreeInodes(s)| - (if Reserved(n) then 0 else 1)
  {
    if Reserved(n) { ReservedTaken(s, TakeInode(s, n), n); } else { InodeTaken(s, TakeInode(s, n), n); }
  }

  lemma Wrap16(x: int)
    ensures U16(U16(x) - 1) == U16(x - 1)
  {
    var q, r := x / 0x1_0000, U16(x);
    assert x - 1 == if r > 0 then 0x1_0000 * q + (r - 1) else 0x1_0000 * (q - 1) + 0xFFFF;
  }

  lemma Wrap32(x: int)
    ensures U32(U32(x) - 1) == U32(x - 1)
  {
    var q, r := x / 0x1_0000_0000, U32(x);
    assert x - 1 == if r > 0 then 0x1_0000_0000 * q + (r - 1) else 0x1_0000_0000 * (q - 1) + 0xFFFF_FFFF;
  }

  lemma InodeBitCounters(s: State, n: nat, off: int)
    requires n < |s.inodeBits| && !s.inodeBits[n] && InodesCounted(s, off)
    ensures var s' := TakeInode(s, n);
            && FreeBlocks(s') == FreeBlocks(s)
            && |ReservedClear(s')| == |ReservedClear(s)| - (if Reserved(n) then 1 else 0)
            && InodesCounted(s', off + (if Reserved(n) then 1 else 0))
  {
    InodeBitSets(s, n);
    Wrap16(|FreeInodes(s)| - off);
    Wrap32(|FreeInodes(s)| - off);
  }

  lemma BlockBitCounters(s: State, s': State, k: nat)
    requires Shaped(s) && BlocksCounted(s) && k < |s.blockBits| && !s.blockBits[k] && s' == TakeBlock(s, k)
    ensures Shaped(s') && BlocksCounted(s')
    ensures FreeInodes(s') == FreeInodes(s) && ReservedClear(s') == ReservedClear(s)
  {
    BlockTaken(s, s', k);
    SubsetCard(FreeBlocks(s), |s.blockBits|);
  }

  lemma BlockTaken(s: State, s': State, k: nat)
    requires k < |s.blockBits| && !s.blockBits[k] && s'.blockBits == s.blockBits[k := true]
    ensures |FreeBlocks(s)| == |FreeBlocks(s')| + 1
  {
    assert FreeBlocks(s) == FreeBlocks(s') + {k};
  }

  lemma InodeTaken(s: State, s': State, n: nat)
    requires n < |s.inodeBits| && !s.inodeBits[n] && s'.inodeBits == s.inodeBits[n := true] && !Reserved(n)
    ensures |FreeInodes(s)| == |FreeInodes(s')| + 1 && ReservedClear(s') == ReservedClear(s)
  {
    assert FreeInodes(s) == FreeInodes(s') + {n};
  }

  lemma ReservedTaken(s: State, s': State, n: nat)
    requires n < |s.inodeBits| && !s.inodeBits[n] && s'.inodeBits == s.inodeBits[n := true] && Reserved(n)
    ensures |ReservedClear(s)| == |ReservedClear(s')| + 1 && FreeInodes(s') == FreeInodes(s)
  {
    assert ReservedClear(s) == ReservedClear(s') + {n};
  }

  lemma DoCounters(s: State, c: Check, off: int)
    requires Shaped(s) && Fits(s, c) && BlocksCounted(s) && InodesCounted(s, off)
    ensures var s' := Do(s, c).0;
            && Shaped(s') && BlocksCounted(s')
            && InodesCounted(s', off + |ReservedClear(s)| - |ReservedClear(s')|)
            && ((c.InodeBit? && Reserved(c.n)) || |ReservedClear(s')| == |ReservedClear(s)|)
  {
    var s' := Do(s, c).0;
    if !Holds(s, c) {
      match c
      case InodeBit(n) => InodeBitCounters(s, n, off);
      case BlockBit(k) => BlockBitCounters(s, s', k);
      case _ =>
        assert FreeBlocks(s') == FreeBlocks(s) && FreeInodes(s') == FreeInodes(s)
          && ReservedClear(s') == ReservedClear(s);
    }
  }

  /** After any number of repairs the block counters are right, the inode counters up to reserved inodes. */
  lemma {:induction false} DoAllCounters(s: State, cs: seq<Check>, off: int)
    requires Shaped(s) && AllFit(s, cs) && BlocksCounted(s) && InodesCounted(s, off)
    ensures var s' := DoAll(s, cs).0;
            && Shaped(s') && BlocksCounted(s')
            && InodesCounted(s', off + |ReservedClear(s)| - |ReservedClear(s')|)
    decreases |cs|
  {
    if cs != [] {
      var s1 := Do(s, cs[0]).0;
      DoCounters(s, cs[0], off);
      assert forall c :: c in cs[1..] ==> c in cs && Fits(s, c);
      DoAllCounters(s1, cs[1..], off + |ReservedClear(s)| - |ReservedClear(s1)|);
    }
  }

  /** A check of a reserved inode whose bit is clear. */
  ghost predicate Offends(s: State, c: Check) { Fits(s, c) && c.InodeBit? && Reserved(c.n) && !s.inodeBits[c.n] }

  lemma {:induction false} ReservedKept(s: State, cs: seq<Check>)
    requires AllFit(s, cs) && forall c :: c in cs ==> !Offends(s, c)
    ensures ReservedClear(DoAll(s, cs).0) == ReservedClear(s)
    decreases |cs|
  {
    if cs != [] {
      var s1 := Do(s, cs[0]).0;
      assert ReservedClear(s1) == ReservedClear(s) by { assert cs[0] in cs; }
      forall c | c in cs[1..] ensures c in cs && Fits(s, c) && !Offends(s1, c) {}
      ReservedKept(s1, cs[1..]);
    }
  }

  lemma {:induction false} BitsStay(s: State, cs: seq<Check>, n: nat)
    requires AllFit(s, cs) && n < |s.inodeBits| && s.inodeBits[n]
    ensures DoAll(s, cs).0.inodeBits[n]
    decreases |cs|
  {
    if cs != [] {
      assert forall c :: c in cs[1..] ==> c in cs && Fits(s, c);
      BitsStay(Do(s, cs[0]).0, cs[1..], n);
    }
  }

  lemma SmallerCard<T>(a: set<T>, b: set<T>)
    requires a <= b
    ensures |a| <= |b| && (|a| == |b| <==> a == b)
  {
    assert b == a + (b - a);
  }

  /** The reserved inodes whose bits were set are as many as the inode counters are off. */
  lemma ReservedFixed(s: State, cs: seq<Check>)
    requires AllSited(s, cs) && AllFit(s, cs)
    ensures var c, c' := |ReservedClear(s)|, |ReservedClear(DoAll(s, cs).0)|;
            c' <= c <= 11 && (c' < c <==> exists x :: x in cs && Offends(s, x))
  {
    var s' := DoAll(s, cs).0;
    forall n | n in ReservedClear(s') ensures n in ReservedClear(s) {
      if s.inodeBits[n] { BitsStay(s, cs, n); }
    }
    SmallerCard(ReservedClear(s'), ReservedClear(s));
    SubsetCard(ReservedClear(s), 11);
    if x :| x in cs && Offends(s, x) {
      AllHold(s, cs);
      assert Holds(s', x) && x.n in ReservedClear(s);
    } else {
      ReservedKept(s, cs);
    }
  }
}

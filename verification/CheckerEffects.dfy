/** What a run of ext2_checker leaves of a disk, bit by bit and byte by byte. */
module CheckerEffects {
  import opened Options
  import opened Bytes
  import opened Records
  import opened DiskState
  import opened Directory
  import opened Checker
  import opened CheckerProofs
  import opened CheckerRuns

  // ---------- which records are looked at ----------

  /** The type byte that goes with the mode: 2 for a directory, 7 for a symbolic link, 1 for a regular file. */
  predicate RightType(mode: nat, ft: Byte) {
    && (mode / 0x1000 % 0x10 == 4 ==> ft == 2)
    && (mode / 0x1000 % 0x10 == 10 ==> ft == 7)
    && (mode / 0x1000 % 0x10 == 8 ==> ft == 1)
  }

  /** A record of `es` names directory `d`, not as "." or "..", and `d` is not reserved. */
  ghost predicate NamesDir(s: State, es: seq<Entry>, d: nat) {
    && d < |s.inodes| && s.inodes[d].mode / 0x1000 % 0x10 == 4 && (d == 1 || d > 10)
    && exists e :: e in es && e.ino == d + 1 && e.name != [46] && e.name != [46, 46]
  }

  /** The root, and the directories that it has a record of. */
  ghost predicate Visited(s: State, d: nat)
    requires DirOk(s, ROOT)
  { d == ROOT || NamesDir(s, DirEntries(s, ROOT), d) }

  /** `e` is a record of `es`, at offset `o`, and names inode `n`. */
  ghost predicate RecordAt(es: seq<Entry>, o: nat, n: nat, e: Entry) { e in es && e.off == o && e.ino == n + 1 }

  ghost predicate HasRecordAt(es: seq<Entry>, o: nat, n: nat) { exists e :: RecordAt(es, o, n, e) }

  /** Block `k`, one of the blocks `ps`, has such a record. */
  ghost predicate RecordIn(s: State, ps: seq<nat>, k: nat, o: nat, n: nat) {
    k in ps && k < |s.blocks| && BlockOk(s.blocks[k]) && HasRecordAt(Live(s.blocks[k]), o, n)
  }

  lemma {:induction false} InTypesIn(p: nat, es: seq<Entry>, k: nat, o: nat, n: nat)
    requires forall e :: e in es ==> e.ino > 0
    ensures TypeAt(k, o, n) in TypesIn(p, es) <==> k == p && HasRecordAt(es, o, n)
  {
    if es != [] {
      InTypesIn(p, es[1..], k, o, n);
      assert es == [es[0]] + es[1..];
      assert HasRecordAt(es, o, n) <==> RecordAt(es, o, n, es[0]) || HasRecordAt(es[1..], o, n) by {
        if HasRecordAt(es[1..], o, n) {
          var e :| RecordAt(es[1..], o, n, e);
          assert RecordAt(es, o, n, e);
        }
        if HasRecordAt(es, o, n) {
          var e :| RecordAt(es, o, n, e);
          assert e == es[0] || RecordAt(es[1..], o, n, e);
        }
      }
    }
  }

  lemma {:induction false} InTypesOf(s: State, ps: seq<nat>, k: nat, o: nat, n: nat)
    requires BlocksOk(s.blocks, ps) && Named(s, LiveOf(s.blocks, ps))
    ensures TypeAt(k, o, n) in TypesOf(s, ps) <==> RecordIn(s, ps, k, o, n)
  {
    if ps != [] {
      InTypesIn(ps[0], Live(s.blocks[ps[0]]), k, o, n);
      InTypesOf(s, ps[1..], k, o, n);
      assert ps == [ps[0]] + ps[1..];
    }
  }

  lemma {:induction false} OnlyBits(ps: seq<nat>)
    requires forall i :: 0 <= i < |ps| ==> ps[i] > 0
    ensures forall c :: c in BlockBits(ps) ==> c.BlockBit?
  {
    if ps != [] { OnlyBits(ps[1..]); }
  }

  lemma {:induction false} OnlyTypesIn(k: nat, es: seq<Entry>)
    requires forall e :: e in es ==> e.ino > 0
    ensures forall c :: c in TypesIn(k, es) ==> c.TypeAt?
  {
    if es != [] { OnlyTypesIn(k, es[1..]); }
  }

  lemma {:induction false} OnlyTypes(s: State, ps: seq<nat>)
    requires BlocksOk(s.blocks, ps) && Named(s, LiveOf(s.blocks, ps))
    ensures forall c :: c in TypesOf(s, ps) ==> c.TypeAt?
  {
    if ps != [] {
      OnlyTypesIn(ps[0], Live(s.blocks[ps[0]]));
      OnlyTypes(s, ps[1..]);
    }
  }

  /** The record is one that the checker looks into, and that directory has such a record. */
  ghost predicate Inside(s: State, e: Entry, k: nat, o: nat, n: nat) {
    && 0 < e.ino <= |s.inodes| && NamesDir(s, [e], e.ino - 1)
    && RecordIn(s, Direct(s.inodes[e.ino - 1].ptr), k, o, n)
  }

  lemma LooksIntoIff(s: State, e: Entry)
    requires 0 < e.ino <= |s.inodes|
    ensures LooksInto(s, e) <==> NamesDir(s, [e], e.ino - 1)
  {
    assert e in [e];
  }

  /** Whether the list checks that record's type, and the bit and deletion time of inode `n`. */
  ghost predicate Lists(cs: seq<Check>, k: nat, o: nat, n: nat, types: bool, inode: bool) {
    (TypeAt(k, o, n) in cs <==> types) && (InodeBit(n) in cs <==> inode) && (Dtime(n) in cs <==> inode)
  }

  lemma ListsBoth(a: seq<Check>, b: seq<Check>, k: nat, o: nat, n: nat, t: bool, i: bool, t': bool, i': bool)
    requires Lists(a, k, o, n, t, i) && Lists(b, k, o, n, t', i')
    ensures Lists(a + b, k, o, n, t || t', i || i')
  {
  }

  lemma InOuter(p: nat, e: Entry, k: nat, o: nat, n: nat)
    requires e.ino > 0
    ensures Lists(OuterChecks(p, e), k, o, n, k == p && o == e.off && n == e.ino - 1, n == e.ino - 1)
  {
  }

  lemma InBits(ps: seq<nat>, k: nat, o: nat, n: nat)
    requires forall i :: 0 <= i < |ps| ==> ps[i] > 0
    ensures Lists(BlockBits(ps), k, o, n, false, false)
  {
    OnlyBits(ps);
  }

  lemma InInner(s: State, e: Entry, k: nat, o: nat, n: nat)
    requires EntryChecked(s, e)
    ensures Lists(InnerChecks(s, e), k, o, n, Inside(s, e, k, o, n), false)
  {
    LooksIntoIff(s, e);
    if LooksInto(s, e) {
      OnlyTypes(s, Direct(s.inodes[e.ino - 1].ptr));
      InTypesOf(s, Direct(s.inodes[e.ino - 1].ptr), k, o, n);
    }
  }

  lemma InEntryChecks(s: State, p: nat, e: Entry, k: nat, o: nat, n: nat)
    requires EntryChecked(s, e)
    ensures Lists(EntryChecks(s, p, e), k, o, n,
                  (k == p && o == e.off && n == e.ino - 1) || Inside(s, e, k, o, n), n == e.ino - 1)
  {
    var here, bits := k == p && o == e.off && n == e.ino - 1, BlockBits(Direct(s.inodes[e.ino].ptr));
    InOuter(p, e, k, o, n);
    InBits(Direct(s.inodes[e.ino].ptr), k, o, n);
    InInner(s, e, k, o, n);
    ListsBoth(OuterChecks(p, e), bits, k, o, n, here, n == e.ino - 1, false, false);
    ListsBoth(OuterChecks(p, e) + bits, InnerChecks(s, e), k, o, n, here, n == e.ino - 1, Inside(s, e, k, o, n), false);
  }

  ghost predicate InsideOne(s: State, es: seq<Entry>, k: nat, o: nat, n: nat) {
    exists e :: e in es && Inside(s, e, k, o, n)
  }

  ghost predicate NamesInode(es: seq<Entry>, n: nat) { exists e :: e in es && e.ino == n + 1 }

  lemma HasMore(e: Entry, es: seq<Entry>, o: nat, n: nat)
    ensures HasRecordAt([e] + es, o, n) <==> (o == e.off && e.ino == n + 1) || HasRecordAt(es, o, n)
    ensures NamesInode([e] + es, n) <==> e.ino == n + 1 || NamesInode(es, n)
  {
    if HasRecordAt(es, o, n) {
      var x :| RecordAt(es, o, n, x);
      assert RecordAt([e] + es, o, n, x);
    }
    if o == e.off && e.ino == n + 1 { assert RecordAt([e] + es, o, n, e); }
    if HasRecordAt([e] + es, o, n) {
      var x :| RecordAt([e] + es, o, n, x);
      assert x == e || RecordAt(es, o, n, x);
    }
  }

  lemma InsideMore(s: State, e: Entry, es: seq<Entry>, k: nat, o: nat, n: nat)
    ensures InsideOne(s, [e] + es, k, o, n) <==> Inside(s, e, k, o, n) || InsideOne(s, es, k, o, n)
  {
  }

  lemma HasConcat(s: State, a: seq<Entry>, b: seq<Entry>, k: nat, o: nat, n: nat)
    ensures InsideOne(s, a + b, k, o, n) <==> InsideOne(s, a, k, o, n) || InsideOne(s, b, k, o, n)
    ensures NamesInode(a + b, n) <==> NamesInode(a, n) || NamesInode(b, n)
  {
  }

  lemma {:induction false} InChecksOfBlock(s: State, p: nat, es: seq<Entry>, k: nat, o: nat, n: nat)
    requires forall e :: e in es ==> EntryChecked(s, e)
    ensures Lists(ChecksIn(s, p, es), k, o, n, (k == p && HasRecordAt(es, o, n)) || InsideOne(s, es, k, o, n),
                  NamesInode(es, n))
  {
    if es != [] {
      InEntryChecks(s, p, es[0], k, o, n);
      InChecksOfBlock(s, p, es[1..], k, o, n);
      assert es == [es[0]] + es[1..];
      HasMore(es[0], es[1..], o, n);
      InsideMore(s, es[0], es[1..], k, o, n);
      ListsBoth(EntryChecks(s, p, es[0]), ChecksIn(s, p, es[1..]), k, o, n,
                (k == p && o == es[0].off && n == es[0].ino - 1) || Inside(s, es[0], k, o, n), n == es[0].ino - 1,
                (k == p && HasRecordAt(es[1..], o, n)) || InsideOne(s, es[1..], k, o, n), NamesInode(es[1..], n));
    }
  }

  lemma RecordInMore(s: State, p: nat, ps: seq<nat>, k: nat, o: nat, n: nat)
    requires p < |s.blocks| && BlockOk(s.blocks[p])
    ensures RecordIn(s, [p] + ps, k, o, n)
       <==> (k == p && HasRecordAt(Live(s.blocks[p]), o, n)) || RecordIn(s, ps, k, o, n)
  {
  }

  lemma OneBlockMore(s: State, p: nat, ps: seq<nat>, es: seq<Entry>, es': seq<Entry>, a: seq<Check>, b: seq<Check>,
                     k: nat, o: nat, n: nat)
    requires p < |s.blocks| && BlockOk(s.blocks[p]) && es == Live(s.blocks[p])
    requires Lists(a, k, o, n, (k == p && HasRecordAt(es, o, n)) || InsideOne(s, es, k, o, n), NamesInode(es, n))
    requires Lists(b, k, o, n, RecordIn(s, ps, k, o, n) || InsideOne(s, es', k, o, n), NamesInode(es', n))
    ensures Lists(a + b, k, o, n, RecordIn(s, [p] + ps, k, o, n) || InsideOne(s, es + es', k, o, n),
                  NamesInode(es + es', n))
  {
    RecordInMore(s, p, ps, k, o, n);
    HasConcat(s, es, es', k, o, n);
  }

  lemma {:induction false} InChecksOfAll(s: State, ps: seq<nat>, k: nat, o: nat, n: nat)
    requires BlocksOk(s.blocks, ps) && forall e :: e in LiveOf(s.blocks, ps) ==> EntryChecked(s, e)
    ensures Lists(ChecksOf(s, ps), k, o, n,
                  RecordIn(s, ps, k, o, n) || InsideOne(s, LiveOf(s.blocks, ps), k, o, n),
                  NamesInode(LiveOf(s.blocks, ps), n))
  {
    if ps != [] {
      var es, es' := Live(s.blocks[ps[0]]), LiveOf(s.blocks, ps[1..]);
      InChecksOfBlock(s, ps[0], es, k, o, n);
      InChecksOfAll(s, ps[1..], k, o, n);
      assert ps == [ps[0]] + ps[1..];
      OneBlockMore(s, ps[0], ps[1..], es, es', ChecksIn(s, ps[0], es), ChecksOf(s, ps[1..]), k, o, n);
    }
  }

  /** In block `k`, at offset `o`, one of the directories looked at has a record of inode `n`. */
  ghost predicate LookedAt(s: State, k: nat, o: nat, n: nat)
    requires DirOk(s, ROOT)
  { exists d :: 0 <= d < |s.inodes| && Visited(s, d) && RecordIn(s, Direct(s.inodes[d].ptr), k, o, n) }

  lemma InsideOneIff(s: State, k: nat, o: nat, n: nat)
    requires DirOk(s, ROOT)
    ensures RecordIn(s, Direct(s.inodes[ROOT].ptr), k, o, n) || InsideOne(s, DirEntries(s, ROOT), k, o, n)
       <==> LookedAt(s, k, o, n)
  {
    var es := DirEntries(s, ROOT);
    if InsideOne(s, es, k, o, n) {
      var e :| e in es && Inside(s, e, k, o, n);
      assert NamesDir(s, es, e.ino - 1);
      assert Visited(s, e.ino - 1);
    }
    if LookedAt(s, k, o, n) {
      var d :| 0 <= d < |s.inodes| && Visited(s, d) && RecordIn(s, Direct(s.inodes[d].ptr), k, o, n);
      if d != ROOT {
        var e :| e in es && e.ino == d + 1 && e.name != [46] && e.name != [46, 46];
        assert e in [e];
        assert NamesDir(s, [e], d);
        assert Inside(s, e, k, o, n);
      }
    }
    if RecordIn(s, Direct(s.inodes[ROOT].ptr), k, o, n) { assert Visited(s, ROOT); }
  }

  lemma InChecks(s: State, k: nat, o: nat, n: nat)
    requires Checkable(s) && IsDir(s.inodes[ROOT].mode)
    ensures Lists(Checks(s), k, o, n, LookedAt(s, k, o, n), NamesInode(DirEntries(s, ROOT), n))
  {
    InChecksOfAll(s, Direct(s.inodes[ROOT].ptr), k, o, n);
    InsideOneIff(s, k, o, n);
  }

  // ---------- what a list of checks changes ----------

  /** What the checks do to an inode and its bit. */
  lemma {:induction false} InodesAfter(s: State, cs: seq<Check>, n: nat)
    requires AllFit(s, cs) && n < |s.inodes| == |s.inodeBits|
    ensures var s' := DoAll(s, cs).0;
            && (s'.inodeBits[n] <==> s.inodeBits[n] || InodeBit(n) in cs)
            && s'.inodes[n] == s.inodes[n].(dtime := if Dtime(n) in cs then 0 else s.inodes[n].dtime)
            && s'.usedDirs == s.usedDirs && s'.dataStart == s.dataStart
    decreases |cs|
  {
    if cs != [] {
      var s1 := Do(s, cs[0]).0;
      OneInode(s, cs[0], n);
      assert forall c :: c in cs[1..] ==> c in cs && Fits(s, c);
      InodesAfter(s1, cs[1..], n);
      assert cs == [cs[0]] + cs[1..];
    }
  }

  lemma OneInode(s: State, c: Check, n: nat)
    requires Fits(s, c) && n < |s.inodes| == |s.inodeBits|
    ensures var s' := Do(s, c).0;
            && (s'.inodeBits[n] <==> s.inodeBits[n] || c == InodeBit(n))
            && s'.inodes[n] == s.inodes[n].(dtime := if c == Dtime(n) then 0 else s.inodes[n].dtime)
            && s'.usedDirs == s.usedDirs && s'.dataStart == s.dataStart
  {
  }

  /** The byte `i` of block `k` is the type of a record to check, and wrong. */
  ghost predicate ToFix(s: State, cs: seq<Check>, k: nat, i: nat) {
    exists o: nat, n: nat ::
      i == o + 7 && TypeAt(k, o, n) in cs && Fits(s, TypeAt(k, o, n)) && !Holds(s, TypeAt(k, o, n))
  }

  lemma OneByte(s: State, c: Check, k: nat, i: nat)
    requires Fits(s, c) && k < |s.blocks| && i < BLOCK_SIZE
    ensures var s' := Do(s, c).0;
            s'.blocks[k][i] != s.blocks[k][i] <==> c.TypeAt? && c.block == k && i == c.off + 7 && !Holds(s, c)
  {
  }

  ghost predicate FixesByte(s: State, c: Check, k: nat, i: nat) {
    c.TypeAt? && c.block == k && i == c.off + 7 && Fits(s, c) && !Holds(s, c)
  }

  /** Once it is fixed, no check finds that byte wrong. */
  lemma FixedByte(s: State, c: Check, cs: seq<Check>, k: nat, i: nat)
    requires Sited(s, c) && AllSited(s, cs) && FixesByte(s, c, k, i)
    ensures !ToFix(Do(s, c).0, cs, k, i)
  {
    var s1 := Do(s, c).0;
    SitedAgreed(s, c, cs);
    forall o: nat, n: nat | i == o + 7 && TypeAt(k, o, n) in cs
      ensures Fits(s1, TypeAt(k, o, n)) ==> Holds(s1, TypeAt(k, o, n))
    {
      assert Agreed(c, TypeAt(k, o, n));
      HoldsAfter(s, c);
    }
  }

  lemma OtherByte(s: State, c: Check, cs: seq<Check>, k: nat, i: nat)
    requires Fits(s, c) && AllFit(s, cs) && k < |s.blocks| && i < BLOCK_SIZE && !FixesByte(s, c, k, i)
    ensures ToFix(Do(s, c).0, cs, k, i) <==> ToFix(s, cs, k, i)
  {
    var s1 := Do(s, c).0;
    OneByte(s, c, k, i);
    forall o: nat, n: nat | i == o + 7 && TypeAt(k, o, n) in cs
      ensures Fits(s1, TypeAt(k, o, n)) && (Holds(s1, TypeAt(k, o, n)) <==> Holds(s, TypeAt(k, o, n)))
    {
      assert Fits(s, TypeAt(k, o, n));
    }
  }

  lemma ToFixMore(s: State, c: Check, cs: seq<Check>, k: nat, i: nat)
    ensures ToFix(s, [c] + cs, k, i) <==> FixesByte(s, c, k, i) || ToFix(s, cs, k, i)
  {
    if FixesByte(s, c, k, i) { assert TypeAt(k, c.off, c.n) in [c] + cs; }
  }

  lemma {:induction false} BytesAfter(s: State, cs: seq<Check>, k: nat, i: nat)
    requires AllSited(s, cs) && AllFit(s, cs) && k < |s.blocks| && i < BLOCK_SIZE
    ensures DoAll(s, cs).0.blocks[k][i] != s.blocks[k][i] <==> ToFix(s, cs, k, i)
    decreases |cs|
  {
    if cs != [] {
      var s1 := Do(s, cs[0]).0;
      SitedTail(s, cs);
      OneByte(s, cs[0], k, i);
      BytesAfter(s1, cs[1..], k, i);
      assert cs == [cs[0]] + cs[1..];
      ToFixMore(s, cs[0], cs[1..], k, i);
      if FixesByte(s, cs[0], k, i) {
        FixedByte(s, cs[0], cs[1..], k, i);
      } else {
        OtherByte(s, cs[0], cs[1..], k, i);
      }
    }
  }

  // ---------- whole runs ----------

  /** What a run relies on, with the directories that it looks into spelled out. */
  ghost predicate Checked(s: State) {
    && Shaped(s)
    && (s.inodes[ROOT].mode / 0x1000 % 0x10 == 4 ==>
          && DirOk(s, ROOT)
          && (forall e :: e in DirEntries(s, ROOT) ==> NextOk(s, e.ino))
          && (forall d: nat :: Visited(s, d) && d != ROOT ==> DirOk(s, d) && Named(s, DirEntries(s, d))))
  }

  /** The number is that of an inode, and the inode after that one has plain pointers. */
  ghost predicate NextOk(s: State, ino: nat) {
    && 0 < ino < |s.inodes| && DirectOnly(s.inodes[ino].ptr)
    && forall p :: p in Direct(s.inodes[ino].ptr) ==> 0 < p <= |s.blockBits|
  }

  lemma CheckableIff(s: State)
    ensures Checkable(s) <==> Checked(s)
  {
    if Shaped(s) && IsDir(s.inodes[ROOT].mode) && DirOk(s, ROOT) {
      var es := DirEntries(s, ROOT);
      forall e | e in es && NextOk(s, e.ino) ensures LooksInto(s, e) ==> NamesDir(s, es, e.ino - 1) {}
      forall d: nat | NamesDir(s, es, d) ensures exists e :: e in es && e.ino == d + 1 && !DotOrDotDot(e.name) {}
      assert forall d: nat, e: Entry ::
        NamesDir(s, es, d) && e.ino == d + 1 && !DotOrDotDot(e.name) ==> LooksInto(s, e);
    }
  }

  lemma {:induction false} InBlock(s: State, ps: seq<nat>, x: Entry) returns (k: nat)
    requires BlocksOk(s.blocks, ps) && x in LiveOf(s.blocks, ps)
    ensures k in ps && k < |s.blocks| && BlockOk(s.blocks[k]) && x in Live(s.blocks[k])
  {
    if x in Live(s.blocks[ps[0]]) {
      k := ps[0];
    } else {
      k := InBlock(s, ps[1..], x);
    }
  }

  lemma RightTypeIff(mode: nat, ft: Byte)
    ensures RightType(mode, ft) <==> TypeOf(mode) in {None, Some(ft)}
  {
  }

  lemma VisitedOk(s: State, d: nat)
    requires Checkable(s) && IsDir(s.inodes[ROOT].mode) && Visited(s, d)
    ensures DirOk(s, d) && Named(s, DirEntries(s, d))
  {
    CheckableIff(s);
    forall e | d == ROOT && e in DirEntries(s, ROOT) ensures e.ino < |s.inodes| { assert EntryChecked(s, e); }
  }

  lemma OldRecord(s: State, s1: State, k: nat, x: Entry) returns (e: Entry)
    requires SameShape(s, s1) && k < |s.blocks| && BlockOk(s.blocks[k]) && x in Live(s1.blocks[k])
    ensures e in Live(s.blocks[k]) && e.off == x.off && e.ino == x.ino
  {
    var es, es' := Live(s.blocks[k]), Live(s1.blocks[k]);
    var i :| 0 <= i < |es'| && es'[i] == x;
    e := es[i];
    assert Untyped(es'[i]) == Untyped(es[i]);
  }

  lemma {:induction false} RecordNamed(s: State, ps: seq<nat>, k: nat, e: Entry)
    requires BlocksOk(s.blocks, ps) && k in ps && e in Live(s.blocks[k]) && Named(s, LiveOf(s.blocks, ps))
    ensures 0 < e.ino <= |s.inodes|
  {
    if k != ps[0] { RecordNamed(s, ps[1..], k, e); }
  }

  lemma RecordLookedAt(s: State, d: nat, k: nat, o: nat, n: nat)
    requires DirOk(s, ROOT) && Visited(s, d) && d < |s.inodes| && RecordIn(s, Direct(s.inodes[d].ptr), k, o, n)
    ensures LookedAt(s, k, o, n)
  {
  }

  lemma LiveRecordIn(s: State, ps: seq<nat>, k: nat, e: Entry, n: nat)
    requires k in ps && k < |s.blocks| && BlockOk(s.blocks[k]) && e in Live(s.blocks[k]) && e.ino == n + 1
    ensures RecordIn(s, ps, k, e.off, n)
  {
    assert RecordAt(Live(s.blocks[k]), e.off, n, e);
  }

  lemma TypeIsChecked(s: State, d: nat, k: nat, o: nat, n: nat)
    requires Checkable(s) && IsDir(s.inodes[ROOT].mode) && Visited(s, d) && d < |s.inodes|
    requires RecordIn(s, Direct(s.inodes[d].ptr), k, o, n)
    ensures TypeAt(k, o, n) in Checks(s)
  {
    RecordLookedAt(s, d, k, o, n);
    InChecks(s, k, o, n);
  }

  /** Block `k` has the record `x`, which names inode `n`. */
  ghost predicate StandsIn(s: State, k: nat, x: Entry, n: nat) {
    k < |s.blocks| && BlockOk(s.blocks[k]) && x in Live(s.blocks[k]) && x.ino == n + 1 && n < |s.inodes|
  }

  /** It stood there before. */
  lemma RecordBefore(s: State, s1: State, ps: seq<nat>, x: Entry) returns (k: nat, n: nat)
    requires SameShape(s, s1) && BlocksOk(s.blocks, ps) && Named(s, LiveOf(s.blocks, ps))
    requires BlocksOk(s1.blocks, ps) && x in LiveOf(s1.blocks, ps)
    ensures StandsIn(s1, k, x, n) && RecordIn(s, ps, k, x.off, n)
  {
    k := InBlock(s1, ps, x);
    var e := OldRecord(s, s1, k, x);
    RecordNamed(s, ps, k, e);
    n := e.ino - 1;
    LiveRecordIn(s, ps, k, e, n);
  }

  lemma TypeHolds(s: State, cs: seq<Check>, k: nat, x: Entry, n: nat)
    requires AllFit(s, cs) && forall c :: c in cs ==> Holds(s, c)
    requires StandsIn(s, k, x, n) && TypeAt(k, x.off, n) in cs
    ensures RightType(s.inodes[n].mode, x.ft)
  {
    LiveOnChain(s.blocks[k], x);
    assert Holds(s, TypeAt(k, x.off, n));
    RightTypeIff(s.inodes[n].mode, x.ft);
  }

  /** The types of all the records in the blocks `ps` are checked. */
  ghost predicate Listed(s: State, ps: seq<nat>, cs: seq<Check>) {
    forall k, o, n :: RecordIn(s, ps, k, o, n) ==> TypeAt(k, o, n) in cs
  }

  lemma VisitedListed(s: State, d: nat)
    requires Checkable(s) && IsDir(s.inodes[ROOT].mode) && Visited(s, d) && d < |s.inodes|
    ensures Listed(s, Direct(s.inodes[d].ptr), Checks(s))
  {
    forall k, o, n | RecordIn(s, Direct(s.inodes[d].ptr), k, o, n) ensures TypeAt(k, o, n) in Checks(s) {
      TypeIsChecked(s, d, k, o, n);
    }
  }

  lemma TypesRepaired(s: State, s1: State, cs: seq<Check>, ps: seq<nat>, x: Entry)
    requires SameShape(s, s1) && BlocksOk(s.blocks, ps) && Named(s, LiveOf(s.blocks, ps)) && Listed(s, ps, cs)
    requires AllFit(s1, cs) && (forall c :: c in cs ==> Holds(s1, c)) && BlocksOk(s1.blocks, ps)
    ensures x in LiveOf(s1.blocks, ps) ==> 0 < x.ino <= |s1.inodes| && RightType(s1.inodes[x.ino - 1].mode, x.ft)
  {
    if x in LiveOf(s1.blocks, ps) {
      var k, n := RecordBefore(s, s1, ps, x);
      TypeHolds(s1, cs, k, x, n);
    }
  }

  /** After a run every record of the root, and of every directory named there, has the type of its inode. */
  lemma TypesAfterRun(s: State, d: nat, x: Entry)
    requires Checkable(s) && s.inodes[ROOT].mode / 0x1000 % 0x10 == 4 && Visited(s, d)
    ensures var s1 := RunChecker(s).0;
            DirOk(s1, d)
            && (x in DirEntries(s1, d) ==> 0 < x.ino <= |s1.inodes| && RightType(s1.inodes[x.ino - 1].mode, x.ft))
  {
    var off := RunRepairs(s);
    VisitedOk(s, d);
    VisitedListed(s, d);
    ShapeLive(s, RunChecker(s).0, Direct(s.inodes[d].ptr));
    TypesRepaired(s, RunChecker(s).0, Checks(s), Direct(s.inodes[d].ptr), x);
  }

  /** `e`, a live record in block `k` of `d`, has its type at byte `i`, and not that of the inode it names. */
  ghost predicate WrongType(s: State, d: nat, e: Entry, k: nat, i: nat) {
    && d < |s.inodes| && k < |s.blocks| && k in Direct(s.inodes[d].ptr)
    && BlockOk(s.blocks[k]) && e in Live(s.blocks[k]) && i == e.off + 7
    && 0 < e.ino <= |s.inodes| && !RightType(s.inodes[e.ino - 1].mode, e.ft)
  }

  lemma WrongIsToFix(s: State, d: nat, e: Entry, k: nat, i: nat)
    requires Checkable(s) && IsDir(s.inodes[ROOT].mode) && Visited(s, d) && WrongType(s, d, e, k, i)
    ensures ToFix(s, Checks(s), k, i)
  {
    VisitedOk(s, d);
    LiveRecordIn(s, Direct(s.inodes[d].ptr), k, e, e.ino - 1);
    TypeIsChecked(s, d, k, e.off, e.ino - 1);
    LiveOnChain(s.blocks[k], e);
    RightTypeIff(s.inodes[e.ino - 1].mode, e.ft);
    assert Fits(s, TypeAt(k, e.off, e.ino - 1)) && !Holds(s, TypeAt(k, e.off, e.ino - 1));
  }

  lemma WrongRecord(s: State, d: nat, k: nat, o: nat, n: nat) returns (e: Entry)
    requires d < |s.inodes| && RecordIn(s, Direct(s.inodes[d].ptr), k, o, n)
    requires Fits(s, TypeAt(k, o, n)) && !Holds(s, TypeAt(k, o, n))
    ensures WrongType(s, d, e, k, o + 7)
  {
    e :| RecordAt(Live(s.blocks[k]), o, n, e);
    LiveOnChain(s.blocks[k], e);
    RightTypeIff(s.inodes[n].mode, e.ft);
  }

  lemma ToFixIsWrong(s: State, k: nat, i: nat) returns (d: nat, e: Entry)
    requires Checkable(s) && IsDir(s.inodes[ROOT].mode) && ToFix(s, Checks(s), k, i)
    ensures Visited(s, d) && WrongType(s, d, e, k, i)
  {
    var o: nat, n: nat :| i == o + 7 && TypeAt(k, o, n) in Checks(s) && Fits(s, TypeAt(k, o, n))
                          && !Holds(s, TypeAt(k, o, n));
    InChecks(s, k, o, n);
    d := LookedAtIn(s, k, o, n);
    e := WrongRecord(s, d, k, o, n);
  }

  lemma LookedAtIn(s: State, k: nat, o: nat, n: nat) returns (d: nat)
    requires DirOk(s, ROOT) && LookedAt(s, k, o, n)
    ensures d < |s.inodes| && Visited(s, d) && RecordIn(s, Direct(s.inodes[d].ptr), k, o, n)
  {
    d :| 0 <= d < |s.inodes| && Visited(s, d) && RecordIn(s, Direct(s.inodes[d].ptr), k, o, n);
  }

  lemma RunBytes(s: State, k: nat, i: nat)
    requires Checkable(s) && k < |s.blocks| && i < BLOCK_SIZE
    ensures |RunChecker(s).0.blocks| == |s.blocks|
    ensures RunChecker(s).0.blocks[k][i] != s.blocks[k][i] <==> ToFix(s, Checks(s), k, i)
  {
    RecountSited(s);
    BytesAfter(Recount(s), Checks(s), k, i);
  }

  /** A byte changes if and only if it is the wrong type of a record in the root or in a directory named there. */
  lemma ByteChangesIff(s: State, k: nat, i: nat)
    requires Checkable(s) && s.inodes[ROOT].mode / 0x1000 % 0x10 == 4 && k < |s.blocks| && i < 1024
    ensures |RunChecker(s).0.blocks| == |s.blocks|
    ensures RunChecker(s).0.blocks[k][i] != s.blocks[k][i]
       <==> exists d: nat, e :: Visited(s, d) && WrongType(s, d, e, k, i)
  {
    RunBytes(s, k, i);
    if ToFix(s, Checks(s), k, i) {
      var d, e := ToFixIsWrong(s, k, i);
    }
    if d: nat, e :| Visited(s, d) && WrongType(s, d, e, k, i) { WrongIsToFix(s, d, e, k, i); }
  }

  /** An inode that a root record names is marked and not deleted; nothing else of inodes changes. */
  lemma InodeChangesIff(s: State, n: nat)
    requires Checkable(s) && s.inodes[ROOT].mode / 0x1000 % 0x10 == 4 && n < |s.inodes|
    ensures var s1 := RunChecker(s).0; var named := NamesInode(DirEntries(s, ROOT), n);
            && |s1.inodes| == |s1.inodeBits| == |s.inodes|
            && (s1.inodeBits[n] <==> s.inodeBits[n] || named)
            && s1.inodes[n] == s.inodes[n].(dtime := if named then 0 else s.inodes[n].dtime)
            && s1.usedDirs == s.usedDirs && s1.dataStart == s.dataStart
  {
    RecountSited(s);
    InodesAfter(Recount(s), Checks(s), n);
    InChecks(s, 0, 0, n);
  }

  /** If the root is no directory, only the counters change. */
  lemma NoRootNoChange(s: State)
    requires Checkable(s) && s.inodes[ROOT].mode / 0x1000 % 0x10 != 4
    ensures var s1 := RunChecker(s).0;
            s1 == s.(sbFreeInodes := |FreeInodes(s)|, gdFreeInodes := |FreeInodes(s)|,
                     sbFreeBlocks := |FreeBlocks(s)|, gdFreeBlocks := |FreeBlocks(s)|)
  {
    RecountSited(s);
  }
}

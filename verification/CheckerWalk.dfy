/** The walks of ext2_checker over records that its own repairs touch while it walks. */
module CheckerWalk {
  import opened Bytes
  import opened Records
  import opened DiskState
  import opened Directory
  import opened Checker
  import opened CheckerProofs
  import opened RestoreWalk

  // ---------- a list of checks, done part by part ----------

  lemma {:induction false} DoAllConcat(s: State, a: seq<Check>, b: seq<Check>)
    requires AllFit(s, a) && AllFit(s, b)
    ensures AllFit(s, a + b) && AllFit(DoAll(s, a).0, b)
    ensures DoAll(s, a + b).0 == DoAll(DoAll(s, a).0, b).0
    ensures DoAll(s, a + b).1 == DoAll(s, a).1 + DoAll(DoAll(s, a).0, b).1
    decreases |a|
  {
    FitsKept(s, DoAll(s, a).0, b);
    if a == [] {
      assert a + b == b;
    } else {
      var s1 := Do(s, a[0]).0;
      assert (a + b)[0] == a[0] && (a + b)[1..] == a[1..] + b;
      assert AllFit(s, a[1..]);
      FitsKept(s, s1, a[1..]);
      FitsKept(s, s1, b);
      DoAllConcat(s1, a[1..], b);
    }
  }

  lemma FitsKept(s: State, s': State, cs: seq<Check>)
    requires SameSizes(s, s') && AllFit(s, cs)
    ensures AllFit(s', cs)
  {
    forall c | c in cs ensures Fits(s', c) { assert Fits(s, c); }
  }

  /** The checks `cs`, done on `s`, give `t` after `f` fixes. */
  ghost predicate Done(s: State, cs: seq<Check>, t: State, f: nat) {
    AllFit(s, cs) && t == DoAll(s, cs).0 && f == DoAll(s, cs).1
  }

  /** Of all the checks to do on `s`, `rest` is left to do on `t`, after `f` fixes. */
  ghost predicate Left(s: State, all: seq<Check>, t: State, f: nat, rest: seq<Check>) {
    && AllFit(s, all) && AllFit(t, rest)
    && DoAll(s, all).0 == DoAll(t, rest).0 && DoAll(s, all).1 == f + DoAll(t, rest).1
  }

  lemma LeftStep(s: State, all: seq<Check>, t: State, f: nat, part: seq<Check>, rest: seq<Check>, t': State, g: nat)
    requires Left(s, all, t, f, part + rest) && Done(t, part, t', g)
    ensures Left(s, all, t', f + g, rest)
  {
    forall c | c in rest ensures Fits(t, c) { assert c in part + rest; }
    DoAllConcat(t, part, rest);
  }

  lemma LeftMove(s: State, all: seq<Check>, t: State, f: nat, now: seq<Check>, part: seq<Check>, rest: seq<Check>,
                 t': State, g: nat)
    requires Left(s, all, t, f, now) && now == part + rest && Done(t, part, t', g)
    ensures Left(s, all, t', f + g, rest)
  {
    LeftStep(s, all, t, f, part, rest, t', g);
  }

  lemma LeftEnd(s: State, all: seq<Check>, t: State, f: nat)
    requires Left(s, all, t, f, [])
    ensures Done(s, all, t, f)
  {
  }

  lemma DoneShape(s: State, cs: seq<Check>, t: State, f: nat)
    requires AllSited(s, cs) && Done(s, cs, t, f)
    ensures SameShape(s, t)
  {
    AllHold(s, cs);
  }

  lemma DoOne(s: State, c: Check)
    requires Fits(s, c)
    ensures AllFit(s, [c]) && DoAll(s, [c]) == Do(s, c)
  {
    assert [c][1..] == [];
  }

  // ---------- the same place in a block whose records were retyped ----------

  lemma {:induction false} SuffixFrom(b: Block, b': Block, o: nat, p: nat)
    requires Chain(b, o, p) && Chain(b, p, BLOCK_SIZE) && Chain(b, o, BLOCK_SIZE) && Chain(b', o, BLOCK_SIZE)
    requires SameRecords(Entries(b, o, BLOCK_SIZE), Entries(b', o, BLOCK_SIZE))
    ensures Chain(b', o, p) && Chain(b', p, BLOCK_SIZE)
    ensures SameRecords(Entries(b, p, BLOCK_SIZE), Entries(b', p, BLOCK_SIZE))
    ensures p < BLOCK_SIZE ==> RecOk(b, p) && RecOk(b', p) && Untyped(At(b', p)) == Untyped(At(b, p))
    decreases p - o
  {
    if o < BLOCK_SIZE {
      var es, es' := Entries(b, o, BLOCK_SIZE), Entries(b', o, BLOCK_SIZE);
      assert Untyped(es'[0]) == Untyped(es[0]);
      if o < p {
        assert SameRecords(es[1..], es'[1..]);
        SuffixFrom(b, b', o + At(b, o).len, p);
      }
    }
  }

  /** Repairs leave the walk where it was, with the same records ahead. */
  lemma SuffixShape(s: State, t: State, k: nat, p: nat)
    requires SameShape(s, t) && k < |s.blocks| && Chain(s.blocks[k], 0, p) && Chain(s.blocks[k], p, BLOCK_SIZE)
    ensures Chain(t.blocks[k], 0, p) && Chain(t.blocks[k], p, BLOCK_SIZE)
    ensures SameRecords(Entries(s.blocks[k], p, BLOCK_SIZE), Entries(t.blocks[k], p, BLOCK_SIZE))
    ensures p < BLOCK_SIZE ==> RecOk(s.blocks[k], p) && RecOk(t.blocks[k], p)
                               && Untyped(At(t.blocks[k], p)) == Untyped(At(s.blocks[k], p))
  {
    ChainJoins(s.blocks[k], p);
    SuffixFrom(s.blocks[k], t.blocks[k], 0, p);
  }

  lemma NextShape(s: State, t: State, k: nat, p: nat)
    requires SameShape(s, t) && k < |s.blocks| && Chain(s.blocks[k], 0, p) && Chain(s.blocks[k], p, BLOCK_SIZE)
    requires p < BLOCK_SIZE
    ensures RecOk(s.blocks[k], p) && RecOk(t.blocks[k], p) && RecLen(t.blocks[k], p) == RecLen(s.blocks[k], p)
  {
    SuffixShape(s, t, k, p);
  }

  // ---------- the walk that checks types ----------

  ghost predicate TypesLeft(s: State, t: State, k: nat, total: nat, f: nat) {
    && k < |s.blocks| && BlockOk(s.blocks[k]) && Named(s, Live(s.blocks[k])) && SameShape(s, t)
    && total <= BLOCK_SIZE && Chain(t.blocks[k], 0, total) && Chain(t.blocks[k], total, BLOCK_SIZE)
    && Named(t, Entries(t.blocks[k], total, BLOCK_SIZE))
    && Left(s, TypesIn(k, Live(s.blocks[k])), t, f, TypesIn(k, Entries(t.blocks[k], total, BLOCK_SIZE)))
  }

  lemma TypesStart(s: State, k: nat)
    requires k < |s.blocks| && BlockOk(s.blocks[k]) && Named(s, Live(s.blocks[k]))
    ensures TypesLeft(s, s, k, 0, 0)
  {
    TypesInSited(s, k, Live(s.blocks[k]));
    assert AllFit(s, TypesIn(k, Live(s.blocks[k])));
  }

  /** The record the walk is at, and the ones behind it. */
  lemma EntriesHere(b: Block, o: nat)
    requires Chain(b, 0, o) && Chain(b, o, BLOCK_SIZE) && o < BLOCK_SIZE
    ensures RecOk(b, o) && Chain(b, 0, o + RecLen(b, o)) && Chain(b, o + RecLen(b, o), BLOCK_SIZE)
    ensures Entries(b, o, BLOCK_SIZE) == [At(b, o)] + Entries(b, o + RecLen(b, o), BLOCK_SIZE)
  {
    ChainSteps(b, o);
  }

  lemma HeadAndTail<T>(s: seq<T>, x: T, rest: seq<T>)
    requires s == [x] + rest
    ensures x in s && forall e :: e in rest ==> e in s
  {
    assert s[0] == x && s[1..] == rest;
  }

  lemma TypesOfHead(k: nat, es: seq<Entry>, x: Entry, rest: seq<Entry>)
    requires es == [x] + rest && forall e :: e in es ==> e.ino > 0
    ensures x.ino > 0 && forall e :: e in rest ==> e.ino > 0
    ensures TypesIn(k, es) == [TypeAt(k, x.off, x.ino - 1)] + TypesIn(k, rest)
  {
    HeadAndTail(es, x, rest);
    assert es[0] == x && es[1..] == rest;
  }

  lemma TypesHere(t: State, k: nat, total: nat) returns (n: nat, next: nat)
    requires k < |t.blocks| && total < BLOCK_SIZE && Chain(t.blocks[k], 0, total)
    requires Chain(t.blocks[k], total, BLOCK_SIZE)
    requires Named(t, Entries(t.blocks[k], total, BLOCK_SIZE))
    ensures RecOk(t.blocks[k], total) && next == total + RecLen(t.blocks[k], total)
    ensures Ino(t.blocks[k], total) == n + 1 && n < |t.inodes|
    ensures Chain(t.blocks[k], 0, next) && Chain(t.blocks[k], next, BLOCK_SIZE)
    ensures Named(t, Entries(t.blocks[k], next, BLOCK_SIZE))
    ensures TypesIn(k, Entries(t.blocks[k], total, BLOCK_SIZE))
         == [TypeAt(k, total, n)] + TypesIn(k, Entries(t.blocks[k], next, BLOCK_SIZE))
  {
    var b := t.blocks[k];
    EntriesHere(b, total);
    next := total + RecLen(b, total);
    NamedHere(t, b, total, next);
    n := Ino(b, total) - 1;
    TypesOfHead(k, Entries(b, total, BLOCK_SIZE), At(b, total), Entries(b, next, BLOCK_SIZE));
  }

  lemma NamedHere(t: State, b: Block, o: nat, next: nat)
    requires Chain(b, o, BLOCK_SIZE) && o < BLOCK_SIZE && RecOk(b, o) && next == o + RecLen(b, o)
    requires Chain(b, next, BLOCK_SIZE) && Named(t, Entries(b, o, BLOCK_SIZE))
    requires Entries(b, o, BLOCK_SIZE) == [At(b, o)] + Entries(b, next, BLOCK_SIZE)
    ensures 0 < Ino(b, o) <= |t.inodes| && Named(t, Entries(b, next, BLOCK_SIZE))
  {
    HeadAndTail(Entries(b, o, BLOCK_SIZE), At(b, o), Entries(b, next, BLOCK_SIZE));
  }

  lemma TypesStep(s: State, t: State, t': State, k: nat, total: nat, f: nat, g: nat, n: nat, next: nat)
    requires TypesLeft(s, t, k, total, f) && total < BLOCK_SIZE && RecOk(t.blocks[k], total)
    requires n < |t.inodes| && Ino(t.blocks[k], total) == n + 1 && Done(t, [TypeAt(k, total, n)], t', g)
    requires next == total + RecLen(t.blocks[k], total)
    ensures TypesLeft(s, t', k, next, f + g)
    ensures RecOk(t'.blocks[k], total) && next == total + RecLen(t'.blocks[k], total)
  {
    var m, ahead := TypesHere(t, k, total);
    DoOne(t, TypeAt(k, total, n));
    DoShape(t, TypeAt(k, total, n));
    NextShape(t, t', k, total);
    TypesNext(s, t, t', k, total, f, g, [TypeAt(k, total, n)], next);
  }

  lemma TypesNext(s: State, t: State, t': State, k: nat, total: nat, f: nat, g: nat, cs: seq<Check>, next: nat)
    requires TypesLeft(s, t, k, total, f) && next <= BLOCK_SIZE && SameShape(t, t')
    requires Chain(t.blocks[k], 0, next) && Chain(t.blocks[k], next, BLOCK_SIZE)
    requires Named(t, Entries(t.blocks[k], next, BLOCK_SIZE))
    requires TypesIn(k, Entries(t.blocks[k], total, BLOCK_SIZE))
             == cs + TypesIn(k, Entries(t.blocks[k], next, BLOCK_SIZE))
    requires Done(t, cs, t', g)
    ensures TypesLeft(s, t', k, next, f + g)
  {
    var es := Entries(t.blocks[k], next, BLOCK_SIZE);
    ShapeTrans(s, t, t');
    SuffixShape(t, t', k, next);
    var es' := Entries(t'.blocks[k], next, BLOCK_SIZE);
    NamedKept(t, t', es, es');
    ShapeTypesIn(k, es, es');
    var all, now := TypesIn(k, Live(s.blocks[k])), TypesIn(k, Entries(t.blocks[k], total, BLOCK_SIZE));
    LeftMove(s, all, t, f, now, cs, TypesIn(k, es), t', g);
  }

  lemma TypesEnd(s: State, t: State, k: nat, f: nat)
    requires TypesLeft(s, t, k, BLOCK_SIZE, f)
    ensures Done(s, TypesIn(k, Live(s.blocks[k])), t, f) && SameShape(s, t)
  {
    LeftEnd(s, TypesIn(k, Live(s.blocks[k])), t, f);
  }

  ghost predicate TypeBlocksLeft(s: State, t: State, ps: seq<nat>, i: nat, f: nat) {
    && BlocksOk(s.blocks, ps) && Named(s, LiveOf(s.blocks, ps)) && SameShape(s, t) && i <= |ps|
    && BlocksOk(t.blocks, ps[i..]) && Named(t, LiveOf(t.blocks, ps[i..]))
    && Left(s, TypesOf(s, ps), t, f, TypesOf(t, ps[i..]))
  }

  lemma TypeBlocksStart(s: State, ps: seq<nat>)
    requires BlocksOk(s.blocks, ps) && Named(s, LiveOf(s.blocks, ps))
    ensures TypeBlocksLeft(s, s, ps, 0, 0)
  {
    assert ps[0..] == ps;
    TypesOfSited(s, ps);
    assert AllFit(s, TypesOf(s, ps));
  }

  lemma TypeBlocksStep(s: State, t: State, t': State, ps: seq<nat>, i: nat, f: nat, g: nat)
    requires TypeBlocksLeft(s, t, ps, i, f) && i < |ps| && SameShape(t, t')
    requires ps[i] < |t.blocks| && BlockOk(t.blocks[ps[i]]) && Named(t, Live(t.blocks[ps[i]]))
    requires Done(t, TypesIn(ps[i], Live(t.blocks[ps[i]])), t', g)
    ensures TypeBlocksLeft(s, t', ps, i + 1, f + g)
  {
    var here := ps[i..];
    assert here[0] == ps[i] && here[1..] == ps[i + 1..];
    ShapeTrans(s, t, t');
    ShapeTypesOf(t, t', ps[i + 1..]);
    LeftStep(s, TypesOf(s, ps), t, f, TypesIn(ps[i], Live(t.blocks[ps[i]])), TypesOf(t, ps[i + 1..]), t', g);
  }

  lemma TypeBlockHere(s: State, t: State, ps: seq<nat>, i: nat, f: nat)
    requires TypeBlocksLeft(s, t, ps, i, f) && i < |ps|
    ensures ps[i] < |t.blocks| && BlockOk(t.blocks[ps[i]]) && Named(t, Live(t.blocks[ps[i]]))
  {
    assert ps[i..][0] == ps[i];
    assert forall e :: e in Live(t.blocks[ps[i]]) ==> e in LiveOf(t.blocks, ps[i..]);
  }

  lemma TypeBlocksEnd(s: State, t: State, ps: seq<nat>, f: nat)
    requires TypeBlocksLeft(s, t, ps, |ps|, f)
    ensures Done(s, TypesOf(s, ps), t, f)
  {
    LeftEnd(s, TypesOf(s, ps), t, f);
  }

  // ---------- the walk over the root directory ----------

  ghost predicate AllChecked(s: State, es: seq<Entry>) { forall e :: e in es ==> EntryChecked(s, e) }

  ghost predicate ChecksLeft(s: State, t: State, k: nat, total: nat, f: nat) {
    && Shaped(s) && k < |s.blocks| && BlockOk(s.blocks[k]) && AllChecked(s, Live(s.blocks[k])) && SameShape(s, t)
    && total <= BLOCK_SIZE && Chain(t.blocks[k], 0, total) && Chain(t.blocks[k], total, BLOCK_SIZE)
    && AllChecked(t, Entries(t.blocks[k], total, BLOCK_SIZE))
    && Left(s, ChecksIn(s, k, Live(s.blocks[k])), t, f, ChecksIn(t, k, Entries(t.blocks[k], total, BLOCK_SIZE)))
  }

  lemma ChecksStart(s: State, k: nat)
    requires Shaped(s) && k < |s.blocks| && BlockOk(s.blocks[k]) && AllChecked(s, Live(s.blocks[k]))
    ensures ChecksLeft(s, s, k, 0, 0)
  {
    ChecksInSited(s, k, Live(s.blocks[k]));
    assert AllFit(s, ChecksIn(s, k, Live(s.blocks[k])));
  }

  /** At `total` is a record with the checks `cs`, and `next` is where the walk goes on. */
  ghost predicate RecordAhead(t: State, k: nat, total: nat, cs: seq<Check>, next: nat)
    requires k < |t.blocks|
  {
    && total < BLOCK_SIZE && RecOk(t.blocks[k], total) && next == total + RecLen(t.blocks[k], total)
    && Chain(t.blocks[k], 0, total) && Chain(t.blocks[k], total, BLOCK_SIZE)
    && Chain(t.blocks[k], 0, next) && Chain(t.blocks[k], next, BLOCK_SIZE)
    && AllChecked(t, Entries(t.blocks[k], total, BLOCK_SIZE))
    && AllChecked(t, Entries(t.blocks[k], next, BLOCK_SIZE)) && AllSited(t, cs)
    && ChecksIn(t, k, Entries(t.blocks[k], total, BLOCK_SIZE))
       == cs + ChecksIn(t, k, Entries(t.blocks[k], next, BLOCK_SIZE))
  }

  lemma ChecksHere(t: State, k: nat, total: nat) returns (cs: seq<Check>, next: nat)
    requires Shaped(t) && k < |t.blocks| && total < BLOCK_SIZE
    requires Chain(t.blocks[k], 0, total) && Chain(t.blocks[k], total, BLOCK_SIZE)
    requires AllChecked(t, Entries(t.blocks[k], total, BLOCK_SIZE))
    ensures OnChain(t.blocks[k], total) && EntryChecked(t, At(t.blocks[k], total))
    ensures cs == EntryChecks(t, k, At(t.blocks[k], total)) && RecordAhead(t, k, total, cs, next)
  {
    var b := t.blocks[k];
    ChainSteps(b, total);
    var es, e := Entries(b, total, BLOCK_SIZE), At(b, total);
    assert es[0] == e && es[0] in es && es[1..] == Entries(b, total + e.len, BLOCK_SIZE);
    var f := ChainInLive(b, total);
    EntrySited(t, k, e);
    cs, next := EntryChecks(t, k, e), total + e.len;
  }

  lemma ChecksStep(s: State, t: State, t': State, k: nat, total: nat, f: nat, g: nat, cs: seq<Check>, next: nat)
    requires ChecksLeft(s, t, k, total, f) && k < |t.blocks| && RecordAhead(t, k, total, cs, next) && Done(t, cs, t', g)
    ensures k < |t'.blocks| && ChecksLeft(s, t', k, next, f + g)
    ensures RecOk(t'.blocks[k], total) && next == total + RecLen(t'.blocks[k], total)
  {
    DoneShape(t, cs, t', g);
    NextShape(t, t', k, total);
    ChecksNext(s, t, t', k, total, f, g, cs, next);
  }

  lemma ChecksNext(s: State, t: State, t': State, k: nat, total: nat, f: nat, g: nat, cs: seq<Check>, next: nat)
    requires ChecksLeft(s, t, k, total, f) && next <= BLOCK_SIZE && SameShape(t, t')
    requires Chain(t.blocks[k], 0, next) && Chain(t.blocks[k], next, BLOCK_SIZE)
    requires AllChecked(t, Entries(t.blocks[k], next, BLOCK_SIZE))
    requires ChecksIn(t, k, Entries(t.blocks[k], total, BLOCK_SIZE))
             == cs + ChecksIn(t, k, Entries(t.blocks[k], next, BLOCK_SIZE))
    requires Done(t, cs, t', g)
    ensures ChecksLeft(s, t', k, next, f + g)
  {
    var es := Entries(t.blocks[k], next, BLOCK_SIZE);
    ShapeTrans(s, t, t');
    SuffixShape(t, t', k, next);
    ShapeChecksIn(t, t', k, es, Entries(t'.blocks[k], next, BLOCK_SIZE));
    var all, now := ChecksIn(s, k, Live(s.blocks[k])), ChecksIn(t, k, Entries(t.blocks[k], total, BLOCK_SIZE));
    LeftMove(s, all, t, f, now, cs, ChecksIn(t, k, es), t', g);
  }

  lemma ChecksEnd(s: State, t: State, k: nat, f: nat)
    requires ChecksLeft(s, t, k, BLOCK_SIZE, f)
    ensures Done(s, ChecksIn(s, k, Live(s.blocks[k])), t, f) && SameShape(s, t)
  {
    LeftEnd(s, ChecksIn(s, k, Live(s.blocks[k])), t, f);
  }

  ghost predicate CheckBlocksLeft(s: State, t: State, ps: seq<nat>, i: nat, f: nat) {
    && Shaped(s) && BlocksOk(s.blocks, ps) && AllChecked(s, LiveOf(s.blocks, ps)) && SameShape(s, t) && i <= |ps|
    && BlocksOk(t.blocks, ps[i..]) && AllChecked(t, LiveOf(t.blocks, ps[i..]))
    && Left(s, ChecksOf(s, ps), t, f, ChecksOf(t, ps[i..]))
  }

  /** The same of the blocks behind the pointers `ptr` of the root directory. */
  ghost predicate RootLeft(s: State, t: State, ptr: Pointers, i: nat, f: nat) {
    && ROOT < |t.inodes| && t.inodes[ROOT].ptr == ptr && i <= NumDirect(ptr)
    && CheckBlocksLeft(s, t, Direct(ptr), i, f)
  }

  lemma RootAhead(s: State, t: State, ptr: Pointers, i: nat, f: nat)
    requires RootLeft(s, t, ptr, i, f)
    ensures i < NumDirect(ptr) <==> i < DIRECT && t.inodes[ROOT].ptr[i] != 0
  {
  }

  lemma RootEnd(s: State, t: State, ptr: Pointers, i: nat, f: nat)
    requires RootLeft(s, t, ptr, i, f) && !(i < DIRECT && t.inodes[ROOT].ptr[i] != 0)
    ensures RootLeft(s, t, ptr, NumDirect(ptr), f)
  {
    RootAhead(s, t, ptr, i, f);
  }

  lemma CheckBlocksStart(s: State, ps: seq<nat>)
    requires Shaped(s) && BlocksOk(s.blocks, ps) && AllChecked(s, LiveOf(s.blocks, ps))
    ensures CheckBlocksLeft(s, s, ps, 0, 0)
  {
    assert ps[0..] == ps;
    ChecksOfSited(s, ps);
    assert AllFit(s, ChecksOf(s, ps));
  }

  lemma CheckBlockHere(s: State, t: State, ps: seq<nat>, i: nat, f: nat)
    requires CheckBlocksLeft(s, t, ps, i, f) && i < |ps|
    ensures ps[i] < |t.blocks| && BlockOk(t.blocks[ps[i]]) && AllChecked(t, Live(t.blocks[ps[i]]))
  {
    assert ps[i..][0] == ps[i];
    assert forall e :: e in Live(t.blocks[ps[i]]) ==> e in LiveOf(t.blocks, ps[i..]);
  }

  lemma CheckBlocksStep(s: State, t: State, t': State, ps: seq<nat>, i: nat, f: nat, g: nat)
    requires CheckBlocksLeft(s, t, ps, i, f) && i < |ps| && SameShape(t, t')
    requires ps[i] < |t.blocks| && BlockOk(t.blocks[ps[i]]) && AllChecked(t, Live(t.blocks[ps[i]]))
    requires Done(t, ChecksIn(t, ps[i], Live(t.blocks[ps[i]])), t', g)
    ensures CheckBlocksLeft(s, t', ps, i + 1, f + g)
  {
    var here := ps[i..];
    assert here[0] == ps[i] && here[1..] == ps[i + 1..];
    ShapeTrans(s, t, t');
    ShapeChecksOf(t, t', ps[i + 1..]);
    LeftStep(s, ChecksOf(s, ps), t, f, ChecksIn(t, ps[i], Live(t.blocks[ps[i]])), ChecksOf(t, ps[i + 1..]), t', g);
  }

  lemma CheckBlocksEnd(s: State, t: State, ps: seq<nat>, f: nat)
    requires CheckBlocksLeft(s, t, ps, |ps|, f)
    ensures Done(s, ChecksOf(s, ps), t, f)
  {
    LeftEnd(s, ChecksOf(s, ps), t, f);
  }

  // ---------- the checks of one root record ----------

  /** Type, bit and deletion time, as one list. */
  lemma OuterParts(s: State, k: nat, o: nat, e: Entry, t1: State, t2: State, t3: State, f1: nat, f2: nat, f3: nat)
    requires Shaped(s) && k < |s.blocks| && OnChain(s.blocks[k], o) && e == At(s.blocks[k], o)
    requires 0 < e.ino <= |s.inodes|
    requires Done(s, [TypeAt(k, o, e.ino - 1)], t1, f1)
    requires t2 == Do(t1, InodeBit(e.ino - 1)).0 && f2 == Do(t1, InodeBit(e.ino - 1)).1
    requires t3 == Do(t2, Dtime(e.ino - 1)).0 && f3 == Do(t2, Dtime(e.ino - 1)).1
    ensures Done(s, OuterChecks(k, e), t3, f1 + f2 + f3) && SameShape(s, t3)
  {
    var c1, c2, c3 := TypeAt(k, o, e.ino - 1), InodeBit(e.ino - 1), Dtime(e.ino - 1);
    var all := OuterChecks(k, e);
    assert all == [c1] + ([c2] + [c3]);
    AllHold(s, all);
    DoOne(s, c1);
    DoOne(t1, c2);
    DoOne(t2, c3);
    LeftStep(s, all, s, 0, [c1], [c2] + [c3], t1, f1);
    LeftStep(s, all, t1, f1, [c2], [c3], t2, f2);
    assert [c3] + [] == [c3];
    LeftStep(s, all, t2, f1 + f2, [c3], [], t3, f3);
  }

  lemma BitsFit(s: State, t: State, e: Entry)
    requires Shaped(s) && EntryChecked(s, e) && SameShape(s, t)
    ensures Direct(t.inodes[e.ino].ptr) == Direct(s.inodes[e.ino].ptr)
    ensures AllSited(t, BlockBits(Direct(s.inodes[e.ino].ptr))) && AllFit(t, BlockBits(Direct(s.inodes[e.ino].ptr)))
  {
    var ps := Direct(s.inodes[e.ino].ptr);
    forall i | 0 <= i < |ps| ensures 0 < ps[i] <= |t.blockBits| { assert ps[i] in ps; }
    BlockBitsSited(t, ps);
  }

  lemma BitsShape(s: State, t: State, e: Entry)
    requires Shaped(s) && EntryChecked(s, e) && SameShape(s, t)
    ensures var bs := BlockBits(Direct(s.inodes[e.ino].ptr)); AllFit(t, bs) && SameShape(s, DoAll(t, bs).0)
  {
    var bs := BlockBits(Direct(s.inodes[e.ino].ptr));
    BitsFit(s, t, e);
    AllHold(t, bs);
    ShapeTrans(s, t, DoAll(t, bs).0);
  }

  lemma LooksReady(s: State, t: State, e: Entry)
    requires Shaped(s) && EntryChecked(s, e) && SameShape(s, t)
    ensures LooksInto(t, e) == LooksInto(s, e) && AllFit(t, InnerChecks(s, e))
    ensures LooksInto(s, e) ==>
              && DirOk(t, e.ino - 1) && Named(t, DirEntries(t, e.ino - 1))
              && InnerChecks(s, e) == TypesOf(t, Direct(t.inodes[e.ino - 1].ptr))
  {
    if LooksInto(s, e) {
      var ps := Direct(s.inodes[e.ino - 1].ptr);
      ShapeTypesOf(s, t, ps);
      TypesOfSited(t, ps);
    }
  }

  lemma EntryParts(s: State, k: nat, e: Entry, t1: State, t2: State, t3: State, f1: nat, f2: nat, f3: nat)
    requires Shaped(s) && k < |s.blocks| && BlockOk(s.blocks[k]) && e in Live(s.blocks[k]) && EntryChecked(s, e)
    requires Done(s, OuterChecks(k, e), t1, f1)
    requires Done(t1, BlockBits(Direct(s.inodes[e.ino].ptr)), t2, f2)
    requires Done(t2, InnerChecks(s, e), t3, f3)
    ensures Done(s, EntryChecks(s, k, e), t3, f1 + f2 + f3)
  {
    EntrySited(s, k, e);
    ThreeParts(s, OuterChecks(k, e), BlockBits(Direct(s.inodes[e.ino].ptr)), InnerChecks(s, e), t1, t2, t3, f1, f2, f3);
  }

  lemma ThreeParts(s: State, a: seq<Check>, b: seq<Check>, c: seq<Check>, t1: State, t2: State, t3: State,
                   f1: nat, f2: nat, f3: nat)
    requires AllFit(s, a + b + c) && Done(s, a, t1, f1) && Done(t1, b, t2, f2) && Done(t2, c, t3, f3)
    ensures Done(s, a + b + c, t3, f1 + f2 + f3)
  {
    assert a + b + c == a + (b + c) && c + [] == c;
    LeftStep(s, a + b + c, s, 0, a, b + c, t1, f1);
    LeftStep(s, a + b + c, t1, f1, b, c, t2, f2);
    LeftStep(s, a + b + c, t2, f1 + f2, c, [], t3, f3);
  }
}

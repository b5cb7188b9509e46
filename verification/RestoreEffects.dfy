/** The whole effect of a restore, of however many records, and when it succeeds. */
module RestoreEffects {
  import opened Options
  import opened Bytes
  import opened Records
  import opened DiskState
  import opened Directory
  import opened Restoration
  import opened RestoreProofs
  import opened Paths
  import opened Lookups
  import opened Commands
  import opened CommandSuccess

  ghost function InodeAt(s: State, k: nat, q: nat): int
    requires k < |s.blocks| && q + HEADER <= BLOCK_SIZE
  { Ino(s.blocks[k], q) - 1 }

  /** Inode `n` has a block in common with one of `ns`. */
  ghost predicate SharesBlock(s: State, n: nat, ns: set<nat>)
    requires n < |s.inodes|
  {
    exists m, p :: m in ns && m < |s.inodes| && p in Direct(s.inodes[m].ptr) && p in Direct(s.inodes[n].ptr)
                   && 0 < p <= |s.blockBits|
  }

  /** The hidden record at `q` has the name, and neither its inode nor a block of that is in use. */
  ghost predicate Unused(s: State, k: nat, q: nat, name: Name) {
    && k < |s.blocks| && q + HEADER <= BLOCK_SIZE && NameOf(s.blocks[k], q) == name
    && 0 < Ino(s.blocks[k], q) <= |s.inodes| && Ino(s.blocks[k], q) <= |s.inodeBits|
    && !s.inodeBits[Ino(s.blocks[k], q) - 1] && BlocksFree(s, Ino(s.blocks[k], q) - 1)
  }

  lemma MatchesIff(s: State, k: nat, q: nat, name: Name)
    ensures Matches(s, k, q, name) <==> Unused(s, k, q, name)
  {
  }

  /** It is unused, and the inodes `ns` have taken neither its inode nor a block of it. */
  ghost predicate StillFree(s: State, k: nat, q: nat, name: Name, ns: set<nat>) {
    && Unused(s, k, q, name) && InodeAt(s, k, q) !in ns && !SharesBlock(s, InodeAt(s, k, q), ns)
  }

  ghost predicate OfDirectory(s: State, k: nat, q: nat) {
    k < |s.blocks| && q + HEADER <= BLOCK_SIZE && FileType(s.blocks[k], q) == 2
  }

  /**
   * The hidden records that the pass takes, in order, if the inodes `ns` were taken before: those that
   * are still free when it comes to them.  The first one of a directory is the last, and not restored.
   */
  ghost function Takes(s: State, k: nat, hs: seq<nat>, name: Name, ns: set<nat>): seq<nat>
    decreases |hs|
  {
    if hs == [] then []
    else if !StillFree(s, k, hs[0], name, ns) then Takes(s, k, hs[1..], name, ns)
    else if OfDirectory(s, k, hs[0]) then [hs[0]]
    else [hs[0]] + Takes(s, k, hs[1..], name, ns + {InodeAt(s, k, hs[0])})
  }

  /** Block `b` + 1 belongs to one of the inodes `ns`. */
  ghost predicate BlockOfOne(s: State, ns: set<nat>, b: nat) {
    exists m :: m in ns && m < |s.inodes| && b + 1 in Direct(s.inodes[m].ptr)
  }

  /** Between `s` and `s'` the inodes `ns` came back, with their blocks; no other inode or bit changed. */
  ghost predicate CameBack(s: State, s': State, ns: set<nat>) {
    && |s'.inodes| == |s.inodes| && |s'.inodeBits| == |s.inodeBits| && |s'.blockBits| == |s.blockBits|
    && s'.usedDirs == s.usedDirs && s'.dataStart == s.dataStart
    && (forall m :: 0 <= m < |s.inodes| ==>
          s'.inodes[m] == if m !in ns then s.inodes[m]
                          else s.inodes[m].(dtime := 0, links := U16(s.inodes[m].links + 1)))
    && (forall m :: 0 <= m < |s.inodeBits| ==> (s'.inodeBits[m] <==> s.inodeBits[m] || m in ns))
    && (forall b :: 0 <= b < |s.blockBits| ==> (s'.blockBits[b] <==> s.blockBits[b] || BlockOfOne(s, ns, b)))
  }

  /** Only block `k` changed, and of a hidden record beyond `c` only its length. */
  ghost predicate SameAhead(s: State, s': State, k: nat, c: nat) {
    && k < |s.blocks| && |s'.blocks| == |s.blocks|
    && (forall p :: 0 <= p < |s.blocks| && p != k ==> s'.blocks[p] == s.blocks[p])
    && (forall q: nat :: c + HEADER <= q && q + HEADER <= BLOCK_SIZE ==>
          && Ino(s'.blocks[k], q) == Ino(s.blocks[k], q) && NameOf(s'.blocks[k], q) == NameOf(s.blocks[k], q)
          && FileType(s'.blocks[k], q) == FileType(s.blocks[k], q))
  }

  lemma BlocksLeft(s: State, s': State, n: nat, ns: set<nat>)
    requires CameBack(s, s', ns) && n < |s.inodes| && s'.inodes[n].ptr == s.inodes[n].ptr
    ensures BlocksFree(s', n) <==> BlocksFree(s, n) && !SharesBlock(s, n, ns)
  {
    forall p | p in Direct(s.inodes[n].ptr) && 0 < p <= |s.blockBits|
      ensures s'.blockBits[p - 1] <==> s.blockBits[p - 1] || BlockOfOne(s, ns, p - 1)
    {
    }
    if SharesBlock(s, n, ns) {
      var m, p :| m in ns && m < |s.inodes| && p in Direct(s.inodes[m].ptr) && p in Direct(s.inodes[n].ptr)
                  && 0 < p <= |s.blockBits|;
      assert BlockOfOne(s, ns, p - 1);
    }
  }

  lemma CandidateLeft(s: State, s': State, k: nat, c: nat, q: nat, name: Name, ns: set<nat>)
    requires |s.inodes| == |s.inodeBits| && CameBack(s, s', ns) && SameAhead(s, s', k, c)
    requires c + HEADER <= q && q + HEADER <= BLOCK_SIZE
    ensures Candidate(s', k, q, name)
       <==> Matches(s, k, q, name) && InodeAt(s, k, q) !in ns && !SharesBlock(s, InodeAt(s, k, q), ns)
  {
    if 0 < Ino(s.blocks[k], q) <= |s.inodes| && Ino(s.blocks[k], q) - 1 !in ns {
      BlocksLeft(s, s', Ino(s.blocks[k], q) - 1, ns);
    }
  }

  lemma StillFreeIs(s: State, s': State, k: nat, c: nat, q: nat, name: Name, ns: set<nat>)
    requires |s.inodes| == |s.inodeBits| && CameBack(s, s', ns) && SameAhead(s, s', k, c)
    requires c + HEADER <= q && q + HEADER <= BLOCK_SIZE
    ensures Candidate(s', k, q, name) <==> StillFree(s, k, q, name, ns)
  {
    MatchesIff(s, k, q, name);
    CandidateLeft(s, s', k, c, q, name, ns);
  }

  lemma TakenCameBack(s: State, s': State, r: State, n: nat, ns: set<nat>)
    requires CameBack(s, s', ns) && n < |s.inodes| == |s.inodeBits| && n !in ns && |s.blockBits| == |r.blockBits|
    requires |r.inodes| == |s.inodes| && r.usedDirs == s.usedDirs && r.dataStart == s.dataStart
    requires r.inodeBits == s'.inodeBits[n := true]
    requires forall m :: 0 <= m < |s.inodes| && m != n ==> r.inodes[m] == s'.inodes[m]
    requires r.inodes[n] == s'.inodes[n].(dtime := 0, links := U16(s'.inodes[n].links + 1))
    requires forall b :: 0 <= b < |s.blockBits| ==>
               (r.blockBits[b] <==> s'.blockBits[b] || b + 1 in Direct(s.inodes[n].ptr))
    ensures CameBack(s, r, ns + {n})
  {
    forall b | 0 <= b < |s.blockBits| ensures r.blockBits[b] <==> (s.blockBits[b] || BlockOfOne(s, ns + {n}, b)) {
      assert BlockOfOne(s, ns + {n}, b) <==> (BlockOfOne(s, ns, b) || b + 1 in Direct(s.inodes[n].ptr));
    }
  }

  lemma RelinkAhead(s: State, s': State, r: State, k: nat, c: nat, q: nat, end: nat)
    requires SameAhead(s, s', k, c) && c + HEADER <= q && q + MIN_SLOT <= end <= BLOCK_SIZE
    requires r.blocks == s'.blocks[k := Relink(s'.blocks[k], c, q, end)]
    ensures SameAhead(s, r, k, q)
  {
    var b, b' := s'.blocks[k], r.blocks[k];
    RelinkFrame(b, c, q, end);
    forall t: nat | q + HEADER <= t && t + HEADER <= BLOCK_SIZE
      ensures Ino(b', t) == Ino(b, t) && NameOf(b', t) == NameOf(b, t) && FileType(b', t) == FileType(b, t)
    {
      assert Agree(b, b', t, BLOCK_SIZE);
    }
  }

  lemma ReviveCameBack(s: State, s': State, k: nat, c: nat, q: nat, end: nat, name: Name, ns: set<nat>)
    returns (n: nat, r: State)
    requires Shaped(s) && CameBack(s, s', ns) && SameAhead(s, s', k, c) && Shaped(s')
    requires c + HEADER <= q && q + MIN_SLOT <= end <= BLOCK_SIZE && InodeAt(s, k, q) !in ns
    requires Candidate(s', k, q, name)
    ensures n == InodeAt(s, k, q) && r == Revive(s', k, c, q, end)
    ensures Shaped(r) && CameBack(s, r, ns + {n}) && SameAhead(s, r, k, q)
  {
    r, n := Revive(s', k, c, q, end), Ino(s.blocks[k], q) - 1;
    assert s'.inodes[n] == s.inodes[n];
    TakenCameBack(s, s', r, n, ns);
    RelinkAhead(s, s', r, k, c, q, end);
  }

  /** The last record that the pass takes is one of a directory. */
  ghost predicate GivesUp(s: State, k: nat, qs: seq<nat>) { qs != [] && OfDirectory(s, k, qs[|qs| - 1]) }

  /** The inodes of the records that the pass takes, but for the last if it is one of a directory. */
  ghost function Restored(s: State, k: nat, qs: seq<nat>): set<nat>
    requires k < |s.blocks|
  {
    set q | q in qs && q + HEADER <= BLOCK_SIZE && !OfDirectory(s, k, q) && Ino(s.blocks[k], q) > 0
      :: Ino(s.blocks[k], q) - 1
  }

  lemma RestoredMore(s: State, k: nat, q: nat, qs: seq<nat>)
    requires k < |s.blocks| && q + HEADER <= BLOCK_SIZE && Ino(s.blocks[k], q) > 0
    ensures Restored(s, k, [q] + qs)
         == if FileType(s.blocks[k], q) == FT_DIR then Restored(s, k, qs)
            else {Ino(s.blocks[k], q) - 1} + Restored(s, k, qs)
  {
  }

  lemma GivesUpMore(s: State, k: nat, q: nat, qs: seq<nat>)
    requires k < |s.blocks| && q + HEADER <= BLOCK_SIZE && FileType(s.blocks[k], q) != FT_DIR
    ensures GivesUp(s, k, [q] + qs) <==> GivesUp(s, k, qs)
  {
    if qs != [] { assert ([q] + qs)[|qs|] == qs[|qs| - 1]; }
  }

  /** Where the pass ends that goes on from `s'`, which `ns` have come back in, and takes the records `qs`. */
  ghost predicate Passed(s: State, s': State, k: nat, qs: seq<nat>, ns: set<nat>, done: bool, r: Scan)
    requires k < |s.blocks|
  {
    && CameBack(s, r.s, ns + Restored(s, k, qs)) && (r.stopped <==> GivesUp(s, k, qs))
    && (r.done <==> done || Restored(s, k, qs) != {}) && (Restored(s, k, qs) == {} ==> r.s == s')
  }

  lemma PassedMore(s: State, s': State, s1: State, k: nat, q: nat, qs: seq<nat>, ns: set<nat>, n: nat, done: bool,
                   r: Scan)
    requires k < |s.blocks| && q + HEADER <= BLOCK_SIZE && FileType(s.blocks[k], q) != FT_DIR
    requires Ino(s.blocks[k], q) == n + 1 && Passed(s, s1, k, qs, ns + {n}, true, r)
    ensures Passed(s, s', k, [q] + qs, ns, done, r)
  {
    RestoredMore(s, k, q, qs);
    GivesUpMore(s, k, q, qs);
    assert ns + {n} + Restored(s, k, qs) == ns + Restored(s, k, [q] + qs);
  }

  lemma PassedNone(s: State, s': State, k: nat, ns: set<nat>, done: bool)
    requires k < |s.blocks| && CameBack(s, s', ns)
    ensures Passed(s, s', k, [], ns, done, Scan(s', done, false))
  {
    assert Restored(s, k, []) == {} && ns + {} == ns;
  }

  lemma PassedDirectory(s: State, s': State, k: nat, q: nat, ns: set<nat>, done: bool)
    requires k < |s.blocks| && CameBack(s, s', ns) && OfDirectory(s, k, q)
    ensures Passed(s, s', k, [q], ns, done, Scan(s', done, true))
  {
    assert Restored(s, k, [q]) == {} && ns + {} == ns;
  }

  /** The pass takes the records that are free when it comes to them. */
  lemma {:induction false} PassTakes(s: State, s': State, k: nat, c: nat, hs: seq<nat>, end: nat, name: Name,
                                     ns: set<nat>, done: bool)
    requires Shaped(s) && Shaped(s') && CameBack(s, s', ns) && SameAhead(s, s', k, c) && Ascending(c, hs, end)
    ensures Passed(s, s', k, Takes(s, k, hs, name, ns), ns, done, ScanSlack(s', k, c, hs, end, name, done))
    decreases |hs|
  {
    if hs == [] {
      PassedNone(s, s', k, ns, done);
    } else {
      StillFreeIs(s, s', k, c, hs[0], name, ns);
      if !Candidate(s', k, hs[0], name) {
        PassTakes(s, s', k, hs[0], hs[1..], end, name, ns, done);
      } else if FileType(s.blocks[k], hs[0]) == FT_DIR {
        PassedDirectory(s, s', k, hs[0], ns, done);
      } else {
        var n, s1 := ReviveCameBack(s, s', k, c, hs[0], end, name, ns);
        PassTakes(s, s1, k, hs[0], hs[1..], end, name, ns + {n}, true);
        PassedMore(s, s', s1, k, hs[0], Takes(s, k, hs[1..], name, ns + {n}), ns, n, done,
                   ScanSlack(s1, k, hs[0], hs[1..], end, name, true));
      }
    }
  }

  // ---------- the command ----------

  /** restore of `path` is to look for `name` in `d`. */
  ghost predicate RestoreTo(s: State, path: Path, d: nat, name: Name)
    requires Navigable(s)
  {
    Absolute(path) && ByPath(s, path) == None && ByPath(s, FilePath(path)) == Some(d) && name == FileName(path)
  }

  lemma RestoreTargetIff(s: State, path: Path, d: nat, name: Name)
    requires Navigable(s)
    ensures RestoreTarget(s, path) == Some((d, name)) <==> RestoreTo(s, path, d, name)
  {
  }

  /** The block, and the records hidden in it that are taken: those behind the first live record with a match. */
  ghost function TakenIn(s: State, d: nat, name: Name): Option<(nat, seq<nat>)>
    requires DirOk(s, d)
  {
    match SiteOf(s, Direct(s.inodes[d].ptr), name)
    case None => None
    case Some((k, o)) =>
      if k < |s.blocks| && RecOk(s.blocks[k], o) then Some((k, Takes(s, k, Slack(s.blocks[k], o), name, {}))) else None
  }

  /** Some record is restored. */
  ghost predicate BringsBack(s: State, d: nat, name: Name) {
    && d < |s.inodes| && IsDir(s.inodes[d].mode) && DirOk(s, d)
    && match TakenIn(s, d, name)
       case None => false
       case Some((k, qs)) => k < |s.blocks| && Restored(s, k, qs) != {}
  }

  /** And none of a directory is come to. */
  ghost predicate BringsBackAll(s: State, d: nat, name: Name) {
    BringsBack(s, d, name) && !GivesUp(s, TakenIn(s, d, name).value.0, TakenIn(s, d, name).value.1)
  }

  /** The inodes that come back. */
  ghost function BroughtBack(s: State, d: nat, name: Name): set<nat> {
    if BringsBack(s, d, name) then Restored(s, TakenIn(s, d, name).value.0, TakenIn(s, d, name).value.1) else {}
  }

  /** What a restore in `d` does and reports. */
  ghost predicate RestoreDoes(s: State, d: nat, name: Name, r: Scan) {
    && (r.done && !r.stopped <==> BringsBackAll(s, d, name)) && (r.s == s <==> !BringsBack(s, d, name))
    && CameBack(s, r.s, BroughtBack(s, d, name))
  }

  lemma RestoreAtIff(s: State, d: nat, name: Name)
    requires Shaped(s) && d < |s.inodes| && (IsDir(s.inodes[d].mode) ==> DirOk(s, d) && DirSlacksOk(s, d))
    ensures RestoreDoes(s, d, name, RestoreDirEntry(s, d, name))
  {
    if IsDir(s.inodes[d].mode) {
      var j := SiteOfIs(s, Direct(s.inodes[d].ptr), name);
      var site := SiteOf(s, Direct(s.inodes[d].ptr), name);
      if site.Some? { RestoreAtSite(s, d, name, site.value.0, site.value.1, RestoreDirEntry(s, d, name)); }
    }
  }

  lemma PassAtSite(s: State, k: nat, o: nat, name: Name) returns (qs: seq<nat>, r: Scan)
    requires Shaped(s) && k < |s.blocks| && RecOk(s.blocks[k], o)
    ensures r == ScanAt(s, k, o, name) && qs == Takes(s, k, Slack(s.blocks[k], o), name, {})
    ensures Passed(s, s, k, qs, {}, false, r)
  {
    var hs := Slack(s.blocks[k], o);
    qs, r := Takes(s, k, hs, name, {}), ScanAt(s, k, o, name);
    PassTakes(s, s, k, o, hs, o + RecLen(s.blocks[k], o), name, {}, false);
  }

  lemma PassChanged(s: State, k: nat, hs: seq<nat>, name: Name, r: Scan)
    requires Shaped(s) && k < |s.blocks| && Passed(s, s, k, Takes(s, k, hs, name, {}), {}, false, r)
    ensures Restored(s, k, Takes(s, k, hs, name, {})) != {} ==> r.s != s
  {
    TakesMatch(s, k, hs, name, {});
    SomeChanged(s, r.s, k, Takes(s, k, hs, name, {}), name);
  }

  lemma RestoreAtSite(s: State, d: nat, name: Name, k: nat, o: nat, r: Scan)
    requires Shaped(s) && d < |s.inodes| && IsDir(s.inodes[d].mode) && DirOk(s, d)
    requires SiteOf(s, Direct(s.inodes[d].ptr), name) == Some((k, o)) && k < |s.blocks| && RecOk(s.blocks[k], o)
    requires r == ScanAt(s, k, o, name)
    ensures RestoreDoes(s, d, name, r)
  {
    var qs, r' := PassAtSite(s, k, o, name);
    PassChanged(s, k, Slack(s.blocks[k], o), name, r);
    PassedDoes(s, d, name, k, qs, r);
  }

  lemma PassedDoes(s: State, d: nat, name: Name, k: nat, qs: seq<nat>, r: Scan)
    requires d < |s.inodes| && IsDir(s.inodes[d].mode) && DirOk(s, d) && TakenIn(s, d, name) == Some((k, qs))
    requires k < |s.blocks| && Passed(s, s, k, qs, {}, false, r) && (Restored(s, k, qs) != {} ==> r.s != s)
    ensures RestoreDoes(s, d, name, r)
  {
    assert {} + Restored(s, k, qs) == Restored(s, k, qs);
  }

  lemma {:induction false} TakesMatch(s: State, k: nat, hs: seq<nat>, name: Name, ns: set<nat>)
    ensures forall q :: q in Takes(s, k, hs, name, ns) ==> Matches(s, k, q, name)
    decreases |hs|
  {
    if hs != [] {
      MatchesIff(s, k, hs[0], name);
      TakesMatch(s, k, hs[1..], name, ns);
      if StillFree(s, k, hs[0], name, ns) { TakesMatch(s, k, hs[1..], name, ns + {InodeAt(s, k, hs[0])}); }
    }
  }

  lemma SomeChanged(s: State, r: State, k: nat, qs: seq<nat>, name: Name)
    requires k < |s.blocks| && CameBack(s, r, {} + Restored(s, k, qs))
    requires forall q :: q in qs ==> Matches(s, k, q, name)
    ensures Restored(s, k, qs) != {} ==> r != s
  {
    if n :| n in Restored(s, k, qs) {
      assert n < |s.inodes| && r.inodes[n].links != s.inodes[n].links;
    }
  }

  // ---------- the bytes ----------

  ghost predicate SameByte(bs: seq<Block>, bs': seq<Block>, b: nat, i: nat) {
    b < |bs| && b < |bs'| && i < BLOCK_SIZE && bs'[b][i] == bs[b][i]
  }

  /** From `bs` to `bs'` no byte changed but length fields of the records `qs` of block `k`. */
  ghost predicate OnlyLengths(bs: seq<Block>, bs': seq<Block>, k: nat, qs: seq<nat>) {
    && |bs'| == |bs|
    && forall b: nat, i: nat :: b < |bs| && i < BLOCK_SIZE ==> SameByte(bs, bs', b, i) || (b == k && LengthField(qs, i))
  }

  ghost predicate LengthField(qs: seq<nat>, i: nat) { exists q :: q in qs && (i == q + 4 || i == q + 5) }

  lemma FieldOf(qs: seq<nat>, q: nat, i: nat)
    requires q in qs && (i == q + 4 || i == q + 5)
    ensures LengthField(qs, i)
  {
  }

  lemma RelinkedByte(b: Block, o: nat, q: nat, end: nat, i: nat)
    requires o + HEADER <= q && q + MIN_SLOT <= end <= BLOCK_SIZE && i < BLOCK_SIZE
    requires Relink(b, o, q, end)[i] != b[i]
    ensures if i < q then i == o + 4 || i == o + 5 else i == q + 4 || i == q + 5
  {
    Put16Is(b, o + 4, q - o);
    Put16Is(Put16(b, o + 4, q - o), q + 4, end - q);
  }

  lemma ReviveLengths(s: State, k: nat, o: nat, q: nat, end: nat, hs: seq<nat>)
    requires k < |s.blocks| && o + HEADER <= q && q + MIN_SLOT <= end <= BLOCK_SIZE
    requires 0 < Ino(s.blocks[k], q) <= |s.inodes| == |s.inodeBits|
    ensures OnlyLengths(s.blocks, Revive(s, k, o, q, end).blocks, k, [o, q] + hs)
  {
    var b, b' := s.blocks[k], Relink(s.blocks[k], o, q, end);
    assert ([o, q] + hs)[0] == o && ([o, q] + hs)[1] == q;
    forall i: nat | i < BLOCK_SIZE && b'[i] != b[i] ensures LengthField([o, q] + hs, i) {
      RelinkedByte(b, o, q, end, i);
      FieldOf([o, q] + hs, if i < q then o else q, i);
    }
  }

  lemma LengthsThen(bs: seq<Block>, bs1: seq<Block>, bs2: seq<Block>, k: nat, o: nat, hs: seq<nat>)
    requires hs != [] && OnlyLengths(bs, bs1, k, [o, hs[0]] + hs[1..]) && OnlyLengths(bs1, bs2, k, [hs[0]] + hs[1..])
    ensures OnlyLengths(bs, bs2, k, [o] + hs)
  {
    assert [o, hs[0]] + hs[1..] == [o] + hs && [hs[0]] + hs[1..] == hs;
    forall b: nat, i: nat | b < |bs| && i < BLOCK_SIZE
      ensures SameByte(bs, bs2, b, i) || (b == k && LengthField([o] + hs, i))
    {
      assert SameByte(bs, bs1, b, i) || (b == k && LengthField([o, hs[0]] + hs[1..], i));
      assert SameByte(bs1, bs2, b, i) || (b == k && LengthField([hs[0]] + hs[1..], i));
      if !SameByte(bs1, bs2, b, i) { LengthsMore(o, hs, i); }
    }
  }

  lemma LengthsMore(o: nat, hs: seq<nat>, i: nat)
    requires LengthField(hs, i)
    ensures LengthField([o] + hs, i)
  {
    var q :| q in hs && (i == q + 4 || i == q + 5);
    assert q in [o] + hs;
  }

  lemma {:induction false} PassLengths(s: State, k: nat, o: nat, hs: seq<nat>, end: nat, name: Name, done: bool)
    requires k < |s.blocks| && |s.inodes| == |s.inodeBits| && Ascending(o, hs, end)
    ensures OnlyLengths(s.blocks, ScanSlack(s, k, o, hs, end, name, done).s.blocks, k, [o] + hs)
    decreases |hs|
  {
    if hs != [] {
      assert [o, hs[0]] + hs[1..] == [o] + hs;
      if !Candidate(s, k, hs[0], name) {
        PassLengths(s, k, hs[0], hs[1..], end, name, done);
        LengthsThen(s.blocks, s.blocks, ScanSlack(s, k, o, hs, end, name, done).s.blocks, k, o, hs);
      } else if FileType(s.blocks[k], hs[0]) != FT_DIR {
        var s1 := Revive(s, k, o, hs[0], end);
        ReviveLengths(s, k, o, hs[0], end, hs[1..]);
        PassLengths(s1, k, hs[0], hs[1..], end, name, true);
        LengthsThen(s.blocks, s1.blocks, ScanSlack(s, k, o, hs, end, name, done).s.blocks, k, o, hs);
      }
    }
  }

  /** Byte `i` is in the length of a record on the chain, or of one hidden behind that. */
  ghost predicate LengthIn(b: Block, i: nat) {
    exists o: nat :: RecOk(b, o) && Chain(b, 0, o) && LengthField([o] + Slack(b, o), i)
  }

  /** A restore changes no byte but lengths of one live record and of records hidden behind it. */
  lemma RestoreBytes(s: State, d: nat, name: Name, b: nat, i: nat)
    requires Shaped(s) && d < |s.inodes| && (IsDir(s.inodes[d].mode) ==> DirOk(s, d) && DirSlacksOk(s, d))
    requires b < |s.blocks| && i < 1024
    ensures var r := RestoreDirEntry(s, d, name).s;
            |r.blocks| == |s.blocks| && (r.blocks[b][i] != s.blocks[b][i] ==> LengthIn(s.blocks[b], i))
  {
    if IsDir(s.inodes[d].mode) {
      var j := SiteOfIs(s, Direct(s.inodes[d].ptr), name);
      var site := SiteOf(s, Direct(s.inodes[d].ptr), name);
      if site.Some? { SiteBytes(s, site.value.0, site.value.1, name, b, i); }
    }
  }

  lemma SiteBytes(s: State, k: nat, o: nat, name: Name, b: nat, i: nat)
    requires k < |s.blocks| && |s.inodes| == |s.inodeBits| && RecOk(s.blocks[k], o) && Chain(s.blocks[k], 0, o)
    requires b < |s.blocks| && i < BLOCK_SIZE
    ensures var r := ScanAt(s, k, o, name).s;
            |r.blocks| == |s.blocks| && (r.blocks[b][i] != s.blocks[b][i] ==> LengthIn(s.blocks[b], i))
  {
    PassLengths(s, k, o, Slack(s.blocks[k], o), o + RecLen(s.blocks[k], o), name, false);
    assert SameByte(s.blocks, ScanAt(s, k, o, name).s.blocks, b, i)
           || (b == k && LengthField([o] + Slack(s.blocks[k], o), i));
  }

  // ---------- when it succeeds ----------

  ghost predicate RestoreSucceeds(s: State, path: Path, d: nat, name: Name)
    requires Navigable(s)
  { RestoreTo(s, path, d, name) && BringsBackAll(s, d, name) }

  lemma RestoreStepIff(s: State, path: Path, d: nat, name: Name)
    requires Sane(s) && RestoreReady(s, path) && RestoreTo(s, path, d, name)
    ensures RestoreStep(s, path).1 <==> RestoreSucceeds(s, path, d, name)
    ensures RestoreStep(s, path).0 == s <==> !BringsBack(s, d, name)
    ensures CameBack(s, RestoreStep(s, path).0, BroughtBack(s, d, name))
  {
    RestoreTargetIff(s, path, d, name);
    RestoreAtIff(s, d, name);
  }

  lemma RestoreRefused(s: State, path: Path)
    requires Navigable(s) && forall d: nat, name :: !RestoreTo(s, path, d, name)
    ensures RestoreTarget(s, path) == None
  {
    if RestoreTarget(s, path).Some? {
      var (d, name) := RestoreTarget(s, path).value;
      RestoreTargetIff(s, path, d, name);
    }
  }

  /**
   * restore succeeds if and only if its path leads nowhere, its directory part to a directory, and of the
   * records hidden behind the first live one with a match one can be taken, and none of a directory is.
   */
  lemma RestoreSucceedsIff(s: State, path: Path)
    requires Sane(s) && RestoreReady(s, path)
    ensures RestoreStep(s, path).1 <==> exists d: nat, name :: RestoreSucceeds(s, path, d, name)
    ensures RestoreStep(s, path).0 == s
       <==> forall d: nat, name :: RestoreTo(s, path, d, name) ==> !BringsBack(s, d, name)
  {
    if d: nat, name :| RestoreTo(s, path, d, name) {
      RestoreStepIff(s, path, d, name);
      forall e: nat, m | RestoreTo(s, path, e, m)
        ensures RestoreSucceeds(s, path, e, m) <==> RestoreStep(s, path).1
        ensures BringsBack(s, e, m) <==> RestoreStep(s, path).0 != s
      {
        RestoreStepIff(s, path, e, m);
      }
    } else {
      RestoreRefused(s, path);
    }
  }
}
